/** The replies of whole sessions, as the client reads them. */
module Framing {
  import opened Text
  import opened Body
  import opened Commands
  import opened Session
  import opened Runs
  import opened Replies

  /** The handler's replies are single lines with codes of three digits from 200 up. */
  ghost predicate PoliteHandler(h: Handler) {
    forall calls :: h(calls).Some? ==> ThreeDigits(h(calls).value.code) && OneLine(TextOf(h(calls).value.message))
  }

  lemma DomainOneLine(domain: Bytes)
    requires ValidDomain(domain)
    ensures OneLine(domain)
  {
    assert forall i :: 0 <= i < |domain| ==> !IsControl(domain[i]);
  }

  /** The texts that name the host, and the client too. */
  lemma HostTexts(hostname: Bytes, domain: Bytes)
    requires OneLine(hostname)
    ensures OneLine(hostname + " ESMTP")
    ensures ValidDomain(domain) ==> OneLine(hostname + " Hello " + domain)
  {
    OneLineConcat(hostname, " ESMTP");
    OneLineConcat(hostname, " Hello ");
    if ValidDomain(domain) {
      DomainOneLine(domain);
      OneLineConcat(hostname + " Hello ", domain);
    }
    hide ValidDomain;
  }

  /** Every text of the server's own is a single line. */
  lemma ServerTextOneLine(cfg: Config, m: Message)
    requires !m.Phrase? && OneLine(cfg.hostname)
    requires m.Banner? || m.Welcome? || m.Host? ==> m.hostname == cfg.hostname
    requires m.Welcome? ==> ValidDomain(m.domain)
    ensures OneLine(TextOf(m))
  {
    hide OneLine;
    hide ValidDomain;
    if Anonymous(m) {
      hide TextOf;
      AnonymousText(m);
    } else {
      HostTexts(cfg.hostname, if m.Welcome? then m.domain else "");
    }
  }

  /** The response makes a framed reply. */
  predicate Polite(r: Response) {
    Framed(Reply(r.code, [r.message]))
  }

  lemma PoliteAnswer(cfg: Config, h: Handler, calls: seq<Call>)
    requires PoliteHandler(h) && OneLine(cfg.hostname)
    ensures Polite(OrBadSequence(h(calls)))
  {
    AnonymousText(BadSequence);
    hide TextOf;
    hide OneLine;
  }

  /** Every text of the server's own with a reply code makes a framed reply. */
  lemma OwnTextsPolite()
    ensures forall code, m :: ThreeDigits(code) && Anonymous(m) ==> Polite(Response(code, m))
    ensures forall code, m :: ThreeDigits(code) && Anonymous(m) ==> Framed(Reply(code, [m]))
  {
    hide TextOf;
    hide OneLine;
    forall code, m: Message | ThreeDigits(code) && Anonymous(m)
      ensures Polite(Response(code, m)) && Framed(Reply(code, [m]))
    {
      AnonymousText(m);
    }
  }

  lemma MailPolite(cfg: Config, h: Handler, s: Session, args: Option<MailArgs>)
    requires PoliteHandler(h) && OneLine(cfg.hostname)
    ensures Polite(Mail(cfg, h, s, args).1) && Mail(cfg, h, s, args).0.replies == s.replies
  {
    OwnTextsPolite();
    if args.Some? {
      PoliteAnswer(cfg, h, Asked(Opened(s, args.value), MailFrom(Opened(s, args.value).tx)).calls);
    }
    hide TextOf;
    hide PoliteHandler;
    hide Polite;
  }

  lemma RcptPolite(cfg: Config, h: Handler, s: Session, to: Bytes)
    requires PoliteHandler(h) && OneLine(cfg.hostname)
    ensures Polite(Rcpt(cfg, h, s, to).1) && Rcpt(cfg, h, s, to).0.replies == s.replies
  {
    OwnTextsPolite();
    PoliteAnswer(cfg, h, Asked(s, RcptTo(s.tx.(rcpts := s.tx.rcpts + [to]))).calls);
    hide TextOf;
    hide PoliteHandler;
    hide Polite;
  }

  lemma DeliverPolite(cfg: Config, h: Handler, s: Session, body: Bytes)
    requires PoliteHandler(h) && OneLine(cfg.hostname)
    ensures Polite(Deliver(cfg, h, s, body).1) && Deliver(cfg, h, s, body).0.replies == s.replies
  {
    PoliteAnswer(cfg, h, Asked(s, Call.Data(s.tx, body)).calls);
    hide TextOf;
    hide PoliteHandler;
    hide Polite;
  }

  lemma DataBodyPolite(cfg: Config, h: Handler, s: Session, res: BodyResult)
    requires PoliteHandler(h) && OneLine(cfg.hostname)
    ensures Polite(DataBody(cfg, h, s, res).1) && DataBody(cfg, h, s, res).0.replies == s.replies
  {
    OwnTextsPolite();
    if res.Body? {
      DeliverPolite(cfg, h, s, res.bytes);
    }
    hide TextOf;
    hide PoliteHandler;
    hide Polite;
    hide Deliver;
  }

  /** DATA that goes on to read a body. */
  predicate ReachesBody(s: Session, cmd: Cmd) {
    cmd.DATA? && !s.inBdat && s.phase >= PHASE_RCPT && s.tx.accepted != []
  }

  /** The replies that a command adds: one, and before it a 354 when DATA reads a body. */
  ghost predicate AnswersOnce(s: Session, cmd: Cmd, after: Session) {
    exists r :: Framed(r)
      && after.replies == s.replies + (if ReachesBody(s, cmd) then [Reply(354, [GoAhead])] else []) + [r]
  }

  lemma AnswersWith(s: Session, cmd: Cmd, after: Session, resp: Response)
    requires Polite(resp)
    requires after.replies == s.replies + (if ReachesBody(s, cmd) then [Reply(354, [GoAhead])] else [])
                              + [Reply(resp.code, [resp.message])]
    ensures AnswersOnce(s, cmd, after)
  {
    assert Framed(Reply(resp.code, [resp.message]));
  }

  lemma DataAnswers(cfg: Config, h: Handler, s: Session, net: Net)
    requires PoliteHandler(h) && OneLine(cfg.hostname) && !s.inBdat
    ensures AnswersOnce(s, DATA, Replied(DataCmd(cfg, h, s, net, ReadBody(net.wire, cfg.maxMessageSize))))
  {
    var read := ReadBody(net.wire, cfg.maxMessageSize);
    var after := Replied(DataCmd(cfg, h, s, net, read));
    OwnTextsPolite();
    hide Polite;
    hide TextOf;
    hide ReadBody;
    hide PoliteHandler;
    assert s.replies + [] == s.replies;
    if s.phase < PHASE_RCPT {
      AnswersWith(s, DATA, after, Response(503, RcptRequired));
    } else if s.tx.accepted == [] {
      AnswersWith(s, DATA, after, Response(554, NoRecipients));
    } else {
      var begun := Said(s, Some(Reply(354, [GoAhead])));
      DataBodyPolite(cfg, h, begun, read.0);
      AnswersWith(s, DATA, after, DataBody(cfg, h, begun, read.0).1);
    }
    hide DataBody;
    hide AnswersOnce;
  }

  lemma AppendAnswers(cfg: Config, h: Handler, s: Session, net: Net, bytes: Bytes, c: Chunk)
    requires PoliteHandler(h) && OneLine(cfg.hostname)
    ensures AnswersOnce(s, BDAT(Some(c)), Replied(Append(cfg, h, s, net, bytes, c.last)))
  {
    var cmd := BDAT(Some(c));
    var after := Replied(Append(cfg, h, s, net, bytes, c.last));
    var body := s.bodyBuf + bytes;
    OwnTextsPolite();
    DeliverPolite(cfg, h, s.(bodyBuf := body), body);
    hide Polite;
    hide TextOf;
    hide PoliteHandler;
    assert s.replies + [] == s.replies;
    if c.last {
      AnswersWith(s, cmd, after, Deliver(cfg, h, s.(bodyBuf := body), body).1);
    } else {
      AnswersWith(s, cmd, after, Response(250, Okay));
    }
    hide Deliver;
    hide AnswersOnce;
  }

  lemma BdatAnswers(cfg: Config, h: Handler, s: Session, net: Net, chunk: Option<Chunk>)
    requires PoliteHandler(h) && OneLine(cfg.hostname)
    ensures AnswersOnce(s, BDAT(chunk), Replied(BdatCmd(cfg, h, s, net, chunk)))
  {
    var cmd := BDAT(chunk);
    var after := Replied(BdatCmd(cfg, h, s, net, chunk));
    OwnTextsPolite();
    hide Polite;
    hide TextOf;
    hide PoliteHandler;
    assert s.replies + [] == s.replies;
    match chunk {
      case None => AnswersWith(s, cmd, after, Response(501, BadBdatSyntax));
      case Some(c) =>
        var refusal := BdatRefusal(cfg, s, c.size);
        var (bytes, wire) := ReadChunk(net.wire, c.size);
        if refusal.Some? {
          AnswersWith(s, cmd, after, refusal.value);
        } else if bytes.None? {
          AnswersWith(s, cmd, after, Response(451, ChunkFailed));
        } else {
          AppendAnswers(cfg, h, s, net.(wire := wire), bytes.value, c);
        }
    }
    hide Append;
    hide AnswersOnce;
    hide ReadChunk;
  }

  lemma SecureAnswers(cfg: Config, s: Session, net: Net)
    requires OneLine(cfg.hostname)
    ensures AnswersOnce(s, STARTTLS, Replied(Secure(cfg, s, net)))
  {
    var after := Replied(Secure(cfg, s, net));
    OwnTextsPolite();
    hide Polite;
    hide TextOf;
    assert s.replies + [] == s.replies;
    if s.tls {
      AnswersWith(s, STARTTLS, after, Response(503, TlsActive));
    } else if s.tx.helo == "" {
      AnswersWith(s, STARTTLS, after, Response(503, GreetingRequired));
    } else if !cfg.hasTLSConfig {
      AnswersWith(s, STARTTLS, after, Response(502, TlsUnsupported));
    } else {
      AnswersWith(s, STARTTLS, after, Response(220, TlsReady));
    }
    hide AnswersOnce;
  }

  /** The EHLO reply is framed whatever extensions it lists. */
  lemma EhloFramed(cfg: Config, s: Session, domain: Bytes)
    requires OneLine(cfg.hostname) && ValidDomain(domain)
    ensures Framed(Reply(250, EhloLines(cfg, s, domain)))
    ensures Framed(Reply(250, [Host(cfg.hostname)]))
  {
    forall m | m in EhloLines(cfg, s, domain)
      ensures OneLine(TextOf(m))
    {
      ServerTextOneLine(cfg, m);
    }
    ServerTextOneLine(cfg, Host(cfg.hostname));
    hide TextOf;
    hide OneLine;
  }

  lemma GreetFramed(cfg: Config, h: Handler, s: Session, domain: Bytes, extended: bool)
    requires PoliteHandler(h) && OneLine(cfg.hostname)
    ensures Framed(Greet(cfg, h, s, domain, extended).1)
    ensures Greet(cfg, h, s, domain, extended).0.replies == s.replies
  {
    OwnTextsPolite();
    PoliteAnswer(cfg, h, Asked(s, Hello(NewTx(s).(helo := domain))).calls);
    if ValidDomain(domain) {
      EhloFramed(cfg, s, domain);
    }
    hide EhloLines;
    hide TextOf;
    hide OneLine;
    hide PoliteHandler;
    hide ValidDomain;
  }

  /** The reply to a command that takes nothing over is framed, and the only one. */
  predicate OneReply(s: Session, o: Outcome) {
    o.reply.Some? && o.s.replies == s.replies && Framed(o.reply.value)
  }

  lemma GreetingReply(cfg: Config, h: Handler, s: Session, net: Net, cmd: Cmd)
    requires PoliteHandler(h) && OneLine(cfg.hostname) && (cmd.HELO? || cmd.EHLO?)
    ensures OneReply(s, Exec(cfg, h, s, net, cmd))
  {
    OwnTextsPolite();
    GreetFramed(cfg, h, s, cmd.domain, cmd.EHLO?);
    hide Framed;
    hide Greet;
  }

  lemma EnvelopeReply(cfg: Config, h: Handler, s: Session, net: Net, cmd: Cmd)
    requires PoliteHandler(h) && OneLine(cfg.hostname) && (cmd.MAIL? || cmd.RCPT?)
    ensures OneReply(s, Exec(cfg, h, s, net, cmd))
  {
    OwnTextsPolite();
    if cmd.MAIL? {
      MailPolite(cfg, h, s, cmd.args);
    } else {
      RcptPolite(cfg, h, s, cmd.to);
    }
    hide Framed;
    hide Mail;
    hide Rcpt;
  }

  lemma SimpleReply(cfg: Config, h: Handler, s: Session, net: Net, cmd: Cmd)
    requires !Takeover(cmd) && !cmd.HELO? && !cmd.EHLO? && !cmd.MAIL? && !cmd.RCPT?
    ensures OneReply(s, Exec(cfg, h, s, net, cmd))
  {
    OwnTextsPolite();
    hide Framed;
    var r := Exec(cfg, h, s, net, cmd).reply.value;
    assert r == Reply(r.code, [r.lines[0]]) && Anonymous(r.lines[0]) && ThreeDigits(r.code);
  }

  lemma PlainAnswers(cfg: Config, h: Handler, s: Session, net: Net, cmd: Cmd)
    requires PoliteHandler(h) && OneLine(cfg.hostname) && !Takeover(cmd)
    ensures AnswersOnce(s, cmd, Replied(Exec(cfg, h, s, net, cmd)))
  {
    hide Exec;
    hide Framed;
    if cmd.HELO? || cmd.EHLO? {
      GreetingReply(cfg, h, s, net, cmd);
    } else if cmd.MAIL? || cmd.RCPT? {
      EnvelopeReply(cfg, h, s, net, cmd);
    } else {
      SimpleReply(cfg, h, s, net, cmd);
    }
    var o := Exec(cfg, h, s, net, cmd);
    assert s.replies + [] == s.replies;
    assert Replied(o).replies == s.replies + [o.reply.value];
  }

  /** Every command is answered with exactly one reply, and a 354 before it when DATA reads a
      body; and all of them are framed. */
  lemma ExecAnswers(cfg: Config, h: Handler, s: Session, net: Net, cmd: Cmd)
    requires PoliteHandler(h) && OneLine(cfg.hostname)
    ensures AnswersOnce(s, cmd, Replied(Exec(cfg, h, s, net, cmd)))
  {
    if !Takeover(cmd) {
      PlainAnswers(cfg, h, s, net, cmd);
    } else if s.inBdat && !AllowedDuringBdat(cmd) {
      OwnTextsPolite();
      assert s.replies + [] == s.replies;
      AnswersWith(s, cmd, Replied(Exec(cfg, h, s, net, cmd)), Response(503, BadSequence));
    } else if cmd.DATA? {
      DataAnswers(cfg, h, s, net);
    } else if cmd.BDAT? {
      BdatAnswers(cfg, h, s, net, cmd.chunk);
    } else {
      SecureAnswers(cfg, s, net);
    }
    hide AnswersOnce;
    hide DataCmd;
    hide BdatCmd;
    hide Secure;
    hide Polite;
    hide TextOf;
    hide OneLine;
  }

  /** How many of the commands read a DATA body. */
  function BodyReads(steps: seq<Step>): nat {
    if steps == [] then 0
    else (if ReachesBody(steps[0].before, steps[0].cmd) then 1 else 0) + BodyReads(steps[1..])
  }

  lemma {:induction false} RunAnswers(cfg: Config, h: Handler, s: Session, net: Net)
    requires PoliteHandler(h) && OneLine(cfg.hostname) && AllFramed(s.replies)
    ensures var end := Serve(cfg, h, s, net).s;
            var steps := Steps(cfg, h, s, net);
            AllFramed(end.replies) && |end.replies| == |s.replies| + |steps| + BodyReads(steps)
    decreases NetSize(net)
  {
    hide OneLine;
    hide PoliteHandler;
    ReadCmdShrinks(net);
    var (cmd, after) := ReadCmd(net);
    hide ReadCmd;
    if cmd.Some? {
      ExecNet(cfg, h, s, after, cmd.value);
      ExecAnswers(cfg, h, s, after, cmd.value);
      hide Exec;
      var o := Exec(cfg, h, s, after, cmd.value);
      GoAheadFramed();
      hide Framed;
      assert AllFramed(Replied(o).replies);
      var step := Step(s, after, cmd.value, o);
      assert Steps(cfg, h, s, net)[0] == step;
      if o.ended {
        assert Steps(cfg, h, s, net)[1..] == [];
      } else {
        assert Steps(cfg, h, s, net)[1..] == Steps(cfg, h, Replied(o), o.net);
        RunAnswers(cfg, h, Replied(o), o.net);
      }
    }
  }

  lemma GoAheadFramed()
    ensures Framed(Reply(354, [GoAhead]))
  {
  }

  /** The bytes a session writes decode, with the client's reply reader, into the banner, one
      reply for every command in order, and one 354 for every DATA that reads a body; and they
      decode into no other codes. */
  lemma SessionRepliesDecode(cfg: Config, h: Handler, tls: bool, net: Net, rest: Bytes, wants: seq<int>)
    requires PoliteHandler(h) && OneLine(cfg.hostname)
    ensures var replies := Serve(cfg, h, Start(cfg, tls), net).s.replies;
            var steps := Steps(cfg, h, Start(cfg, tls), net);
            && |replies| == 1 + |steps| + BodyReads(steps)
            && (|wants| == |replies| ==>
                  ExpectAll(RenderAll(replies) + rest, wants) == if wants == Codes(replies) then Some(rest) else None)
  {
    var s := Start(cfg, tls);
    ServerTextOneLine(cfg, Banner(cfg.hostname));
    assert AllFramed(s.replies);
    hide OneLine;
    hide TextOf;
    hide PoliteHandler;
    RunAnswers(cfg, h, s, net);
    hide Serve;
    hide Steps;
    hide Framed;
    hide ExpectAll;
    hide RenderAll;
    var replies := Serve(cfg, h, s, net).s.replies;
    if |wants| == |replies| {
      RepliesDecodeUniquely(replies, rest, wants);
    }
  }
}

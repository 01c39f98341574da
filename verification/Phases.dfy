/** What a session does not depend on. The two phases before MAIL cannot be told apart, so a
    greeting acts like RSET (section 4.1.4 of RFC 5321); and no reply given makes a difference. */
module Phases {
  import opened Text
  import opened Lines
  import opened Body
  import opened Commands
  import opened Session

  /** Equal up to the difference between the two phases before MAIL. */
  predicate Alike(a: Session, b: Session) {
    a == b.(phase := a.phase) && (a.phase == b.phase || (a.phase < PHASE_MAIL && b.phase < PHASE_MAIL))
  }

  /** Nothing a client or a handler can observe of two outcomes differs. */
  predicate AlikeOutcome(a: Outcome, b: Outcome) {
    Alike(a.s, b.s) && a.net == b.net && a.reply == b.reply && a.ended == b.ended
  }

  lemma BdatAlike(cfg: Config, h: Handler, a: Session, b: Session, net: Net, chunk: Option<Chunk>)
    requires Alike(a, b)
    ensures AlikeOutcome(BdatCmd(cfg, h, a, net, chunk), BdatCmd(cfg, h, b, net, chunk))
  {
  }

  lemma DataAlike(cfg: Config, h: Handler, a: Session, b: Session, net: Net, read: (BodyResult, Wire))
    requires Alike(a, b)
    ensures AlikeOutcome(DataCmd(cfg, h, a, net, read), DataCmd(cfg, h, b, net, read))
  {
  }

  lemma MailAlike(cfg: Config, h: Handler, a: Session, b: Session, args: Option<MailArgs>)
    requires Alike(a, b)
    ensures Alike(Mail(cfg, h, a, args).0, Mail(cfg, h, b, args).0)
    ensures Mail(cfg, h, a, args).1 == Mail(cfg, h, b, args).1
  {
  }

  lemma RcptAlike(cfg: Config, h: Handler, a: Session, b: Session, to: Bytes)
    requires Alike(a, b)
    ensures Alike(Rcpt(cfg, h, a, to).0, Rcpt(cfg, h, b, to).0)
    ensures Rcpt(cfg, h, a, to).1 == Rcpt(cfg, h, b, to).1
  {
  }

  lemma GreetAlike(cfg: Config, h: Handler, a: Session, b: Session, domain: Bytes, extended: bool)
    requires Alike(a, b)
    ensures Alike(Greet(cfg, h, a, domain, extended).0, Greet(cfg, h, b, domain, extended).0)
    ensures Greet(cfg, h, a, domain, extended).1 == Greet(cfg, h, b, domain, extended).1
  {
  }

  lemma SecureAlike(cfg: Config, a: Session, b: Session, net: Net)
    requires Alike(a, b)
    ensures AlikeOutcome(Secure(cfg, a, net), Secure(cfg, b, net))
  {
  }

  lemma EndTxAlike(a: Session, b: Session, phase: nat)
    requires Alike(a, b)
    ensures Alike(EndTx(a, phase), EndTx(b, phase))
  {
  }

  lemma EnvelopeAlike(cfg: Config, h: Handler, a: Session, b: Session, net: Net, cmd: Cmd)
    requires Alike(a, b) && (cmd.HELO? || cmd.EHLO? || cmd.MAIL? || cmd.RCPT?)
    ensures AlikeOutcome(Exec(cfg, h, a, net, cmd), Exec(cfg, h, b, net, cmd))
  {
    EndTxAlike(a, b, PHASE_HELO);
    assert a.inBdat == b.inBdat;
    hide Alike;
    hide EndTx;
    hide Greet;
    hide Mail;
    hide Rcpt;
    match cmd {
      case HELO(domain) => GreetAlike(cfg, h, a, b, domain, false);
      case EHLO(domain) => GreetAlike(cfg, h, a, b, domain, true);
      case MAIL(args) => MailAlike(cfg, h, a, b, args);
      case RCPT(to) => RcptAlike(cfg, h, a, b, to);
      case _ =>
    }
  }

  lemma TakeoverAlike(cfg: Config, h: Handler, a: Session, b: Session, net: Net, cmd: Cmd)
    requires Alike(a, b) && Takeover(cmd)
    ensures AlikeOutcome(Exec(cfg, h, a, net, cmd), Exec(cfg, h, b, net, cmd))
  {
    EndTxAlike(a, b, PHASE_HELO);
    assert a.inBdat == b.inBdat;
    hide Alike;
    hide EndTx;
    hide Secure;
    hide DataCmd;
    hide BdatCmd;
    hide ReadBody;
    match cmd {
      case STARTTLS => SecureAlike(cfg, a, b, net);
      case DATA => DataAlike(cfg, h, a, b, net, ReadBody(net.wire, cfg.maxMessageSize));
      case BDAT(chunk) => BdatAlike(cfg, h, a, b, net, chunk);
      case _ =>
    }
  }

  lemma ExecAlike(cfg: Config, h: Handler, a: Session, b: Session, net: Net, cmd: Cmd)
    requires Alike(a, b)
    ensures AlikeOutcome(Exec(cfg, h, a, net, cmd), Exec(cfg, h, b, net, cmd))
  {
    if Takeover(cmd) {
      TakeoverAlike(cfg, h, a, b, net, cmd);
      hide Exec;
    } else if cmd.HELO? || cmd.EHLO? || cmd.MAIL? || cmd.RCPT? {
      EnvelopeAlike(cfg, h, a, b, net, cmd);
      hide Exec;
    } else {
      EndTxAlike(a, b, PHASE_HELO);
      EndTxAlike(a, b, PHASE_INIT);
      hide EndTx;
    }
  }

  /** On every later input, two alike sessions make the same callbacks, give the same replies,
      write the same records and leave the same bytes unread. */
  lemma {:induction false} ServeAlike(cfg: Config, h: Handler, a: Session, b: Session, net: Net)
    requires Alike(a, b)
    ensures Alike(Serve(cfg, h, a, net).s, Serve(cfg, h, b, net).s)
    ensures Serve(cfg, h, a, net).net == Serve(cfg, h, b, net).net
    decreases NetSize(net)
  {
    ReadCmdShrinks(net);
    var (cmd, after) := ReadCmd(net);
    if cmd.Some? {
      ExecNet(cfg, h, a, after, cmd.value);
      ExecAlike(cfg, h, a, b, after, cmd.value);
      var oa, ob := Exec(cfg, h, a, after, cmd.value), Exec(cfg, h, b, after, cmd.value);
      if !oa.ended {
        ServeAlike(cfg, h, Replied(oa), Replied(ob), oa.net);
      }
    }
  }

  function Greeting(domain: Bytes, extended: bool): Cmd {
    if extended then EHLO(domain) else HELO(domain)
  }

  /** The session with another greeting, and nothing else changed. */
  function Renamed(s: Session, domain: Bytes): Session {
    s.(tx := s.tx.(helo := domain))
  }

  /** After a greeting that is accepted outside a BDAT sequence, the session goes on exactly as
      after RSET with the new greeting; the handler was asked once. A greeting that is not
      accepted changes nothing but the histories. */
  lemma GreetingActsAsReset(cfg: Config, h: Handler, s: Session, net: Net, domain: Bytes, extended: bool, later: Net)
    requires !s.inBdat
    ensures var o := Exec(cfg, h, s, net, Greeting(domain, extended));
            var reset := Replied(Exec(cfg, h, s, net, RSET));
            if o.reply.value.code == 250 then
              var renamed := Renamed(reset, domain).(calls := Replied(o).calls, replies := Replied(o).replies);
              && Replied(o).calls == s.calls + [Hello(NewTx(s).(helo := domain))]
              && Alike(Serve(cfg, h, Replied(o), later).s, Serve(cfg, h, renamed, later).s)
              && Serve(cfg, h, Replied(o), later).net == Serve(cfg, h, renamed, later).net
            else o.s == s.(calls := o.s.calls)
  {
    var o := Exec(cfg, h, s, net, Greeting(domain, extended));
    var reset := Replied(Exec(cfg, h, s, net, RSET));
    if o.reply.value.code == 250 {
      var renamed := Renamed(reset, domain).(calls := Replied(o).calls, replies := Replied(o).replies);
      ServeAlike(cfg, h, Replied(o), renamed, later);
    }
  }

  // ---------------------------------------------------------------- earlier replies

  /** The session, with other replies before its own. */
  function After(earlier: seq<Reply>, s: Session): Session {
    s.(replies := earlier + s.replies)
  }

  lemma AfterIs(earlier: seq<Reply>, s: Session)
    ensures After(earlier, s) == s.(replies := earlier + s.replies)
  {
  }

  lemma SaidAfter(earlier: seq<Reply>, s: Session, reply: Option<Reply>)
    ensures Said(After(earlier, s), reply) == After(earlier, Said(s, reply))
  {
    if reply.Some? {
      assert earlier + s.replies + [reply.value] == earlier + (s.replies + [reply.value]);
    }
  }

  lemma GreetAfter(cfg: Config, h: Handler, earlier: seq<Reply>, s: Session, domain: Bytes, extended: bool)
    ensures var (after, reply) := Greet(cfg, h, s, domain, extended);
            Greet(cfg, h, After(earlier, s), domain, extended) == (After(earlier, after), reply)
  {
  }

  lemma MailAfter(cfg: Config, h: Handler, earlier: seq<Reply>, s: Session, args: Option<MailArgs>)
    ensures var (after, resp) := Mail(cfg, h, s, args);
            Mail(cfg, h, After(earlier, s), args) == (After(earlier, after), resp)
  {
  }

  lemma RcptAfter(cfg: Config, h: Handler, earlier: seq<Reply>, s: Session, to: Bytes)
    ensures var (after, resp) := Rcpt(cfg, h, s, to);
            Rcpt(cfg, h, After(earlier, s), to) == (After(earlier, after), resp)
  {
  }

  lemma DataBodyAfter(cfg: Config, h: Handler, earlier: seq<Reply>, s: Session, res: BodyResult)
    ensures var (after, resp) := DataBody(cfg, h, s, res);
            DataBody(cfg, h, After(earlier, s), res) == (After(earlier, after), resp)
  {
  }

  lemma DataAfter(cfg: Config, h: Handler, earlier: seq<Reply>, s: Session, net: Net, read: (BodyResult, Wire))
    ensures var o := DataCmd(cfg, h, s, net, read);
            DataCmd(cfg, h, After(earlier, s), net, read) == o.(s := After(earlier, o.s))
  {
    SaidAfter(earlier, s, Some(Reply(354, [GoAhead])));
    DataBodyAfter(cfg, h, earlier, Said(s, Some(Reply(354, [GoAhead]))), read.0);
    hide DataBody;
    hide Said;
  }

  lemma AppendAfter(cfg: Config, h: Handler, earlier: seq<Reply>, s: Session, net: Net, bytes: Bytes, last: bool)
    ensures var o := Append(cfg, h, s, net, bytes, last);
            Append(cfg, h, After(earlier, s), net, bytes, last) == o.(s := After(earlier, o.s))
  {
  }

  lemma BdatAfter(cfg: Config, h: Handler, earlier: seq<Reply>, s: Session, net: Net, chunk: Option<Chunk>)
    ensures var o := BdatCmd(cfg, h, s, net, chunk);
            BdatCmd(cfg, h, After(earlier, s), net, chunk) == o.(s := After(earlier, o.s))
  {
    if chunk.Some? {
      var (bytes, wire) := ReadChunk(net.wire, chunk.value.size);
      if bytes.Some? {
        AppendAfter(cfg, h, earlier, s, net.(wire := wire), bytes.value, chunk.value.last);
      }
    }
    assert EndTx(After(earlier, s), PHASE_HELO) == After(earlier, EndTx(s, PHASE_HELO));
    hide EndTx;
    hide After;
    hide Append;
    hide ReadChunk;
    hide WireTake;
    hide Wrap64;
  }

  lemma SecureAfter(cfg: Config, earlier: seq<Reply>, s: Session, net: Net)
    ensures var o := Secure(cfg, s, net);
            Secure(cfg, After(earlier, s), net) == o.(s := After(earlier, o.s))
  {
    SaidAfter(earlier, s, Some(Reply(220, [TlsReady])));
    hide Said;
  }

  lemma ExecAfter(cfg: Config, h: Handler, earlier: seq<Reply>, s: Session, net: Net, cmd: Cmd)
    ensures var o := Exec(cfg, h, s, net, cmd);
            Exec(cfg, h, After(earlier, s), net, cmd) == o.(s := After(earlier, o.s))
  {
    hide Greet;
    hide Mail;
    hide Rcpt;
    hide Secure;
    hide DataCmd;
    hide BdatCmd;
    hide ReadBody;
    match cmd {
      case HELO(domain) => GreetAfter(cfg, h, earlier, s, domain, false);
      case EHLO(domain) => GreetAfter(cfg, h, earlier, s, domain, true);
      case STARTTLS => SecureAfter(cfg, earlier, s, net);
      case MAIL(args) => MailAfter(cfg, h, earlier, s, args);
      case RCPT(to) => RcptAfter(cfg, h, earlier, s, to);
      case DATA => DataAfter(cfg, h, earlier, s, net, ReadBody(net.wire, cfg.maxMessageSize));
      case BDAT(chunk) => BdatAfter(cfg, h, earlier, s, net, chunk);
      case _ =>
    }
  }

  /** What a session does never depends on the replies it has given. */
  lemma {:induction false} ServeAfter(cfg: Config, h: Handler, earlier: seq<Reply>, s: Session, net: Net)
    ensures var f := Serve(cfg, h, s, net);
            Serve(cfg, h, After(earlier, s), net) == Final(After(earlier, f.s), f.net)
    decreases NetSize(net)
  {
    hide After;
    ReadCmdShrinks(net);
    var (cmd, after) := ReadCmd(net);
    hide ReadCmd;
    if cmd.Some? {
      ExecNet(cfg, h, s, after, cmd.value);
      ExecAfter(cfg, h, earlier, s, after, cmd.value);
      hide Exec;
      var o := Exec(cfg, h, s, after, cmd.value);
      SaidAfter(earlier, o.s, o.reply);
      if !o.ended {
        ServeAfter(cfg, h, earlier, Replied(o), o.net);
      }
    }
  }
}

/** What each command answers, when it asks the handler, and what it leaves behind; stated
    field by field, without the functions of the session machine. */
module Answers {
  import opened Text
  import opened Lines
  import opened Body
  import opened Commands
  import opened Session
  import opened Runs

  // ---------------------------------------------------------------- the handler's answer

  /** What the client is told when the handler answers the last of `calls`: exactly the handler's
      code and text, or 503 when there is no answer. */
  function Told(h: Handler, calls: seq<Call>): Reply {
    match h(calls)
    case None => Reply(503, [BadSequence])
    case Some(r) => Reply(r.code, [r.message])
  }

  /** A callback's answer is the command's answer; only an accepted greeting has a text of its own. */
  predicate PassedOn(h: Handler, s: Session, o: Outcome) {
    o.s.calls != s.calls ==>
      && |o.s.calls| == |s.calls| + 1 && o.s.calls[..|s.calls|] == s.calls
      && if o.s.calls[|s.calls|].Hello? && Told(h, o.s.calls).code == 250
         then o.reply.Some? && o.reply.value.code == 250
         else o.reply == Some(Told(h, o.s.calls))
  }

  lemma GreetPassesOn(cfg: Config, h: Handler, s: Session, net: Net, domain: Bytes, extended: bool)
    ensures var (after, reply) := Greet(cfg, h, s, domain, extended);
            PassedOn(h, s, Outcome(after, net, Some(reply), false))
  {
    hide ValidDomain;
    hide EhloLines;
  }

  lemma MailPassesOn(cfg: Config, h: Handler, s: Session, net: Net, args: Option<MailArgs>)
    ensures var (after, resp) := Mail(cfg, h, s, args); PassedOn(h, s, Talk(after, net, resp.code, resp.message))
  {
    hide CheckSize;
  }

  lemma RcptPassesOn(cfg: Config, h: Handler, s: Session, net: Net, to: Bytes)
    ensures var (after, resp) := Rcpt(cfg, h, s, to); PassedOn(h, s, Talk(after, net, resp.code, resp.message))
  {
    hide ValidAddress;
  }

  lemma DeliverPassesOn(cfg: Config, h: Handler, s: Session, body: Bytes)
    ensures var (after, resp) := Deliver(cfg, h, s, body);
            && after.calls == s.calls + [Call.Data(s.tx, body)]
            && Reply(resp.code, [resp.message]) == Told(h, after.calls)
  {
  }

  lemma DataPassesOn(cfg: Config, h: Handler, s: Session, net: Net, read: (BodyResult, Wire))
    ensures PassedOn(h, s, DataCmd(cfg, h, s, net, read))
  {
    hide Contains8Bit;
    hide DeclaresEightBit;
    if read.0.Body? {
      DeliverPassesOn(cfg, h, Said(s, Some(Reply(354, [GoAhead]))), read.0.bytes);
    }
    hide Deliver;
  }

  lemma BdatPassesOn(cfg: Config, h: Handler, s: Session, net: Net, chunk: Option<Chunk>)
    ensures PassedOn(h, s, BdatCmd(cfg, h, s, net, chunk))
  {
    hide WireTake;
    hide OverLimit;
    if chunk.Some? && ReadChunk(net.wire, chunk.value.size).0.Some? {
      var body := s.bodyBuf + ReadChunk(net.wire, chunk.value.size).0.value;
      DeliverPassesOn(cfg, h, s.(bodyBuf := body), body);
    }
    hide Deliver;
    hide ReadChunk;
  }

  lemma ExecPassesOn(cfg: Config, h: Handler, s: Session, net: Net, cmd: Cmd)
    ensures PassedOn(h, s, Exec(cfg, h, s, net, cmd))
  {
    match cmd {
      case HELO(domain) => GreetPassesOn(cfg, h, s, net, domain, false);
      case EHLO(domain) => GreetPassesOn(cfg, h, s, net, domain, true);
      case MAIL(args) => MailPassesOn(cfg, h, s, net, args);
      case RCPT(to) => RcptPassesOn(cfg, h, s, net, to);
      case DATA => DataPassesOn(cfg, h, s, net, ReadBody(net.wire, cfg.maxMessageSize));
      case BDAT(chunk) => BdatPassesOn(cfg, h, s, net, chunk);
      case _ =>
    }
    hide PassedOn;
    hide Greet;
    hide Mail;
    hide Rcpt;
    hide DataCmd;
    hide BdatCmd;
    hide ReadBody;
    assert forall o: Outcome :: o.s.calls == s.calls ==> PassedOn(h, s, o) by {
      NoCallPassesOn(h, s);
    }
  }

  lemma NoCallPassesOn(h: Handler, s: Session)
    ensures forall o: Outcome :: o.s.calls == s.calls ==> PassedOn(h, s, o)
  {
  }

  /** In every run every answer of the handler reaches the client as it is. */
  lemma EveryAnswerPassedOn(cfg: Config, h: Handler, s: Session, net: Net)
    ensures forall step :: step in Steps(cfg, h, s, net) ==> PassedOn(h, step.before, step.out)
  {
    EveryStep(cfg, h, s, net, s => true);
    forall step | step in Steps(cfg, h, s, net)
      ensures PassedOn(h, step.before, step.out)
    {
      ExecPassesOn(cfg, h, step.before, step.net, step.cmd);
    }
    hide PassedOn;
  }

  /** Every Data callback of a session is answered to the command that makes it: with 250 if and
      only if the handler took the message, and otherwise with the handler's refusal. */
  lemma DataAnswered(cfg: Config, h: Handler, s: Session, net: Net, j: nat) returns (i: nat)
    requires |s.calls| <= j < |Serve(cfg, h, s, net).s.calls| && Serve(cfg, h, s, net).s.calls[j].Data?
    ensures var steps, calls := Steps(cfg, h, s, net), Serve(cfg, h, s, net).s.calls;
            && i < |steps| && |steps[i].before.calls| == j
            && steps[i].out.reply == Some(Told(h, calls[..j + 1]))
            && (steps[i].out.reply.value.code == 250
                <==> h(calls[..j + 1]).Some? && h(calls[..j + 1]).value.code == 250)
  {
    i := DataHasStep(cfg, h, s, net, j);
    EveryAnswerPassedOn(cfg, h, s, net);
    CallsSoFar(cfg, h, s, net, i);
    hide Serve;
    hide Steps;
    var steps, calls := Steps(cfg, h, s, net), Serve(cfg, h, s, net).s.calls;
    assert steps[i] in steps;
    var out := steps[i].out.s;
    assert out.calls == calls[..j + 1];
  }

  /** The callbacks made up to a step are the first ones of the session. */
  lemma {:induction false} CallsSoFar(cfg: Config, h: Handler, s: Session, net: Net, i: nat)
    requires i < |Steps(cfg, h, s, net)|
    ensures Steps(cfg, h, s, net)[i].out.s.calls <= Serve(cfg, h, s, net).s.calls
    decreases NetSize(net)
  {
    hide Serve;
    hide Steps;
    RunUnfolds(cfg, h, s, net);
    var (cmd, after) := ReadCmd(net);
    ReadCmdShrinks(net);
    hide ReadCmd;
    var o := Exec(cfg, h, s, after, cmd.value);
    ExecNet(cfg, h, s, after, cmd.value);
    hide Exec;
    if !o.ended {
      if i == 0 {
        ServeGrows(cfg, h, Replied(o), o.net);
      } else {
        CallsSoFar(cfg, h, Replied(o), o.net, i - 1);
      }
    }
  }

  // ---------------------------------------------------------------- no transaction left

  /** A transaction without an envelope, for a connection in the given state. */
  function BlankTx(tls: bool, helo: Bytes): Tx {
    Tx(tls, helo, "", map[], [], [], [])
  }

  /** `after` holds nothing of the transaction of `s`: no envelope, no buffer, no BDAT sequence,
      and MAIL has to come next; greeting, TLS and records are as they were. */
  predicate TransactionOver(s: Session, after: Session) {
    && after.tx == BlankTx(s.tls, s.tx.helo)
    && after.bodyBuf == "" && !after.inBdat && after.phase < PHASE_MAIL
    && after.tls == s.tls
  }

  /** The command is refused: one reply, and nothing else changes. */
  predicate Refused(s: Session, net: Net, o: Outcome, code: int, message: Message) {
    o == Outcome(s, net, Some(Reply(code, [message])), false)
  }

  /** The command is refused and the transaction is over; no callback and no record is made. */
  predicate Ended(s: Session, o: Outcome, code: int, message: Message) {
    && TransactionOver(s, o.s) && o.s.calls == s.calls && o.s.postcats == s.postcats
    && o.reply == Some(Reply(code, [message])) && !o.ended
  }

  /** RSET ends the transaction, in every session. */
  lemma RsetClears(cfg: Config, h: Handler, s: Session, net: Net)
    ensures var o := Exec(cfg, h, s, net, RSET);
            Ended(s, o, 250, Okay) && o.net == net && o.s.replies == s.replies
  {
  }

  /** What is not allowed in an open BDAT sequence ends the transaction, whatever it is. */
  lemma SequenceBroken(cfg: Config, h: Handler, s: Session, net: Net, cmd: Cmd)
    requires s.inBdat && !cmd.BDAT? && !cmd.RSET? && !cmd.NOOP? && !cmd.QUIT?
    ensures var o := Exec(cfg, h, s, net, cmd);
            && o.net == net && o.s.replies == s.replies
            && if cmd.TOOLONG? then Ended(s, o, 500, LineTooLong) else Ended(s, o, 503, BadSequence)
  {
  }

  /** The commands that change nothing. */
  lemma NothingChanges(cfg: Config, h: Handler, s: Session, net: Net, cmd: Cmd)
    ensures var o := Exec(cfg, h, s, net, cmd);
            && (cmd.NOOP? ==> Refused(s, net, o, 250, Okay))
            && (cmd.QUIT? ==> o == Outcome(s, net, Some(Reply(221, [Bye])), true))
            && (!s.inBdat && cmd.TOOLONG? ==> Refused(s, net, o, 500, LineTooLong))
            && (!s.inBdat && cmd.HELP? ==> Refused(s, net, o, 214, HelpText))
            && (!s.inBdat && cmd.VRFY? ==> Refused(s, net, o, 252, VrfyDisabled))
            && (!s.inBdat && cmd.UNKNOWN? ==> Refused(s, net, o, 500, NotRecognised))
  {
  }

  // ---------------------------------------------------------------- greeting and TLS

  predicate PrintableDomain(d: Bytes) {
    0 < |d| <= 255 && forall i :: 0 <= i < |d| ==> d[i] >= ' ' && d[i] != '\U{007F}'
  }

  /** A greeting is handed on if and only if its domain is printable and of 1 to 255 bytes. An
      accepted one starts a blank transaction with the new name; any other changes nothing. */
  lemma GreetingAnswers(cfg: Config, h: Handler, s: Session, net: Net, domain: Bytes, extended: bool)
    requires !s.inBdat
    ensures var o := Exec(cfg, h, s, net, if extended then EHLO(domain) else HELO(domain));
            var asked := s.calls + [Hello(BlankTx(s.tls, domain))];
            && o.net == net && !o.ended && o.s.replies == s.replies && o.s.postcats == s.postcats && o.s.tls == s.tls
            && if !PrintableDomain(domain) then
                 Refused(s, net, o, 501, if domain == "" then DomainMissing(extended) else DomainInvalid(extended))
               else
                 && o.s.calls == asked
                 && if Told(h, asked).code == 250 then
                      && o.s.tx == BlankTx(s.tls, domain)
                      && o.s.bodyBuf == "" && !o.s.inBdat && o.s.phase < PHASE_MAIL
                      && o.reply == Some(Reply(250, if extended then EhloLines(cfg, s, domain)
                                                    else [Host(cfg.hostname)]))
                    else o.s == s.(calls := asked) && o.reply == Some(Told(h, asked))
  {
    hide EhloLines;
    assert ValidDomain(domain) && domain != "" <==> PrintableDomain(domain) by {
      assert forall c :: !IsControl(c) <==> c >= ' ' && c != '\U{007F}';
    }
    hide ValidDomain;
  }

  /** What EHLO offers, each once: STARTTLS exactly when there is a configuration for it and the
      connection is not protected yet, and the size limit exactly when there is one. */
  lemma EhloOffers(cfg: Config, s: Session, domain: Bytes)
    ensures var lines := EhloLines(cfg, s, domain);
            var tls, sized := cfg.hasTLSConfig && !s.tls, cfg.maxMessageSize > 0;
            && |lines| == 6 + (if tls then 1 else 0) + (if sized then 1 else 0)
            && lines[0] == Welcome(cfg.hostname, domain)
            && forall m :: m in lines[1..] <==>
                 || m.Pipelining? || m.EightBitMime? || m.EnhancedStatusCodes? || m.SmtpUtf8? || m.Chunking?
                 || (tls && m.StartTls?) || (sized && m == SizeLimit(cfg.maxMessageSize))
  {
    var lines := EhloLines(cfg, s, domain);
    var tls := if cfg.hasTLSConfig && !s.tls then [StartTls] else [];
    var size := if cfg.maxMessageSize > 0 then [SizeLimit(cfg.maxMessageSize)] else [];
    var always := [Pipelining, EightBitMime, EnhancedStatusCodes, SmtpUtf8, Chunking];
    assert lines == [Welcome(cfg.hostname, domain)] + always + tls + size;
    hide EhloLines;
    assert lines[1..] == always + tls + size;
  }

  /** STARTTLS: refused, or failing with the connection, or starting over on the new stream with
      nothing kept of what was said before, the greeting included. */
  lemma StartTlsAnswers(cfg: Config, h: Handler, s: Session, net: Net)
    requires !s.inBdat
    ensures var o := Exec(cfg, h, s, net, STARTTLS);
            && !o.ended && o.s.calls == s.calls && o.s.postcats == s.postcats
            && if s.tls then Refused(s, net, o, 503, TlsActive)
               else if s.tx.helo == "" then Refused(s, net, o, 503, GreetingRequired)
               else if !cfg.hasTLSConfig then Refused(s, net, o, 502, TlsUnsupported)
               else
                 && o.reply.None? && o.s.replies == s.replies + [Reply(220, [TlsReady])]
                 && match net.upgrade
                    case None => o.net.wire == [] && o.s == s.(replies := o.s.replies)
                    case Some(w) =>
                      && o.net.wire == w && o.s.tls && o.s.tx == BlankTx(true, "")
                      && o.s.bodyBuf == "" && !o.s.inBdat && o.s.phase < PHASE_MAIL
  {
  }

  // ---------------------------------------------------------------- envelope

  /** The SIZE parameter is missing or has no limit to meet, or is a number within the limit. */
  predicate SizeAdmitted(cfg: Config, params: map<Bytes, Bytes>) {
    cfg.maxMessageSize > 0 && "SIZE" in params ==>
      ParseInt64(params["SIZE"]).Some? && 0 <= ParseInt64(params["SIZE"]).value <= cfg.maxMessageSize
  }

  /** What refuses a MAIL before its argument is looked at. */
  function MailBarrier(cfg: Config, s: Session): Option<Response> {
    if cfg.requireTLS && !s.tls then Some(Response(530, TlsRequired))
    else if s.tx.helo == "" then Some(Response(503, GreetingRequired))
    else if s.phase >= PHASE_MAIL then Some(Response(503, MailAlreadySent))
    else None
  }

  /** MAIL is handed on if and only if nothing bars it, its argument parses, and its size is
      admitted; a refused one opens nothing. */
  lemma MailAnswers(cfg: Config, h: Handler, s: Session, net: Net, args: Option<MailArgs>)
    requires !s.inBdat
    ensures var o := Exec(cfg, h, s, net, MAIL(args));
            && o.net == net && !o.ended
            && (MailBarrier(cfg, s).Some? ==>
                  Refused(s, net, o, MailBarrier(cfg, s).value.code, MailBarrier(cfg, s).value.message))
            && (MailBarrier(cfg, s).None? && args.None? ==> Refused(s, net, o, 501, BadMailSyntax))
            && (MailBarrier(cfg, s).None? && args.Some? ==>
                  var tx := BlankTx(s.tx.tls, s.tx.helo).(mailFrom := args.value.from, params := args.value.params);
                  var asked := s.calls + [MailFrom(tx)];
                  && o.s.tx == tx && o.s.bodyBuf == ""
                  && if SizeAdmitted(cfg, args.value.params) then
                       && o.s.calls == asked && o.reply == Some(Told(h, asked))
                       && o.s.phase == if Told(h, asked).code == 250 then PHASE_MAIL else s.phase
                     else
                       && o.s.calls == s.calls && o.s.phase == s.phase
                       && o.reply == Some(if ParseInt64(args.value.params["SIZE"]).Some?
                                             && ParseInt64(args.value.params["SIZE"]).value >= 0
                                          then Reply(552, [MessageSize]) else Reply(501, [BadSizeParam])))
  {
    hide ParseInt64;
  }

  predicate GoodRecipient(a: Bytes) {
    |a| <= 320 && forall i :: 0 <= i < |a| ==> (a[i] >= ' ' || a[i] == '\t') && a[i] != '\U{007F}'
  }

  lemma GoodRecipientMeans(a: Bytes)
    ensures ValidAddress(a) <==> GoodRecipient(a)
  {
    assert forall c :: !(IsControl(c) && c != '\t') <==> (c >= ' ' || c == '\t') && c != '\U{007F}';
    if ValidAddress(a) {
      assert forall i :: 0 <= i < |a| ==> !(IsControl(a[i]) && a[i] != '\t');
    }
  }

  /** RCPT is handed on if and only if a MAIL is open, the recipient is good and within the limit;
      it is then accepted or rejected, as the handler says. */
  lemma RcptAnswers(cfg: Config, h: Handler, s: Session, net: Net, to: Bytes)
    requires !s.inBdat
    ensures var o := Exec(cfg, h, s, net, RCPT(to));
            var listed := s.tx.(rcpts := s.tx.rcpts + [to]);
            var asked := s.calls + [RcptTo(listed)];
            && o.net == net && !o.ended
            && if s.tx.helo == "" then Refused(s, net, o, 503, GreetingRequired)
               else if s.phase < PHASE_MAIL then Refused(s, net, o, 503, MailRequired)
               else if !GoodRecipient(to) then Refused(s, net, o, 501, BadRecipient)
               else if 0 < cfg.maxRecipients <= |s.tx.rcpts| then
                 Refused(s.(tx := listed), net, o, 452, TooManyRecipients)
               else
                 && o.reply == Some(Told(h, asked))
                 && o.s == s.(calls := asked, phase := PHASE_RCPT,
                              tx := if Told(h, asked).code == 250 then listed.(accepted := s.tx.accepted + [to])
                                    else listed.(rejected := s.tx.rejected + [Rejected(to, Told(h, asked))]))
  {
    GoodRecipientMeans(to);
    hide ValidAddress;
    hide GoodRecipient;
  }

  function Rejected(to: Bytes, r: Reply): Rejection
    requires r.lines != []
  {
    Rejection(to, Response(r.code, r.lines[0]))
  }

  // ---------------------------------------------------------------- message

  /** Who may send DATA or BDAT: 503 before any RCPT was handed on, 554 when none was accepted. */
  function DataBarrier(s: Session): Option<Response> {
    if s.phase < PHASE_RCPT then Some(Response(503, RcptRequired))
    else if s.tx.accepted == [] then Some(Response(554, NoRecipients))
    else None
  }

  /** Where 8-bit content was announced. */
  predicate EightBitAnnounced(params: map<Bytes, Bytes>) {
    "SMTPUTF8" in params || ("BODY" in params && Upper(params["BODY"]) == "8BITMIME")
  }

  predicate SevenBit(b: Bytes) {
    forall i :: 0 <= i < |b| ==> b[i] <= '\U{007F}'
  }

  /** The answer to DATA without a callback, by what its body read came to. */
  function BodyRefusal(res: BodyResult): Reply {
    match res
    case BodyLineTooLong => Reply(500, [LineTooLong])
    case BodyTooLarge => Reply(552, [MessageSize])
    case BodyBroken => Reply(451, [ReadFailed])
    case Body(_) => Reply(550, [EightBitData])
  }

  lemma UpperMime()
    ensures Upper("8BITMIME") == "8BITMIME"
  {
  }

  lemma AnnouncedMeans(params: map<Bytes, Bytes>, body: Bytes)
    ensures DeclaresEightBit(params) <==> EightBitAnnounced(params)
    ensures Contains8Bit(body) <==> !SevenBit(body)
  {
    UpperMime();
    hide Upper;
  }

  lemma BodyAnswers(cfg: Config, h: Handler, s: Session, net: Net, res: BodyResult, wire: Wire)
    requires DataBarrier(s).None?
    ensures var o := DataCmd(cfg, h, s, net, (res, wire));
            && TransactionOver(s, o.s) && !o.ended
            && o.net == net.(wire := wire) && o.s.replies == s.replies + [Reply(354, [GoAhead])]
            && if res.Body? && (SevenBit(res.bytes) || EightBitAnnounced(s.tx.params)) then
                 && o.s.calls == s.calls + [Call.Data(s.tx, res.bytes)]
                 && o.reply == Some(Told(h, o.s.calls))
               else o.s.calls == s.calls && o.s.postcats == s.postcats && o.reply == Some(BodyRefusal(res))
  {
    AnnouncedMeans(s.tx.params, if res.Body? then res.bytes else "");
    hide DeclaresEightBit;
    hide Contains8Bit;
    hide EightBitAnnounced;
    hide SevenBit;
  }

  lemma DataExec(cfg: Config, h: Handler, s: Session, net: Net)
    requires !s.inBdat
    ensures Exec(cfg, h, s, net, DATA) == DataCmd(cfg, h, s, net, ReadBody(net.wire, cfg.maxMessageSize))
  {
  }

  /** DATA ends the transaction on every path. A body reaches the handler if and only if it was
      read whole and is 7-bit or was announced as 8-bit. */
  lemma DataAnswers(cfg: Config, h: Handler, s: Session, net: Net)
    requires !s.inBdat
    ensures var o := Exec(cfg, h, s, net, DATA);
            var (res, wire) := ReadBody(net.wire, cfg.maxMessageSize);
            && TransactionOver(s, o.s) && !o.ended
            && if DataBarrier(s).Some? then
                 && Ended(s, o, DataBarrier(s).value.code, DataBarrier(s).value.message)
                 && o.net == net && o.s.replies == s.replies
               else
                 && o.net == net.(wire := wire) && o.s.replies == s.replies + [Reply(354, [GoAhead])]
                 && if res.Body? && (SevenBit(res.bytes) || EightBitAnnounced(s.tx.params)) then
                      && o.s.calls == s.calls + [Call.Data(s.tx, res.bytes)]
                      && o.reply == Some(Told(h, o.s.calls))
                    else o.s.calls == s.calls && o.s.postcats == s.postcats && o.reply == Some(BodyRefusal(res))
  {
    var (res, wire) := ReadBody(net.wire, cfg.maxMessageSize);
    DataExec(cfg, h, s, net);
    hide Exec;
    hide ReadBody;
    hide EightBitAnnounced;
    hide SevenBit;
    if DataBarrier(s).None? {
      BodyAnswers(cfg, h, s, net, res, wire);
      hide DataCmd;
    }
    hide DataBody;
  }

  /** A DATA whose terminator does not arrive is answered 451, or 552 after an overflow, and
      nothing of its body reaches the handler. */
  lemma CutOffData(cfg: Config, h: Handler, s: Session, lines: seq<Bytes>, tail: Bytes, more: Wire,
                   upgrade: Option<Wire>)
    requires !s.inBdat && DataBarrier(s).None? && NotDots(lines) && LF !in tail
    ensures var o := Exec(cfg, h, s, Net([Raw(lines) + tail] + more, upgrade), DATA);
            && TransactionOver(s, o.s) && o.s.calls == s.calls && o.s.postcats == s.postcats
            && o.net == Net(more, upgrade)
            && o.reply == Some(if OverflowsFirst(Fates(lines), cfg.maxMessageSize) then Reply(552, [MessageSize])
                               else Reply(451, [ReadFailed]))
  {
    var net := Net([Raw(lines) + tail] + more, upgrade);
    DataAnswers(cfg, h, s, net);
    CutOffBody(lines, tail, more, cfg.maxMessageSize);
    hide Exec;
    hide ReadBody;
    hide OverflowsFirst;
  }

  /** A DATA that makes a callback hands over a body whose terminator has arrived: the unstuffed
      lines before it, and all of them. */
  lemma DataHandsOverWhole(cfg: Config, h: Handler, s: Session, net: Net)
    returns (lines: seq<Bytes>, dot: Bytes, rest: Bytes)
    requires !s.inBdat && Exec(cfg, h, s, net, DATA).s.calls != s.calls
    ensures NotDots(lines) && LF !in dot && ChopCr(dot) == "."
    ensures net.wire != [] && net.wire[0] == Raw(lines) + (dot + [LF] + rest)
    ensures Exec(cfg, h, s, net, DATA).s.calls == s.calls + [Call.Data(s.tx, Content(Fates(lines)))]
    ensures Exec(cfg, h, s, net, DATA).net == net.(wire := [rest] + net.wire[1..])
  {
    DataAnswers(cfg, h, s, net);
    hide Exec;
    lines, dot, rest := DeliveredWhole(net.wire, cfg.maxMessageSize);
    hide ReadBody;
  }

  /** The most one chunk may hold. */
  const CHUNK_CAP := 64 * 1024 * 1024

  /** The bytes of a chunk that has arrived whole and is within the cap. */
  predicate Arrived(net: Net, size: nat) {
    size <= CHUNK_CAP && (size == 0 || (net.wire != [] && size <= |net.wire[0]|))
  }

  function ArrivedChunk(net: Net, size: nat): Bytes
    requires Arrived(net, size)
  {
    if size == 0 then "" else net.wire[0][..size]
  }

  lemma ArrivedMeans(net: Net, size: nat)
    ensures ReadChunk(net.wire, size).0 == if Arrived(net, size) then Some(ArrivedChunk(net, size)) else None
  {
  }

  /** BDAT: only a chunk that passes the barriers and the limit check and has arrived whole is
      taken. One that is not the last is kept and nothing else; the last is handed on with all
      that was kept before it. Every other BDAT ends the transaction. */
  lemma BdatAnswers(cfg: Config, h: Handler, s: Session, net: Net, size: nat, last: bool)
    ensures var o := Exec(cfg, h, s, net, BDAT(Some(Chunk(size, last))));
            && !o.ended && o.s.replies == s.replies
            && if DataBarrier(s).Some? then Ended(s, o, DataBarrier(s).value.code, DataBarrier(s).value.message)
               else if OverLimit(cfg, s, size) then Ended(s, o, 552, MessageSize)
               else if !Arrived(net, size) then Ended(s, o, 451, ChunkFailed)
               else if !last then
                 && o.s == s.(bodyBuf := s.bodyBuf + ArrivedChunk(net, size), inBdat := true)
                 && o.reply == Some(Reply(250, [Okay]))
               else
                 && TransactionOver(s, o.s)
                 && o.s.calls == s.calls + [Call.Data(s.tx, s.bodyBuf + ArrivedChunk(net, size))]
                 && o.reply == Some(Told(h, o.s.calls))
  {
    ArrivedMeans(net, size);
    hide ReadChunk;
    hide WireTake;
    hide OverLimit;
    hide Arrived;
    hide ArrivedChunk;
  }

  /** A BDAT without a proper size takes nothing from the stream. */
  lemma MalformedBdat(cfg: Config, h: Handler, s: Session, net: Net)
    ensures var o := Exec(cfg, h, s, net, BDAT(None));
            Ended(s, o, 501, BadBdatSyntax) && o.net == net && o.s.replies == s.replies
  {
  }

  /** A message is acknowledged with 250 if and only if the handler was asked about it and took it. */
  lemma AcknowledgedIffTaken(cfg: Config, h: Handler, s: Session, net: Net, cmd: Cmd)
    requires cmd.DATA? || (cmd.BDAT? && cmd.chunk.Some? && cmd.chunk.value.last)
    ensures var o := Exec(cfg, h, s, net, cmd);
            && o.reply.Some?
            && (o.reply.value.code == 250
                <==> o.s.calls != s.calls && h(o.s.calls).Some? && h(o.s.calls).value.code == 250)
  {
    if cmd.BDAT? {
      BdatAnswers(cfg, h, s, net, cmd.chunk.value.size, true);
    } else if s.inBdat {
      SequenceBroken(cfg, h, s, net, cmd);
    } else {
      DataAnswers(cfg, h, s, net);
    }
    hide Exec;
    hide ReadBody;
    hide OverLimit;
    hide Arrived;
    hide TransactionOver;
  }
}

/** Whole sessions of the sequential server, command by command. */
module Runs {
  import opened Text
  import opened Lines
  import opened Body
  import opened Commands
  import opened Session
  import opened Invariants
  import opened History

  /** One command of a run: the session and the unread bytes before it, and its outcome. */
  datatype Step = Step(before: Session, net: Net, cmd: Cmd, out: Outcome)

  function Steps(cfg: Config, h: Handler, s: Session, net: Net): seq<Step>
    decreases NetSize(net)
  {
    ReadCmdShrinks(net);
    var (cmd, after) := ReadCmd(net);
    match cmd
    case None => []
    case Some(c) =>
      ExecNet(cfg, h, s, after, c);
      var o := Exec(cfg, h, s, after, c);
      [Step(s, after, c, o)] + if o.ended then [] else Steps(cfg, h, Replied(o), o.net)
  }

  /** A run from its first command on. */
  lemma RunUnfolds(cfg: Config, h: Handler, s: Session, net: Net)
    ensures var (cmd, after) := ReadCmd(net);
            if cmd.None? then Steps(cfg, h, s, net) == [] && Serve(cfg, h, s, net) == Final(s, after)
            else
              var o := Exec(cfg, h, s, after, cmd.value);
              && Steps(cfg, h, s, net)
                 == [Step(s, after, cmd.value, o)] + (if o.ended then [] else Steps(cfg, h, Replied(o), o.net))
              && Serve(cfg, h, s, net)
                 == if o.ended then Final(Replied(o), o.net) else Serve(cfg, h, Replied(o), o.net)
  {
    hide ReadCmd;
    hide Exec;
  }

  /** A command that is cut off is not handled: the session ends as it is. */
  lemma CutOffCommand(cfg: Config, h: Handler, s: Session, text: Bytes, more: Wire, upgrade: Option<Wire>)
    requires LF !in text
    ensures Steps(cfg, h, s, Net([text] + more, upgrade)) == []
    ensures Serve(cfg, h, s, Net([text] + more, upgrade)) == Final(s, Net(more, upgrade))
    ensures Steps(cfg, h, s, Net([], upgrade)) == [] && Serve(cfg, h, s, Net([], upgrade)) == Final(s, Net([], upgrade))
  {
    CutOffLine(text, more);
    hide WireLine;
    hide Exec;
  }

  /** What holds between any two commands. */
  predicate Good(cfg: Config, h: Handler, s: Session) {
    Inv(cfg, s) && Faithful(cfg, h, s)
  }

  lemma ReadBodyFits(w: Wire, max: int)
    ensures ReadBody(w, max).0.Body? && max > 0 ==> |ReadBody(w, max).0.bytes| <= max
  {
    if ReadBody(w, max).0.Body? && max > 0 {
      BodyWithinLimit(w, max);
    }
  }

  lemma RcptFaithful(cfg: Config, h: Handler, s: Session, to: Bytes)
    requires Faithful(cfg, h, s)
    ensures Faithful(cfg, h, Rcpt(cfg, h, s, to).0)
  {
    RcptAgrees(cfg, h, s, to);
    RcptLogged(cfg, h, s, to);
    hide Rcpt;
  }

  lemma ExecFaithful(cfg: Config, h: Handler, s: Session, net: Net, cmd: Cmd)
    requires Good(cfg, h, s) && Representable(cfg)
    ensures Faithful(cfg, h, Exec(cfg, h, s, net, cmd).s)
  {
    hide Faithful;
    hide Inv;
    hide EndTx;
    hide Greet;
    hide Mail;
    hide Rcpt;
    hide Secure;
    hide DataCmd;
    hide BdatCmd;
    hide ReadBody;
    EndTxFaithful(cfg, h, s, PHASE_HELO);
    EndTxFaithful(cfg, h, s, PHASE_INIT);
    match cmd {
      case HELO(domain) => GreetFaithful(cfg, h, s, domain, false);
      case EHLO(domain) => GreetFaithful(cfg, h, s, domain, true);
      case STARTTLS => SecureFaithful(cfg, h, s, net);
      case MAIL(args) => MailFaithful(cfg, h, s, args);
      case RCPT(to) => RcptFaithful(cfg, h, s, to);
      case DATA =>
        ReadBodyFits(net.wire, cfg.maxMessageSize);
        DataFaithful(cfg, h, s, net, ReadBody(net.wire, cfg.maxMessageSize));
      case BDAT(chunk) => BdatFaithful(cfg, h, s, net, chunk);
      case _ =>
    }
  }

  lemma ExecGood(cfg: Config, h: Handler, s: Session, net: Net, cmd: Cmd)
    requires Good(cfg, h, s) && Representable(cfg) && Parsed(cmd)
    ensures Good(cfg, h, Replied(Exec(cfg, h, s, net, cmd)))
  {
    var o := Exec(cfg, h, s, net, cmd);
    ExecKeepsInv(cfg, h, s, net, cmd);
    ExecFaithful(cfg, h, s, net, cmd);
    SaidFaithful(cfg, h, o.s, o.reply);
  }

  /** A property that every command keeps. */
  ghost predicate Kept(cfg: Config, h: Handler, p: Session -> bool) {
    forall s, net, cmd :: p(s) && Parsed(cmd) ==> p(Replied(Exec(cfg, h, s, net, cmd)))
  }

  /** A property that every command keeps holds before and after every command of a run. */
  lemma {:induction false} EveryStep(cfg: Config, h: Handler, s: Session, net: Net, p: Session -> bool)
    requires Kept(cfg, h, p) && p(s)
    ensures forall step :: step in Steps(cfg, h, s, net) ==>
              && p(step.before) && p(Replied(step.out)) && Parsed(step.cmd)
              && step.out == Exec(cfg, h, step.before, step.net, step.cmd)
    ensures p(Serve(cfg, h, s, net).s)
    decreases NetSize(net)
  {
    ReadCmdShrinks(net);
    ReadCmdParsed(net);
    var (cmd, after) := ReadCmd(net);
    if cmd.Some? {
      ExecNet(cfg, h, s, after, cmd.value);
      var o := Exec(cfg, h, s, after, cmd.value);
      if !o.ended {
        EveryStep(cfg, h, Replied(o), o.net, p);
      }
    }
  }

  lemma GoodIsKept(cfg: Config, h: Handler)
    requires Representable(cfg)
    ensures Kept(cfg, h, s => Good(cfg, h, s))
  {
    forall s, net, cmd | Good(cfg, h, s) && Parsed(cmd)
      ensures Good(cfg, h, Replied(Exec(cfg, h, s, net, cmd)))
    {
      ExecGood(cfg, h, s, net, cmd);
    }
  }

  /** In every session the invariant holds before and after every command, and the session
      agrees with its history. */
  lemma EveryStepGood(cfg: Config, h: Handler, tls: bool, net: Net)
    requires Representable(cfg)
    ensures forall step :: step in Steps(cfg, h, Start(cfg, tls), net) ==>
              Good(cfg, h, step.before) && Good(cfg, h, Replied(step.out))
    ensures Good(cfg, h, Serve(cfg, h, Start(cfg, tls), net).s)
  {
    StartInv(cfg, tls);
    StartFaithful(cfg, h, tls);
    GoodIsKept(cfg, h);
    EveryStep(cfg, h, Start(cfg, tls), net, s => Good(cfg, h, s));
  }

  /** In every session, before and after every command, every recipient of the transaction is
      accepted or rejected if and only if their number is within the limit. */
  lemma RecipientsRecordedAlways(cfg: Config, h: Handler, tls: bool, net: Net, step: Step)
    requires Representable(cfg) && step in Steps(cfg, h, Start(cfg, tls), net)
    ensures RecordedWithinLimit(cfg, step.before.tx) && RecordedWithinLimit(cfg, Replied(step.out).tx)
  {
    EveryStepGood(cfg, h, tls, net);
    hide Steps;
    RecipientsRecorded(cfg, step.before.tx);
    RecipientsRecorded(cfg, Replied(step.out).tx);
  }

  /** The whole of a session, from the banner on: every Data callback carries exactly the
      envelope agreed since the last accepted MAIL, and the postcat writes are exactly the
      messages the handler took, in order. */
  lemma SessionHistory(cfg: Config, h: Handler, tls: bool, net: Net)
    requires Representable(cfg)
    ensures var end := Serve(cfg, h, Start(cfg, tls), net).s;
            AllDataFit(cfg, h, end.calls) && Recorded(cfg, h, end)
  {
    EveryStepGood(cfg, h, tls, net);
  }

  /** Callbacks, replies and postcat writes of `a` are the first ones of `b`. */
  predicate Extends(a: Session, b: Session) {
    a.calls <= b.calls && a.replies <= b.replies && a.postcats <= b.postcats
  }

  lemma {:induction false} ServeGrows(cfg: Config, h: Handler, s: Session, net: Net)
    ensures Extends(s, Serve(cfg, h, s, net).s)
    decreases NetSize(net)
  {
    ReadCmdShrinks(net);
    var (cmd, after) := ReadCmd(net);
    hide ReadCmd;
    if cmd.Some? {
      ExecNet(cfg, h, s, after, cmd.value);
      ExecEvolves(cfg, h, s, after, cmd.value);
      hide Exec;
      var o := Exec(cfg, h, s, after, cmd.value);
      if !o.ended {
        ServeGrows(cfg, h, Replied(o), o.net);
      }
    }
  }

  /** The `k`-th callback was answered 250. */
  predicate Agreed(h: Handler, calls: seq<Call>, k: nat)
    requires k < |calls|
  {
    Accepted(h, calls[..k + 1])
  }

  lemma {:induction false} FreshMeans(h: Handler, calls: seq<Call>, i: nat) returns (k: nat, l: nat)
    requires i < |calls| && calls[i].Data?
    requires Fresh(h, calls).0
    ensures i < k < |calls| && calls[k].MailFrom? && Agreed(h, calls, k)
    ensures Fresh(h, calls).1 ==> k < l < |calls| && calls[l].RcptTo? && Agreed(h, calls, l)
  {
    var n := |calls| - 1;
    var front := calls[..n];
    assert calls[..n + 1] == calls;
    if calls[n].MailFrom? && Accepted(h, calls) {
      k, l := n, 0;
    } else {
      k, l := FreshMeans(h, front, i);
      assert calls[..k + 1] == front[..k + 1];
      if calls[n].RcptTo? && Accepted(h, calls) {
        l := n;
      } else if Fresh(h, front).1 {
        assert calls[..l + 1] == front[..l + 1];
      }
    }
  }

  /** Between two Data callbacks there are an accepted MAIL and, after it, an accepted RCPT. */
  lemma DataSeparated(cfg: Config, h: Handler, tls: bool, net: Net, i: nat, j: nat)
    returns (k: nat, l: nat)
    requires Representable(cfg)
    requires i < j < |Serve(cfg, h, Start(cfg, tls), net).s.calls|
    requires Serve(cfg, h, Start(cfg, tls), net).s.calls[i].Data?
    requires Serve(cfg, h, Start(cfg, tls), net).s.calls[j].Data?
    ensures var calls := Serve(cfg, h, Start(cfg, tls), net).s.calls;
            && i < k < l < j
            && calls[k].MailFrom? && Agreed(h, calls, k)
            && calls[l].RcptTo? && Agreed(h, calls, l)
  {
    SessionHistory(cfg, h, tls, net);
    var calls := Serve(cfg, h, Start(cfg, tls), net).s.calls;
    var before := calls[..j];
    k, l := FreshMeans(h, before, i);
    assert calls[..k + 1] == before[..k + 1];
    assert calls[..l + 1] == before[..l + 1];
  }

  // ---------------------------------------------------------------- where body bytes come from

  /** A chunk that was read and answered 250 without completing the message. */
  predicate TookChunk(step: Step) {
    && step.cmd.BDAT? && step.cmd.chunk.Some? && !step.cmd.chunk.value.last
    && step.out.reply == Some(Reply(250, [Okay]))
  }

  /** The bytes that follow the command line of a BDAT. */
  function ChunkBytes(step: Step): Bytes {
    if step.cmd.BDAT? && step.cmd.chunk.Some? then
      match WireTake(step.net.wire, step.cmd.chunk.value.size).0
      case None => ""
      case Some(b) => b
    else ""
  }

  /** The chunks taken by the last unbroken run of BDATs, with any NOOPs between. (QUIT, too,
      leaves the buffer alone, but nothing follows it.) */
  function OpenBody(steps: seq<Step>): Bytes {
    if steps == [] then ""
    else
      var last := steps[|steps| - 1];
      var earlier := OpenBody(steps[..|steps| - 1]);
      if TookChunk(last) then earlier + ChunkBytes(last)
      else if last.cmd.NOOP? || last.cmd.QUIT? then earlier
      else ""
  }

  lemma BdatBuffer(cfg: Config, h: Handler, s: Session, net: Net, chunk: Option<Chunk>)
    ensures var o := BdatCmd(cfg, h, s, net, chunk);
            o.s.bodyBuf == if chunk.Some? && !chunk.value.last && o.reply == Some(Reply(250, [Okay]))
                           then s.bodyBuf + WireTake(net.wire, chunk.value.size).0.value else ""
    ensures var o := BdatCmd(cfg, h, s, net, chunk);
            chunk.Some? && !chunk.value.last && o.reply == Some(Reply(250, [Okay]))
            ==> WireTake(net.wire, chunk.value.size).0.Some?
  {
    hide WireTake;
    hide OverLimit;
    hide Deliver;
  }

  /** Outside BDAT, only NOOP and QUIT leave a buffer. */
  lemma OthersEmptyBuffer(cfg: Config, h: Handler, s: Session, net: Net, cmd: Cmd)
    requires InPhase(cfg, s) && !cmd.BDAT?
    ensures Exec(cfg, h, s, net, cmd).s.bodyBuf == if cmd.NOOP? || cmd.QUIT? then s.bodyBuf else ""
  {
    hide ReadBody;
    hide DataBody;
    hide ValidDomain;
    hide ValidAddress;
    hide CheckSize;
    hide EhloLines;
  }

  lemma BufferStep(cfg: Config, h: Handler, step: Step)
    requires InPhase(cfg, step.before) && step.out == Exec(cfg, h, step.before, step.net, step.cmd)
    ensures Replied(step.out).bodyBuf
            == if TookChunk(step) then step.before.bodyBuf + ChunkBytes(step)
               else if step.cmd.NOOP? || step.cmd.QUIT? then step.before.bodyBuf
               else ""
  {
    if step.cmd.BDAT? {
      BdatExec(cfg, h, step.before, step.net, step.cmd.chunk);
      BdatBuffer(cfg, h, step.before, step.net, step.cmd.chunk);
    } else {
      OthersEmptyBuffer(cfg, h, step.before, step.net, step.cmd);
    }
    hide Exec;
    hide BdatCmd;
    hide WireTake;
    hide InPhase;
  }

  /** Each command starts where the one before it ended. */
  lemma {:induction false} StepsLinked(cfg: Config, h: Handler, s: Session, net: Net)
    ensures var steps := Steps(cfg, h, s, net);
            && (steps != [] ==> steps[0].before == s)
            && forall i :: 0 < i < |steps| ==> steps[i].before == Replied(steps[i - 1].out)
    decreases NetSize(net)
  {
    ReadCmdShrinks(net);
    var (cmd, after) := ReadCmd(net);
    if cmd.Some? {
      ExecNet(cfg, h, s, after, cmd.value);
      var o := Exec(cfg, h, s, after, cmd.value);
      if !o.ended {
        StepsLinked(cfg, h, Replied(o), o.net);
      }
    }
  }

  lemma {:induction false} Buffers(cfg: Config, h: Handler, steps: seq<Step>, i: nat)
    requires i < |steps| && steps[0].before.bodyBuf == ""
    requires forall k :: 0 < k <= i ==> steps[k].before == Replied(steps[k - 1].out)
    requires forall k :: 0 <= k <= i ==>
               && InPhase(cfg, steps[k].before)
               && steps[k].out == Exec(cfg, h, steps[k].before, steps[k].net, steps[k].cmd)
    ensures steps[i].before.bodyBuf == OpenBody(steps[..i])
  {
    if i > 0 {
      Buffers(cfg, h, steps, i - 1);
      BufferStep(cfg, h, steps[i - 1]);
      assert steps[..i][..i - 1] == steps[..i - 1];
    }
  }

  /** The body a command hands to the handler, if it does. */
  predicate HandsOver(step: Step, body: Bytes) {
    step.out.s.calls == step.before.calls + [Call.Data(step.before.tx, body)]
  }

  /** A command makes at most one callback, and a Data callback is about its transaction. */
  predicate CallsAtMostOnce(s: Session, after: Session) {
    || after.calls == s.calls
    || (|after.calls| == |s.calls| + 1 && after.calls[..|s.calls|] == s.calls
        && (after.calls[|s.calls|].Data? ==> after.calls[|s.calls|].tx == s.tx))
  }

  lemma OneCall(s: Session, after: Session, call: Call)
    requires after.calls == s.calls + [call] && (call.Data? ==> call.tx == s.tx)
    ensures CallsAtMostOnce(s, after)
  {
  }

  lemma DataCalls(cfg: Config, h: Handler, s: Session, net: Net, read: (BodyResult, Wire))
    ensures CallsAtMostOnce(s, DataCmd(cfg, h, s, net, read).s)
  {
    if read.0.Body? {
      var after := DataCmd(cfg, h, s, net, read).s;
      if after.calls != s.calls {
        OneCall(s, after, Call.Data(s.tx, read.0.bytes));
      }
    }
  }

  lemma BdatCalls(cfg: Config, h: Handler, s: Session, net: Net, chunk: Option<Chunk>)
    ensures CallsAtMostOnce(s, BdatCmd(cfg, h, s, net, chunk).s)
  {
    hide WireTake;
    hide BdatRefusal;
    if chunk.Some? && ReadChunk(net.wire, chunk.value.size).0.Some? {
      var after := BdatCmd(cfg, h, s, net, chunk).s;
      if after.calls != s.calls {
        OneCall(s, after, Call.Data(s.tx, s.bodyBuf + ReadChunk(net.wire, chunk.value.size).0.value));
      }
    }
  }

  lemma GreetCalls(cfg: Config, h: Handler, s: Session, domain: Bytes, extended: bool)
    ensures CallsAtMostOnce(s, Greet(cfg, h, s, domain, extended).0)
  {
  }

  lemma MailCalls(cfg: Config, h: Handler, s: Session, args: Option<MailArgs>)
    ensures CallsAtMostOnce(s, Mail(cfg, h, s, args).0)
  {
    hide CheckSize;
  }

  lemma RcptCalls(cfg: Config, h: Handler, s: Session, to: Bytes)
    ensures CallsAtMostOnce(s, Rcpt(cfg, h, s, to).0)
  {
    hide ValidAddress;
  }

  lemma ExecCalls(cfg: Config, h: Handler, s: Session, net: Net, cmd: Cmd)
    ensures CallsAtMostOnce(s, Exec(cfg, h, s, net, cmd).s)
  {
    match cmd {
      case HELO(domain) => GreetCalls(cfg, h, s, domain, false);
      case EHLO(domain) => GreetCalls(cfg, h, s, domain, true);
      case MAIL(args) => MailCalls(cfg, h, s, args);
      case RCPT(to) => RcptCalls(cfg, h, s, to);
      case DATA => DataCalls(cfg, h, s, net, ReadBody(net.wire, cfg.maxMessageSize));
      case BDAT(chunk) => BdatCalls(cfg, h, s, net, chunk);
      case _ =>
    }
    hide Greet;
    hide Mail;
    hide Rcpt;
    hide ReadBody;
    hide DataCmd;
    hide BdatCmd;
  }

  /** Every callback of a session is made by one of its commands. */
  lemma {:induction false} CallHasStep(cfg: Config, h: Handler, s: Session, net: Net, j: nat) returns (i: nat)
    requires |s.calls| <= j < |Serve(cfg, h, s, net).s.calls|
    ensures var steps, calls := Steps(cfg, h, s, net), Serve(cfg, h, s, net).s.calls;
            && i < |steps| && CallsAtMostOnce(steps[i].before, steps[i].out.s)
            && |steps[i].before.calls| == j < |steps[i].out.s.calls| && steps[i].out.s.calls[j] == calls[j]
    decreases NetSize(net)
  {
    hide Serve;
    hide Steps;
    RunUnfolds(cfg, h, s, net);
    var (cmd, after) := ReadCmd(net);
    ReadCmdShrinks(net);
    hide ReadCmd;
    var o := Exec(cfg, h, s, after, cmd.value);
    ExecNet(cfg, h, s, after, cmd.value);
    ExecCalls(cfg, h, s, after, cmd.value);
    hide Exec;
    assert |o.s.calls| <= |s.calls| + 1;
    hide CallsAtMostOnce;
    assert Replied(o).calls == o.s.calls;
    hide Replied;
    if j == |s.calls| < |o.s.calls| {
      i := 0;
      if !o.ended {
        ServeGrows(cfg, h, Replied(o), o.net);
      }
      CallAt(Replied(o), Serve(cfg, h, s, net).s, j);
    } else {
      i := CallHasStep(cfg, h, Replied(o), o.net, j);
      i := i + 1;
    }
  }

  /** Every Data callback of a session is made by one of its commands, which hands over just its
      body. */
  lemma DataHasStep(cfg: Config, h: Handler, s: Session, net: Net, j: nat) returns (i: nat)
    requires |s.calls| <= j < |Serve(cfg, h, s, net).s.calls| && Serve(cfg, h, s, net).s.calls[j].Data?
    ensures var steps, call := Steps(cfg, h, s, net), Serve(cfg, h, s, net).s.calls[j];
            && i < |steps| && HandsOver(steps[i], call.body)
            && |steps[i].before.calls| == j && call.tx == steps[i].before.tx
  {
    i := CallHasStep(cfg, h, s, net, j);
    hide Serve;
    hide Steps;
    CallIsHandedOver(Steps(cfg, h, s, net)[i]);
  }

  lemma CallAt(s: Session, later: Session, j: nat)
    requires j < |s.calls| && s.calls <= later.calls
    ensures later.calls[j] == s.calls[j]
  {
  }

  lemma CallIsHandedOver(step: Step)
    requires CallsAtMostOnce(step.before, step.out.s) && |step.before.calls| < |step.out.s.calls|
    ensures var call := step.out.s.calls[|step.before.calls|];
            call.Data? ==> call.tx == step.before.tx && HandsOver(step, call.body)
  {
    var n := |step.before.calls|;
    var calls := step.out.s.calls;
    assert calls == calls[..n] + [calls[n]];
  }

  lemma DataStepBody(cfg: Config, h: Handler, s: Session, net: Net, read: (BodyResult, Wire), body: Bytes)
    requires DataCmd(cfg, h, s, net, read).s.calls == s.calls + [Call.Data(s.tx, body)]
    ensures read.0 == Body(body)
  {
    var calls := DataCmd(cfg, h, s, net, read).s.calls;
    assert calls[|calls| - 1] == Call.Data(s.tx, body);
  }

  lemma BdatStepBody(cfg: Config, h: Handler, s: Session, net: Net, chunk: Option<Chunk>, body: Bytes)
    requires BdatCmd(cfg, h, s, net, chunk).s.calls == s.calls + [Call.Data(s.tx, body)]
    ensures chunk.Some? && WireTake(net.wire, chunk.value.size).0.Some?
    ensures body == s.bodyBuf + WireTake(net.wire, chunk.value.size).0.value
  {
    hide WireTake;
    hide BdatRefusal;
    var calls := BdatCmd(cfg, h, s, net, chunk).s.calls;
    assert calls[|calls| - 1] == Call.Data(s.tx, body);
  }

  /** No other command hands a body to the handler. */
  lemma OthersHandNothing(cfg: Config, h: Handler, s: Session, net: Net, cmd: Cmd)
    requires !cmd.DATA? && !cmd.BDAT?
    ensures var calls := Exec(cfg, h, s, net, cmd).s.calls;
            calls == s.calls || (|calls| == |s.calls| + 1 && !calls[|s.calls|].Data?)
  {
    hide ReadBody;
    hide DataCmd;
    hide BdatCmd;
  }

  lemma StepBody(cfg: Config, h: Handler, step: Step, body: Bytes)
    requires step.out == Exec(cfg, h, step.before, step.net, step.cmd) && HandsOver(step, body)
    ensures if step.cmd.DATA? then ReadBody(step.net.wire, cfg.maxMessageSize).0 == Body(body)
            else step.cmd.BDAT? && body == step.before.bodyBuf + ChunkBytes(step)
  {
    var s, net := step.before, step.net;
    if !s.inBdat || AllowedDuringBdat(step.cmd) {
      if step.cmd.DATA? {
        DataStepBody(cfg, h, s, net, ReadBody(net.wire, cfg.maxMessageSize), body);
      } else if step.cmd.BDAT? {
        BdatStepBody(cfg, h, s, net, step.cmd.chunk, body);
      } else {
        OthersHandNothing(cfg, h, s, net, step.cmd);
      }
    }
    hide ReadBody;
    hide DataCmd;
    hide BdatCmd;
  }

  /** Where the body of a Data callback comes from: the body read of its DATA, or the open BDAT
      sequence and the last chunk. */
  predicate BodyComesFrom(cfg: Config, steps: seq<Step>, i: nat, body: Bytes)
    requires i < |steps|
  {
    if steps[i].cmd.DATA? then ReadBody(steps[i].net.wire, cfg.maxMessageSize).0 == Body(body)
    else steps[i].cmd.BDAT? && body == OpenBody(steps[..i]) + ChunkBytes(steps[i])
  }

  lemma HandedOverBody(cfg: Config, h: Handler, tls: bool, net: Net, i: nat, body: Bytes)
    requires Representable(cfg) && i < |Steps(cfg, h, Start(cfg, tls), net)|
    requires HandsOver(Steps(cfg, h, Start(cfg, tls), net)[i], body)
    ensures BodyComesFrom(cfg, Steps(cfg, h, Start(cfg, tls), net), i, body)
  {
    var steps := Steps(cfg, h, Start(cfg, tls), net);
    StartInv(cfg, tls);
    StartFaithful(cfg, h, tls);
    GoodIsKept(cfg, h);
    EveryStep(cfg, h, Start(cfg, tls), net, s => Good(cfg, h, s));
    StepsLinked(cfg, h, Start(cfg, tls), net);
    hide Steps;
    hide Exec;
    hide ReadBody;
    assert forall k :: 0 <= k <= i ==> steps[k] in steps;
    Buffers(cfg, h, steps, i);
    StepBody(cfg, h, steps[i], body);
  }

  /** Every byte of the body of every Data callback of a session was sent with the command that
      makes the callback or with the chunks of the same BDAT sequence, and in that order. */
  lemma BodyProvenance(cfg: Config, h: Handler, tls: bool, net: Net, j: nat) returns (i: nat)
    requires Representable(cfg)
    requires j < |Serve(cfg, h, Start(cfg, tls), net).s.calls|
    requires Serve(cfg, h, Start(cfg, tls), net).s.calls[j].Data?
    ensures var steps := Steps(cfg, h, Start(cfg, tls), net);
            var call := Serve(cfg, h, Start(cfg, tls), net).s.calls[j];
            && i < |steps| && |steps[i].before.calls| == j && call.tx == steps[i].before.tx
            && BodyComesFrom(cfg, steps, i, call.body)
  {
    i := DataHasStep(cfg, h, Start(cfg, tls), net, j);
    hide Serve;
    hide Steps;
    hide BodyComesFrom;
    HandedOverBody(cfg, h, tls, net, i, Serve(cfg, h, Start(cfg, tls), net).s.calls[j].body);
  }
}

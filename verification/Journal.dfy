/** A session as its commands and replies show it. Who keeps a journal of these two alone knows at
    every point which greeting holds, which envelope is open and whether a BDAT sequence is; and
    the handler is asked exactly when the journal says so. */
module Journal {
  import opened Text
  import opened Body
  import opened Commands
  import opened Session
  import opened Invariants
  import opened History
  import opened Runs
  import opened Answers

  /** `greeting` is empty when none holds; `env` is the open envelope; `asked` says that a RCPT of
      it was handed on; `sequence` that a BDAT sequence is open. */
  datatype Journal = Journal(greeting: Bytes, env: Option<Env>, asked: bool, sequence: bool, tls: bool)

  function CodeOf(step: Step): int {
    if step.out.reply.Some? then step.out.reply.value.code else 0
  }

  /** A greeting answered 250. */
  predicate Greets(step: Step) {
    (step.cmd.HELO? || step.cmd.EHLO?) && CodeOf(step) == 250
  }

  /** TLS has been switched on. */
  predicate Secures(step: Step) {
    !step.before.tls && step.out.s.tls
  }

  /** A MAIL answered 250. */
  predicate Opens(step: Step) {
    step.cmd.MAIL? && step.cmd.args.Some? && CodeOf(step) == 250
  }

  /** A chunk answered 250 that is not the last one. */
  predicate KeepsChunk(step: Step) {
    step.cmd.BDAT? && step.cmd.chunk.Some? && !step.cmd.chunk.value.last && CodeOf(step) == 250
  }

  /** RSET, a new greeting, TLS, and every DATA and BDAT but those that keep a chunk. */
  predicate Closes(step: Step) {
    step.cmd.RSET? || Greets(step) || Secures(step) || step.cmd.DATA? || (step.cmd.BDAT? && !KeepsChunk(step))
  }

  function Noted(j: Journal, step: Step): Journal {
    if Secures(step) then Journal("", None, false, false, true)
    else if Greets(step) then Journal(step.cmd.domain, None, false, false, j.tls)
    else if step.cmd.NOOP? || step.cmd.QUIT? then j
    else if KeepsChunk(step) then j.(sequence := true)
    else if Closes(step) || j.sequence then j.(env := None, asked := false, sequence := false)
    else if Opens(step) then
      j.(env := Some(Env(step.cmd.args.value.from, step.cmd.args.value.params, [])), asked := false)
    else if step.cmd.RCPT? && j.env.Some? then
      j.(asked := j.asked || step.out.s.calls != step.before.calls,
         env := if CodeOf(step) == 250 then Some(j.env.value.(rcpts := j.env.value.rcpts + [step.cmd.to])) else j.env)
    else j
  }

  /** The journal of a connection that starts with or without TLS. */
  function JournalOf(tls: bool, steps: seq<Step>): Journal {
    if steps == [] then Journal("", None, false, false, tls)
    else Noted(JournalOf(tls, steps[..|steps| - 1]), steps[|steps| - 1])
  }

  /** The journal and the session say the same. */
  predicate Matches(j: Journal, s: Session) {
    && j.greeting == s.tx.helo && j.tls == s.tls && j.sequence == s.inBdat
    && (j.env.Some? <==> s.phase >= PHASE_MAIL)
    && (j.env.Some? ==> j.env.value == Env(s.tx.mailFrom, s.tx.params, s.tx.accepted))
    && (j.asked <==> s.phase >= PHASE_RCPT)
  }

  predicate Executed(step: Step, cfg: Config, h: Handler) {
    step.out == Exec(cfg, h, step.before, step.net, step.cmd)
  }

  /** A command that ends the transaction and is not refused as a greeting or for TLS. */
  lemma NotedEnd(j: Journal, step: Step)
    requires Matches(j, step.before) && TransactionOver(step.before, step.out.s)
    requires !Greets(step) && !step.cmd.NOOP? && !step.cmd.QUIT? && !KeepsChunk(step)
    requires Closes(step) || step.before.inBdat
    ensures Matches(Noted(j, step), Replied(step.out))
  {
    hide Greets;
    hide KeepsChunk;
  }

  lemma NotedSequence(cfg: Config, h: Handler, j: Journal, step: Step)
    requires Executed(step, cfg, h) && InPhase(cfg, step.before) && Matches(j, step.before) && step.before.inBdat
    requires !step.cmd.BDAT?
    ensures Matches(Noted(j, step), Replied(step.out))
  {
    if step.cmd.RSET? {
      RsetClears(cfg, h, step.before, step.net);
      NotedEnd(j, step);
    } else if step.cmd.NOOP? || step.cmd.QUIT? {
      NothingChanges(cfg, h, step.before, step.net, step.cmd);
    } else {
      SequenceBroken(cfg, h, step.before, step.net, step.cmd);
      NotedEnd(j, step);
    }
    hide Exec;
    hide TransactionOver;
  }

  lemma NotedGreeting(cfg: Config, h: Handler, j: Journal, step: Step)
    requires Executed(step, cfg, h) && InPhase(cfg, step.before) && Matches(j, step.before) && !step.before.inBdat
    requires step.cmd.HELO? || step.cmd.EHLO?
    ensures Matches(Noted(j, step), Replied(step.out))
  {
    GreetingAnswers(cfg, h, step.before, step.net, step.cmd.domain, step.cmd.EHLO?);
    hide Exec;
    hide PrintableDomain;
    hide EhloLines;
  }

  lemma NotedTls(cfg: Config, h: Handler, j: Journal, step: Step)
    requires Executed(step, cfg, h) && InPhase(cfg, step.before) && Matches(j, step.before) && !step.before.inBdat
    requires step.cmd.STARTTLS?
    ensures Matches(Noted(j, step), Replied(step.out))
  {
    StartTlsAnswers(cfg, h, step.before, step.net);
    hide Exec;
  }

  lemma NotedMail(cfg: Config, h: Handler, j: Journal, step: Step)
    requires Executed(step, cfg, h) && InPhase(cfg, step.before) && Matches(j, step.before) && !step.before.inBdat
    requires step.cmd.MAIL?
    ensures Matches(Noted(j, step), Replied(step.out))
  {
    MailAnswers(cfg, h, step.before, step.net, step.cmd.args);
    hide Exec;
    hide SizeAdmitted;
    hide ParseInt64;
    if MailBarrier(cfg, step.before).Some? {
      MailBarred(cfg, j, step);
      hide Matches;
    } else {
      hide Refused;
    }
  }

  lemma MailBarred(cfg: Config, j: Journal, step: Step)
    requires Matches(j, step.before) && step.cmd.MAIL? && !step.before.inBdat && MailBarrier(cfg, step.before).Some?
    requires var r := MailBarrier(cfg, step.before).value;
             Refused(step.before, step.net, step.out, r.code, r.message)
    ensures Matches(Noted(j, step), Replied(step.out))
  {
  }

  lemma NotedRcpt(cfg: Config, h: Handler, j: Journal, step: Step)
    requires Executed(step, cfg, h) && InPhase(cfg, step.before) && Matches(j, step.before) && !step.before.inBdat
    requires step.cmd.RCPT?
    ensures Matches(Noted(j, step), Replied(step.out))
  {
    RcptAnswers(cfg, h, step.before, step.net, step.cmd.to);
    hide Exec;
    hide GoodRecipient;
  }

  lemma NotedData(cfg: Config, h: Handler, j: Journal, step: Step)
    requires Executed(step, cfg, h) && InPhase(cfg, step.before) && Matches(j, step.before) && !step.before.inBdat
    requires step.cmd.DATA?
    ensures Matches(Noted(j, step), Replied(step.out))
  {
    DataAnswers(cfg, h, step.before, step.net);
    hide Exec;
    hide TransactionOver;
    hide ReadBody;
    hide SevenBit;
    hide EightBitAnnounced;
    NotedEnd(j, step);
    hide Matches;
  }

  lemma NotedChunk(cfg: Config, h: Handler, j: Journal, step: Step)
    requires Executed(step, cfg, h) && InPhase(cfg, step.before) && Matches(j, step.before) && KeepsChunk(step)
    ensures Matches(Noted(j, step), Replied(step.out))
  {
    BdatAnswers(cfg, h, step.before, step.net, step.cmd.chunk.value.size, step.cmd.chunk.value.last);
    hide Exec;
    hide TransactionOver;
    hide OverLimit;
    hide Arrived;
  }

  lemma BdatEnds(cfg: Config, h: Handler, step: Step)
    requires Executed(step, cfg, h) && step.cmd.BDAT? && !KeepsChunk(step)
    ensures TransactionOver(step.before, step.out.s)
  {
    if step.cmd.chunk.Some? {
      BdatAnswers(cfg, h, step.before, step.net, step.cmd.chunk.value.size, step.cmd.chunk.value.last);
    } else {
      MalformedBdat(cfg, h, step.before, step.net);
    }
    hide Exec;
    hide TransactionOver;
    hide OverLimit;
    hide Arrived;
  }

  lemma NotedBdat(cfg: Config, h: Handler, j: Journal, step: Step)
    requires Executed(step, cfg, h) && InPhase(cfg, step.before) && Matches(j, step.before)
    requires step.cmd.BDAT?
    ensures Matches(Noted(j, step), Replied(step.out))
  {
    if KeepsChunk(step) {
      NotedChunk(cfg, h, j, step);
    } else {
      BdatEnds(cfg, h, step);
      NotedEnd(j, step);
    }
    hide Executed;
    hide Matches;
    hide TransactionOver;
  }

  lemma NotedOther(cfg: Config, h: Handler, j: Journal, step: Step)
    requires Executed(step, cfg, h) && InPhase(cfg, step.before) && Matches(j, step.before) && !step.before.inBdat
    requires !Takeover(step.cmd) && !step.cmd.HELO? && !step.cmd.EHLO? && !step.cmd.MAIL? && !step.cmd.RCPT?
    ensures Matches(Noted(j, step), Replied(step.out))
  {
    RsetClears(cfg, h, step.before, step.net);
    NothingChanges(cfg, h, step.before, step.net, step.cmd);
    hide Exec;
  }

  /** Every command leaves the journal and the session in agreement. */
  lemma NotedMatches(cfg: Config, h: Handler, j: Journal, step: Step)
    requires Executed(step, cfg, h) && InPhase(cfg, step.before) && Matches(j, step.before)
    ensures Matches(Noted(j, step), Replied(step.out))
  {
    hide Executed;
    hide InPhase;
    hide Noted;
    hide Replied;
    if step.cmd.BDAT? {
      NotedBdat(cfg, h, j, step);
    } else if step.before.inBdat {
      NotedSequence(cfg, h, j, step);
    } else if step.cmd.HELO? || step.cmd.EHLO? {
      NotedGreeting(cfg, h, j, step);
    } else if step.cmd.STARTTLS? {
      NotedTls(cfg, h, j, step);
    } else if step.cmd.MAIL? {
      NotedMail(cfg, h, j, step);
    } else if step.cmd.RCPT? {
      NotedRcpt(cfg, h, j, step);
    } else if step.cmd.DATA? {
      NotedData(cfg, h, j, step);
    } else {
      NotedOther(cfg, h, j, step);
    }
    hide Matches;
  }

  lemma {:induction false} JournalFollows(cfg: Config, h: Handler, tls: bool, steps: seq<Step>, i: nat)
    requires i < |steps| && steps[0].before == Start(cfg, tls)
    requires forall k :: 0 < k <= i ==> steps[k].before == Replied(steps[k - 1].out)
    requires forall k :: 0 <= k <= i ==> InPhase(cfg, steps[k].before) && Executed(steps[k], cfg, h)
    ensures Matches(JournalOf(tls, steps[..i]), steps[i].before)
  {
    if i > 0 {
      hide Executed;
      hide InPhase;
      JournalFollows(cfg, h, tls, steps, i - 1);
      NotedMatches(cfg, h, JournalOf(tls, steps[..i - 1]), steps[i - 1]);
      assert steps[..i][..i - 1] == steps[..i - 1];
      hide Matches;
      hide Noted;
    }
  }

  /** In every session, before every command, the journal tells the greeting, the envelope and the
      BDAT sequence. */
  lemma JournalTells(cfg: Config, h: Handler, tls: bool, net: Net, i: nat)
    requires Representable(cfg) && i < |Steps(cfg, h, Start(cfg, tls), net)|
    ensures var steps := Steps(cfg, h, Start(cfg, tls), net);
            && Matches(JournalOf(tls, steps[..i]), steps[i].before)
            && Executed(steps[i], cfg, h) && InPhase(cfg, steps[i].before)
  {
    var steps := Steps(cfg, h, Start(cfg, tls), net);
    StartInv(cfg, tls);
    StartFaithful(cfg, h, tls);
    GoodIsKept(cfg, h);
    EveryStep(cfg, h, Start(cfg, tls), net, s => Good(cfg, h, s));
    StepsLinked(cfg, h, Start(cfg, tls), net);
    hide Steps;
    hide Exec;
    assert forall k :: 0 <= k <= i ==> steps[k] in steps;
    assert forall k :: 0 <= k <= i ==> InPhase(cfg, steps[k].before) && Executed(steps[k], cfg, h);
    JournalFollows(cfg, h, tls, steps, i);
    hide Matches;
    hide InPhase;
  }

  // ---------------------------------------------------------------- what an entry stands for

  /** An open envelope was opened by a MAIL answered 250, and nothing since has closed it or
      opened another. */
  lemma {:induction false} EnvelopeMeans(tls: bool, steps: seq<Step>) returns (k: nat)
    requires JournalOf(tls, steps).env.Some?
    ensures k < |steps| && Opens(steps[k])
    ensures var env := JournalOf(tls, steps).env.value;
            env.from == steps[k].cmd.args.value.from && env.params == steps[k].cmd.args.value.params
    ensures forall m :: k < m < |steps| ==> !Closes(steps[m]) && !Opens(steps[m])
  {
    var n := |steps| - 1;
    var last := steps[n];
    var j := JournalOf(tls, steps[..n]);
    NotedEnvelope(j, last);
    hide Noted;
    hide Closes;
    if Opens(last) {
      k := n;
    } else {
      hide Opens;
      k := EnvelopeMeans(tls, steps[..n]);
    }
  }

  lemma NotedEnvelope(j: Journal, step: Step)
    requires Noted(j, step).env.Some?
    ensures !Closes(step)
    ensures var env := Noted(j, step).env.value;
            if Opens(step) then env.from == step.cmd.args.value.from && env.params == step.cmd.args.value.params
            else j.env.Some? && env.from == j.env.value.from && env.params == j.env.value.params
  {
  }

  /** The recipients of the open envelope are those of the RCPTs answered 250 since. */
  function RcptsTaken(steps: seq<Step>): seq<Bytes> {
    if steps == [] then []
    else
      var last := steps[|steps| - 1];
      RcptsTaken(steps[..|steps| - 1]) + if last.cmd.RCPT? && CodeOf(last) == 250 then [last.cmd.to] else []
  }

  /** A greeting that holds was given by a HELO or EHLO answered 250, and since then no other was
      and TLS was not switched on. */
  lemma {:induction false} GreetingMeans(tls: bool, steps: seq<Step>) returns (k: nat)
    requires JournalOf(tls, steps).greeting != ""
    ensures k < |steps| && Greets(steps[k]) && steps[k].cmd.domain == JournalOf(tls, steps).greeting
    ensures forall m :: k < m < |steps| ==> !Greets(steps[m]) && !Secures(steps[m])
  {
    var n := |steps| - 1;
    var last := steps[n];
    if Greets(last) && !Secures(last) {
      k := n;
    } else {
      k := GreetingMeans(tls, steps[..n]);
    }
  }

  // ---------------------------------------------------------------- over whole sessions

  /** When a body is handed over, its envelope is the one of the last MAIL answered 250, and there
      has been no RSET, no new greeting, no TLS and no DATA or completed BDAT since; its
      recipients are, in order, those of the RCPTs answered 250 since. */
  lemma EnvelopeSinceMail(cfg: Config, h: Handler, tls: bool, net: Net, j: nat) returns (i: nat, k: nat)
    requires Representable(cfg)
    requires j < |Serve(cfg, h, Start(cfg, tls), net).s.calls|
    requires Serve(cfg, h, Start(cfg, tls), net).s.calls[j].Data?
    ensures var steps := Steps(cfg, h, Start(cfg, tls), net);
            var tx := Serve(cfg, h, Start(cfg, tls), net).s.calls[j].tx;
            && k < i < |steps| && |steps[i].before.calls| == j && tx == steps[i].before.tx
            && Opens(steps[k])
            && tx.mailFrom == steps[k].cmd.args.value.from && tx.params == steps[k].cmd.args.value.params
            && tx.accepted == RcptsTaken(steps[k + 1..i])
            && forall m :: k < m < i ==> !Closes(steps[m]) && !Opens(steps[m])
  {
    i := DataHasStep(cfg, h, Start(cfg, tls), net, j);
    JournalTells(cfg, h, tls, net, i);
    var steps := Steps(cfg, h, Start(cfg, tls), net);
    hide Serve;
    hide Steps;
    HandedOverInRcpt(cfg, h, steps[i], Serve(cfg, h, Start(cfg, tls), net).s.calls[j].body);
    hide Exec;
    k := EnvelopeMeans(tls, steps[..i]);
    assert forall m :: k < m < i ==> steps[m] == steps[..i][m];
    EnvelopeRcpts(tls, steps[..i], k);
    assert steps[..i][k + 1..] == steps[k + 1..i];
  }

  lemma HandedOverInRcpt(cfg: Config, h: Handler, step: Step, body: Bytes)
    requires Executed(step, cfg, h) && HandsOver(step, body)
    ensures step.before.phase >= PHASE_MAIL
  {
    StepBody(cfg, h, step, body);
    if step.cmd.BDAT? && step.cmd.chunk.Some? {
      BdatAnswers(cfg, h, step.before, step.net, step.cmd.chunk.value.size, step.cmd.chunk.value.last);
    } else if step.cmd.BDAT? {
      MalformedBdat(cfg, h, step.before, step.net);
    } else if step.before.inBdat {
      SequenceBroken(cfg, h, step.before, step.net, step.cmd);
    } else {
      DataAnswers(cfg, h, step.before, step.net);
    }
    hide Exec;
    hide ReadBody;
    hide OverLimit;
    hide Arrived;
    hide TransactionOver;
    assert step.before.calls + [Call.Data(step.before.tx, body)] != step.before.calls;
  }

  lemma {:induction false} EnvelopeRcpts(tls: bool, steps: seq<Step>, k: nat)
    requires JournalOf(tls, steps).env.Some? && k < |steps| && Opens(steps[k])
    requires forall m :: k < m < |steps| ==> !Closes(steps[m]) && !Opens(steps[m])
    ensures JournalOf(tls, steps).env.value.rcpts == RcptsTaken(steps[k + 1..])
  {
    var n := |steps| - 1;
    var last := steps[n];
    if k == n {
      assert steps[k + 1..] == [];
      NotedOpens(JournalOf(tls, steps[..n]), last);
    } else {
      NotedLater(JournalOf(tls, steps[..n]), last);
      EnvelopeRcpts(tls, steps[..n], k);
      var since := steps[k + 1..];
      assert since[|since| - 1] == last && since[..|since| - 1] == steps[..n][k + 1..];
    }
  }

  lemma NotedOpens(j: Journal, step: Step)
    requires Opens(step) && Noted(j, step).env.Some?
    ensures Noted(j, step).env.value.rcpts == []
  {
  }

  lemma NotedLater(j: Journal, step: Step)
    requires !Opens(step) && !Closes(step) && Noted(j, step).env.Some?
    ensures j.env.Some?
    ensures Noted(j, step).env.value.rcpts
            == j.env.value.rcpts + if step.cmd.RCPT? && CodeOf(step) == 250 then [step.cmd.to] else []
  {
  }

  /** When MAIL is handed on, a greeting was accepted before it, and TLS has not been switched on
      since that greeting. */
  lemma GreetingBeforeMail(cfg: Config, h: Handler, tls: bool, net: Net, j: nat) returns (i: nat, k: nat)
    requires Representable(cfg)
    requires j < |Serve(cfg, h, Start(cfg, tls), net).s.calls|
    requires Serve(cfg, h, Start(cfg, tls), net).s.calls[j].MailFrom?
    ensures var steps := Steps(cfg, h, Start(cfg, tls), net);
            var tx := Serve(cfg, h, Start(cfg, tls), net).s.calls[j].tx;
            && k < i < |steps| && |steps[i].before.calls| == j && steps[i].cmd.MAIL?
            && Greets(steps[k]) && steps[k].cmd.domain == tx.helo
            && forall m :: k < m < i ==> !Greets(steps[m]) && !Secures(steps[m])
  {
    i := CallHasStep(cfg, h, Start(cfg, tls), net, j);
    JournalTells(cfg, h, tls, net, i);
    var steps := Steps(cfg, h, Start(cfg, tls), net);
    hide Serve;
    hide Steps;
    MailAsked(cfg, h, steps[i]);
    hide Exec;
    k := GreetingMeans(tls, steps[..i]);
    assert forall m :: k < m < i ==> steps[m] == steps[..i][m];
  }

  /** A MailFrom callback is made by MAIL, in a session with a greeting. */
  lemma MailAsked(cfg: Config, h: Handler, step: Step)
    requires Executed(step, cfg, h) && |step.out.s.calls| > |step.before.calls|
    requires step.out.s.calls[|step.before.calls|].MailFrom?
    ensures step.cmd.MAIL? && step.before.tx.helo != ""
    ensures step.out.s.calls[|step.before.calls|].tx.helo == step.before.tx.helo
  {
    var cmd, s, net := step.cmd, step.before, step.net;
    NothingChanges(cfg, h, s, net, cmd);
    RsetClears(cfg, h, s, net);
    if cmd.BDAT? && cmd.chunk.Some? {
      BdatAnswers(cfg, h, s, net, cmd.chunk.value.size, cmd.chunk.value.last);
    } else if cmd.BDAT? {
      MalformedBdat(cfg, h, s, net);
    } else if s.inBdat && !cmd.NOOP? && !cmd.QUIT? && !cmd.RSET? {
      SequenceBroken(cfg, h, s, net, cmd);
    } else if cmd.HELO? || cmd.EHLO? {
      GreetingAnswers(cfg, h, s, net, cmd.domain, cmd.EHLO?);
    } else if cmd.STARTTLS? {
      StartTlsAnswers(cfg, h, s, net);
    } else if cmd.MAIL? {
      MailAnswers(cfg, h, s, net, cmd.args);
    } else if cmd.RCPT? {
      RcptAnswers(cfg, h, s, net, cmd.to);
    } else if cmd.DATA? {
      DataAnswers(cfg, h, s, net);
    }
    hide Exec;
    hide ReadBody;
    hide OverLimit;
    hide Arrived;
    hide TransactionOver;
    hide SizeAdmitted;
    hide PrintableDomain;
    hide GoodRecipient;
    hide ParseInt64;
    hide EhloLines;
    hide SevenBit;
    hide EightBitAnnounced;
  }

  /** Whether a MAIL is handed on, from the journal: it is greeted, protected if that is required,
      and nothing is open; and the size is admitted. */
  lemma MailReaches(cfg: Config, h: Handler, tls: bool, net: Net, i: nat)
    requires Representable(cfg) && i < |Steps(cfg, h, Start(cfg, tls), net)|
    requires Steps(cfg, h, Start(cfg, tls), net)[i].cmd.MAIL?
    ensures var steps := Steps(cfg, h, Start(cfg, tls), net);
            var j, args := JournalOf(tls, steps[..i]), steps[i].cmd.args;
            steps[i].out.s.calls != steps[i].before.calls
            <==> && j.greeting != "" && (cfg.requireTLS ==> j.tls) && j.env.None? && !j.sequence
                 && args.Some? && SizeAdmitted(cfg, args.value.params)
  {
    JournalTells(cfg, h, tls, net, i);
    hide Steps;
    var step := Steps(cfg, h, Start(cfg, tls), net)[i];
    if step.before.inBdat {
      SequenceBroken(cfg, h, step.before, step.net, step.cmd);
    } else {
      MailAnswers(cfg, h, step.before, step.net, step.cmd.args);
    }
    hide Exec;
    hide SizeAdmitted;
    hide ParseInt64;
    hide JournalOf;
  }
}

/** Exactly when a shutdown leaves a beginning of the sequential run. A reader that notices the
    shutdown while it holds an over-long line discards the line and reads on, unlike for every
    other command; a later command can still be queued and answered. */
module DroppedLine {
  import opened Text
  import opened Lines
  import opened Body
  import opened Commands
  import opened Session
  import opened Invariants
  import opened Replies
  import opened Framing
  import opened Scripts
  import opened Runs
  import opened Pipeline
  import opened Refinement

  /** Some over-long line is followed by another command. */
  predicate LongLineBeforeCommand(cmds: seq<Cmd>) {
    exists i :: 0 <= i < |cmds| - 1 && LongThenOther(cmds, i)
  }

  predicate LongThenOther(cmds: seq<Cmd>, i: nat)
    requires i < |cmds| - 1
  {
    cmds[i].TOOLONG? && !cmds[i + 1].TOOLONG?
  }

  /** At every moment of every schedule, with or without a shutdown, the session has done a
      beginning of the sequential run. */
  ghost predicate AlwaysBegins(cfg: Config, h: Handler, s: Session, net: Net) {
    forall actions :: CanRun(cfg, h, Init(s, net), actions)
      ==> Begins(Run(cfg, h, Init(s, net), actions), Serve(cfg, h, s, net).s)
  }

  // ---------------------------------------------------------------- inputs without such a line

  predicate AllLong(cmds: seq<Cmd>) {
    forall i :: 0 <= i < |cmds| ==> cmds[i].TOOLONG?
  }

  lemma {:induction false} LongToTheEnd(cmds: seq<Cmd>)
    requires !LongLineBeforeCommand(cmds) && cmds != [] && cmds[0].TOOLONG?
    ensures AllLong(cmds)
  {
    if |cmds| > 1 {
      assert !LongThenOther(cmds, 0);
      CalmTail(cmds);
      LongToTheEnd(cmds[1..]);
      assert forall i :: 1 <= i < |cmds| ==> cmds[i] == cmds[1..][i - 1];
    }
  }

  lemma CalmTail(cmds: seq<Cmd>)
    requires !LongLineBeforeCommand(cmds) && cmds != []
    ensures !LongLineBeforeCommand(cmds[1..])
  {
    forall i | 0 <= i < |cmds[1..]| - 1
      ensures !LongThenOther(cmds[1..], i)
    {
      assert !LongThenOther(cmds, i + 1);
    }
  }

  lemma CalmFront(cmds: seq<Cmd>, all: seq<Cmd>)
    requires !LongLineBeforeCommand(all) && cmds <= all
    ensures !LongLineBeforeCommand(cmds)
  {
    forall i | 0 <= i < |cmds| - 1
      ensures !LongThenOther(cmds, i)
    {
      assert !LongThenOther(all, i);
    }
  }

  lemma CalmWithout(cmds: seq<Cmd>, long: Cmd, later: seq<Cmd>)
    requires !LongLineBeforeCommand(cmds + [long] + later) && AllLong(later)
    ensures !LongLineBeforeCommand(cmds + later)
  {
    var all, less := cmds + [long] + later, cmds + later;
    forall i | 0 <= i < |less| - 1
      ensures !LongThenOther(less, i)
    {
      assert !LongThenOther(all, i);
      assert i + 1 >= |cmds| ==> less[i + 1] == later[i + 1 - |cmds|];
    }
  }

  function LongReplies(n: nat): seq<Reply> {
    seq(n, i => Reply(500, [LineTooLong]))
  }

  function AnswerLong(s: Session): Session {
    Said(if s.inBdat then EndTx(s, PHASE_HELO) else s, Some(Reply(500, [LineTooLong])))
  }

  lemma LongExec(cfg: Config, h: Handler, s: Session, net: Net)
    ensures var o := Exec(cfg, h, s, net, TOOLONG);
            !o.ended && o.net == net && Replied(o) == AnswerLong(s)
  {
  }

  lemma TraceStep(cfg: Config, h: Handler, s: Session, net: Net)
    ensures var (cmd, after) := ReadCmd(net);
            if cmd.None? then Sequential(cfg, h, s, net) == Future(Final(s, after), [])
            else
              var o := Exec(cfg, h, s, after, cmd.value);
              Sequential(cfg, h, s, net)
              == After(cmd.value, if o.ended then Future(Final(Replied(o), o.net), [])
                                  else Sequential(cfg, h, Replied(o), o.net))
  {
    TraceUnfolds(cfg, h, s, net);
    hide Trace;
    hide Exec;
    hide ReadCmd;
  }

  /** Where only over-long lines follow, the state they meet does not matter. */
  lemma {:induction false} OnlyLongLines(cfg: Config, h: Handler, s: Session, s': Session, net: Net)
    requires AllLong(Sequential(cfg, h, s', net).cmds)
    ensures var f := Sequential(cfg, h, s, net);
            && f.cmds == Sequential(cfg, h, s', net).cmds
            && f.end.s.calls == s.calls && f.end.s.postcats == s.postcats
            && f.end.s.replies == s.replies + LongReplies(|f.cmds|)
    decreases NetSize(net)
  {
    hide Sequential;
    TraceStep(cfg, h, s, net);
    TraceStep(cfg, h, s', net);
    var (cmd, after) := ReadCmd(net);
    ReadCmdShrinks(net);
    hide ReadCmd;
    if cmd.None? {
      assert s.replies + LongReplies(0) == s.replies;
    } else {
      assert Sequential(cfg, h, s', net).cmds[0] == cmd.value;
      LongExec(cfg, h, s, after);
      LongExec(cfg, h, s', after);
      hide Exec;
      var later := Sequential(cfg, h, AnswerLong(s'), after).cmds;
      assert Sequential(cfg, h, s', net).cmds[1..] == later;
      OnlyLongLines(cfg, h, AnswerLong(s), AnswerLong(s'), after);
      hide AllLong;
      OneAndMore(s.replies, |later|);
    }
  }

  lemma OneAndMore(replies: seq<Reply>, n: nat)
    ensures replies + [Reply(500, [LineTooLong])] + LongReplies(n) == replies + LongReplies(n + 1)
  {
  }

  /** An over-long line that is not followed by anything else can be left out. */
  lemma {:induction false} LeavingOut(cfg: Config, h: Handler, s: Session, net: Net, cmds: seq<Cmd>)
    returns (later: seq<Cmd>)
    requires AllOrdinary(cmds) && !LongLineBeforeCommand(Rest(cfg, h, s, net, cmds + [TOOLONG], true).cmds)
    ensures var less, all := Rest(cfg, h, s, net, cmds, true), Rest(cfg, h, s, net, cmds + [TOOLONG], true);
            && Extends(less.end.s, all.end.s) && AllLong(later)
            && less.cmds == cmds + later && all.cmds == cmds + [TOOLONG] + later
    decreases |cmds|
  {
    var all := Rest(cfg, h, s, net, cmds + [TOOLONG], true);
    if cmds == [] {
      LongExec(cfg, h, s, net);
      hide Exec;
      hide Sequential;
      hide LongLineBeforeCommand;
      assert cmds + [TOOLONG] == [TOOLONG];
      assert [TOOLONG][1..] == [];
      assert all == After(TOOLONG, Sequential(cfg, h, AnswerLong(s), net));
      later := LeavingOutNow(cfg, h, s, net);
    } else {
      ExecNet(cfg, h, s, net, cmds[0]);
      hide Exec;
      hide Sequential;
      var o := Exec(cfg, h, s, net, cmds[0]);
      assert (cmds + [TOOLONG])[1..] == cmds[1..] + [TOOLONG];
      assert all.cmds[1..] == Rest(cfg, h, Replied(o), net, cmds[1..] + [TOOLONG], true).cmds;
      CalmTail(all.cmds);
      hide LongLineBeforeCommand;
      later := LeavingOut(cfg, h, Replied(o), net, cmds[1..]);
      assert [cmds[0]] + (cmds[1..] + later) == cmds + later;
      assert [cmds[0]] + (cmds[1..] + [TOOLONG] + later) == cmds + [TOOLONG] + later;
    }
  }

  lemma LeavingOutNow(cfg: Config, h: Handler, s: Session, net: Net) returns (later: seq<Cmd>)
    requires !LongLineBeforeCommand([TOOLONG] + Sequential(cfg, h, AnswerLong(s), net).cmds)
    ensures var less, all := Sequential(cfg, h, s, net), Sequential(cfg, h, AnswerLong(s), net);
            && Extends(less.end.s, all.end.s) && AllLong(later) && less.cmds == later && all.cmds == later
  {
    hide Sequential;
    hide LongLineBeforeCommand;
    later := Sequential(cfg, h, AnswerLong(s), net).cmds;
    var cmds := [TOOLONG] + later;
    LongToTheEnd(cmds);
    assert forall i :: 0 <= i < |later| ==> later[i] == cmds[i + 1];
    OnlyLongLines(cfg, h, s, AnswerLong(s), net);
    OnlyLongLines(cfg, h, AnswerLong(s), AnswerLong(s), net);
    OneFewer(s.replies, |later|);
  }

  lemma OneFewer(replies: seq<Reply>, n: nat)
    ensures replies + LongReplies(n) <= replies + [Reply(500, [LineTooLong])] + LongReplies(n)
  {
  }

  /** The session is a beginning of `whole` and stays one; and no over-long line still to be
      handled is followed by another command. */
  predicate Steady(cfg: Config, h: Handler, c: System, whole: Session) {
    if c.worker == Exited(ByShutdown) then Begins(c, whole)
    else Extends(Ahead(cfg, h, c).end.s, whole) && !LongLineBeforeCommand(Ahead(cfg, h, c).cmds)
  }

  lemma SkipIsSteady(cfg: Config, h: Handler, c: System)
    requires Safe(c) && Enabled(c, SkipSend) && !Over(c) && !LongLineBeforeCommand(Ahead(cfg, h, c).cmds)
    ensures var all, less := Ahead(cfg, h, c), Ahead(cfg, h, Fire(cfg, h, c, SkipSend));
            Extends(less.end.s, all.end.s) && !LongLineBeforeCommand(less.cmds)
  {
    hide Rest;
    hide LongLineBeforeCommand;
    if c.reader.cmd.TOOLONG? {
      var c' := Fire(cfg, h, c, SkipSend);
      FireSafe(cfg, h, c, SkipSend);
      PendingIsOrdinary(c);
      AheadWhenActive(cfg, h, c);
      AheadWhenActive(cfg, h, c');
      assert Pending(c) + [] == Pending(c);
      assert Current(c') == Current(c) && c'.net == c.net && Pending(c') == Pending(c);
      hide Ahead;
      hide Safe;
      var later := LeavingOut(cfg, h, Current(c), c.net, Pending(c));
      CalmWithout(Pending(c), TOOLONG, later);
    } else {
      StoppingShortens(cfg, h, c);
      CalmFront(Ahead(cfg, h, c.(reader := Stopped)).cmds, Ahead(cfg, h, c).cmds);
    }
    hide Exec;
    hide ReadCmd;
  }

  lemma ActIsSteady(cfg: Config, h: Handler, c: System, a: Action)
    requires Safe(c) && Enabled(c, a) && !Over(c) && !a.SeeShutdown?
    requires !LongLineBeforeCommand(Ahead(cfg, h, c).cmds)
    ensures var all, less := Ahead(cfg, h, c), Ahead(cfg, h, Fire(cfg, h, c, a));
            Extends(less.end.s, all.end.s) && !LongLineBeforeCommand(less.cmds)
  {
    hide LongLineBeforeCommand;
    hide Ahead;
    if a.SkipSend? {
      SkipIsSteady(cfg, h, c);
    } else if a.GiveUp? {
      StoppingShortens(cfg, h, c);
      CalmFront(Ahead(cfg, h, c.(reader := Stopped)).cmds, Ahead(cfg, h, c).cmds);
    } else {
      FireConserves(cfg, h, c, a);
      hide Fire;
      var less := Ahead(cfg, h, Fire(cfg, h, c, a));
      if a.Handle? {
        CalmTail(Ahead(cfg, h, c).cmds);
        assert Ahead(cfg, h, c).cmds[1..] == less.cmds;
      }
    }
  }

  lemma FireSteady(cfg: Config, h: Handler, c: System, a: Action, whole: Session)
    requires Safe(c) && Enabled(c, a) && Steady(cfg, h, c, whole)
    ensures Steady(cfg, h, Fire(cfg, h, c, a), whole)
  {
    hide LongLineBeforeCommand;
    hide ReadCmd;
    hide Exec;
    hide Rest;
    if Over(c) {
      OverStays(cfg, h, c, a);
      hide Fire;
    } else if a.SeeShutdown? {
      SeeingIsSteady(cfg, h, c, whole);
      hide Fire;
    } else {
      ActIsSteady(cfg, h, c, a);
      hide Ahead;
    }
  }

  lemma SeeingIsSteady(cfg: Config, h: Handler, c: System, whole: Session)
    requires Enabled(c, SeeShutdown) && Extends(Ahead(cfg, h, c).end.s, whole)
    ensures Steady(cfg, h, Fire(cfg, h, c, SeeShutdown), whole)
  {
    AheadGrows(cfg, h, c);
    hide Ahead;
    hide ReadCmd;
    hide Exec;
    var c' := Fire(cfg, h, c, SeeShutdown);
    assert c'.s.replies[..|c.s.replies|] == c.s.replies;
  }

  lemma {:induction false} RunSteady(cfg: Config, h: Handler, c: System, actions: seq<Action>, whole: Session)
    requires Safe(c) && CanRun(cfg, h, c, actions) && Steady(cfg, h, c, whole)
    ensures Steady(cfg, h, Run(cfg, h, c, actions), whole)
    decreases |actions|
  {
    hide Fire;
    hide Safe;
    hide Steady;
    if actions != [] {
      FireSafe(cfg, h, c, actions[0]);
      FireSteady(cfg, h, c, actions[0], whole);
      RunSteady(cfg, h, Fire(cfg, h, c, actions[0]), actions[1..], whole);
    }
  }

  lemma CalmAlwaysBegins(cfg: Config, h: Handler, s: Session, net: Net)
    requires !LongLineBeforeCommand(Trace(cfg, h, s, net))
    ensures AlwaysBegins(cfg, h, s, net)
  {
    forall actions | CanRun(cfg, h, Init(s, net), actions)
      ensures Begins(Run(cfg, h, Init(s, net), actions), Serve(cfg, h, s, net).s)
    {
      var c := Run(cfg, h, Init(s, net), actions);
      InitSafe(s, net);
      InitAhead(cfg, h, s, net);
      hide LongLineBeforeCommand;
      hide Trace;
      hide Serve;
      RunSteady(cfg, h, Init(s, net), actions, Serve(cfg, h, s, net).s);
      AheadGrows(cfg, h, c);
      hide Ahead;
      hide Run;
      hide CanRun;
    }
  }

  // ---------------------------------------------------------------- inputs with such a line

  lemma {:induction false} RunConcat(cfg: Config, h: Handler, c: System, a: seq<Action>, b: seq<Action>)
    requires CanRun(cfg, h, c, a) && CanRun(cfg, h, Run(cfg, h, c, a), b)
    ensures CanRun(cfg, h, c, a + b) && Run(cfg, h, c, a + b) == Run(cfg, h, Run(cfg, h, c, a), b)
    decreases |a|
  {
    hide Fire;
    hide Enabled;
    if a == [] {
      assert a + b == b;
    } else {
      assert (a + b)[0] == a[0] && (a + b)[1..] == a[1..] + b;
      RunConcat(cfg, h, Fire(cfg, h, c, a[0]), a[1..], b);
    }
  }

  lemma RunOne(cfg: Config, h: Handler, c: System, actions: seq<Action>, a: Action, c': System)
    requires CanRun(cfg, h, c, actions) && Enabled(Run(cfg, h, c, actions), a)
    requires Fire(cfg, h, Run(cfg, h, c, actions), a) == c'
    ensures CanRun(cfg, h, c, actions + [a]) && Run(cfg, h, c, actions + [a]) == c'
  {
    hide Fire;
    hide Enabled;
    var last := Run(cfg, h, c, actions);
    assert [a][1..] == [];
    assert CanRun(cfg, h, last, [a]) && Run(cfg, h, last, [a]) == Fire(cfg, h, last, a);
    RunConcat(cfg, h, c, actions, [a]);
  }

  /** One command read and handled before the next is read. */
  lemma OneCommand(cfg: Config, h: Handler, s: Session, net: Net) returns (actions: seq<Action>)
    requires ReadCmd(net).0.Some? && !Exec(cfg, h, s, ReadCmd(net).1, ReadCmd(net).0.value).ended
    ensures CanRun(cfg, h, Init(s, net), actions)
    ensures var o := Exec(cfg, h, s, ReadCmd(net).1, ReadCmd(net).0.value);
            Run(cfg, h, Init(s, net), actions) == Init(Replied(o), o.net)
  {
    hide Run;
    hide CanRun;
    var (cmd, after) := (ReadCmd(net).0.value, ReadCmd(net).1);
    ExecNet(cfg, h, s, after, cmd);
    hide Exec;
    hide ReadCmd;
    hide NetSize;
    var c := Init(s, net);
    NoActions(cfg, h, c);
    actions := HandleNext(cfg, h, c, []);
    HandledResumes(cfg, h, c);
    if Takeover(cmd) {
      RunOne(cfg, h, c, actions, Resume, Fire(cfg, h, Handled(cfg, h, c), Resume));
      actions := actions + [Resume];
    }
    hide Handled;
    hide Fire;
  }

  /** After a command that does not end the session, the system is as at the start, once a paused
      reader has resumed. */
  lemma HandledResumes(cfg: Config, h: Handler, c: System)
    requires Idle(c) && ReadCmd(c.net).0.Some? && !c.dropped && !c.late && !c.cancelled
    requires !Exec(cfg, h, c.s, ReadCmd(c.net).1, ReadCmd(c.net).0.value).ended
    ensures var cmd := ReadCmd(c.net).0.value;
            var o := Exec(cfg, h, c.s, ReadCmd(c.net).1, cmd);
            if Takeover(cmd) then
              Enabled(Handled(cfg, h, c), Resume) && Fire(cfg, h, Handled(cfg, h, c), Resume) == Init(Replied(o), o.net)
            else Handled(cfg, h, c) == Init(Replied(o), o.net)
  {
    ExecNet(cfg, h, c.s, ReadCmd(c.net).1, ReadCmd(c.net).0.value);
    hide Exec;
    hide ReadCmd;
    hide NetSize;
  }

  lemma NoActions(cfg: Config, h: Handler, c: System)
    ensures CanRun(cfg, h, c, []) && Run(cfg, h, c, []) == c
  {
  }

  /** Neither process is in the middle of anything. */
  predicate Idle(c: System) {
    c.reader.AtLoop? && c.queue == [] && c.resume == 0 && c.worker.Selecting?
  }

  /** The state in which a command has been handled and answered by an idle system, and the
      reader not resumed yet. */
  function Handled(cfg: Config, h: Handler, c: System): System
    requires ReadCmd(c.net).0.Some?
  {
    var (cmd, after) := (ReadCmd(c.net).0.value, ReadCmd(c.net).1);
    var o := Exec(cfg, h, c.s, after, cmd);
    c.(s := Replied(o), net := if Takeover(cmd) then o.net else after,
       reader := if Takeover(cmd) then Paused else if cmd.QUIT? then Stopped else AtLoop,
       resume := if Takeover(cmd) then 1 else 0,
       worker := if o.ended then Exited(ByQuit) else Selecting,
       late := c.late || c.dropped)
  }

  /** The state in which the command has been read and queued. */
  function Queued(c: System): System
    requires ReadCmd(c.net).0.Some?
  {
    var (cmd, after) := (ReadCmd(c.net).0.value, ReadCmd(c.net).1);
    c.(net := after, queue := [cmd],
       reader := if Takeover(cmd) then Paused else if cmd.QUIT? then Stopped else AtLoop,
       late := c.late || c.dropped)
  }

  lemma QueueNext(cfg: Config, h: Handler, start: System, actions: seq<Action>) returns (more: seq<Action>)
    requires CanRun(cfg, h, start, actions) && Idle(Run(cfg, h, start, actions))
    requires ReadCmd(Run(cfg, h, start, actions).net).0.Some?
    ensures CanRun(cfg, h, start, more)
    ensures Run(cfg, h, start, more) == Queued(Run(cfg, h, start, actions))
  {
    hide Run;
    hide CanRun;
    hide Exec;
    hide ReadCmd;
    var c := Run(cfg, h, start, actions);
    var (cmd, after) := (ReadCmd(c.net).0.value, ReadCmd(c.net).1);
    var c1 := c.(reader := Reading(c.net));
    RunOne(cfg, h, start, actions, BeginRead, c1);
    more := actions + [BeginRead];
    var c2 := c1.(net := after, reader := Sending(cmd));
    RunOne(cfg, h, start, more, EndRead, c2);
    more := more + [EndRead];
    assert c2.queue + [cmd] == [cmd];
    RunOne(cfg, h, start, more, Send, Queued(c));
    more := more + [Send];
  }

  lemma HandleNext(cfg: Config, h: Handler, start: System, actions: seq<Action>) returns (more: seq<Action>)
    requires CanRun(cfg, h, start, actions) && Idle(Run(cfg, h, start, actions))
    requires ReadCmd(Run(cfg, h, start, actions).net).0.Some?
    ensures CanRun(cfg, h, start, more)
    ensures Run(cfg, h, start, more) == Handled(cfg, h, Run(cfg, h, start, actions))
  {
    hide Run;
    hide CanRun;
    hide Exec;
    hide ReadCmd;
    var c := Run(cfg, h, start, actions);
    more := QueueNext(cfg, h, start, actions);
    var (cmd, after) := (ReadCmd(c.net).0.value, ReadCmd(c.net).1);
    var o := Exec(cfg, h, c.s, after, cmd);
    var c3 := Queued(c);
    assert [cmd][1..] == [];
    var c4 := c3.(queue := [], worker := Pipeline.Worker.Handling(cmd, after));
    RunOne(cfg, h, start, more, Take, c4);
    more := more + [Take];
    var c5 := c4.(s := o.s, worker := Answering(o.reply, o.ended));
    c5 := if Takeover(cmd) then c5.(net := o.net, resume := 1) else c5;
    RunOne(cfg, h, start, more, Handle, c5);
    more := more + [Handle];
    RunOne(cfg, h, start, more, Answer, Handled(cfg, h, c));
    more := more + [Answer];
  }

  /** Any point of the sequential run can be reached by handling one command after the other. */
  lemma {:induction false} Reaches(cfg: Config, h: Handler, s: Session, net: Net, i: nat)
    returns (actions: seq<Action>, s': Session, net': Net)
    requires i < |Trace(cfg, h, s, net)|
    ensures CanRun(cfg, h, Init(s, net), actions) && Run(cfg, h, Init(s, net), actions) == Init(s', net')
    ensures Trace(cfg, h, s', net') == Trace(cfg, h, s, net)[i..]
    ensures Serve(cfg, h, s', net') == Serve(cfg, h, s, net)
    decreases i
  {
    if i == 0 {
      NoActions(cfg, h, Init(s, net));
      actions, s', net' := [], s, net;
    } else {
      TraceStep(cfg, h, s, net);
      var (cmd, after) := ReadCmd(net);
      var o := Exec(cfg, h, s, after, cmd.value);
      hide Trace;
      hide Serve;
      hide Exec;
      hide ReadCmd;
      var first := OneCommand(cfg, h, s, net);
      var later;
      later, s', net' := Reaches(cfg, h, Replied(o), o.net, i - 1);
      assert Trace(cfg, h, s, net)[1..] == Trace(cfg, h, Replied(o), o.net);
      hide Run;
      hide CanRun;
      RunConcat(cfg, h, Init(s, net), first, later);
      actions := first + later;
    }
  }

  /** What a client reads when it has sent an over-long line. */
  predicate SaysTooLong(r: Reply) {
    r.code == 500 && |r.lines| == 1 && TextOf(r.lines[0]) == TextOf(LineTooLong)
  }

  /** The handler never gives the server's answer to an over-long line. */
  ghost predicate OwnWords(h: Handler) {
    forall calls :: h(calls).Some? && h(calls).value.code == 500
      ==> TextOf(h(calls).value.message) != TextOf(LineTooLong)
  }

  /** The first reply to any other command differs from the one to an over-long line. */
  predicate AnswersOtherwise(s: Session, after: Session) {
    |s.replies| < |after.replies| && !SaysTooLong(after.replies[|s.replies|])
  }

  lemma UnknownSaysOther()
    ensures TextOf(NotRecognised) != TextOf(LineTooLong)
  {
    assert TextOf(NotRecognised)[4] == '1' && TextOf(LineTooLong)[4] == '2';
  }

  lemma GreetOther(cfg: Config, h: Handler, s: Session, domain: Bytes, extended: bool)
    requires OwnWords(h)
    ensures Greet(cfg, h, s, domain, extended).0.replies == s.replies
    ensures !SaysTooLong(Greet(cfg, h, s, domain, extended).1)
  {
    hide TextOf;
  }

  lemma MailOther(cfg: Config, h: Handler, s: Session, args: Option<MailArgs>)
    requires OwnWords(h)
    ensures var (after, resp) := Mail(cfg, h, s, args);
            after.replies == s.replies && !SaysTooLong(Reply(resp.code, [resp.message]))
  {
    hide TextOf;
  }

  lemma RcptOther(cfg: Config, h: Handler, s: Session, to: Bytes)
    requires OwnWords(h)
    ensures var (after, resp) := Rcpt(cfg, h, s, to);
            after.replies == s.replies && !SaysTooLong(Reply(resp.code, [resp.message]))
  {
    hide TextOf;
  }

  lemma DataOther(cfg: Config, h: Handler, s: Session, net: Net, read: (BodyResult, Wire))
    ensures AnswersOtherwise(s, Replied(DataCmd(cfg, h, s, net, read)))
  {
    hide TextOf;
  }

  lemma BdatOther(cfg: Config, h: Handler, s: Session, net: Net, chunk: Option<Chunk>)
    requires OwnWords(h)
    ensures AnswersOtherwise(s, Replied(BdatCmd(cfg, h, s, net, chunk)))
  {
    hide TextOf;
    hide WireTake;
    hide Wrap64;
  }

  lemma SecureOther(cfg: Config, s: Session, net: Net)
    ensures AnswersOtherwise(s, Replied(Secure(cfg, s, net)))
  {
    hide TextOf;
  }

  lemma ExecOther(cfg: Config, h: Handler, s: Session, net: Net, cmd: Cmd)
    requires OwnWords(h) && !cmd.TOOLONG?
    ensures AnswersOtherwise(s, Replied(Exec(cfg, h, s, net, cmd)))
  {
    UnknownSaysOther();
    hide TextOf;
    match cmd {
      case HELO(domain) => GreetOther(cfg, h, s, domain, false);
      case EHLO(domain) => GreetOther(cfg, h, s, domain, true);
      case STARTTLS => SecureOther(cfg, s, net);
      case MAIL(args) => MailOther(cfg, h, s, args);
      case RCPT(to) => RcptOther(cfg, h, s, to);
      case DATA => DataOther(cfg, h, s, net, ReadBody(net.wire, cfg.maxMessageSize));
      case BDAT(chunk) => BdatOther(cfg, h, s, net, chunk);
      case _ =>
    }
    hide OwnWords;
    hide Greet;
    hide Mail;
    hide Rcpt;
    hide Secure;
    hide DataCmd;
    hide BdatCmd;
    hide ReadBody;
  }

  /** The server shuts down while the reader holds an over-long line; the reader discards it and
      reads on, and the worker answers the next command before it looks at the shutdown. */
  lemma DropsLine(cfg: Config, h: Handler, s: Session, net: Net) returns (actions: seq<Action>)
    requires ReadCmd(net).0 == Some(TOOLONG)
    ensures CanRun(cfg, h, Init(s, net), actions)
    ensures Run(cfg, h, Init(s, net), actions) == Init(s, ReadCmd(net).1).(cancelled := true, dropped := true)
  {
    hide Run;
    hide CanRun;
    hide Exec;
    hide ReadCmd;
    var left := ReadCmd(net).1;
    var c := Init(s, net);
    NoActions(cfg, h, c);
    actions := [];
    var c1 := c.(reader := Reading(net));
    RunOne(cfg, h, c, actions, BeginRead, c1);
    actions := actions + [BeginRead];
    var c2 := c1.(net := left, reader := Sending(TOOLONG));
    RunOne(cfg, h, c, actions, EndRead, c2);
    actions := actions + [EndRead];
    RunOne(cfg, h, c, actions, Cancel, c2.(cancelled := true));
    actions := actions + [Cancel];
    RunOne(cfg, h, c, actions, SkipSend, Init(s, left).(cancelled := true, dropped := true));
    actions := actions + [SkipSend];
  }

  lemma DropsAndGoesOn(cfg: Config, h: Handler, s: Session, net: Net) returns (actions: seq<Action>)
    requires ReadCmd(net).0 == Some(TOOLONG) && ReadCmd(ReadCmd(net).1).0.Some?
    ensures CanRun(cfg, h, Init(s, net), actions)
    ensures var (cmd, after) := ReadCmd(ReadCmd(net).1);
            var c := Run(cfg, h, Init(s, net), actions);
            c.s == Replied(Exec(cfg, h, s, after, cmd.value)) && c.worker != Exited(ByShutdown)
  {
    hide Run;
    hide CanRun;
    hide Exec;
    hide ReadCmd;
    actions := DropsLine(cfg, h, s, net);
    actions := HandleNext(cfg, h, Init(s, net), actions);
  }

  /** Two sessions that answer differently where they part. */
  lemma Apart(s: Session, other: Session, whole: Session)
    requires AnswersOtherwise(s, other) && Extends(AnswerLong(s), whole)
    ensures !Extends(other, whole)
  {
    var k := |s.replies|;
    assert AnswerLong(s).replies[k] == Reply(500, [LineTooLong]);
  }

  /** Where an over-long line comes just before another command, the reader holds the line with
      the command unread, and the line is answered first. */
  lemma LineHeld(cfg: Config, h: Handler, s: Session, net: Net) returns (cmd: Cmd)
    requires |Trace(cfg, h, s, net)| > 1 && LongThenOther(Trace(cfg, h, s, net), 0)
    ensures ReadCmd(net).0 == Some(TOOLONG) && ReadCmd(ReadCmd(net).1).0 == Some(cmd) && !cmd.TOOLONG?
    ensures Extends(AnswerLong(s), Serve(cfg, h, s, net).s)
  {
    hide Trace;
    hide Serve;
    TraceStep(cfg, h, s, net);
    var held := ReadCmd(net).1;
    LongExec(cfg, h, s, held);
    hide Exec;
    hide ReadCmd;
    TraceStep(cfg, h, AnswerLong(s), held);
    ServeGrows(cfg, h, AnswerLong(s), held);
    hide AnswerLong;
    cmd := Trace(cfg, h, s, net)[1];
    assert Trace(cfg, h, s, net)[1..] == Trace(cfg, h, AnswerLong(s), held);
  }

  /** A schedule that loses the answer to the line and gives the one to the command. */
  lemma LosesAnswer(cfg: Config, h: Handler, s: Session, net: Net, i: nat)
    returns (actions: seq<Action>, s1: Session, left: Net, cmd: Cmd)
    requires i < |Trace(cfg, h, s, net)| - 1 && LongThenOther(Trace(cfg, h, s, net), i)
    ensures CanRun(cfg, h, Init(s, net), actions) && !cmd.TOOLONG?
    ensures var c := Run(cfg, h, Init(s, net), actions);
            c.s == Replied(Exec(cfg, h, s1, left, cmd)) && c.worker != Exited(ByShutdown)
    ensures Extends(AnswerLong(s1), Serve(cfg, h, s, net).s)
  {
    var first, net1;
    first, s1, net1 := Reaches(cfg, h, s, net, i);
    assert LongThenOther(Trace(cfg, h, s1, net1), 0);
    hide *;
    cmd := LineHeld(cfg, h, s1, net1);
    left := ReadCmd(ReadCmd(net1).1).1;
    var second := DropsAndGoesOn(cfg, h, s1, net1);
    RunConcat(cfg, h, Init(s, net), first, second);
    actions := first + second;
  }

  lemma LongLineIsLost(cfg: Config, h: Handler, s: Session, net: Net)
    requires OwnWords(h) && LongLineBeforeCommand(Trace(cfg, h, s, net))
    ensures !AlwaysBegins(cfg, h, s, net)
  {
    var cmds := Trace(cfg, h, s, net);
    var i :| 0 <= i < |cmds| - 1 && LongThenOther(cmds, i);
    hide Trace;
    hide Serve;
    hide Exec;
    hide Run;
    hide CanRun;
    hide OwnWords;
    var actions, s1, left, cmd := LosesAnswer(cfg, h, s, net, i);
    ExecOther(cfg, h, s1, left, cmd);
    Apart(s1, Replied(Exec(cfg, h, s1, left, cmd)), Serve(cfg, h, s, net).s);
    assert !Begins(Run(cfg, h, Init(s, net), actions), Serve(cfg, h, s, net).s);
  }

  /** Exactly when a shutdown is harmless: under every schedule the session does a beginning of
      the sequential run, with one 421 after it if the worker saw the shutdown, if and only if
      the input has no over-long line with another command after it. */
  lemma ShutdownIsPrefixIff(cfg: Config, h: Handler, s: Session, net: Net)
    requires OwnWords(h)
    ensures AlwaysBegins(cfg, h, s, net) <==> !LongLineBeforeCommand(Trace(cfg, h, s, net))
  {
    hide Trace;
    hide LongLineBeforeCommand;
    hide AlwaysBegins;
    if LongLineBeforeCommand(Trace(cfg, h, s, net)) {
      LongLineIsLost(cfg, h, s, net);
    } else {
      CalmAlwaysBegins(cfg, h, s, net);
    }
  }

  /** Such an input: any over-long line, and NOOP. */
  lemma LongLineInput(cfg: Config, h: Handler, s: Session, long: Bytes, tail: Bytes, more: Wire,
                      upgrade: Option<Wire>)
    requires LF !in long && |long| > MAX_LINE
    ensures LongLineBeforeCommand(Trace(cfg, h, s, Net([LineOf(long) + (LineOf("NOOP") + tail)] + more, upgrade)))
  {
    var net := Net([LineOf(long) + (LineOf("NOOP") + tail)] + more, upgrade);
    var left := Net([LineOf("NOOP") + tail] + more, upgrade);
    ReadsLongLine(long, LineOf("NOOP") + tail, more, upgrade);
    ReadsNoop(tail, more, upgrade);
    hide *;
    LongThenNoop(cfg, h, s, net, left);
  }

  lemma ReadsLongLine(long: Bytes, rest: Bytes, more: Wire, upgrade: Option<Wire>)
    requires LF !in long && |long| > MAX_LINE
    ensures ReadCmd(Net([LineOf(long) + rest] + more, upgrade)) == (Some(TOOLONG), Net([rest] + more, upgrade))
  {
    ReadsTerminatedLine(long, rest, more);
  }

  lemma ReadsNoop(tail: Bytes, more: Wire, upgrade: Option<Wire>)
    ensures ReadCmd(Net([LineOf("NOOP") + tail] + more, upgrade)) == (Some(NOOP), Net([tail] + more, upgrade))
  {
    assert LF !in "NOOP" && |"NOOP"| <= MAX_LINE;
    hide *;
    ReadsCommand("NOOP", tail, more, upgrade);
    ParsesNoop();
  }

  lemma LongThenNoop(cfg: Config, h: Handler, s: Session, net: Net, left: Net)
    requires ReadCmd(net) == (Some(TOOLONG), left) && ReadCmd(left).0 == Some(NOOP)
    ensures LongLineBeforeCommand(Trace(cfg, h, s, net))
  {
    hide Trace;
    hide ReadCmd;
    LongExec(cfg, h, s, left);
    hide Exec;
    hide AnswerLong;
    TraceUnfolds(cfg, h, s, net);
    TraceUnfolds(cfg, h, AnswerLong(s), left);
    var cmds := Trace(cfg, h, s, net);
    assert |cmds| > 1 && cmds[0] == TOOLONG && cmds[1] == NOOP;
    assert LongThenOther(cmds, 0);
  }

  // ---------------------------------------------------------------- on the wire

  /** Callbacks, bytes written and postcat writes of `a` are the first ones of `b`. */
  predicate Precedes(a: Session, b: Session) {
    a.calls <= b.calls && RenderAll(a.replies) <= RenderAll(b.replies) && a.postcats <= b.postcats
  }

  /** As `Begins`, of bytes. */
  predicate BeginsInBytes(c: System, whole: Session) {
    if c.worker == Exited(ByShutdown) then
      && c.s.replies != [] && c.s.replies[|c.s.replies| - 1] == Reply(421, [ShuttingDown])
      && Precedes(BeforeShutdown(c.s), whole)
    else Precedes(c.s, whole)
  }

  ghost predicate AlwaysBeginsInBytes(cfg: Config, h: Handler, s: Session, net: Net) {
    forall actions :: CanRun(cfg, h, Init(s, net), actions)
      ==> BeginsInBytes(Run(cfg, h, Init(s, net), actions), Serve(cfg, h, s, net).s)
  }

  lemma ExtendsPrecedes(a: Session, b: Session)
    requires Extends(a, b)
    ensures Precedes(a, b)
  {
    var rest := b.replies[|a.replies|..];
    assert b.replies == a.replies + rest;
    RenderAllConcat(a.replies, rest);
    hide RenderAll;
  }

  lemma CalmBeginsInBytes(cfg: Config, h: Handler, s: Session, net: Net)
    requires AlwaysBegins(cfg, h, s, net)
    ensures AlwaysBeginsInBytes(cfg, h, s, net)
  {
    hide Serve;
    hide Run;
    hide CanRun;
    forall actions | CanRun(cfg, h, Init(s, net), actions)
      ensures BeginsInBytes(Run(cfg, h, Init(s, net), actions), Serve(cfg, h, s, net).s)
    {
      var c := Run(cfg, h, Init(s, net), actions);
      assert Begins(c, Serve(cfg, h, s, net).s);
      ExtendsPrecedes(if c.worker == Exited(ByShutdown) then BeforeShutdown(c.s) else c.s, Serve(cfg, h, s, net).s);
      hide Precedes;
    }
  }

  /** Sessions that answer differently where they part write different bytes. */
  lemma ApartInBytes(s: Session, other: Session, whole: Session)
    requires AnswersOtherwise(s, other) && Extends(s, other) && Extends(AnswerLong(s), whole)
    requires Framed(other.replies[|s.replies|])
    ensures !Precedes(other, whole)
  {
    var k := |s.replies|;
    var r, q := other.replies[k], Reply(500, [LineTooLong]);
    assert other.replies == s.replies + [r] + other.replies[k + 1..];
    assert AnswerLong(s).replies == s.replies + [q];
    assert whole.replies == s.replies + [q] + whole.replies[k + 1..];
    BodyTexts();
    assert Framed(q);
    hide TextOf;
    hide RenderAll;
    hide HeadLine;
    hide Framed;
    if Precedes(other, whole) {
      RepliesPart(s.replies, r, other.replies[k + 1..], q, whole.replies[k + 1..]);
      HeadLineTells(r, q);
    }
  }

  /** The same of the bytes that reach the client, when replies are framed. */
  lemma ShutdownIsPrefixInBytesIff(cfg: Config, h: Handler, s: Session, net: Net)
    requires OwnWords(h) && PoliteHandler(h) && OneLine(cfg.hostname)
    ensures AlwaysBeginsInBytes(cfg, h, s, net) <==> !LongLineBeforeCommand(Trace(cfg, h, s, net))
  {
    var cmds := Trace(cfg, h, s, net);
    hide Trace;
    hide Serve;
    hide Run;
    hide CanRun;
    hide OwnWords;
    hide PoliteHandler;
    hide OneLine;
    if LongLineBeforeCommand(cmds) {
      var i :| 0 <= i < |cmds| - 1 && LongThenOther(cmds, i);
      var actions, s1, left, cmd := LosesAnswer(cfg, h, s, net, i);
      var other := Replied(Exec(cfg, h, s1, left, cmd));
      ExecOther(cfg, h, s1, left, cmd);
      ExecAnswers(cfg, h, s1, left, cmd);
      ExecEvolves(cfg, h, s1, left, cmd);
      FirstAnswerFramed(s1, cmd, other);
      hide Exec;
      ApartInBytes(s1, other, Serve(cfg, h, s, net).s);
      hide Precedes;
      assert !BeginsInBytes(Run(cfg, h, Init(s, net), actions), Serve(cfg, h, s, net).s);
    } else {
      CalmAlwaysBegins(cfg, h, s, net);
      CalmBeginsInBytes(cfg, h, s, net);
    }
  }

  lemma FirstAnswerFramed(s: Session, cmd: Cmd, after: Session)
    requires AnswersOnce(s, cmd, after)
    ensures |s.replies| < |after.replies| && Framed(after.replies[|s.replies|])
  {
    GoAheadFramed();
    hide Framed;
  }
}

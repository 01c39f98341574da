/** Pipelining is invisible (section 3.2 of RFC 2920): under every interleaving, reader and
    worker together behave like the sequential server. */
module Refinement {
  import opened Commands
  import opened Session
  import opened Invariants
  import opened Runs
  import opened Pipeline

  function Cmds(steps: seq<Step>): seq<Cmd> {
    if steps == [] then [] else [steps[0].cmd] + Cmds(steps[1..])
  }

  /** The commands that the sequential server handles, in order. */
  function Trace(cfg: Config, h: Handler, s: Session, net: Net): seq<Cmd> {
    Cmds(Steps(cfg, h, s, net))
  }

  lemma TraceUnfolds(cfg: Config, h: Handler, s: Session, net: Net)
    ensures var (cmd, after) := ReadCmd(net);
            Trace(cfg, h, s, net)
            == match cmd
               case None => []
               case Some(c) =>
                 var o := Exec(cfg, h, s, after, c);
                 [c] + if o.ended then [] else Trace(cfg, h, Replied(o), o.net)
  {
    hide ReadCmd;
    hide Exec;
    hide Steps;
    RunUnfolds(cfg, h, s, net);
    var (cmd, after) := ReadCmd(net);
    if cmd.Some? {
      var o := Exec(cfg, h, s, after, cmd.value);
      var later := if o.ended then [] else Steps(cfg, h, Replied(o), o.net);
      assert Steps(cfg, h, s, net)[1..] == later;
      assert Cmds(Steps(cfg, h, s, net)) == [cmd.value] + Cmds(later);
    }
  }

  /** How a session ends, and the commands it still handles. */
  datatype Future = Future(end: Final, cmds: seq<Cmd>)

  function After(cmd: Cmd, f: Future): Future {
    f.(cmds := [cmd] + f.cmds)
  }

  function Sequential(cfg: Config, h: Handler, s: Session, net: Net): Future {
    Future(Serve(cfg, h, s, net), Trace(cfg, h, s, net))
  }

  /** What the sequential server does with commands already read, and then, if `more`, with
      the bytes still unread. */
  function Rest(cfg: Config, h: Handler, s: Session, net: Net, cmds: seq<Cmd>, more: bool): Future
    decreases |cmds|
  {
    if cmds == [] then (if more then Sequential(cfg, h, s, net) else Future(Final(s, net), []))
    else
      var o := Exec(cfg, h, s, net, cmds[0]);
      After(cmds[0],
            if o.ended then Future(Final(Replied(o), o.net), [])
            else Rest(cfg, h, Replied(o), o.net, cmds[1..], more))
  }

  /** The commands read but not yet taken up by the worker. */
  function Waiting(c: System): seq<Cmd> {
    c.queue + if c.reader.Sending? then [c.reader.cmd] else []
  }

  predicate ReadsMore(c: System) {
    !c.reader.Stopped? && !(c.reader.Sending? && c.reader.cmd.QUIT?)
  }

  /** The end of the session, were the rest of it done sequentially. */
  function Ahead(cfg: Config, h: Handler, c: System): Future {
    match c.worker
    case Selecting => Rest(cfg, h, c.s, c.net, Waiting(c), ReadsMore(c))
    case Handling(cmd, _) => Rest(cfg, h, c.s, c.net, [cmd] + Waiting(c), ReadsMore(c))
    case Answering(reply, ended) =>
      var answered := Said(c.s, reply);
      if ended then Future(Final(answered, c.net), []) else Rest(cfg, h, answered, c.net, Waiting(c), ReadsMore(c))
    case Exited(_) => Future(Final(c.s, c.net), [])
  }

  // ---------------------------------------------------------------- commands that stay off the wire

  /** A command that takes over nothing does the same whatever is unread. */
  lemma ExecLocal(cfg: Config, h: Handler, s: Session, net: Net, other: Net, cmd: Cmd)
    requires !Takeover(cmd)
    ensures Exec(cfg, h, s, net, cmd) == Exec(cfg, h, s, other, cmd).(net := net)
  {
    hide Greet;
    hide Mail;
    hide Rcpt;
    hide Secure;
    hide DataCmd;
    hide BdatCmd;
  }

  lemma ServeReads(cfg: Config, h: Handler, s: Session, net: Net)
    ensures var (cmd, after) := ReadCmd(net);
            Sequential(cfg, h, s, net) == if cmd.None? then Rest(cfg, h, s, after, [], false)
                                          else Rest(cfg, h, s, after, [cmd.value], true)
  {
    TraceUnfolds(cfg, h, s, net);
    hide Trace;
    hide ReadCmd;
    hide Exec;
  }

  /** Reading one command ahead of ordinary ones changes nothing. */
  lemma {:induction false} ReadAhead(cfg: Config, h: Handler, s: Session, net: Net, cmds: seq<Cmd>)
    requires AllOrdinary(cmds)
    ensures var (cmd, after) := ReadCmd(net);
            Rest(cfg, h, s, net, cmds, true)
            == if cmd.None? then Rest(cfg, h, s, after, cmds, false)
               else Rest(cfg, h, s, after, cmds + [cmd.value], true)
    decreases |cmds|
  {
    var (cmd, after) := ReadCmd(net);
    ServeReads(cfg, h, s, net);
    hide ReadCmd;
    hide Serve;
    if cmds == [] {
      if cmd.Some? {
        assert [] + [cmd.value] == [cmd.value];
      }
    } else {
      ExecNet(cfg, h, s, net, cmds[0]);
      ExecNet(cfg, h, s, after, cmds[0]);
      ExecLocal(cfg, h, s, after, net, cmds[0]);
      hide Exec;
      var o := Exec(cfg, h, s, net, cmds[0]);
      ReadAhead(cfg, h, Replied(o), net, cmds[1..]);
      if cmd.Some? {
        assert (cmds + [cmd.value])[1..] == cmds[1..] + [cmd.value];
      }
    }
  }

  lemma RestFirst(cfg: Config, h: Handler, s: Session, net: Net, cmd: Cmd, later: seq<Cmd>, more: bool)
    ensures var o := Exec(cfg, h, s, net, cmd);
            Rest(cfg, h, s, net, [cmd] + later, more)
            == After(cmd, if o.ended then Future(Final(Replied(o), o.net), [])
                          else Rest(cfg, h, Replied(o), o.net, later, more))
  {
    hide Exec;
    hide Sequential;
    assert ([cmd] + later)[1..] == later;
  }

  /** After a QUIT, whether there is more to read does not matter. */
  lemma {:induction false} QuitEnds(cfg: Config, h: Handler, s: Session, net: Net, cmds: seq<Cmd>, a: bool, b: bool)
    requires cmds != [] && cmds[|cmds| - 1].QUIT?
    ensures Rest(cfg, h, s, net, cmds, a) == Rest(cfg, h, s, net, cmds, b)
    decreases |cmds|
  {
    hide Rest;
    ExecNet(cfg, h, s, net, cmds[0]);
    hide Exec;
    hide NetSize;
    var o := Exec(cfg, h, s, net, cmds[0]);
    assert cmds == [cmds[0]] + cmds[1..];
    RestFirst(cfg, h, s, net, cmds[0], cmds[1..], a);
    RestFirst(cfg, h, s, net, cmds[0], cmds[1..], b);
    if |cmds| > 1 {
      QuitEnds(cfg, h, Replied(o), o.net, cmds[1..], a, b);
    }
  }

  // ---------------------------------------------------------------- conservation

  /** Actions that neither shut down nor react to a shutdown. */
  predicate Undisturbed(a: Action) {
    !a.SkipSend? && !a.GiveUp? && !a.SeeShutdown?
  }

  /** The worker has left and the reader may still be reading: the session is over. */
  predicate Over(c: System) {
    c.worker.Exited?
  }

  /** The commands the worker still has to finish when the reader adds none. */
  function Pending(c: System): seq<Cmd> {
    (if c.worker.Handling? then [c.worker.cmd] else []) + c.queue
  }

  function Current(c: System): Session {
    if c.worker.Answering? then Said(c.s, c.worker.reply) else c.s
  }

  lemma AheadWhenStopped(cfg: Config, h: Handler, c: System)
    requires Safe(c) && !Over(c)
    ensures Ahead(cfg, h, c.(reader := Stopped))
            == if c.worker.Answering? && c.worker.ended then Future(Final(Current(c), c.net), [])
               else Rest(cfg, h, Current(c), c.net, Pending(c), false)
  {
    hide Rest;
    assert c.queue + [] == c.queue;
    assert [] + c.queue == c.queue;
  }

  lemma AheadWhenActive(cfg: Config, h: Handler, c: System)
    requires Safe(c) && !Over(c) && !c.reader.Stopped?
    ensures Ahead(cfg, h, c)
            == Rest(cfg, h, Current(c), c.net,
                    Pending(c) + if c.reader.Sending? then [c.reader.cmd] else [], ReadsMore(c))
  {
    hide Rest;
    var extra := if c.reader.Sending? then [c.reader.cmd] else [];
    assert [] + c.queue + extra == c.queue + extra;
    if c.worker.Handling? {
      assert [c.worker.cmd] + c.queue + extra == [c.worker.cmd] + (c.queue + extra);
    }
  }

  lemma EndReadConserves(cfg: Config, h: Handler, c: System)
    requires Safe(c) && c.reader.Reading? && !Over(c)
    ensures Ahead(cfg, h, Fire(cfg, h, c, EndRead)) == Ahead(cfg, h, c)
  {
    var c' := Fire(cfg, h, c, EndRead);
    FireSafe(cfg, h, c, EndRead);
    PendingIsOrdinary(c);
    ReadAhead(cfg, h, Current(c), c.net, Pending(c));
    hide Rest;
    hide Exec;
    hide ReadCmd;
    hide AllOrdinary;
    AheadWhenActive(cfg, h, c);
    assert Pending(c) + [] == Pending(c);
    if c'.reader.Stopped? {
      AheadWhenStopped(cfg, h, c');
    } else {
      AheadWhenActive(cfg, h, c');
      if c'.reader.cmd.QUIT? {
        QuitEnds(cfg, h, Current(c), c'.net, Pending(c) + [c'.reader.cmd], true, false);
      }
    }
    hide Ahead;
  }

  lemma PendingIsOrdinary(c: System)
    requires Safe(c) && ReaderActive(c)
    ensures AllOrdinary(Pending(c))
  {
    QueueIsOrdinary(c);
  }

  lemma SendConserves(cfg: Config, h: Handler, c: System)
    requires Safe(c) && Enabled(c, Send) && !Over(c)
    ensures Ahead(cfg, h, Fire(cfg, h, c, Send)) == Ahead(cfg, h, c)
  {
    hide Rest;
    hide Exec;
    hide ReadCmd;
    var c' := Fire(cfg, h, c, Send);
    assert c'.queue + [] == c.queue + [c.reader.cmd];
  }

  /** Handling is what the sequential server would do now. */
  lemma HandleFires(cfg: Config, h: Handler, c: System)
    requires Safe(c) && Enabled(c, Handle)
    ensures var c' := Fire(cfg, h, c, Handle);
            var o := Exec(cfg, h, c.s, c.net, c.worker.cmd);
            && c'.s == o.s && c'.net == o.net && c'.worker == Answering(o.reply, o.ended)
            && Waiting(c') == Waiting(c) && ReadsMore(c') == ReadsMore(c)
  {
    var cmd := c.worker.cmd;
    ExecNet(cfg, h, c.s, c.net, cmd);
    if !Takeover(cmd) {
      ExecLocal(cfg, h, c.s, c.worker.seen, c.net, cmd);
    }
    hide Exec;
    hide ReadCmd;
    hide NetSize;
    hide AllOrdinary;
  }

  lemma HandleConserves(cfg: Config, h: Handler, c: System)
    requires Safe(c) && Enabled(c, Handle)
    ensures Ahead(cfg, h, c) == After(c.worker.cmd, Ahead(cfg, h, Fire(cfg, h, c, Handle)))
  {
    HandleFires(cfg, h, c);
    RestFirst(cfg, h, c.s, c.net, c.worker.cmd, Waiting(c), ReadsMore(c));
    hide Safe;
    hide Exec;
    hide Rest;
    hide Waiting;
    hide ReadsMore;
    hide After;
    hide Fire;
  }

  lemma TakeConserves(cfg: Config, h: Handler, c: System)
    requires Enabled(c, Take)
    ensures Ahead(cfg, h, Fire(cfg, h, c, Take)) == Ahead(cfg, h, c)
  {
    hide Rest;
    hide Exec;
    hide ReadCmd;
    assert [c.queue[0]] + Waiting(Fire(cfg, h, c, Take)) == Waiting(c);
  }

  lemma OthersConserve(cfg: Config, h: Handler, c: System, a: Action)
    requires Safe(c) && Enabled(c, a) && Undisturbed(a) && !Over(c)
    requires !a.EndRead? && !a.Send? && !a.Handle? && !a.Take?
    ensures Ahead(cfg, h, Fire(cfg, h, c, a)) == Ahead(cfg, h, c)
  {
    hide Exec;
    hide ReadCmd;
    hide Serve;
    assert Waiting(Fire(cfg, h, c, a)) == Waiting(c);
  }

  /** Every undisturbed action leaves the end of the session as it was, and the commands ahead
      too, save the one it handles. */
  lemma FireConserves(cfg: Config, h: Handler, c: System, a: Action)
    requires Safe(c) && Enabled(c, a) && Undisturbed(a) && !Over(c)
    ensures var next := Ahead(cfg, h, Fire(cfg, h, c, a));
            Ahead(cfg, h, c) == if a.Handle? then After(c.worker.cmd, next) else next
  {
    hide Ahead;
    match a {
      case EndRead => EndReadConserves(cfg, h, c);
      case Send => SendConserves(cfg, h, c);
      case Handle => HandleConserves(cfg, h, c);
      case Take => TakeConserves(cfg, h, c);
      case _ => OthersConserve(cfg, h, c, a);
    }
    hide Fire;
  }

  /** Once the worker has left, nothing that it produced changes. */
  lemma OverStays(cfg: Config, h: Handler, c: System, a: Action)
    requires Safe(c) && Enabled(c, a) && Over(c)
    ensures var c' := Fire(cfg, h, c, a);
            && c'.s == c.s && c'.worker == c.worker
            && (!c.worker.how.ByShutdown? ==> c'.net == c.net && a.Cancel?)
  {
    hide ReadCmd;
    hide Exec;
  }

  // ---------------------------------------------------------------- without a shutdown

  lemma {:induction false} RunConserves(cfg: Config, h: Handler, c: System, actions: seq<Action>)
    requires Safe(c) && CanRun(cfg, h, c, actions) && Cancel !in actions && !c.cancelled
    ensures Ahead(cfg, h, Run(cfg, h, c, actions)).end == Ahead(cfg, h, c).end
    ensures !Run(cfg, h, c, actions).cancelled
    decreases |actions|
  {
    if actions != [] {
      var a := actions[0];
      assert a in actions;
      FireSafe(cfg, h, c, a);
      CancelStays(cfg, h, c, a);
      if Over(c) {
        OverStays(cfg, h, c, a);
      } else {
        UndisturbedWithoutCancel(c, a);
        FireConserves(cfg, h, c, a);
      }
      hide Fire;
      hide Safe;
      hide Ahead;
      RunConserves(cfg, h, Fire(cfg, h, c, a), actions[1..]);
    }
  }

  lemma UndisturbedWithoutCancel(c: System, a: Action)
    requires Safe(c) && Enabled(c, a) && !c.cancelled && !Over(c)
    ensures Undisturbed(a)
  {
  }

  lemma {:induction false} RestGrows(cfg: Config, h: Handler, s: Session, net: Net, cmds: seq<Cmd>, more: bool)
    ensures Extends(s, Rest(cfg, h, s, net, cmds, more).end.s)
    decreases |cmds|
  {
    if cmds == [] {
      ServeGrows(cfg, h, s, net);
      hide Serve;
    } else {
      ExecEvolves(cfg, h, s, net, cmds[0]);
      hide Exec;
      hide Serve;
      var o := Exec(cfg, h, s, net, cmds[0]);
      if !o.ended {
        RestGrows(cfg, h, Replied(o), o.net, cmds[1..], more);
      }
    }
  }

  /** What has been done so far is the beginning of the whole. */
  lemma AheadGrows(cfg: Config, h: Handler, c: System)
    ensures Extends(c.s, Ahead(cfg, h, c).end.s)
  {
    hide Rest;
    match c.worker
    case Selecting => RestGrows(cfg, h, c.s, c.net, Waiting(c), ReadsMore(c));
    case Handling(cmd, _) => RestGrows(cfg, h, c.s, c.net, [cmd] + Waiting(c), ReadsMore(c));
    case Answering(reply, _) => RestGrows(cfg, h, Said(c.s, reply), c.net, Waiting(c), ReadsMore(c));
    case Exited(_) =>
  }

  lemma InitAhead(cfg: Config, h: Handler, s: Session, net: Net)
    ensures Ahead(cfg, h, Init(s, net)) == Sequential(cfg, h, s, net)
  {
    hide Serve;
    var none: seq<Cmd> := [];
    assert none + none == none;
  }

  /** Without a shutdown, at every moment of every interleaving the callbacks, replies and
      postcat writes are the first ones of the sequential server; and once the worker has left,
      the whole session and the bytes consumed are those of the sequential server. */
  lemma PipeliningInvisible(cfg: Config, h: Handler, s: Session, net: Net, actions: seq<Action>)
    requires CanRun(cfg, h, Init(s, net), actions) && Cancel !in actions
    ensures var c := Run(cfg, h, Init(s, net), actions);
            var end := Serve(cfg, h, s, net);
            && Extends(c.s, end.s)
            && (c.worker.Exited? ==> c.s == end.s && c.net == end.net)
  {
    var c := Run(cfg, h, Init(s, net), actions);
    InitSafe(s, net);
    RunConserves(cfg, h, Init(s, net), actions);
    InitAhead(cfg, h, s, net);
    AheadGrows(cfg, h, c);
    hide Run;
    hide CanRun;
    hide Serve;
    hide Rest;
  }

  /** Every run that cannot go on has ended the session, and the runs are of bounded length; so
      without a shutdown every schedule ends exactly as the sequential server does. */
  lemma EveryScheduleCompletes(cfg: Config, h: Handler, s: Session, net: Net, actions: seq<Action>)
    requires CanRun(cfg, h, Init(s, net), actions)
    ensures var c := Run(cfg, h, Init(s, net), actions);
            && |actions| <= 8 * NetSize(net) + 4
            && ((forall a :: OwnAction(a) ==> !Enabled(c, a)) ==> c.worker.Exited?)
            && ((forall a :: OwnAction(a) ==> !Enabled(c, a)) && Cancel !in actions
                ==> c.s == Serve(cfg, h, s, net).s && c.net == Serve(cfg, h, s, net).net)
  {
    var c := Run(cfg, h, Init(s, net), actions);
    InitSafe(s, net);
    RunSafe(cfg, h, Init(s, net), actions);
    RunsEnd(cfg, h, Init(s, net), actions);
    hide Safe;
    hide Serve;
    hide Run;
    hide CanRun;
    hide NetSize;
    if !c.worker.Exited? {
      var a := NeverStuck(c);
    }
    if Cancel !in actions {
      PipeliningInvisible(cfg, h, s, net, actions);
    }
  }

  // ---------------------------------------------------------------- with a shutdown

  lemma {:induction false} RestFewer(cfg: Config, h: Handler, s: Session, net: Net, cmds: seq<Cmd>,
                                     more: seq<Cmd>, goesOn: bool)
    ensures var less, all := Rest(cfg, h, s, net, cmds, false), Rest(cfg, h, s, net, cmds + more, goesOn);
            Extends(less.end.s, all.end.s) && less.cmds <= all.cmds
    decreases |cmds|
  {
    hide Exec;
    hide Serve;
    if cmds == [] {
      assert [] + more == more;
      RestGrows(cfg, h, s, net, more, goesOn);
    } else {
      var o := Exec(cfg, h, s, net, cmds[0]);
      assert (cmds + more)[1..] == cmds[1..] + more;
      if !o.ended {
        RestFewer(cfg, h, Replied(o), o.net, cmds[1..], more, goesOn);
      }
    }
  }

  lemma {:induction false} RestLocal(cfg: Config, h: Handler, s: Session, net: Net, other: Net, cmds: seq<Cmd>)
    requires forall i :: 0 <= i < |cmds| ==> !Takeover(cmds[i])
    ensures Rest(cfg, h, s, net, cmds, false).end.s == Rest(cfg, h, s, other, cmds, false).end.s
    decreases |cmds|
  {
    if cmds != [] {
      ExecNet(cfg, h, s, net, cmds[0]);
      ExecNet(cfg, h, s, other, cmds[0]);
      ExecLocal(cfg, h, s, net, other, cmds[0]);
      hide Exec;
      hide Serve;
      var o := Exec(cfg, h, s, net, cmds[0]);
      if !o.ended {
        RestLocal(cfg, h, Replied(o), net, other, cmds[1..]);
      }
    }
  }

  /** After a line was dropped, only what is already queued counts. */
  function Settled(c: System): System {
    if c.dropped then c.(reader := Stopped) else c
  }

  /** The session before the final 421. */
  function BeforeShutdown(s: Session): Session
    requires s.replies != []
  {
    s.(replies := s.replies[..|s.replies| - 1])
  }

  /** What the session has done is a beginning of `whole`, followed by one 421 if the worker saw
      the shutdown. */
  predicate Begins(c: System, whole: Session) {
    if c.worker == Exited(ByShutdown) then
      && c.s.replies != [] && c.s.replies[|c.s.replies| - 1] == Reply(421, [ShuttingDown])
      && Extends(BeforeShutdown(c.s), whole)
    else Extends(c.s, whole)
  }

  /** It is, and with the commands ahead it will be. */
  predicate Explained(cfg: Config, h: Handler, c: System, whole: Session) {
    if c.worker == Exited(ByShutdown) then Begins(c, whole)
    else Extends(Ahead(cfg, h, Settled(c)).end.s, whole)
  }

  lemma SettledSafe(c: System)
    requires Safe(c) && c.dropped
    ensures Safe(Settled(c))
  {
  }

  /** Actions of the worker. */
  predicate ByWorker(a: Action) {
    a.Take? || a.Handle? || a.Answer? || a.SeeClosed?
  }

  lemma WorkerExplains(cfg: Config, h: Handler, c: System, a: Action)
    requires Safe(c) && Enabled(c, a) && !Over(c) && ByWorker(a)
    ensures Ahead(cfg, h, Settled(Fire(cfg, h, c, a))).end == Ahead(cfg, h, Settled(c)).end
  {
    if c.dropped {
      SettledSafe(c);
      FireConserves(cfg, h, Settled(c), a);
    } else {
      FireConserves(cfg, h, c, a);
    }
    hide Ahead;
    hide Exec;
  }

  /** A reader that stops early only shortens what is done. */
  lemma StoppingShortens(cfg: Config, h: Handler, c: System)
    requires Safe(c) && !Over(c) && !c.reader.Stopped?
    ensures var less, all := Ahead(cfg, h, c.(reader := Stopped)), Ahead(cfg, h, c);
            Extends(less.end.s, all.end.s) && less.cmds <= all.cmds
  {
    AheadWhenStopped(cfg, h, c);
    AheadWhenActive(cfg, h, c);
    RestFewer(cfg, h, Current(c), c.net, Pending(c), if c.reader.Sending? then [c.reader.cmd] else [], ReadsMore(c));
    hide Rest;
    hide Ahead;
  }

  lemma EndReadWhenDropped(cfg: Config, h: Handler, c: System)
    requires Safe(c) && c.dropped && c.reader.Reading? && !Over(c)
    ensures Ahead(cfg, h, Settled(Fire(cfg, h, c, EndRead))).end.s == Ahead(cfg, h, Settled(c)).end.s
  {
    hide ReadCmd;
    hide Rest;
    var c' := Fire(cfg, h, c, EndRead);
    if c.queue != [] {
      var n := |c.queue| - 1;
      assert forall i :: 0 <= i < n ==> c.queue[i] == c.queue[..n][i];
    }
    RestLocal(cfg, h, Current(c), c.net, c'.net, Pending(c));
    AheadWhenStopped(cfg, h, c);
    AheadWhenStopped(cfg, h, c.(net := c'.net, reader := Stopped));
    assert Settled(c') == c.(net := c'.net, reader := Stopped);
  }

  lemma DroppedExplains(cfg: Config, h: Handler, c: System, a: Action)
    requires Safe(c) && Enabled(c, a) && !Over(c) && ByReader(a) && c.dropped && !a.Send?
    ensures Ahead(cfg, h, Settled(Fire(cfg, h, c, a))).end.s == Ahead(cfg, h, Settled(c)).end.s
  {
    hide ReadCmd;
    hide Exec;
    hide Rest;
    if a.EndRead? {
      EndReadWhenDropped(cfg, h, c);
      hide Ahead;
    } else {
      assert Settled(Fire(cfg, h, c, a)).(resume := c.resume) == Settled(c);
      hide Safe;
    }
  }

  lemma ReaderExplains(cfg: Config, h: Handler, c: System, a: Action)
    requires Safe(c) && Enabled(c, a) && !Over(c) && ByReader(a) && !Fire(cfg, h, c, a).late
    ensures Extends(Ahead(cfg, h, Settled(Fire(cfg, h, c, a))).end.s, Ahead(cfg, h, Settled(c)).end.s)
  {
    if c.dropped {
      DroppedExplains(cfg, h, c, a);
      hide Settled;
    } else if Undisturbed(a) {
      FireConserves(cfg, h, c, a);
    } else {
      StoppingShortens(cfg, h, c);
    }
    hide Ahead;
    hide Safe;
    hide ReadCmd;
    hide Exec;
  }

  lemma ShutdownExplains(cfg: Config, h: Handler, c: System)
    requires Enabled(c, SeeShutdown)
    ensures var c' := Fire(cfg, h, c, SeeShutdown);
            && c'.worker == Exited(ByShutdown)
            && c'.s.replies != [] && c'.s.replies[|c'.s.replies| - 1] == SHUTDOWN_REPLY
            && BeforeShutdown(c'.s) == c.s && Extends(c.s, Ahead(cfg, h, Settled(c)).end.s)
  {
    AheadGrows(cfg, h, Settled(c));
    hide Ahead;
    hide ReadCmd;
    hide Exec;
    var c' := Fire(cfg, h, c, SeeShutdown);
    assert c'.s.replies[..|c.s.replies|] == c.s.replies;
  }

  /** Once the worker has left, the session is what it will be. */
  lemma OverExplained(cfg: Config, h: Handler, c: System, whole: Session)
    requires Over(c)
    ensures Explained(cfg, h, c, whole) <==> Begins(c, whole)
  {
  }

  lemma FireExplains(cfg: Config, h: Handler, c: System, a: Action, whole: Session)
    requires Safe(c) && Enabled(c, a) && Explained(cfg, h, c, whole) && !Fire(cfg, h, c, a).late
    ensures Explained(cfg, h, Fire(cfg, h, c, a), whole)
  {
    hide Fire;
    hide Safe;
    hide Settled;
    hide Ahead;
    var c' := Fire(cfg, h, c, a);
    if Over(c) {
      OverStays(cfg, h, c, a);
      hide Explained;
      OverExplained(cfg, h, c, whole);
      OverExplained(cfg, h, c', whole);
    } else if a.SeeShutdown? {
      ShutdownExplains(cfg, h, c);
    } else {
      GoingOnExplains(cfg, h, c, a);
      hide Begins;
    }
  }

  lemma CancelExplains(cfg: Config, h: Handler, c: System)
    requires Enabled(c, Cancel)
    ensures Ahead(cfg, h, Settled(Fire(cfg, h, c, Cancel))) == Ahead(cfg, h, Settled(c))
  {
    hide Rest;
    hide Said;
    assert Waiting(Settled(Fire(cfg, h, c, Cancel))) == Waiting(Settled(c));
  }

  /** Only seeing the shutdown leads the worker out by it. */
  lemma StaysIn(cfg: Config, h: Handler, c: System, a: Action)
    requires Safe(c) && Enabled(c, a) && !Over(c) && !a.SeeShutdown?
    ensures Fire(cfg, h, c, a).worker != Exited(ByShutdown)
  {
    hide ReadCmd;
    hide Exec;
    hide Safe;
  }

  lemma GoingOnExplains(cfg: Config, h: Handler, c: System, a: Action)
    requires Safe(c) && Enabled(c, a) && !Over(c) && !a.SeeShutdown? && !Fire(cfg, h, c, a).late
    ensures Extends(Ahead(cfg, h, Settled(Fire(cfg, h, c, a))).end.s, Ahead(cfg, h, Settled(c)).end.s)
    ensures Fire(cfg, h, c, a).worker != Exited(ByShutdown)
  {
    hide Fire;
    hide Settled;
    hide Ahead;
    hide Safe;
    StaysIn(cfg, h, c, a);
    if ByReader(a) {
      ReaderExplains(cfg, h, c, a);
    } else if ByWorker(a) {
      WorkerExplains(cfg, h, c, a);
    } else {
      CancelExplains(cfg, h, c);
    }
  }

  lemma {:induction false} RunExplains(cfg: Config, h: Handler, c: System, actions: seq<Action>, whole: Session)
    requires Safe(c) && CanRun(cfg, h, c, actions) && Explained(cfg, h, c, whole)
    requires !Run(cfg, h, c, actions).late
    ensures Explained(cfg, h, Run(cfg, h, c, actions), whole)
    decreases |actions|
  {
    hide Fire;
    hide Safe;
    hide Explained;
    if actions != [] {
      var next := Fire(cfg, h, c, actions[0]);
      FireSafe(cfg, h, c, actions[0]);
      if next.late {
        LateStays(cfg, h, next, actions[1..]);
      }
      FireExplains(cfg, h, c, actions[0], whole);
      RunExplains(cfg, h, next, actions[1..], whole);
    }
  }

  lemma {:induction false} LateStays(cfg: Config, h: Handler, c: System, actions: seq<Action>)
    requires CanRun(cfg, h, c, actions) && c.late
    ensures Run(cfg, h, c, actions).late
    decreases |actions|
  {
    if actions != [] {
      CancelStays(cfg, h, c, actions[0]);
      hide Fire;
      LateStays(cfg, h, Fire(cfg, h, c, actions[0]), actions[1..]);
    }
  }

  /** Also under a shutdown, what the session has done is a beginning of the sequential run,
      followed by one 421 if the worker saw the shutdown; provided the reader has not queued a
      command after it discarded an over-long line. */
  lemma ShutdownIsPrefix(cfg: Config, h: Handler, s: Session, net: Net, actions: seq<Action>)
    requires CanRun(cfg, h, Init(s, net), actions) && !Run(cfg, h, Init(s, net), actions).late
    ensures Begins(Run(cfg, h, Init(s, net), actions), Serve(cfg, h, s, net).s)
  {
    var c := Run(cfg, h, Init(s, net), actions);
    InitSafe(s, net);
    InitAhead(cfg, h, s, net);
    assert Settled(Init(s, net)) == Init(s, net);
    RunExplains(cfg, h, Init(s, net), actions, Serve(cfg, h, s, net).s);
    AheadGrows(cfg, h, Settled(c));
    hide Run;
    hide CanRun;
    hide Serve;
    hide Ahead;
  }
}

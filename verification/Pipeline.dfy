/** The two processes of a connection. The reader parses commands ahead into a queue of depth
    32 and pauses after DATA, BDAT and STARTTLS; the worker handles the commands in order, and
    for those three uses the reader's own connection before it signals the reader to go on. */
module Pipeline {
  import opened Text
  import opened Commands
  import opened Session

  const QUEUE_DEPTH := 32

  /** `Reading(seen)`: inside a read that began when `seen` was unread. `Sending(cmd)`: about to
      queue a command. `Paused`: waiting for the resume token. `Stopped`: the queue is closed. */
  datatype Reader = AtLoop | Reading(seen: Net) | Sending(cmd: Cmd) | Paused | Stopped

  datatype Exit = ByQuit | ByClose | ByShutdown

  /** `Handling(cmd, seen)`: handling a command since `seen` was unread. `Answering`: the resume
      token, if one is due, is sent and the final reply is not written yet. */
  datatype Worker = Selecting | Handling(cmd: Cmd, seen: Net) | Answering(reply: Option<Reply>, ended: bool)
                  | Exited(how: Exit)

  /** `resume` counts the tokens in the resume channel. `dropped` records that the reader has
      discarded an over-long line because it saw the shutdown, and `late` that it has queued a
      command after that. */
  datatype System = System(s: Session, net: Net, reader: Reader, queue: seq<Cmd>, resume: nat,
                           worker: Worker, cancelled: bool, dropped: bool, late: bool)

  function Init(s: Session, net: Net): System {
    System(s, net, AtLoop, [], 0, Selecting, false, false, false)
  }

  /** One atomic action of the reader, of the worker, or of the server shutting down. A read and
      the handling of a command are two actions each, so the other process can act in between. */
  datatype Action =
    | BeginRead | EndRead | Send | SkipSend | Resume | GiveUp
    | Take | Handle | Answer | SeeClosed | SeeShutdown
    | Cancel

  /** The connection's context is done. */
  predicate Done(c: System) {
    c.cancelled || c.worker.Exited?
  }

  predicate Enabled(c: System, a: Action) {
    match a
    case BeginRead => c.reader.AtLoop?
    case EndRead => c.reader.Reading?
    case Send => c.reader.Sending? && |c.queue| < QUEUE_DEPTH
    case SkipSend => c.reader.Sending? && Done(c)
    case Resume => c.reader.Paused? && c.resume > 0
    case GiveUp => c.reader.Paused? && Done(c)
    case Take => c.worker.Selecting? && c.queue != []
    case Handle => c.worker.Handling? && (Takeover(c.worker.cmd) ==> c.resume < 1)
    case Answer => c.worker.Answering?
    case SeeClosed => c.worker.Selecting? && c.queue == [] && c.reader.Stopped?
    case SeeShutdown => c.worker.Selecting? && c.cancelled
    case Cancel => !c.cancelled
  }

  const SHUTDOWN_REPLY := Reply(421, [ShuttingDown])

  function Fire(cfg: Config, h: Handler, c: System, a: Action): System
    requires Enabled(c, a)
  {
    match a
    case BeginRead => c.(reader := Reading(c.net))
    case EndRead =>
      var (cmd, after) := ReadCmd(c.reader.seen);
      c.(net := after, reader := if cmd.None? then Stopped else Sending(cmd.value))
    case Send =>
      var cmd := c.reader.cmd;
      c.(queue := c.queue + [cmd],
         reader := if Takeover(cmd) then Paused else if cmd.QUIT? then Stopped else AtLoop,
         late := c.late || c.dropped)
    case SkipSend =>
      if c.reader.cmd.TOOLONG? then c.(reader := AtLoop, dropped := true) else c.(reader := Stopped)
    case Resume => c.(resume := c.resume - 1, reader := AtLoop)
    case GiveUp => c.(reader := Stopped)
    case Take => c.(queue := c.queue[1..], worker := Handling(c.queue[0], c.net))
    case Handle =>
      var o := Exec(cfg, h, c.s, c.worker.seen, c.worker.cmd);
      var answering := c.(s := o.s, worker := Answering(o.reply, o.ended));
      if Takeover(c.worker.cmd) then answering.(net := o.net, resume := c.resume + 1) else answering
    case Answer =>
      c.(s := Said(c.s, c.worker.reply), worker := if c.worker.ended then Exited(ByQuit) else Selecting)
    case SeeClosed => c.(worker := Exited(ByClose))
    case SeeShutdown => c.(s := Said(c.s, Some(SHUTDOWN_REPLY)), worker := Exited(ByShutdown))
    case Cancel => c.(cancelled := true)
  }

  /** `actions` can be performed one after the other from `c`. */
  predicate CanRun(cfg: Config, h: Handler, c: System, actions: seq<Action>)
    decreases |actions|
  {
    actions == [] || (Enabled(c, actions[0]) && CanRun(cfg, h, Fire(cfg, h, c, actions[0]), actions[1..]))
  }

  function Run(cfg: Config, h: Handler, c: System, actions: seq<Action>): System
    requires CanRun(cfg, h, c, actions)
    decreases |actions|
  {
    if actions == [] then c else Run(cfg, h, Fire(cfg, h, c, actions[0]), actions[1..])
  }

  // ---------------------------------------------------------------- handing the connection over

  predicate QueuedTakeover(c: System) {
    c.queue != [] && Takeover(c.queue[|c.queue| - 1])
  }

  predicate HandlingTakeover(c: System) {
    c.worker.Handling? && Takeover(c.worker.cmd)
  }

  /** Handovers under way: a takeover command last in the queue, one being handled, or a token. */
  function Handovers(c: System): nat {
    (if QueuedTakeover(c) then 1 else 0) + (if HandlingTakeover(c) then 1 else 0) + c.resume
  }

  predicate Ordinary(cmd: Cmd) {
    !Takeover(cmd) && !cmd.QUIT?
  }

  predicate AllOrdinary(cmds: seq<Cmd>) {
    forall i :: 0 <= i < |cmds| ==> Ordinary(cmds[i])
  }

  /** QUIT has been queued, is being handled, or has been handled. */
  predicate Quitting(c: System) {
    || (c.queue != [] && c.queue[|c.queue| - 1].QUIT?)
    || (c.worker.Handling? && c.worker.cmd.QUIT?)
    || (c.worker.Answering? && c.worker.ended)
    || (c.worker.Exited? && c.worker.how.ByQuit?)
  }

  predicate ReaderActive(c: System) {
    c.reader.AtLoop? || c.reader.Reading? || c.reader.Sending?
  }

  predicate Safe(c: System) {
    && |c.queue| <= QUEUE_DEPTH
    && (c.queue != [] ==> AllOrdinary(c.queue[..|c.queue| - 1]))
    && Handovers(c) <= 1
    && (ReaderActive(c) ==> Handovers(c) == 0)
    && (c.reader.Paused? ==> Handovers(c) == 1)
    && (c.reader.Reading? ==> c.reader.seen == c.net)
    && (HandlingTakeover(c) ==> c.worker.seen == c.net && c.queue == [])
    && (Quitting(c) ==> c.reader.Stopped? && Handovers(c) == 0)
    && (c.worker.Handling? && c.worker.cmd.QUIT? ==> c.queue == [])
    && (c.worker.Answering? && c.worker.ended ==> c.queue == [])
    && (c.worker.Exited? && !c.worker.how.ByShutdown? ==> c.queue == [] && c.reader.Stopped?)
    && (c.worker.Exited? && c.worker.how.ByShutdown? ==> c.cancelled)
    && (c.reader.Stopped? && Handovers(c) == 1 ==> Done(c))
    && (c.dropped ==> c.cancelled)
  }

  lemma InitSafe(s: Session, net: Net)
    ensures Safe(Init(s, net))
  {
  }

  predicate ByReader(a: Action) {
    a.BeginRead? || a.EndRead? || a.Send? || a.SkipSend? || a.Resume? || a.GiveUp?
  }

  lemma QueueIsOrdinary(c: System)
    requires Safe(c) && ReaderActive(c)
    ensures AllOrdinary(c.queue)
  {
    if c.queue != [] {
      var n := |c.queue| - 1;
      assert forall i :: 0 <= i < n ==> c.queue[i] == c.queue[..n][i];
    }
  }

  lemma SendSafe(cfg: Config, h: Handler, c: System)
    requires Safe(c) && Enabled(c, Send)
    ensures Safe(Fire(cfg, h, c, Send))
  {
    hide ReadCmd;
    hide Exec;
    QueueIsOrdinary(c);
    hide AllOrdinary;
    var c' := Fire(cfg, h, c, Send);
    var n := |c.queue|;
    assert |c'.queue| == n + 1;
    assert c'.queue[n] == c.reader.cmd;
    assert c'.queue[..n] == c.queue;
  }

  lemma ReaderSafe(cfg: Config, h: Handler, c: System, a: Action)
    requires Safe(c) && Enabled(c, a) && ByReader(a)
    ensures Safe(Fire(cfg, h, c, a))
  {
    hide ReadCmd;
    hide Exec;
    if a.Send? {
      SendSafe(cfg, h, c);
      hide Fire;
      hide Safe;
    } else {
      assert Fire(cfg, h, c, a).queue == c.queue;
      hide AllOrdinary;
    }
  }

  lemma HandleSafe(cfg: Config, h: Handler, c: System)
    requires Safe(c) && Enabled(c, Handle)
    ensures Safe(Fire(cfg, h, c, Handle))
  {
    ExecNet(cfg, h, c.s, c.worker.seen, c.worker.cmd);
    hide NetSize;
    hide Exec;
    hide AllOrdinary;
  }

  lemma WorkerSafe(cfg: Config, h: Handler, c: System, a: Action)
    requires Safe(c) && Enabled(c, a) && !ByReader(a)
    ensures Safe(Fire(cfg, h, c, a))
  {
    hide ReadCmd;
    hide Exec;
    if a.Handle? {
      HandleSafe(cfg, h, c);
      hide Fire;
      hide Safe;
    }
  }

  /** Every action of either process keeps the handover safe. */
  lemma FireSafe(cfg: Config, h: Handler, c: System, a: Action)
    requires Safe(c) && Enabled(c, a)
    ensures Safe(Fire(cfg, h, c, a))
  {
    hide Safe;
    hide Fire;
    if ByReader(a) {
      ReaderSafe(cfg, h, c, a);
    } else {
      WorkerSafe(cfg, h, c, a);
    }
  }

  lemma {:induction false} RunSafe(cfg: Config, h: Handler, c: System, actions: seq<Action>)
    requires Safe(c) && CanRun(cfg, h, c, actions)
    ensures Safe(Run(cfg, h, c, actions))
    decreases |actions|
  {
    hide Safe;
    hide Fire;
    hide Enabled;
    if actions != [] {
      FireSafe(cfg, h, c, actions[0]);
      RunSafe(cfg, h, Fire(cfg, h, c, actions[0]), actions[1..]);
    }
  }

  /** In every reachable state at most one process is using the connection's reader; while the
      reader is paused there is exactly one of a takeover command last in the queue, one being
      handled, or a token; no send of a token can block, and no token outlives its pause. */
  lemma HandoffSafety(cfg: Config, h: Handler, s: Session, net: Net, actions: seq<Action>)
    requires CanRun(cfg, h, Init(s, net), actions)
    ensures var c := Run(cfg, h, Init(s, net), actions);
            && !(c.reader.Reading? && HandlingTakeover(c))
            && (c.reader.Paused? ==>
                  || (QueuedTakeover(c) && !HandlingTakeover(c) && c.resume == 0)
                  || (!QueuedTakeover(c) && HandlingTakeover(c) && c.resume == 0)
                  || (!QueuedTakeover(c) && !HandlingTakeover(c) && c.resume == 1))
            && (HandlingTakeover(c) ==> c.resume == 0)
            && (ReaderActive(c) ==> c.resume == 0)
            && |c.queue| <= 32 && (c.reader.Sending? ==> (Enabled(c, Send) <==> |c.queue| < 32))
  {
    InitSafe(s, net);
    RunSafe(cfg, h, Init(s, net), actions);
    hide Run;
    hide CanRun;
  }

  // ---------------------------------------------------------------- progress

  /** An action other than the server's decision to shut down. */
  predicate OwnAction(a: Action) {
    !a.Cancel?
  }

  /** Reader and worker are never both stuck: until the worker has left its loop, one of them
      can act. */
  lemma NeverStuck(c: System) returns (a: Action)
    requires Safe(c) && !c.worker.Exited?
    ensures OwnAction(a) && Enabled(c, a)
  {
    if c.worker.Handling? {
      a := Handle;
    } else if c.worker.Answering? {
      a := Answer;
    } else if c.queue != [] {
      a := Take;
    } else if c.reader.AtLoop? {
      a := BeginRead;
    } else if c.reader.Reading? {
      a := EndRead;
    } else if c.reader.Sending? {
      a := Send;
    } else if c.reader.Paused? {
      a := Resume;
    } else {
      a := SeeClosed;
    }
  }

  function ReaderWork(r: Reader): nat {
    match r
    case AtLoop => 2
    case Reading(_) => 1
    case Sending(_) => 8
    case Paused => 3
    case Stopped => 0
  }

  function WorkerWork(w: Worker): nat {
    match w
    case Selecting => 1
    case Handling(_, _) => 3
    case Answering(_, _) => 2
    case Exited(_) => 0
  }

  /** A bound on the actions reader and worker can still perform. */
  function Work(c: System): nat {
    8 * NetSize(c.net) + ReaderWork(c.reader) + 4 * |c.queue| + WorkerWork(c.worker)
  }

  lemma FireWorks(cfg: Config, h: Handler, c: System, a: Action)
    requires Safe(c) && Enabled(c, a)
    ensures OwnAction(a) ==> Work(Fire(cfg, h, c, a)) < Work(c)
    ensures a.Cancel? ==> Work(Fire(cfg, h, c, a)) == Work(c)
  {
    hide NetSize;
    if a.EndRead? {
      ReadCmdShrinks(c.reader.seen);
    } else if a.Handle? {
      ExecNet(cfg, h, c.s, c.worker.seen, c.worker.cmd);
    }
    hide ReadCmd;
    hide Exec;
  }

  /** Under every scheduling, the two processes perform a bounded number of actions. */
  lemma {:induction false} RunsEnd(cfg: Config, h: Handler, c: System, actions: seq<Action>)
    requires Safe(c) && CanRun(cfg, h, c, actions)
    ensures |actions| <= Work(c) + if c.cancelled then 0 else 1
    decreases |actions|
  {
    hide Safe;
    hide Work;
    if actions != [] {
      FireSafe(cfg, h, c, actions[0]);
      FireWorks(cfg, h, c, actions[0]);
      RunsEnd(cfg, h, Fire(cfg, h, c, actions[0]), actions[1..]);
      CancelStays(cfg, h, c, actions[0]);
    }
    hide Fire;
    hide Enabled;
  }

  lemma CancelStays(cfg: Config, h: Handler, c: System, a: Action)
    requires Enabled(c, a)
    ensures c.late ==> Fire(cfg, h, c, a).late
    ensures Fire(cfg, h, c, a).cancelled == (c.cancelled || a.Cancel?)
    ensures a.Cancel? ==> !c.cancelled
  {
  }
}

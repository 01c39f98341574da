/** How `Serve` admits connections, and how `Shutdown` waits for them: a step system over any
    number of connections, the accept loop and any number of `Shutdown` calls. */
module Admission {
  /** A connection's goroutine: handling the connection; unwinding, with the slot still held;
      with the slot given back; and gone, no longer counted by the wait group. */
  datatype Stage = Handling | Unwinding | Released | Gone

  /** The accept loop: waiting for a connection; having one that is admitted but not counted
      yet; having one that is counted but not started yet; waiting for the connections to finish
      after its listener was closed; and returned, with or without an error. */
  datatype Loop = Accepting | Admitted | Counted | Draining | Returned(ok: bool)

  /** A call of `Shutdown`: waiting; released by the wait group; returned nil; or given up
      because its own context expired. */
  datatype Caller = Waiting | Drained | Nil | Expired

  /** `slots` is the number of tokens in the semaphore, `wg` the counter of the wait group. */
  datatype Server = Server(max: nat, slots: nat, wg: nat, conns: seq<Stage>, loop: Loop,
                           cancelled: bool, callers: seq<Caller>, rejected: nat)

  function Fresh(max: nat): Server {
    Server(max, 0, 0, [], Accepting, false, [], 0)
  }

  datatype Action =
    | Accept | Reject | AcceptFails | Count | Start | LoopDrained
    | Return(i: nat) | Panic(i: nat) | Release(i: nat) | Done(i: nat)
    | Shutdown | Drain(k: nat) | ReturnNil(k: nat) | Expire(k: nat)

  predicate At(s: Server, i: nat, stage: Stage) {
    i < |s.conns| && s.conns[i] == stage
  }

  predicate CallerAt(s: Server, k: nat, c: Caller) {
    k < |s.callers| && s.callers[k] == c
  }

  predicate Enabled(s: Server, a: Action) {
    match a
    case Accept => s.loop.Accepting? && (s.max > 0 ==> s.slots < s.max)
    case Reject => s.loop.Accepting? && s.max > 0 && s.slots >= s.max
    case AcceptFails => s.loop.Accepting?
    case Count => s.loop.Admitted?
    case Start => s.loop.Counted?
    case LoopDrained => s.loop.Draining? && s.wg == 0
    case Return(i) => At(s, i, Handling)
    case Panic(i) => At(s, i, Handling)
    case Release(i) => At(s, i, Unwinding) && (s.max > 0 ==> s.slots > 0)
    case Done(i) => At(s, i, Released) && s.wg > 0
    case Shutdown => true
    case Drain(k) => CallerAt(s, k, Waiting) && s.wg == 0
    case ReturnNil(k) => CallerAt(s, k, Drained)
    case Expire(k) => CallerAt(s, k, Waiting) || CallerAt(s, k, Drained)
  }

  function Fire(s: Server, a: Action): Server
    requires Enabled(s, a)
  {
    match a
    case Accept => s.(slots := if s.max > 0 then s.slots + 1 else s.slots, loop := Admitted)
    case Reject => s.(rejected := s.rejected + 1)
    case AcceptFails => s.(loop := if s.cancelled then Draining else Returned(false))
    case Count => s.(wg := s.wg + 1, loop := Counted)
    case Start => s.(conns := s.conns + [Handling], loop := Accepting)
    case LoopDrained => s.(loop := Returned(true))
    case Return(i) => s.(conns := s.conns[i := Unwinding])
    case Panic(i) => s.(conns := s.conns[i := Unwinding])
    case Release(i) => s.(slots := if s.max > 0 then s.slots - 1 else s.slots, conns := s.conns[i := Released])
    case Done(i) => s.(wg := s.wg - 1, conns := s.conns[i := Gone])
    case Shutdown => s.(cancelled := true, callers := s.callers + [Waiting])
    case Drain(k) => s.(callers := s.callers[k := Drained])
    case ReturnNil(k) => s.(callers := s.callers[k := Nil])
    case Expire(k) => s.(callers := s.callers[k := Expired])
  }

  predicate CanRun(s: Server, actions: seq<Action>)
    decreases |actions|
  {
    actions == [] || (Enabled(s, actions[0]) && CanRun(Fire(s, actions[0]), actions[1..]))
  }

  function Run(s: Server, actions: seq<Action>): Server
    requires CanRun(s, actions)
    decreases |actions|
  {
    if actions == [] then s else Run(Fire(s, actions[0]), actions[1..])
  }

  // ---------------------------------------------------------------- counting

  predicate HoldsSlot(stage: Stage) {
    stage.Handling? || stage.Unwinding?
  }

  /** Connections that hold a slot. */
  function Holders(conns: seq<Stage>): nat {
    if conns == [] then 0 else Holders(conns[..|conns| - 1]) + if HoldsSlot(conns[|conns| - 1]) then 1 else 0
  }

  /** Connections that the wait group still counts. */
  function Live(conns: seq<Stage>): nat {
    if conns == [] then 0 else Live(conns[..|conns| - 1]) + if conns[|conns| - 1].Gone? then 0 else 1
  }

  lemma {:induction false} StageChanges(conns: seq<Stage>, i: nat, stage: Stage)
    requires i < |conns|
    ensures Holders(conns[i := stage])
            == Holders(conns) - (if HoldsSlot(conns[i]) then 1 else 0) + if HoldsSlot(stage) then 1 else 0
    ensures Live(conns[i := stage])
            == Live(conns) - (if conns[i].Gone? then 0 else 1) + if stage.Gone? then 0 else 1
  {
    var n := |conns| - 1;
    var changed := conns[i := stage];
    if i == n {
      assert changed[..n] == conns[..n];
    } else {
      assert changed[..n] == conns[..n][i := stage];
      StageChanges(conns[..n], i, stage);
    }
  }

  lemma OneMore(conns: seq<Stage>)
    ensures Holders(conns + [Handling]) == Holders(conns) + 1
    ensures Live(conns + [Handling]) == Live(conns) + 1
  {
    assert (conns + [Handling])[..|conns|] == conns;
  }

  /** Slots are the connections that hold one and the one just admitted; the wait group counts
      the live connections and the one about to start. */
  predicate Accounts(s: Server) {
    && s.slots == (if s.max > 0 then Holders(s.conns) + (if s.loop.Admitted? || s.loop.Counted? then 1 else 0) else 0)
    && (s.max > 0 ==> s.slots <= s.max)
    && s.wg == Live(s.conns) + (if s.loop.Counted? then 1 else 0)
    && (s.loop.Draining? || s.loop == Returned(true) ==> s.cancelled)
    && (s.cancelled <==> s.callers != [])
    && (s.max == 0 ==> s.rejected == 0)
  }

  lemma StageAccounts(s: Server, a: Action, i: nat)
    requires Accounts(s) && Enabled(s, a) && a in {Return(i), Panic(i), Release(i), Done(i)}
    ensures Accounts(Fire(s, a))
  {
    hide Holders;
    hide Live;
    StageChanges(s.conns, i, if a.Release? then Released else if a.Done? then Gone else Unwinding);
  }

  lemma FireAccounts(s: Server, a: Action)
    requires Accounts(s) && Enabled(s, a)
    ensures Accounts(Fire(s, a))
  {
    hide Holders;
    hide Live;
    match a {
      case Start => OneMore(s.conns);
      case Return(i) => StageAccounts(s, a, i);
      case Panic(i) => StageAccounts(s, a, i);
      case Release(i) => StageAccounts(s, a, i);
      case Done(i) => StageAccounts(s, a, i);
      case _ =>
    }
  }

  lemma {:induction false} RunAccounts(s: Server, actions: seq<Action>)
    requires Accounts(s) && CanRun(s, actions)
    ensures Accounts(Run(s, actions)) && Run(s, actions).max == s.max
    decreases |actions|
  {
    if actions != [] {
      FireAccounts(s, actions[0]);
      RunAccounts(Fire(s, actions[0]), actions[1..]);
    }
  }

  /** In every run the occupied slots are exactly the connections that hold one, together with
      the one the accept loop is starting, and never more than the limit. */
  lemma SlotsAccounted(max: nat, actions: seq<Action>)
    requires max > 0 && CanRun(Fresh(max), actions)
    ensures var s := Run(Fresh(max), actions);
            && s.slots == Holders(s.conns) + (if s.loop.Admitted? || s.loop.Counted? then 1 else 0)
            && s.slots <= max && Holders(s.conns) <= max
  {
    RunAccounts(Fresh(max), actions);
  }

  /** While the accept loop waits, a connection is admitted if and only if there is no limit or
      fewer connections than the limit hold a slot, and turned away if and only if exactly as many
      as the limit do. */
  lemma AdmitsIffRoom(max: nat, actions: seq<Action>)
    requires CanRun(Fresh(max), actions) && Run(Fresh(max), actions).loop.Accepting?
    ensures var s := Run(Fresh(max), actions);
            && (Enabled(s, Accept) <==> max == 0 || Holders(s.conns) < max)
            && (Enabled(s, Reject) <==> max > 0 && Holders(s.conns) == max)
            && (Enabled(s, Accept) ==> Fire(s, Accept).loop.Admitted?)
            && (Enabled(s, Reject) ==> Fire(s, Reject) == s.(rejected := s.rejected + 1))
  {
    RunAccounts(Fresh(max), actions);
  }

  lemma {:induction false} HolderCounted(conns: seq<Stage>, i: nat)
    requires i < |conns|
    ensures HoldsSlot(conns[i]) ==> Holders(conns) > 0
    ensures !conns[i].Gone? ==> Live(conns) > 0
  {
    var n := |conns| - 1;
    if i < n {
      assert conns[..n][i] == conns[i];
      HolderCounted(conns[..n], i);
    }
  }

  /** Giving back a slot and leaving the wait group never block. */
  lemma UnwindingNeverBlocks(s: Server, i: nat)
    requires Accounts(s) && i < |s.conns|
    ensures At(s, i, Unwinding) ==> Enabled(s, Release(i))
    ensures At(s, i, Released) ==> Enabled(s, Done(i))
  {
    HolderCounted(s.conns, i);
  }

  // ---------------------------------------------------------------- once

  function Occurrences(a: Action, actions: seq<Action>): nat {
    if actions == [] then 0 else (if actions[0] == a then 1 else 0) + Occurrences(a, actions[1..])
  }

  /** How often the slot of connection `i` has been given back when its stage is reached. */
  function Releases(s: Server, i: nat): nat {
    if i < |s.conns| && (s.conns[i].Released? || s.conns[i].Gone?) then 1 else 0
  }

  /** Every slot is given back exactly once: not before its connection has ended, whether by a
      return or by a panic, and before the wait group lets go of it. */
  lemma {:induction false} ReleasedOnce(s: Server, actions: seq<Action>, i: nat)
    requires CanRun(s, actions)
    ensures Releases(s, i) + Occurrences(Release(i), actions) == Releases(Run(s, actions), i)
    decreases |actions|
  {
    if actions != [] {
      var next := Fire(s, actions[0]);
      ReleasedOnce(next, actions[1..], i);
    }
  }

  lemma {:induction false} EndsOnce(s: Server, actions: seq<Action>, i: nat)
    requires CanRun(s, actions)
    ensures (if i < |s.conns| && !s.conns[i].Handling? then 1 else 0)
            + Occurrences(Return(i), actions) + Occurrences(Panic(i), actions)
            == if i < |Run(s, actions).conns| && !Run(s, actions).conns[i].Handling? then 1 else 0
    decreases |actions|
  {
    if actions != [] {
      EndsOnce(Fire(s, actions[0]), actions[1..], i);
    }
  }

  // ---------------------------------------------------------------- shutting down

  predicate AllGone(conns: seq<Stage>) {
    forall i :: 0 <= i < |conns| ==> conns[i].Gone?
  }

  lemma {:induction false} NoneLive(conns: seq<Stage>)
    ensures Live(conns) == 0 <==> AllGone(conns)
  {
    if conns != [] {
      var n := |conns| - 1;
      NoneLive(conns[..n]);
      assert AllGone(conns) <==> AllGone(conns[..n]) && conns[n].Gone? by {
        assert forall i :: 0 <= i < n ==> conns[..n][i] == conns[i];
      }
    }
  }

  /** Nothing that the wait group counts is running. */
  predicate Quiet(s: Server) {
    s.wg == 0 && AllGone(s.conns) && !s.loop.Counted?
  }

  /** The wait group has let the caller go. */
  predicate LetGo(s: Server, k: nat) {
    k < |s.callers| && (s.callers[k].Nil? || s.callers[k].Drained?)
  }

  /** Only at a wait group that stands at zero. */
  lemma LetsGo(s: Server, a: Action, k: nat)
    requires Accounts(s) && Enabled(s, a) && !LetGo(s, k) && LetGo(Fire(s, a), k)
    ensures CallerAt(s, k, Waiting) && Quiet(s)
  {
    NoneLive(s.conns);
    hide Live;
    hide Holders;
    assert a == Drain(k);
  }

  lemma {:induction false} WasDrained(s: Server, actions: seq<Action>, k: nat) returns (m: nat)
    requires Accounts(s) && CanRun(s, actions) && LetGo(Run(s, actions), k) && !LetGo(s, k)
    ensures m <= |actions| && CanRun(s, actions[..m])
    ensures CallerAt(Run(s, actions[..m]), k, Waiting) && Quiet(Run(s, actions[..m]))
    decreases |actions|
  {
    var a := actions[0];
    var next := Fire(s, a);
    FireAccounts(s, a);
    if LetGo(next, k) {
      LetsGo(s, a, k);
      m := 0;
    } else {
      hide Fire;
      hide Accounts;
      hide LetGo;
      m := WasDrained(next, actions[1..], k);
      assert actions[..m + 1][1..] == actions[1..][..m];
      m := m + 1;
    }
  }

  /** When a call of `Shutdown` has returned nil, there was a moment after the call at which the
      wait group stood at zero and every connection started until then had finished. */
  lemma ShutdownWaits(max: nat, actions: seq<Action>, k: nat) returns (m: nat)
    requires CanRun(Fresh(max), actions) && CallerAt(Run(Fresh(max), actions), k, Nil)
    ensures m <= |actions| && CanRun(Fresh(max), actions[..m])
    ensures CallerAt(Run(Fresh(max), actions[..m]), k, Waiting) && Quiet(Run(Fresh(max), actions[..m]))
  {
    m := WasDrained(Fresh(max), actions, k);
  }

  /** `Serve` itself returns nil only when every connection has finished. */
  lemma ServeWaits(max: nat, actions: seq<Action>)
    requires CanRun(Fresh(max), actions) && Run(Fresh(max), actions).loop == Returned(true)
    ensures Quiet(Run(Fresh(max), actions))
  {
    var s := Run(Fresh(max), actions);
    RunAccounts(Fresh(max), actions);
    LoopStaysQuiet(Fresh(max), actions);
    NoneLive(s.conns);
  }

  lemma {:induction false} LoopStaysQuiet(s: Server, actions: seq<Action>)
    requires Accounts(s) && CanRun(s, actions)
    requires s.loop == Returned(true) ==> s.wg == 0
    ensures Run(s, actions).loop == Returned(true) ==> Run(s, actions).wg == 0
    decreases |actions|
  {
    if actions != [] {
      FireAccounts(s, actions[0]);
      LoopStaysQuiet(Fire(s, actions[0]), actions[1..]);
    }
  }

  /** `Serve` returns after its listener has failed once: nil, or on the way to nil, if `Shutdown`
      had been called by then, and the error at once if it had not. */
  lemma {:induction false} ServeResult(s: Server, actions: seq<Action>) returns (m: nat)
    requires Accounts(s) && CanRun(s, actions) && !Closed(s) && Closed(Run(s, actions))
    ensures m < |actions| && actions[m] == AcceptFails && CanRun(s, actions[..m])
    ensures Run(s, actions).loop == Returned(false) <==> Run(s, actions[..m]).callers == []
    decreases |actions|
  {
    var a := actions[0];
    var next := Fire(s, a);
    FireAccounts(s, a);
    if Closed(next) {
      m := 0;
      ResultStays(next, actions[1..]);
    } else {
      m := ServeResult(next, actions[1..]);
      assert actions[..m + 1][1..] == actions[1..][..m];
      m := m + 1;
    }
  }

  lemma {:induction false} ResultStays(s: Server, actions: seq<Action>)
    requires Closed(s) && CanRun(s, actions)
    ensures Run(s, actions).loop == Returned(false) <==> s.loop == Returned(false)
    decreases |actions|
  {
    if actions != [] {
      ResultStays(Fire(s, actions[0]), actions[1..]);
    }
  }

  /** The accept loop is through with its listener. */
  predicate Closed(s: Server) {
    s.loop.Draining? || s.loop.Returned?
  }

  /** Once everything is quiet and the accept loop is through, it stays so: no connection is
      started any more, and every wait for the wait group finds it at zero. */
  lemma {:induction false} QuietForGood(s: Server, actions: seq<Action>)
    requires Accounts(s) && Quiet(s) && Closed(s) && CanRun(s, actions)
    ensures Quiet(Run(s, actions)) && Closed(Run(s, actions)) && Run(s, actions).conns == s.conns
    decreases |actions|
  {
    if actions != [] {
      QuietForGood(Fire(s, actions[0]), actions[1..]);
    }
  }

  /** So a connection that is started after a quiet moment was admitted by a loop that had not
      been through with its listener then. */
  lemma StartedByOpenLoop(max: nat, before: seq<Action>, after: seq<Action>)
    requires CanRun(Fresh(max), before) && Quiet(Run(Fresh(max), before))
    requires CanRun(Run(Fresh(max), before), after)
    requires |Run(Run(Fresh(max), before), after).conns| > |Run(Fresh(max), before).conns|
    ensures !Closed(Run(Fresh(max), before))
  {
    var s := Run(Fresh(max), before);
    RunAccounts(Fresh(max), before);
    if Closed(s) {
      QuietForGood(s, after);
    }
  }

  /** `Shutdown` does not close the listener: after it has returned nil a connection can still be
      admitted and running. */
  lemma AdmittedAfterShutdown(max: nat)
    ensures var actions := [Shutdown, Drain(0), ReturnNil(0), Accept, Count, Start];
            && CanRun(Fresh(max), actions)
            && var s := Run(Fresh(max), actions);
               CallerAt(s, 0, Nil) && At(s, 0, Handling) && s.wg == 1
  {
    var s1 := Fire(Fresh(max), Shutdown);
    var s2 := Fire(s1, Drain(0));
    var s3 := Fire(s2, ReturnNil(0));
    var s4 := Fire(s3, Accept);
    var s5 := Fire(s4, Count);
    var s6 := Fire(s5, Start);
    var actions := [Shutdown, Drain(0), ReturnNil(0), Accept, Count, Start];
    assert actions[1..] == [Drain(0), ReturnNil(0), Accept, Count, Start];
    assert actions[1..][1..] == [ReturnNil(0), Accept, Count, Start];
    assert actions[1..][1..][1..] == [Accept, Count, Start];
    assert actions[1..][1..][1..][1..] == [Count, Start];
    assert actions[1..][1..][1..][1..][1..] == [Start];
    assert actions[1..][1..][1..][1..][1..][1..] == [];
    assert Run(s6, []) == s6;
  }
}

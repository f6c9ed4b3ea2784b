/** No run of the FIFO gets stuck except on a full or an empty ring. */
module FifoProgress {
  import opened Messages
  import opened FifoProtocol
  import opened FifoTheorems

  /** Accesses an operation still has to make; an upper bound for a refused O_NONBLOCK write. */
  function Work(pc: Pc): nat {
    match pc
    case Idle => 0
    case WWait(_) => 9
    case WTry(_) => 8
    case WAsleep(_) => 8
    case WPermit(_) => 7
    case WLocked(_) => 6
    case WStored(_) => 5
    case WAdvanced(_) => 4
    case WCounted(_) => 3
    case WUnlocked(_) => 2
    case RWait => 9
    case RAsleep => 8
    case RPermit => 7
    case RLocked => 6
    case RCopied(_) => 5
    case RAdvanced(_) => 4
    case RCounted(_) => 3
    case RUnlocked(_) => 2
    case FWait => 8
    case FLocked => 7
    case FHead => 6
    case FTail => 5
    case FCount => 4
    case FFree => 3
    case FUsed => 2
  }

  function TotalWork(pcs: seq<Pc>): nat {
    if pcs == [] then 0 else TotalWork(pcs[..|pcs| - 1]) + Work(pcs[|pcs| - 1])
  }

  lemma {:induction false} TotalWorkUpdate(pcs: seq<Pc>, t: nat, pc: Pc)
    requires t < |pcs|
    ensures TotalWork(pcs[t := pc]) == TotalWork(pcs) - Work(pcs[t]) + Work(pc)
  {
    var last := |pcs| - 1;
    if t == last {
      assert pcs[t := pc][..last] == pcs[..last];
    } else {
      assert pcs[t := pc][..last] == pcs[..last][t := pc];
      TotalWorkUpdate(pcs[..last], t, pc);
    }
  }

  lemma MoveDoesWork(s: State, t: nat)
    requires InBounds(s) && t < |s.pcs| && Ready(s, t)
    ensures TotalWork(Move(s, t).pcs) < TotalWork(s.pcs)
  {
    StepsOneThread(s, Advance(t));
    TotalWorkUpdate(s.pcs, t, Move(s, t).pcs[t]);
  }

  predicate NoCalls(acts: seq<Action>) {
    forall i | 0 <= i < |acts| :: acts[i].Advance?
  }

  /** Without new calls, the operations under way end after at most TotalWork accesses, in any order. */
  lemma {:induction false} RunsWithoutCallsEnd(s: State, acts: seq<Action>)
    requires Exec(s, acts).Some?
    requires NoCalls(acts)
    ensures |acts| + TotalWork(Exec(s, acts).value.pcs) <= TotalWork(s.pcs)
  {
    if acts != [] {
      var last := |acts| - 1;
      RunsWithoutCallsEnd(s, acts[..last]);
      MoveDoesWork(Exec(s, acts[..last]).value, acts[last].t);
    }
  }

  ghost predicate Stuck(s: State) {
    forall t | 0 <= t < |s.pcs| :: !Ready(s, t)
  }

  ghost predicate AllWaiting(s: State, writers: bool) {
    forall t | 0 <= t < |s.pcs| :: s.pcs[t].Idle? || if writers then s.pcs[t].WAsleep? else s.pcs[t].RAsleep?
  }

  lemma StuckThreadsOnlyWait(s: State)
    requires Inv(s) && Stuck(s)
    ensures s.lock.None?
    ensures forall t | 0 <= t < |s.pcs| :: s.pcs[t].Idle? || s.pcs[t].WAsleep? || s.pcs[t].RAsleep?
  {
    assert s.lock.Some? ==> Inside(Holder(s)) && Ready(s, s.lock.value);
    forall t | 0 <= t < |s.pcs|
      ensures s.pcs[t].Idle? || s.pcs[t].WAsleep? || s.pcs[t].RAsleep?
    {
      assert !Ready(s, t);
    }
  }

  /**
   * When no thread can move, nobody is in the middle of an operation: either
   * everyone is outside, or only writers wait and the ring is full, or only
   * readers wait and it is empty. A writer and a reader never wait together.
   */
  lemma NoDeadlock(s: State)
    requires Inv(s) && Stuck(s)
    ensures LiveLen(s) == s.count == s.used && s.free + s.used == |s.slots|
    ensures AllWaiting(s, true) || AllWaiting(s, false)
    ensures (exists t :: 0 <= t < |s.pcs| && s.pcs[t].WAsleep?) ==> AllWaiting(s, true) && s.count == |s.slots|
    ensures (exists t :: 0 <= t < |s.pcs| && s.pcs[t].RAsleep?) ==> AllWaiting(s, false) && s.count == 0
  {
    StuckThreadsOnlyWait(s);
    TallyPositive(s.pcs, WriterClaim);
    TallyPositive(s.pcs, WriterSignal);
    TallyPositive(s.pcs, ReaderClaim);
    TallyPositive(s.pcs, ReaderSignal);
    if t :| 0 <= t < |s.pcs| && s.pcs[t].WAsleep? {
      assert !Ready(s, t);
    }
    if t :| 0 <= t < |s.pcs| && s.pcs[t].RAsleep? {
      assert !Ready(s, t);
    }
    forall t | 0 <= t < |s.pcs|
      ensures s.pcs[t].WAsleep? ==> s.free == 0
      ensures s.pcs[t].RAsleep? ==> s.used == 0
    {
      assert !Ready(s, t);
    }
  }

  /** Both halves at once: every flush-free state can be driven to such a resting state. */
  lemma {:induction false} ReachesRest(s: State) returns (acts: seq<Action>)
    requires Inv(s) && FlushIdle(s)
    ensures Exec(s, acts).Some? && Stuck(Exec(s, acts).value)
    ensures NoCalls(acts)
    decreases TotalWork(s.pcs)
  {
    if Stuck(s) {
      acts := [];
    } else {
      var t: nat :| t < |s.pcs| && Ready(s, t);
      KeepsInv(s, Advance(t));
      MoveDoesWork(s, t);
      FlushStaysIdle(s, Advance(t));
      var rest := ReachesRest(Apply(s, Advance(t)));
      acts := [Advance(t)] + rest;
      ExecAppend(s, [Advance(t)], rest);
      assert [Advance(t)][..0] == [];
    }
  }
}

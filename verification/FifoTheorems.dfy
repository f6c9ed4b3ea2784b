/** What every run of the FIFO guarantees: conservation, refinement, order, progress. */
module FifoTheorems {
  import opened Messages
  import opened FifoProtocol
  import Ring
  import Spec = BoundedQueue

  /** A flush is clean when its two sema_init calls catch no permit in flight and nobody asleep. */
  ghost predicate Clean(s: State, a: Action) {
    a.Advance? && a.t < |s.pcs| ==>
      && (s.pcs[a.t].FCount? ==> Tally(s.pcs, WriterClaim) == 0 && Tally(s.pcs, ReaderSignal) == 0 && Sleepers(s.pcs, true) == {})
      && (s.pcs[a.t].FFree? ==> Tally(s.pcs, ReaderClaim) == 0 && Tally(s.pcs, WriterSignal) == 0 && Sleepers(s.pcs, false) == {})
  }

  lemma KeepsInv(s: State, a: Action)
    requires Inv(s) && Enabled(s, a) && Clean(s, a)
    ensures Inv(Apply(s, a))
  {
    KeepsStructure(s, a);
    var r := Apply(s, a);
    StepsOneThread(s, a);
    if a.Advance? && Overwrites(s.pcs[a.t]) {
      DriftChange(s, r, a.t);
      assert s.lock == Some(a.t);
    } else {
      PermitsConserved(s, a);
      if a.Advance? && Inside(s.pcs[a.t]) {
        assert s.lock == Some(a.t);
      } else if s.lock.Some? {
        assert s.lock.value != a.t;
        assert Holder(r) == Holder(s);
      }
    }
  }

  // ---- runs -----------------------------------------------------------------

  /** Every flush of the run was clean. */
  ghost predicate AllClean(s: State, acts: seq<Action>)
    requires Exec(s, acts).Some?
  {
    acts == [] ||
    var last := |acts| - 1;
    AllClean(s, acts[..last]) && Clean(Exec(s, acts[..last]).value, acts[last])
  }

  lemma {:induction false} RunsKeepInv(s: State, acts: seq<Action>)
    requires Inv(s) && Exec(s, acts).Some? && AllClean(s, acts)
    ensures Inv(Exec(s, acts).value)
    ensures |Exec(s, acts).value.slots| == |s.slots|
  {
    if acts != [] {
      var last := |acts| - 1;
      RunsKeepInv(s, acts[..last]);
      KeepsInv(Exec(s, acts[..last]).value, acts[last]);
    }
  }

  /** Mutual exclusion and the ring relation hold in every run, whatever flushes catch. */
  lemma {:induction false} RunsKeepStructure(s: State, acts: seq<Action>)
    requires Structure(s) && Exec(s, acts).Some?
    ensures Structure(Exec(s, acts).value)
  {
    if acts != [] {
      var last := |acts| - 1;
      RunsKeepStructure(s, acts[..last]);
      KeepsStructure(Exec(s, acts[..last]).value, acts[last]);
    }
  }

  /** No flush is being executed. */
  ghost predicate FlushIdle(s: State) {
    forall t | 0 <= t < |s.pcs| :: !IsFlush(s.pcs[t])
  }

  predicate IsFlush(pc: Pc) {
    pc.FWait? || pc.FLocked? || pc.FHead? || pc.FTail? || pc.FCount? || pc.FFree? || pc.FUsed?
  }

  ghost predicate FlushFree(acts: seq<Action>) {
    forall i | 0 <= i < |acts| :: acts[i].Call? ==> !acts[i].op.Flush?
  }

  lemma FlushStaysIdle(s: State, a: Action)
    requires FlushIdle(s) && InBounds(s) && Enabled(s, a) && (a.Call? ==> !a.op.Flush?)
    ensures FlushIdle(Apply(s, a))
  {
  }

  /** A flush-free run never meets a flush, so it is clean without any side condition. */
  lemma {:induction false} FlushFreeRuns(s: State, acts: seq<Action>)
    requires FlushIdle(s) && FlushFree(acts) && Exec(s, acts).Some?
    ensures FlushIdle(Exec(s, acts).value) && AllClean(s, acts)
  {
    if acts != [] {
      var last := |acts| - 1;
      FlushFreeRuns(s, acts[..last]);
      FlushStaysIdle(Exec(s, acts[..last]).value, acts[last]);
    }
  }

  // ---- permit conservation ----------------------------------------------

  /**
   * With no flush under way: every slot is a free permit, a used permit or held
   * by exactly one thread, and `count` is what the read side can account for.
   */
  lemma PermitConservation(s: State)
    requires Inv(s) && FlushIdle(s)
    ensures s.free + s.used
            + Tally(s.pcs, WriterClaim) + Tally(s.pcs, WriterSignal)
            + Tally(s.pcs, ReaderClaim) + Tally(s.pcs, ReaderSignal) == |s.slots|
    ensures s.count == s.used + Tally(s.pcs, ReaderClaim) + Tally(s.pcs, WriterSignal)
    ensures 0 <= s.count <= |s.slots|
  {
  }

  /** The lock holder finds a message to copy, or a slot to fill. */
  lemma HolderHasRoom(s: State, t: nat)
    requires Inv(s) && t < |s.pcs|
    ensures s.pcs[t].RLocked? || s.pcs[t].RCopied? || s.pcs[t].RAdvanced? ==> 1 <= s.count <= |s.slots|
    ensures s.pcs[t].WLocked? || s.pcs[t].WStored? || s.pcs[t].WAdvanced? ==> 0 <= s.count <= |s.slots| - 1
  {
    if Plays(s.pcs[t], ReaderClaim) {
      TallyPositive(s.pcs, ReaderClaim);
    }
    if Plays(s.pcs[t], WriterClaim) {
      TallyPositive(s.pcs, WriterClaim);
    }
  }

  /** keycipher_in_write answers -EAGAIN only when no slot could be free, and changes nothing. */
  lemma AgainMeansFull(s: State, t: nat)
    requires Inv(s) && FlushIdle(s) && t < |s.pcs| && s.pcs[t].WTry?
    requires Move(s, t).pcs[t].Idle?
    ensures s.count + Tally(s.pcs, WriterClaim) + Tally(s.pcs, ReaderSignal) == |s.slots|
    ensures Move(s, t) == s.(pcs := s.pcs[t := Idle])
  {
  }

  // ---- refinement of the atomic queue --------------------------------

  /** The number of live slots; one less than count after a reader moved head. */
  function LiveLen(s: State): int {
    var pc := Holder(s);
    if pc.FHead? || pc.FTail? || pc.FCount? || pc.FFree? || pc.FUsed? then 0
    else if pc.RAdvanced? then s.count - 1
    else s.count
  }

  /** The messages in the ring, oldest first. */
  ghost function Live(s: State): seq<Message>
    requires InBounds(s) && LiveLen(s) >= 0
  {
    Ring.Window(s.slots, s.head, LiveLen(s))
  }

  /** Where each program point stands in the atomic specification. */
  function PhaseOf(pc: Pc): Spec.Phase {
    match pc
    case Idle => Spec.Quiet
    case WWait(m) => Spec.Asked(Spec.Put(m))
    case WTry(m) => Spec.Asked(Spec.Put(m))
    case WAsleep(m) => Spec.Asked(Spec.Put(m))
    case WPermit(m) => Spec.Asked(Spec.Put(m))
    case WLocked(m) => Spec.Asked(Spec.Put(m))
    case WStored(m) => Spec.Asked(Spec.Put(m))
    case WAdvanced(m) => Spec.Asked(Spec.Put(m))
    case WCounted(_) => Spec.Served(Spec.Done)
    case WUnlocked(_) => Spec.Served(Spec.Done)
    case RWait => Spec.Asked(Spec.Get)
    case RAsleep => Spec.Asked(Spec.Get)
    case RPermit => Spec.Asked(Spec.Get)
    case RLocked => Spec.Asked(Spec.Get)
    case RCopied(_) => Spec.Asked(Spec.Get)
    case RAdvanced(m) => Spec.Served(Spec.Got(m))
    case RCounted(m) => Spec.Served(Spec.Got(m))
    case RUnlocked(m) => Spec.Served(Spec.Got(m))
    case FWait => Spec.Asked(Spec.Clear)
    case FLocked => Spec.Asked(Spec.Clear)
    case FHead => Spec.Served(Spec.Done)
    case FTail => Spec.Served(Spec.Done)
    case FCount => Spec.Served(Spec.Done)
    case FFree => Spec.Served(Spec.Done)
    case FUsed => Spec.Served(Spec.Done)
  }

  ghost function Abs(s: State): Spec.Queue
    requires InBounds(s) && LiveLen(s) >= 0
  {
    Spec.Queue(seq(|s.pcs|, t requires 0 <= t < |s.pcs| => PhaseOf(s.pcs[t])), Live(s))
  }

  function RequestOf(op: Op): Spec.Request {
    match op
    case Write(m) => Spec.Put(m)
    case TryWrite(m) => Spec.Put(m)
    case Read => Spec.Get
    case Flush => Spec.Clear
  }

  /** What an action is in the specification: a writer takes effect at count++, a reader when it moves head. */
  function LabelOf(s: State, a: Action): Spec.Label
    requires Enabled(s, a)
  {
    match a
    case Call(t, op) => Spec.Invoke(t, RequestOf(op))
    case Interrupt(t) => Spec.Withdraw(t)
    case Advance(t) =>
      var pc := s.pcs[t];
      if pc.WTry? && s.free == 0 then Spec.Withdraw(t)
      else if pc.WAdvanced? then Spec.Commit(t, Spec.PutIn(pc.m))
      else if pc.WUnlocked? then Spec.Respond(t, Spec.Done)
      else if pc.RCopied? then Spec.Commit(t, Spec.TookOut(pc.m))
      else if pc.RUnlocked? then Spec.Respond(t, Spec.Got(pc.m))
      else if pc.FLocked? then Spec.Commit(t, Spec.Emptied)
      else if pc.FUsed? then Spec.Respond(t, Spec.Done)
      else Spec.Tau
  }

  lemma LiveBounds(s: State)
    requires Inv(s)
    ensures 0 <= LiveLen(s) <= |s.slots|
  {
    if s.lock.Some? {
      HolderHasRoom(s, s.lock.value);
    }
  }

  lemma LiveUnchanged(s: State, r: State)
    requires InBounds(s) && InBounds(r) && LiveLen(s) >= 0 && r.slots == s.slots && r.head == s.head && LiveLen(r) == LiveLen(s)
    ensures Live(r) == Live(s)
  {
  }

  /** No store ever hits a live slot. */
  lemma StoreMissesLiveSlots(s: State, t: nat)
    requires Inv(s) && t < |s.pcs| && s.pcs[t].WLocked?
    ensures 0 <= s.count < |s.slots|
    ensures forall i | 0 <= i < s.count :: Ring.Slot(s.head, i, |s.slots|) != s.tail
    ensures Ring.Window(Move(s, t).slots, s.head, s.count) == Ring.Window(s.slots, s.head, s.count)
  {
    HolderHasRoom(s, t);
    assert Holder(s) == s.pcs[t];
    forall i | 0 <= i < s.count
      ensures Ring.Slot(s.head, i, |s.slots|) != s.tail
    {
      Ring.WrapInjective(s.head + i, s.head + s.count, |s.slots|);
    }
    Ring.WindowUntouched(s.slots, s.head, s.count, s.pcs[t].m);
  }

  /** What the effect named by a label does to the ring contents. */
  ghost predicate EffectIs(before: seq<Message>, l: Spec.Label, after: seq<Message>, cap: nat) {
    if !l.Commit? then after == before
    else match l.effect
      case PutIn(m) => |before| < cap && after == before + [m]
      case TookOut(m) => before != [] && before[0] == m && after == before[1..]
      case Emptied => after == []
  }

  lemma WriterEffect(s: State, t: nat)
    requires Inv(s) && t < |s.pcs| && s.lock == Some(t)
    requires s.pcs[t].WLocked? || s.pcs[t].WStored? || s.pcs[t].WAdvanced? || s.pcs[t].WCounted?
    requires Inv(Move(s, t)) && LiveLen(s) >= 0 && LiveLen(Move(s, t)) >= 0
    ensures EffectIs(Live(s), LabelOf(s, Advance(t)), Live(Move(s, t)), |s.slots|)
  {
    assert Holder(s) == s.pcs[t];
    if s.pcs[t].WLocked? {
      StoreMissesLiveSlots(s, t);
    } else if s.pcs[t].WAdvanced? {
      HolderHasRoom(s, t);
      Ring.WindowAppend(s.slots, s.head, s.count);
    } else {
      LiveUnchanged(s, Move(s, t));
    }
  }

  lemma ReaderEffect(s: State, t: nat)
    requires Inv(s) && t < |s.pcs| && s.lock == Some(t)
    requires s.pcs[t].RLocked? || s.pcs[t].RCopied? || s.pcs[t].RAdvanced? || s.pcs[t].RCounted?
    requires Inv(Move(s, t)) && LiveLen(s) >= 0 && LiveLen(Move(s, t)) >= 0
    ensures EffectIs(Live(s), LabelOf(s, Advance(t)), Live(Move(s, t)), |s.slots|)
  {
    assert Holder(s) == s.pcs[t];
    if s.pcs[t].RCopied? {
      HolderHasRoom(s, t);
      Ring.WindowTail(s.slots, s.head, s.count);
    } else {
      LiveUnchanged(s, Move(s, t));
    }
  }

  /** Threads outside a critical section and flushes. */
  lemma OtherEffect(s: State, a: Action)
    requires Inv(s) && Enabled(s, a)
    requires a.Advance? && Inside(s.pcs[a.t]) ==> IsFlush(s.pcs[a.t])
    requires Inv(Apply(s, a)) && LiveLen(s) >= 0 && LiveLen(Apply(s, a)) >= 0
    ensures EffectIs(Live(s), LabelOf(s, a), Live(Apply(s, a)), |s.slots|)
  {
    var r := Apply(s, a);
    StepsOneThread(s, a);
    if a.Advance? && Inside(s.pcs[a.t]) {
      assert Holder(s) == s.pcs[a.t];
    } else if s.lock.Some? {
      assert s.lock.value != a.t;
      assert Holder(r) == Holder(s);
      LiveUnchanged(s, r);
    } else {
      LiveUnchanged(s, r);
    }
  }

  lemma LiveAfter(s: State, a: Action)
    requires Inv(s) && Enabled(s, a) && Clean(s, a)
    ensures Inv(Apply(s, a)) && LiveLen(s) >= 0 && LiveLen(Apply(s, a)) >= 0
    ensures EffectIs(Live(s), LabelOf(s, a), Live(Apply(s, a)), |s.slots|)
  {
    KeepsInv(s, a);
    LiveBounds(s);
    LiveBounds(Apply(s, a));
    if !a.Advance? || !Inside(s.pcs[a.t]) || IsFlush(s.pcs[a.t]) {
      OtherEffect(s, a);
    } else if s.pcs[a.t].WLocked? || s.pcs[a.t].WStored? || s.pcs[a.t].WAdvanced? || s.pcs[a.t].WCounted? {
      WriterEffect(s, a.t);
    } else {
      ReaderEffect(s, a.t);
    }
  }

  /** The caller's place in the specification moves as the label says. */
  ghost predicate PhaseMoves(before: Spec.Phase, l: Spec.Label, after: Spec.Phase) {
    match l
    case Tau => after == before
    case Invoke(_, req) => before.Quiet? && after == Spec.Asked(req)
    case Respond(_, resp) => before == Spec.Served(resp) && after.Quiet?
    case Withdraw(_) => before.Asked? && !before.req.Clear? && after.Quiet?
    case Commit(_, effect) =>
      before.Asked? &&
      match effect
      case PutIn(m) => before.req == Spec.Put(m) && after == Spec.Served(Spec.Done)
      case TookOut(m) => before.req == Spec.Get && after == Spec.Served(Spec.Got(m))
      case Emptied => before.req == Spec.Clear && after == Spec.Served(Spec.Done)
  }

  lemma PhaseAfterMove(s: State, t: nat)
    requires t < |s.pcs| && Ready(s, t) && InBounds(s)
    ensures PhaseMoves(PhaseOf(s.pcs[t]), LabelOf(s, Advance(t)), PhaseOf(Move(s, t).pcs[t]))
    ensures LabelOf(s, Advance(t)).Tau? || LabelOf(s, Advance(t)).t == t
  {
  }

  lemma PhaseAfter(s: State, a: Action)
    requires Enabled(s, a) && InBounds(s)
    ensures PhaseMoves(PhaseOf(s.pcs[a.t]), LabelOf(s, a), PhaseOf(Apply(s, a).pcs[a.t]))
    ensures LabelOf(s, a).Tau? || LabelOf(s, a).t == a.t
  {
    if a.Advance? {
      PhaseAfterMove(s, a.t);
    }
  }

  /** Every step is exactly the step of the atomic queue that its label names. */
  lemma Simulates(s: State, a: Action)
    requires Inv(s) && Enabled(s, a) && Clean(s, a)
    ensures Inv(Apply(s, a)) && LiveLen(s) >= 0 && LiveLen(Apply(s, a)) >= 0
    ensures Spec.Allowed(|s.slots|, Abs(s), LabelOf(s, a))
    ensures Abs(Apply(s, a)) == Spec.Next(|s.slots|, Abs(s), LabelOf(s, a))
  {
    LiveAfter(s, a);
    PhaseAfter(s, a);
    StepsOneThread(s, a);
    var r := Apply(s, a);
    var l := LabelOf(s, a);
    assert Abs(s).phases[a.t] == PhaseOf(s.pcs[a.t]);
    assert Abs(r).phases == Abs(s).phases[a.t := PhaseOf(r.pcs[a.t])];
  }

  /** The labels of a run. */
  ghost function Trace(s: State, acts: seq<Action>): seq<Spec.Label>
    requires Exec(s, acts).Some?
  {
    if acts == [] then []
    else
      var last := |acts| - 1;
      Trace(s, acts[..last]) + [LabelOf(Exec(s, acts[..last]).value, acts[last])]
  }

  /** Refinement: the specification accepts every run, and ends in the same queue. */
  lemma {:induction false} RefinesAtomicQueue(s: State, acts: seq<Action>)
    requires Inv(s) && Exec(s, acts).Some? && AllClean(s, acts)
    ensures LiveLen(s) >= 0 && Inv(Exec(s, acts).value) && LiveLen(Exec(s, acts).value) >= 0
    ensures Spec.Run(|s.slots|, Abs(s), Trace(s, acts)) == Some(Abs(Exec(s, acts).value))
  {
    RunsKeepInv(s, acts);
    LiveBounds(s);
    LiveBounds(Exec(s, acts).value);
    if acts != [] {
      var last := |acts| - 1;
      RefinesAtomicQueue(s, acts[..last]);
      RunsKeepInv(s, acts[..last]);
      var p := Exec(s, acts[..last]).value;
      Simulates(p, acts[last]);
      var ls := Trace(s, acts);
      assert ls[..last] == Trace(s, acts[..last]) by { TraceLength(s, acts[..last]); }
      assert ls[last] == LabelOf(p, acts[last]) by { TraceLength(s, acts[..last]); }
    }
  }

  lemma {:induction false} TraceLength(s: State, acts: seq<Action>)
    requires Exec(s, acts).Some?
    ensures |Trace(s, acts)| == |acts|
  {
    if acts != [] {
      TraceLength(s, acts[..|acts| - 1]);
    }
  }

  lemma {:induction false} FlushFreeTrace(s: State, acts: seq<Action>)
    requires FlushIdle(s) && FlushFree(acts) && Exec(s, acts).Some?
    ensures Spec.NeverEmptied(Trace(s, acts))
  {
    if acts != [] {
      var last := |acts| - 1;
      FlushFreeTrace(s, acts[..last]);
      FlushFreeRuns(s, acts[..last]);
      TraceLength(s, acts[..last]);
    }
  }

  /** Every state a flush-free run reaches: the permit laws hold, and an unlocked read of count is in range. */
  lemma ReachableWithoutFlush(slots: seq<Message>, threads: nat, acts: seq<Action>)
    requires |slots| > 0 && FlushFree(acts)
    requires Exec(Init(slots, threads), acts).Some?
    ensures var s := Exec(Init(slots, threads), acts).value;
            Inv(s) && FlushIdle(s) && |s.slots| == |slots| && 0 <= s.count <= |slots|
  {
    var s0 := Init(slots, threads);
    InitInv(slots, threads);
    FlushFreeRuns(s0, acts);
    RunsKeepInv(s0, acts);
    PermitConservation(Exec(s0, acts).value);
  }

  /**
   * From fifo_init, with any number of threads and no flush: the messages
   * written, in lock order, are the messages read followed by the live ring.
   */
  lemma WrittenIsReadThenLive(slots: seq<Message>, threads: nat, acts: seq<Action>)
    requires |slots| > 0 && FlushFree(acts)
    requires Exec(Init(slots, threads), acts).Some?
    ensures var s := Exec(Init(slots, threads), acts).value;
            var ls := Trace(Init(slots, threads), acts);
            && Inv(s) && 0 <= LiveLen(s) <= |slots|
            && Spec.PutLog(ls) == Spec.GetLog(ls) + Live(s)
  {
    var s0 := Init(slots, threads);
    InitInv(slots, threads);
    FlushFreeRuns(s0, acts);
    RefinesAtomicQueue(s0, acts);
    RunsKeepInv(s0, acts);
    LiveBounds(Exec(s0, acts).value);
    FlushFreeTrace(s0, acts);
    Spec.FirstInFirstOut(|slots|, Abs(s0), Trace(s0, acts));
    assert Live(s0) == [];
  }

  /**
   * From fifo_init, whatever the interleaving: each thread's answered calls had
   * one effect each and answered with it, and no more than N messages are live.
   */
  lemma CallsFromInit(slots: seq<Message>, threads: nat, acts: seq<Action>, t: nat)
    requires |slots| > 0 && t < threads
    requires Exec(Init(slots, threads), acts).Some? && AllClean(Init(slots, threads), acts)
    ensures var s := Exec(Init(slots, threads), acts).value;
            var ls := Trace(Init(slots, threads), acts);
            && |s.pcs| == threads && InBounds(s) && 0 <= LiveLen(s) && |Live(s)| <= |slots|
            && var phase := PhaseOf(s.pcs[t]);
               Spec.Effects(ls, t) == Spec.Answers(ls, t) + if phase.Served? then [phase.resp] else []
  {
    var s0 := Init(slots, threads);
    InitInv(slots, threads);
    RefinesAtomicQueue(s0, acts);
    assert Live(s0) == [] && Abs(s0).phases[t].Quiet?;
    Spec.CapacityRespected(|slots|, Abs(s0), Trace(s0, acts));
    Spec.OneEffectPerAnswer(|slots|, Abs(s0), Trace(s0, acts), t);
    assert |Abs(Exec(s0, acts).value).phases| == threads;
  }

  // ---- the non-blocking write ------------------------------------------------

  /**
   * keycipher_in_write with O_NONBLOCK never waits: its first access is always
   * possible, gives the call back with nothing changed exactly when no permit
   * is free, and takes one otherwise.
   */
  lemma TryWriteAnswersAtOnce(s: State, t: nat, m: Message)
    requires InBounds(s) && t < |s.pcs| && s.pcs[t].Idle?
    ensures var c := Apply(s, Call(t, TryWrite(m)));
            && Ready(c, t)
            && (Move(c, t) == s <==> s.free == 0)
            && (s.free > 0 ==> Move(c, t) == s.(free := s.free - 1, pcs := s.pcs[t := WPermit(m)]))
  {
    assert s.pcs[t := WTry(m)][t := Idle] == s.pcs;
    assert s.pcs[t := WTry(m)][t := WPermit(m)] == s.pcs[t := WPermit(m)];
  }

  /** Thread t is in no call, or in a non-blocking write that has not slept. */
  predicate NotWaiting(pc: Pc) {
    pc.Idle? || pc.WTry? || pc.WPermit? || pc.WLocked? || pc.WStored? || pc.WAdvanced? || pc.WCounted? || pc.WUnlocked?
  }

  /** Until it calls again, whatever the others do, it is never on a wait list. */
  lemma {:induction false} TryWriteNeverSleeps(s: State, t: nat, m: Message, acts: seq<Action>)
    requires InBounds(s) && t < |s.pcs| && s.pcs[t].Idle?
    requires Exec(Apply(s, Call(t, TryWrite(m))), acts).Some?
    requires forall i | 0 <= i < |acts| :: acts[i].Call? ==> acts[i].t != t
    ensures var r := Exec(Apply(s, Call(t, TryWrite(m))), acts).value;
            |r.pcs| == |s.pcs| && NotWaiting(r.pcs[t]) && !r.pcs[t].WWait? && !r.pcs[t].WAsleep?
  {
    if acts != [] {
      var last := |acts| - 1;
      TryWriteNeverSleeps(s, t, m, acts[..last]);
      StepsOneThread(Exec(Apply(s, Call(t, TryWrite(m))), acts[..last]).value, acts[last]);
    }
  }

  /** A sleeper can be interrupted at any time, and leaves without having changed anything. */
  lemma SleeperCanLeave(s: State, t: nat)
    requires InBounds(s) && t < |s.pcs| && (s.pcs[t].WAsleep? || s.pcs[t].RAsleep?)
    ensures Enabled(s, Interrupt(t))
    ensures var r := Apply(s, Interrupt(t));
            && r.pcs == s.pcs[t := Idle] && r.slots == s.slots && r.head == s.head && r.tail == s.tail
            && r.count == s.count && r.free == s.free && r.used == s.used && r.lock == s.lock
  {
  }
}

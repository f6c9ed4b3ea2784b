/** fifo_flush among other threads, and operations that run alone. */
module FifoFlush {
  import opened Messages
  import opened FifoProtocol
  import opened FifoTheorems
  import Ring
  import F = FifoBuffer

  // ---- one thread alone is the sequential operation --------------------

  function FieldsOf(s: State): F.Fields {
    F.Fields(s.slots, s.head, s.tail, s.count, s.free, s.used)
  }

  function WithFields(s: State, f: F.Fields): State
    requires f.free >= 0 && f.used >= 0
  {
    s.(slots := f.slots, head := f.head, tail := f.tail, count := f.count, free := f.free, used := f.used)
  }

  /** k accesses of thread t in a row. */
  function Moves(t: nat, k: nat): seq<Action> {
    seq(k, _ => Advance(t))
  }

  lemma ExecOne(s: State, acts: seq<Action>, a: Action)
    requires Exec(s, acts).Some? && Enabled(Exec(s, acts).value, a) && InBounds(Exec(s, acts).value)
    ensures Exec(s, acts + [a]) == Some(Apply(Exec(s, acts).value, a))
  {
  }

  lemma CallFirst(s: State, t: nat, op: Op)
    requires InBounds(s) && t < |s.pcs| && s.pcs[t].Idle?
    ensures Exec(s, [Call(t, op)] + Moves(t, 0)) == Some(s.(pcs := s.pcs[t := Entry(op)]))
  {
  }

  /** Thread t after k accesses of a fifo_write that nothing interrupts. */
  function WriteState(s: State, t: nat, m: Message, k: nat): State
    requires InBounds(s) && t < |s.pcs| && s.free > 0 && k <= 7
  {
    var n := |s.slots|;
    var stored := s.slots[s.tail := m];
    var next := (s.tail + 1) % n;
    if k == 0 then s.(pcs := s.pcs[t := WWait(m)])
    else if k == 1 then s.(pcs := s.pcs[t := WPermit(m)], free := s.free - 1)
    else if k == 2 then s.(pcs := s.pcs[t := WLocked(m)], free := s.free - 1, lock := Some(t))
    else if k == 3 then s.(pcs := s.pcs[t := WStored(m)], free := s.free - 1, lock := Some(t), slots := stored)
    else if k == 4 then
      s.(pcs := s.pcs[t := WAdvanced(m)], free := s.free - 1, lock := Some(t), slots := stored, tail := next)
    else if k == 5 then
      s.(pcs := s.pcs[t := WCounted(m)], free := s.free - 1, lock := Some(t), slots := stored, tail := next, count := s.count + 1)
    else if k == 6 then
      s.(pcs := s.pcs[t := WUnlocked(m)], free := s.free - 1, slots := stored, tail := next, count := s.count + 1)
    else
      s.(pcs := s.pcs[t := Idle], free := s.free - 1, slots := stored, tail := next, count := s.count + 1, used := s.used + 1)
  }

  /** The same for fifo_read. */
  function ReadState(s: State, t: nat, k: nat): State
    requires InBounds(s) && t < |s.pcs| && s.used > 0 && k <= 7
  {
    var m := s.slots[s.head];
    var next := (s.head + 1) % |s.slots|;
    if k == 0 then s.(pcs := s.pcs[t := RWait])
    else if k == 1 then s.(pcs := s.pcs[t := RPermit], used := s.used - 1)
    else if k == 2 then s.(pcs := s.pcs[t := RLocked], used := s.used - 1, lock := Some(t))
    else if k == 3 then s.(pcs := s.pcs[t := RCopied(m)], used := s.used - 1, lock := Some(t))
    else if k == 4 then s.(pcs := s.pcs[t := RAdvanced(m)], used := s.used - 1, lock := Some(t), head := next)
    else if k == 5 then
      s.(pcs := s.pcs[t := RCounted(m)], used := s.used - 1, lock := Some(t), head := next, count := s.count - 1)
    else if k == 6 then s.(pcs := s.pcs[t := RUnlocked(m)], used := s.used - 1, head := next, count := s.count - 1)
    else s.(pcs := s.pcs[t := Idle], used := s.used - 1, head := next, count := s.count - 1, free := s.free + 1)
  }

  /** The same for fifo_flush. */
  function FlushState(s: State, t: nat, k: nat): State
    requires InBounds(s) && t < |s.pcs| && k <= 7
  {
    var n := |s.slots|;
    var once := ResetList(s.lists, Sleepers(s.pcs, true));
    var twice := ResetList(once, Sleepers(s.pcs, false));
    if k == 0 then s.(pcs := s.pcs[t := FWait])
    else if k == 1 then s.(pcs := s.pcs[t := FLocked], lock := Some(t))
    else if k == 2 then s.(pcs := s.pcs[t := FHead], lock := Some(t), head := 0)
    else if k == 3 then s.(pcs := s.pcs[t := FTail], lock := Some(t), head := 0, tail := 0)
    else if k == 4 then s.(pcs := s.pcs[t := FCount], lock := Some(t), head := 0, tail := 0, count := 0)
    else if k == 5 then
      s.(pcs := s.pcs[t := FFree], lock := Some(t), head := 0, tail := 0, count := 0, free := n, lists := once)
    else if k == 6 then
      s.(pcs := s.pcs[t := FUsed], lock := Some(t), head := 0, tail := 0, count := 0, free := n, used := 0, lists := twice)
    else
      s.(pcs := s.pcs[t := Idle], head := 0, tail := 0, count := 0, free := n, used := 0, lists := twice)
  }

  /** One access of thread t leads from the k-th state to the next. */
  ghost predicate LeadsAt(states: seq<State>, t: nat, k: nat)
    requires k + 1 < |states|
  {
    var p := states[k];
    InBounds(p) && t < |p.pcs| && Ready(p, t) && Move(p, t) == states[k + 1]
  }

  lemma FrontLeads(states: seq<State>, front: seq<State>, t: nat)
    requires states != [] && front == states[..|states| - 1]
    requires forall k: nat | k + 1 < |states| :: LeadsAt(states, t, k)
    ensures forall k: nat | k + 1 < |front| :: LeadsAt(front, t, k)
  {
    forall k: nat | k + 1 < |front|
      ensures LeadsAt(front, t, k)
    {
      assert LeadsAt(states, t, k);
    }
  }

  /** One call and a chain of accesses, each leading to the next state. */
  lemma {:induction false} Chain(s: State, t: nat, op: Op, states: seq<State>)
    requires InBounds(s) && t < |s.pcs| && s.pcs[t].Idle?
    requires states != [] && states[0] == s.(pcs := s.pcs[t := Entry(op)])
    requires forall k: nat | k + 1 < |states| :: LeadsAt(states, t, k)
    ensures Exec(s, [Call(t, op)] + Moves(t, |states| - 1)) == Some(states[|states| - 1])
  {
    var last := |states| - 1;
    if last == 0 {
      CallFirst(s, t, op);
    } else {
      FrontLeads(states, states[..last], t);
      Chain(s, t, op, states[..last]);
      assert LeadsAt(states, t, last - 1);
      ExecOne(s, [Call(t, op)] + Moves(t, last - 1), Advance(t));
      assert [Call(t, op)] + Moves(t, last) == [Call(t, op)] + Moves(t, last - 1) + [Advance(t)];
    }
  }

  lemma WriteStep(s: State, t: nat, m: Message, k: nat)
    requires InBounds(s) && t < |s.pcs| && s.lock.None? && s.free > 0 && k < 7
    ensures var p := WriteState(s, t, m, k);
            |p.pcs| == |s.pcs| && Ready(p, t) && InBounds(p) && Move(p, t) == WriteState(s, t, m, k + 1)
  {
  }

  lemma WriteStates(s: State, t: nat, m: Message) returns (states: seq<State>)
    requires InBounds(s) && t < |s.pcs| && s.pcs[t].Idle? && s.lock.None? && s.free > 0
    ensures |states| == 8 && states[0] == s.(pcs := s.pcs[t := Entry(Write(m))]) && states[7] == WithFields(s, F.Stored(FieldsOf(s), m))
    ensures forall k: nat | k + 1 < 8 :: LeadsAt(states, t, k)
  {
    states := seq(8, k requires 0 <= k < 8 => WriteState(s, t, m, k));
    forall k: nat | k + 1 < 8
      ensures LeadsAt(states, t, k)
    {
      WriteStep(s, t, m, k);
    }
  }

  /** fifo_write with nobody inside: seven accesses whose sum is Fifo.Write. */
  lemma WriteAlone(s: State, t: nat, m: Message, r: State)
    requires InBounds(s) && t < |s.pcs| && s.pcs[t].Idle? && s.lock.None? && s.free > 0
    requires r == WithFields(s, F.Stored(FieldsOf(s), m))
    ensures Exec(s, [Call(t, Write(m))] + Moves(t, 7)) == Some(r)
  {
    var states := WriteStates(s, t, m);
    Chain(s, t, Write(m), states);
  }

  lemma TryStates(s: State, t: nat, m: Message) returns (states: seq<State>)
    requires InBounds(s) && t < |s.pcs| && s.pcs[t].Idle? && s.lock.None? && s.free > 0
    ensures |states| == 8 && states[0] == s.(pcs := s.pcs[t := Entry(TryWrite(m))])
    ensures states[7] == WithFields(s, F.Stored(FieldsOf(s), m))
    ensures forall k: nat | k + 1 < 8 :: LeadsAt(states, t, k)
  {
    var waiting := WriteStates(s, t, m);
    states := [s.(pcs := s.pcs[t := WTry(m)])] + waiting[1..];
    assert LeadsAt(waiting, t, 0);
    assert waiting[0].pcs[t := WPermit(m)] == states[0].pcs[t := WPermit(m)];
    forall k: nat | k + 1 < 8
      ensures LeadsAt(states, t, k)
    {
      assert LeadsAt(waiting, t, k);
    }
  }

  /** The non-blocking write with nobody inside: the same seven accesses when there is room, one that changes nothing when not. */
  lemma TryWriteAlone(s: State, t: nat, m: Message, r: State)
    requires InBounds(s) && t < |s.pcs| && s.pcs[t].Idle? && s.lock.None?
    requires r == if s.free > 0 then WithFields(s, F.Stored(FieldsOf(s), m)) else s
    ensures Exec(s, [Call(t, TryWrite(m))] + Moves(t, if s.free > 0 then 7 else 1)) == Some(r)
  {
    if s.free > 0 {
      var states := TryStates(s, t, m);
      Chain(s, t, TryWrite(m), states);
    } else {
      CallFirst(s, t, TryWrite(m));
      TryWriteAnswersAtOnce(s, t, m);
      MoveLast(s, [Call(t, TryWrite(m))], t);
    }
  }

  lemma MoveLast(s: State, acts: seq<Action>, t: nat)
    requires Exec(s, acts + Moves(t, 0)).Some?
    requires Enabled(Exec(s, acts + Moves(t, 0)).value, Advance(t)) && InBounds(Exec(s, acts + Moves(t, 0)).value)
    ensures Exec(s, acts + Moves(t, 1)) == Some(Move(Exec(s, acts + Moves(t, 0)).value, t))
  {
    ExecOne(s, acts + Moves(t, 0), Advance(t));
    assert acts + Moves(t, 1) == acts + Moves(t, 0) + [Advance(t)];
  }

  lemma ReadStep(s: State, t: nat, k: nat)
    requires InBounds(s) && t < |s.pcs| && s.lock.None? && s.used > 0 && k < 7
    ensures var p := ReadState(s, t, k);
            |p.pcs| == |s.pcs| && Ready(p, t) && InBounds(p) && Move(p, t) == ReadState(s, t, k + 1)
  {
  }

  lemma ReadStates(s: State, t: nat) returns (states: seq<State>)
    requires InBounds(s) && t < |s.pcs| && s.pcs[t].Idle? && s.lock.None? && s.used > 0
    ensures |states| == 8 && states[0] == s.(pcs := s.pcs[t := Entry(Read)]) && states[7] == WithFields(s, F.Removed(FieldsOf(s)))
    ensures forall k: nat | k + 1 < 8 :: LeadsAt(states, t, k)
  {
    states := seq(8, k requires 0 <= k < 8 => ReadState(s, t, k));
    forall k: nat | k + 1 < 8
      ensures LeadsAt(states, t, k)
    {
      ReadStep(s, t, k);
    }
  }

  /** fifo_read with nobody inside. */
  lemma ReadAlone(s: State, t: nat, r: State)
    requires InBounds(s) && t < |s.pcs| && s.pcs[t].Idle? && s.lock.None? && s.used > 0
    requires r == WithFields(s, F.Removed(FieldsOf(s)))
    ensures Exec(s, [Call(t, Read)] + Moves(t, 7)) == Some(r)
  {
    var states := ReadStates(s, t);
    Chain(s, t, Read, states);
  }

  lemma FlushStep(s: State, t: nat, k: nat)
    requires InBounds(s) && t < |s.pcs| && s.pcs[t].Idle? && s.lock.None? && k < 7
    ensures var p := FlushState(s, t, k);
            |p.pcs| == |s.pcs| && Ready(p, t) && InBounds(p) && Move(p, t) == FlushState(s, t, k + 1)
  {
    assert Sleepers(FlushState(s, t, k).pcs, true) == Sleepers(s.pcs, true);
    assert Sleepers(FlushState(s, t, k).pcs, false) == Sleepers(s.pcs, false);
  }

  /** What fifo_flush makes of the fields, and of whoever was asleep. */
  function Reset(s: State): State {
    WithFields(s, F.Flushed(FieldsOf(s))).(
      lists := ResetList(ResetList(s.lists, Sleepers(s.pcs, true)), Sleepers(s.pcs, false)))
  }

  lemma FlushStates(s: State, t: nat) returns (states: seq<State>)
    requires InBounds(s) && t < |s.pcs| && s.pcs[t].Idle? && s.lock.None?
    ensures |states| == 8 && states[0] == s.(pcs := s.pcs[t := Entry(Flush)]) && states[7] == Reset(s)
    ensures forall k: nat | k + 1 < 8 :: LeadsAt(states, t, k)
  {
    states := seq(8, k requires 0 <= k < 8 => FlushState(s, t, k));
    forall k: nat | k + 1 < 8
      ensures LeadsAt(states, t, k)
    {
      FlushStep(s, t, k);
    }
  }

  /** fifo_flush with nobody inside the critical section. */
  lemma FlushAlone(s: State, t: nat, r: State)
    requires InBounds(s) && t < |s.pcs| && s.pcs[t].Idle? && s.lock.None?
    requires r == Reset(s)
    ensures Exec(s, [Call(t, Flush)] + Moves(t, 7)) == Some(r)
  {
    var states := FlushStates(s, t);
    Chain(s, t, Flush, states);
  }

  // ---- when a flush is right -----------------------------------------------

  ghost predicate Avoids(acts: seq<Action>, t: nat) {
    forall i | 0 <= i < |acts| :: acts[i].t != t
  }

  /** The threads a signal has taken out of their down. */
  function Signalled(acts: seq<Action>): set<nat> {
    set i | 0 <= i < |acts| && acts[i].Interrupt? :: acts[i].t
  }

  /** Only a signal takes a thread out of the stranded ones. */
  lemma StrandedAfter(s: State, a: Action)
    requires InBounds(s) && Enabled(s, a) && (a.Advance? ==> !s.pcs[a.t].FCount? && !s.pcs[a.t].FFree?)
    ensures Apply(s, a).lists == WaitLists(s.lists.stranded - Signalled([a]), s.lists.torn)
  {
    assert [a][0] == a;
  }

  lemma SignalledGrows(acts: seq<Action>, a: Action)
    ensures Signalled(acts + [a]) == Signalled(acts) + Signalled([a])
  {
    var all := acts + [a];
    assert [a][0] == a && all[|acts|] == a;
    forall u | u in Signalled(acts)
      ensures u in Signalled(all)
    {
      var i :| 0 <= i < |acts| && acts[i].Interrupt? && acts[i].t == u;
      assert all[i] == acts[i];
    }
  }

  /** While t is in the last part of a flush, the others can only move permits around or be signalled. */
  lemma {:induction false} OthersDuringFlush(s: State, t: nat, acts: seq<Action>)
    requires Structure(s) && s.lock == Some(t) && (s.pcs[t].FFree? || s.pcs[t].FUsed?)
    requires Avoids(acts, t) && Exec(s, acts).Some?
    ensures var r := Exec(s, acts).value;
            && Structure(r) && r.lock == Some(t) && |r.pcs| == |s.pcs| && r.pcs[t] == s.pcs[t]
            && |r.slots| == |s.slots|
            && FreeDrift(r) == FreeDrift(s) && UsedDrift(r) == UsedDrift(s)
            && r.lists == WaitLists(s.lists.stranded - Signalled(acts), s.lists.torn)
  {
    if acts != [] {
      var last := |acts| - 1;
      OthersDuringFlush(s, t, acts[..last]);
      var p := Exec(s, acts[..last]).value;
      var a := acts[last];
      assert a.t != t;
      StepsOneThread(p, a);
      assert !Inside(p.pcs[a.t]);
      PermitsConserved(p, a);
      KeepsStructure(p, a);
      StrandedAfter(p, a);
      SignalledGrows(acts[..last], a);
      assert acts == acts[..last] + [a];
    }
  }

  /** Write permits a sema_init(slots_free) would forget to take back. */
  function FreeCaught(s: State): nat { Tally(s.pcs, WriterClaim) + Tally(s.pcs, ReaderSignal) }

  /** Read permits a sema_init(slots_used) would forget to take back. */
  function UsedCaught(s: State): nat { Tally(s.pcs, ReaderClaim) + Tally(s.pcs, WriterSignal) }

  /** Each sema_init leaves exactly the caught permits as surplus. */
  lemma ResetLeavesCaught(s: State, t: nat)
    requires Structure(s) && t < |s.pcs| && (s.pcs[t].FCount? || s.pcs[t].FFree? || s.pcs[t].FUsed?)
    ensures FreeDrift(Move(s, t)) == if s.pcs[t].FCount? then FreeCaught(s) else FreeDrift(s)
    ensures s.pcs[t].FFree? ==> UsedDrift(Move(s, t)) == UsedCaught(s)
    ensures s.pcs[t].FUsed? ==> UsedDrift(Move(s, t)) == UsedDrift(s)
  {
    assert s.lock == Some(t);
    StepsOneThread(s, Advance(t));
    DriftChange(s, Move(s, t), t);
  }

  /** A sema_init and whatever the others do before the flush goes on. */
  lemma ResetThenOthers(s: State, t: nat, acts: seq<Action>)
    requires Structure(s) && t < |s.pcs| && (s.pcs[t].FCount? || s.pcs[t].FFree?)
    requires Avoids(acts, t) && Exec(Move(s, t), acts).Some?
    ensures var r := Exec(Move(s, t), acts).value;
            && Structure(r) && r.lock == Some(t) && |r.pcs| == |s.pcs| && |r.slots| == |s.slots|
            && r.pcs[t] == (if s.pcs[t].FCount? then FFree else FUsed)
            && FreeDrift(r) == (if s.pcs[t].FCount? then FreeCaught(s) else FreeDrift(s))
            && (s.pcs[t].FFree? ==> UsedDrift(r) == UsedCaught(s))
            && var asleep := Sleepers(s.pcs, s.pcs[t].FCount?);
               r.lists == WaitLists(s.lists.stranded + asleep - Signalled(acts), s.lists.torn || asleep != {})
  {
    assert s.lock == Some(t);
    ResetLeavesCaught(s, t);
    KeepsStructure(s, Advance(t));
    OthersDuringFlush(Move(s, t), t, acts);
  }

  /** The unlock of a flush: right if and only if both accounts are and no wait list was torn. */
  lemma FlushUnlocks(s: State, t: nat)
    requires Structure(s) && t < |s.pcs| && s.pcs[t].FUsed?
    ensures var r := Move(s, t);
            && Structure(r) && FreeDrift(r) == FreeDrift(s) && UsedDrift(r) == UsedDrift(s) && r.lists == s.lists
            && (Inv(r) <==> FreeDrift(s) == 0 && UsedDrift(s) == 0 && s.lists == WaitLists({}, false))
  {
    ResetLeavesCaught(s, t);
    KeepsStructure(s, Advance(t));
    assert Holder(Move(s, t)) == Idle;
  }

  /**
   * Exactness, for every interleaving: a flush about to run its first
   * sema_init, with any steps of others before its second one and before its
   * unlock, ends in a correct FIFO if and only if neither sema_init caught a
   * permit or somebody asleep.
   */
  lemma FlushCorrectIffNothingCaught(s: State, t: nat, mid: seq<Action>, late: seq<Action>) returns (fin: State)
    requires Structure(s) && s.lists == WaitLists({}, false) && t < |s.pcs| && s.pcs[t].FCount?
    requires Avoids(mid, t) && Exec(Move(s, t), mid).Some?
    requires Avoids(late, t)
    requires Enabled(Exec(Move(s, t), mid).value, Advance(t)) && InBounds(Exec(Move(s, t), mid).value)
    requires Exec(Move(Exec(Move(s, t), mid).value, t), late).Some?
    ensures var s2 := Exec(Move(s, t), mid).value;
            var s3 := Exec(Move(s2, t), late).value;
            && s2.pcs[t].FFree? && t < |s3.pcs| && s3.pcs[t].FUsed? && InBounds(s3) && fin == Move(s3, t)
            && Structure(fin) && FreeDrift(fin) == FreeCaught(s) && UsedDrift(fin) == UsedCaught(s2)
            && fin.lists.stranded == (Sleepers(s.pcs, true) - Signalled(mid) + Sleepers(s2.pcs, false)) - Signalled(late)
            && (Inv(fin) <==> FreeCaught(s) == 0 && UsedCaught(s2) == 0
                              && Sleepers(s.pcs, true) == {} && Sleepers(s2.pcs, false) == {})
  {
    ResetThenOthers(s, t, mid);
    var s2 := Exec(Move(s, t), mid).value;
    ResetThenOthers(s2, t, late);
    var s3 := Exec(Move(s2, t), late).value;
    FlushUnlocks(s3, t);
    fin := Move(s3, t);
  }

  lemma NobodyAsleep(pcs: seq<Pc>)
    ensures Sleepers(pcs, true) == {} && Sleepers(pcs, false) == {} <==>
            forall u | 0 <= u < |pcs| :: !pcs[u].WAsleep? && !pcs[u].RAsleep?
  {
    forall u: nat | u < |pcs|
      ensures pcs[u].WAsleep? <==> u in Sleepers(pcs, true)
      ensures pcs[u].RAsleep? <==> u in Sleepers(pcs, false)
    {
    }
  }

  /** The state after a flush that runs alone. */
  lemma ResetExact(s: State)
    requires Inv(s) && s.lock.None?
    ensures var r := Reset(s);
            && FreeDrift(r) == FreeCaught(s) && UsedDrift(r) == UsedCaught(s)
            && (Inv(r) <==> FreeCaught(s) == 0 && UsedCaught(s) == 0
                            && Sleepers(s.pcs, true) == {} && Sleepers(s.pcs, false) == {})
  {
    Ring.WrapSmall(0, |s.slots|);
    assert Reset(s).pcs == s.pcs && Holder(Reset(s)) == Idle;
  }

  /** A flush that runs alone repairs everything if and only if no permit is in flight and nobody sleeps. */
  lemma FlushAloneExact(s: State, t: nat, r: State)
    requires Inv(s) && t < |s.pcs| && s.pcs[t].Idle? && s.lock.None?
    requires r == Reset(s)
    ensures Exec(s, [Call(t, Flush)] + Moves(t, 7)) == Some(r)
    ensures FreeDrift(r) == FreeCaught(s) && UsedDrift(r) == UsedCaught(s)
    ensures Inv(r) <==> FreeCaught(s) == 0 && UsedCaught(s) == 0 &&
                        forall u | 0 <= u < |s.pcs| :: !s.pcs[u].WAsleep? && !s.pcs[u].RAsleep?
  {
    FlushAlone(s, t, r);
    ResetExact(s);
    NobodyAsleep(s.pcs);
  }

  /** A sleeper whom a flush has stranded sleeps on, whatever the others write or read, until a signal. */
  lemma {:induction false} StrandedSleepsOn(s: State, u: nat, acts: seq<Action>)
    requires FlushIdle(s) && FlushFree(acts) && Exec(s, acts).Some?
    requires u in s.lists.stranded && u < |s.pcs| && (s.pcs[u].WAsleep? || s.pcs[u].RAsleep?)
    requires forall i | 0 <= i < |acts| :: acts[i] != Interrupt(u)
    ensures var r := Exec(s, acts).value; u in r.lists.stranded && |r.pcs| == |s.pcs| && r.pcs[u] == s.pcs[u]
  {
    if acts != [] {
      var last := |acts| - 1;
      StrandedSleepsOn(s, u, acts[..last]);
      FlushFreeRuns(s, acts[..last]);
      StepsOneThread(Exec(s, acts[..last]).value, acts[last]);
    }
  }

  /** The surplus left by a flush stays until another flush: the FIFO never recovers by itself. */
  lemma {:induction false} DamagePersists(s: State, acts: seq<Action>)
    requires FlushIdle(s) && FlushFree(acts) && Exec(s, acts).Some?
    ensures FreeDrift(Exec(s, acts).value) == FreeDrift(s)
    ensures UsedDrift(Exec(s, acts).value) == UsedDrift(s)
  {
    if acts != [] {
      var last := |acts| - 1;
      DamagePersists(s, acts[..last]);
      FlushFreeRuns(s, acts[..last]);
      PermitsConserved(Exec(s, acts[..last]).value, acts[last]);
    }
  }

  // ---- two flushes that go wrong -------------------------------------------

  /** Thread t holds a permit and waits for the lock; every other thread is outside. */
  ghost predicate HoldsPermit(s: State, t: nat, pc: Pc) {
    Inv(s) && FlushIdle(s) && t < |s.pcs| && s.pcs[t] == pc && s.lock.None? && !pc.WAsleep? && !pc.RAsleep? &&
    forall i | 0 <= i < |s.pcs| && i != t :: s.pcs[i].Idle?
  }

  lemma {:induction false} OnlyOneCounted(pcs: seq<Pc>, t: nat, role: Role)
    requires t < |pcs| && forall i | 0 <= i < |pcs| && i != t :: pcs[i].Idle?
    ensures Tally(pcs, role) == One(Plays(pcs[t], role))
  {
    var rest := pcs[t := Idle];
    TallyUpdate(pcs, t, Idle, role);
    NobodyCounted(rest, role);
  }

  /** A reader that has its permit but not yet the lock when a flush runs takes count to -1. */
  lemma CaughtReaderUnderflows(s: State, t: nat, f: nat) returns (acts: seq<Action>)
    requires HoldsPermit(s, t, RPermit) && f < |s.pcs| && f != t
    ensures Exec(s, [Call(f, Flush)] + Moves(f, 7) + acts).Some?
    ensures Exec(s, [Call(f, Flush)] + Moves(f, 7) + acts).value.count == -1
  {
    var r := Reset(s);
    var begin := [Call(f, Flush)] + Moves(f, 7);
    FlushAlone(s, f, r);
    acts := [];
    assert begin + acts == begin;
    var p := r;
    var i := 0;
    while i < 4
      invariant 0 <= i <= 4
      invariant Exec(s, begin + acts) == Some(p)
      invariant InBounds(p) && |p.pcs| == |s.pcs| && p.count == (if i == 4 then -1 else 0)
      invariant i == 0 ==> p.pcs[t].RPermit? && p.lock.None?
      invariant i == 1 ==> p.pcs[t].RLocked?
      invariant i == 2 ==> p.pcs[t].RCopied?
      invariant i == 3 ==> p.pcs[t].RAdvanced?
    {
      ExecOne(s, begin + acts, Advance(t));
      assert begin + (acts + [Advance(t)]) == begin + acts + [Advance(t)];
      acts := acts + [Advance(t)];
      p := Move(p, t);
      i := i + 1;
    }
  }

  /** A writer caught the same way leaves N + 1 permits for N slots, forever. */
  lemma CaughtWriterOvercommits(s: State, t: nat, m: Message, f: nat, acts: seq<Action>)
    requires HoldsPermit(s, t, WPermit(m)) && f < |s.pcs| && f != t
    requires FlushFree(acts) && Exec(Reset(s), acts).Some?
    ensures Exec(s, [Call(f, Flush)] + Moves(f, 7)) == Some(Reset(s))
    ensures var r := Exec(Reset(s), acts).value;
            r.free + Tally(r.pcs, WriterClaim) + Tally(r.pcs, ReaderSignal) + r.count == |r.slots| + 1
  {
    var r := Reset(s);
    FlushAlone(s, f, r);
    FlushAloneExact(s, f, r);
    OnlyOneCounted(s.pcs, t, WriterClaim);
    OnlyOneCounted(s.pcs, t, ReaderSignal);
    DamagePersists(r, acts);
  }

  /** From fifo_init: one message written, a reader past its down, then a flush. */
  lemma UnderflowRun(slots: seq<Message>, threads: nat, m: Message) returns (acts: seq<Action>)
    requires |slots| > 0 && threads >= 3
    ensures Exec(Init(slots, threads), acts).Some? && Exec(Init(slots, threads), acts).value.count == -1
  {
    var s0 := Init(slots, threads);
    InitInv(slots, threads);
    var write := [Call(0, Write(m))] + Moves(0, 7);
    var s1 := WithFields(s0, F.Stored(FieldsOf(s0), m));
    WriteAlone(s0, 0, m, s1);
    Ring.WrapSmall(0, |slots|);
    var s2 := Apply(s1, Call(1, Read));
    var s3 := Move(s2, 1);
    var begin := write + [Call(1, Read)] + [Advance(1)];
    ExecOne(s0, write, Call(1, Read));
    ExecOne(s0, write + [Call(1, Read)], Advance(1));
    FlushStaysIdle(s1, Call(1, Read));
    FlushStaysIdle(s2, Advance(1));
    FlushFreeRuns(s0, begin);
    RunsKeepInv(s0, begin);
    var rest := CaughtReaderUnderflows(s3, 1, 2);
    ExecAppend(s0, begin, [Call(2, Flush)] + Moves(2, 7) + rest);
    acts := begin + ([Call(2, Flush)] + Moves(2, 7) + rest);
  }

  /** From fifo_init: a writer past its down, then a flush. */
  lemma OvercommitRun(slots: seq<Message>, threads: nat, m: Message) returns (acts: seq<Action>)
    requires |slots| > 0 && threads >= 2
    ensures Exec(Init(slots, threads), acts).Some?
    ensures var r := Exec(Init(slots, threads), acts).value;
            r.free + Tally(r.pcs, WriterClaim) + Tally(r.pcs, ReaderSignal) + r.count == |slots| + 1
  {
    var s0 := Init(slots, threads);
    InitInv(slots, threads);
    var begin := [] + [Call(0, Write(m))] + [Advance(0)];
    ExecOne(s0, [], Call(0, Write(m)));
    ExecOne(s0, [] + [Call(0, Write(m))], Advance(0));
    FlushFreeRuns(s0, begin);
    RunsKeepInv(s0, begin);
    var s1 := Exec(s0, begin).value;
    assert s1 == Move(Apply(s0, Call(0, Write(m))), 0);
    assert Reset(s1).pcs == s1.pcs;
    CaughtWriterOvercommits(s1, 0, m, 1, []);
    ExecAppend(s0, begin, [Call(1, Flush)] + Moves(1, 7));
    acts := begin + ([Call(1, Flush)] + Moves(1, 7));
  }

  /**
   * From fifo_init: a reader falls asleep on the empty ring, a flush resets the
   * wait list, and a message written later wakes nobody: the ring holds it, no
   * thread can move, and the reader sleeps.
   */
  lemma LostWakeUpRun(slots: seq<Message>, threads: nat, m: Message) returns (acts: seq<Action>)
    requires |slots| > 0 && threads >= 3
    ensures Exec(Init(slots, threads), acts).Some?
    ensures var r := Exec(Init(slots, threads), acts).value;
            && r.pcs[0].RAsleep? && r.used == 1 && r.count == 1
            && forall t: nat | t < |r.pcs| :: !Ready(r, t)
  {
    var s0 := Init(slots, threads);
    var begin := [] + [Call(0, Read)] + [Advance(0)];
    ExecOne(s0, [], Call(0, Read));
    ExecOne(s0, [] + [Call(0, Read)], Advance(0));
    var s1 := Exec(s0, begin).value;
    assert s1 == s0.(pcs := s0.pcs[0 := RAsleep]);
    var flush := [Call(1, Flush)] + Moves(1, 7);
    FlushAlone(s1, 1, Reset(s1));
    ExecAppend(s0, begin, flush);
    assert 0 in Sleepers(s1.pcs, false);
    var write := [Call(2, Write(m))] + Moves(2, 7);
    WriteAlone(Reset(s1), 2, m, WithFields(Reset(s1), F.Stored(FieldsOf(Reset(s1)), m)));
    ExecAppend(s0, begin + flush, write);
    acts := begin + flush + write;
  }
}

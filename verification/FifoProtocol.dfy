/**
 * fifo_write, fifo_read, keycipher_in_write and fifo_flush as a transition
 * system: any number of threads, one program point per shared access.
 */
module FifoProtocol {
  import opened Messages
  import Ring

  /**
   * The program point of a thread: what it has done, and the message it holds.
   * W* is fifo_write (WTry: the O_NONBLOCK entry of keycipher_in_write), R* is
   * fifo_read, F* is fifo_flush. WAsleep and RAsleep are on the wait list of a semaphore.
   */
  datatype Pc =
    | Idle
    | WWait(m: Message) | WTry(m: Message) | WAsleep(m: Message)
    | WPermit(m: Message) | WLocked(m: Message) | WStored(m: Message) | WAdvanced(m: Message)
    | WCounted(m: Message) | WUnlocked(m: Message)
    | RWait | RAsleep | RPermit | RLocked | RCopied(m: Message) | RAdvanced(m: Message)
    | RCounted(m: Message) | RUnlocked(m: Message)
    | FWait | FLocked | FHead | FTail | FCount | FFree | FUsed

  /**
   * What sema_init has done to the wait lists: `stranded` are the sleepers it has
   * cut off, whom no up wakes; `torn` says that it has cut off somebody, whose
   * entry then still points into the list.
   */
  datatype WaitLists = WaitLists(stranded: set<nat>, torn: bool)

  /** struct fifo_buffer; a semaphore is its counter, the mutex its holder. */
  datatype State = State(
    pcs: seq<Pc>,
    slots: seq<Message>,
    head: int,
    tail: int,
    count: int,
    free: nat,
    used: nat,
    lock: Option<nat>,
    lists: WaitLists)

  datatype Op = Write(m: Message) | TryWrite(m: Message) | Read | Flush

  datatype Action = Call(t: nat, op: Op) | Interrupt(t: nat) | Advance(t: nat)

  /** fifo_init with `threads` threads outside. */
  function Init(slots: seq<Message>, threads: nat): State {
    State(seq(threads, _ => Idle), slots, 0, 0, 0, |slots|, 0, None, WaitLists({}, false))
  }

  /** Can thread t do its next access now? */
  predicate Ready(s: State, t: nat)
    requires t < |s.pcs|
  {
    match s.pcs[t]
    case Idle => false
    case WAsleep(_) => s.free > 0 && t !in s.lists.stranded
    case RAsleep => s.used > 0 && t !in s.lists.stranded
    case WPermit(_) => s.lock.None?
    case RPermit => s.lock.None?
    case FWait => s.lock.None?
    case _ => true
  }

  predicate Enabled(s: State, a: Action) {
    a.t < |s.pcs| &&
    match a
    case Call(t, _) => s.pcs[t].Idle?
    case Interrupt(t) => s.pcs[t].WAsleep? || s.pcs[t].RAsleep?
    case Advance(t) => Ready(s, t)
  }

  predicate InBounds(s: State) {
    |s.slots| > 0 && 0 <= s.head < |s.slots| && 0 <= s.tail < |s.slots|
  }

  function Entry(op: Op): Pc {
    match op
    case Write(m) => WWait(m)
    case TryWrite(m) => WTry(m)
    case Read => RWait
    case Flush => FWait
  }

  /** The threads on the wait list of slots_free, or of slots_used. */
  function Sleepers(pcs: seq<Pc>, writers: bool): set<nat> {
    set u: nat | u < |pcs| && if writers then pcs[u].WAsleep? else pcs[u].RAsleep?
  }

  /** What a sema_init does to the wait list. */
  function ResetList(lists: WaitLists, asleep: set<nat>): WaitLists {
    WaitLists(lists.stranded + asleep, lists.torn || asleep != {})
  }

  /** One shared access of thread t. */
  function Move(s: State, t: nat): (r: State)
    requires t < |s.pcs| && Ready(s, t) && InBounds(s)
    ensures |r.pcs| == |s.pcs| && |r.slots| == |s.slots|
  {
    var n := |s.slots|;
    match s.pcs[t]
    case WWait(m) =>
      if s.free > 0 then s.(free := s.free - 1, pcs := s.pcs[t := WPermit(m)])
      else s.(pcs := s.pcs[t := WAsleep(m)])
    case WAsleep(m) => s.(free := s.free - 1, pcs := s.pcs[t := WPermit(m)])
    case WTry(m) =>
      if s.free > 0 then s.(free := s.free - 1, pcs := s.pcs[t := WPermit(m)])
      else s.(pcs := s.pcs[t := Idle])
    case WPermit(m) => s.(lock := Some(t), pcs := s.pcs[t := WLocked(m)])
    case WLocked(m) => s.(slots := s.slots[s.tail := m], pcs := s.pcs[t := WStored(m)])
    case WStored(m) => s.(tail := (s.tail + 1) % n, pcs := s.pcs[t := WAdvanced(m)])
    case WAdvanced(m) => s.(count := s.count + 1, pcs := s.pcs[t := WCounted(m)])
    case WCounted(m) => s.(lock := None, pcs := s.pcs[t := WUnlocked(m)])
    case WUnlocked(_) => s.(used := s.used + 1, pcs := s.pcs[t := Idle])
    case RWait =>
      if s.used > 0 then s.(used := s.used - 1, pcs := s.pcs[t := RPermit])
      else s.(pcs := s.pcs[t := RAsleep])
    case RAsleep => s.(used := s.used - 1, pcs := s.pcs[t := RPermit])
    case RPermit => s.(lock := Some(t), pcs := s.pcs[t := RLocked])
    case RLocked => s.(pcs := s.pcs[t := RCopied(s.slots[s.head])])
    case RCopied(m) => s.(head := (s.head + 1) % n, pcs := s.pcs[t := RAdvanced(m)])
    case RAdvanced(m) => s.(count := s.count - 1, pcs := s.pcs[t := RCounted(m)])
    case RCounted(m) => s.(lock := None, pcs := s.pcs[t := RUnlocked(m)])
    case RUnlocked(_) => s.(free := s.free + 1, pcs := s.pcs[t := Idle])
    case FWait => s.(lock := Some(t), pcs := s.pcs[t := FLocked])
    case FLocked => s.(head := 0, pcs := s.pcs[t := FHead])
    case FHead => s.(tail := 0, pcs := s.pcs[t := FTail])
    case FTail => s.(count := 0, pcs := s.pcs[t := FCount])
    case FCount => s.(free := n, lists := ResetList(s.lists, Sleepers(s.pcs, true)), pcs := s.pcs[t := FFree])
    case FFree => s.(used := 0, lists := ResetList(s.lists, Sleepers(s.pcs, false)), pcs := s.pcs[t := FUsed])
    case FUsed => s.(lock := None, pcs := s.pcs[t := Idle])
  }

  function Apply(s: State, a: Action): (r: State)
    requires Enabled(s, a) && InBounds(s)
    ensures |r.pcs| == |s.pcs| && |r.slots| == |s.slots|
  {
    match a
    case Call(t, op) => s.(pcs := s.pcs[t := Entry(op)])
    case Interrupt(t) => s.(pcs := s.pcs[t := Idle], lists := s.lists.(stranded := s.lists.stranded - {t}))
    case Advance(t) => Move(s, t)
  }

  /** The state reached by a sequence of actions, if each was possible. */
  ghost function Exec(s: State, acts: seq<Action>): Option<State> {
    if acts == [] then Some(s)
    else
      var last := |acts| - 1;
      match Exec(s, acts[..last])
      case None => None
      case Some(p) => if Enabled(p, acts[last]) && InBounds(p) then Some(Apply(p, acts[last])) else None
  }

  lemma {:induction false} ExecAppend(s: State, first: seq<Action>, second: seq<Action>)
    requires Exec(s, first).Some?
    ensures Exec(s, first + second) == Exec(Exec(s, first).value, second)
  {
    var all := first + second;
    if second == [] {
      assert all == first;
    } else {
      assert all[..|all| - 1] == first + second[..|second| - 1];
      ExecAppend(s, first, second[..|second| - 1]);
    }
  }

  // ---- threads counted by program point --------------------------------

  /** Which semaphore account a thread's permit is in while it is between two semaphores. */
  datatype Role = WriterClaim | WriterSignal | ReaderClaim | ReaderSignal

  predicate Plays(pc: Pc, role: Role) {
    match role
    case WriterClaim => pc.WPermit? || pc.WLocked? || pc.WStored? || pc.WAdvanced?
    case WriterSignal => pc.WCounted? || pc.WUnlocked?
    case ReaderClaim => pc.RPermit? || pc.RLocked? || pc.RCopied? || pc.RAdvanced?
    case ReaderSignal => pc.RCounted? || pc.RUnlocked?
  }

  function One(b: bool): nat { if b then 1 else 0 }

  function Tally(pcs: seq<Pc>, role: Role): nat {
    if pcs == [] then 0
    else Tally(pcs[..|pcs| - 1], role) + One(Plays(pcs[|pcs| - 1], role))
  }

  lemma {:induction false} TallyUpdate(pcs: seq<Pc>, t: nat, pc: Pc, role: Role)
    requires t < |pcs|
    ensures Tally(pcs[t := pc], role) == Tally(pcs, role) - One(Plays(pcs[t], role)) + One(Plays(pc, role))
  {
    var last := |pcs| - 1;
    if t == last {
      assert pcs[t := pc][..last] == pcs[..last];
    } else {
      assert pcs[t := pc][..last] == pcs[..last][t := pc];
      TallyUpdate(pcs[..last], t, pc, role);
    }
  }

  /** A role is counted exactly when some thread plays it. */
  lemma {:induction false} TallyPositive(pcs: seq<Pc>, role: Role)
    ensures Tally(pcs, role) > 0 <==> exists t :: 0 <= t < |pcs| && Plays(pcs[t], role)
  {
    if pcs != [] {
      var last := |pcs| - 1;
      TallyPositive(pcs[..last], role);
      if Tally(pcs[..last], role) > 0 {
        var t :| 0 <= t < last && Plays(pcs[..last][t], role);
        assert Plays(pcs[t], role);
      }
      if t :| 0 <= t < |pcs| && Plays(pcs[t], role) {
        assert t < last ==> Plays(pcs[..last][t], role);
      }
    }
  }

  // ---- the two conservation laws ----------------------------------------

  /** Surplus of write permits over the N there should be. */
  function FreeDrift(s: State): int {
    s.free + Tally(s.pcs, WriterClaim) + Tally(s.pcs, ReaderSignal) + s.count - |s.slots|
  }

  /** Surplus of read permits over the messages counted. */
  function UsedDrift(s: State): int {
    s.used + Tally(s.pcs, ReaderClaim) + Tally(s.pcs, WriterSignal) - s.count
  }

  /** The three accesses of fifo_flush that overwrite an account. */
  predicate Overwrites(pc: Pc) { pc.FTail? || pc.FCount? || pc.FFree? }

  lemma DriftChange(s: State, r: State, t: nat)
    requires t < |s.pcs| == |r.pcs| && r.pcs == s.pcs[t := r.pcs[t]] && |r.slots| == |s.slots|
    ensures FreeDrift(r) - FreeDrift(s) ==
            r.free - s.free + r.count - s.count
            + One(Plays(r.pcs[t], WriterClaim)) - One(Plays(s.pcs[t], WriterClaim))
            + One(Plays(r.pcs[t], ReaderSignal)) - One(Plays(s.pcs[t], ReaderSignal))
    ensures UsedDrift(r) - UsedDrift(s) ==
            r.used - s.used - r.count + s.count
            + One(Plays(r.pcs[t], ReaderClaim)) - One(Plays(s.pcs[t], ReaderClaim))
            + One(Plays(r.pcs[t], WriterSignal)) - One(Plays(s.pcs[t], WriterSignal))
  {
    TallyUpdate(s.pcs, t, r.pcs[t], WriterClaim);
    TallyUpdate(s.pcs, t, r.pcs[t], WriterSignal);
    TallyUpdate(s.pcs, t, r.pcs[t], ReaderClaim);
    TallyUpdate(s.pcs, t, r.pcs[t], ReaderSignal);
  }

  /** A step changes no other thread's program point. */
  lemma StepsOneThread(s: State, a: Action)
    requires InBounds(s) && Enabled(s, a)
    ensures var r := Apply(s, a); r.pcs == s.pcs[a.t := r.pcs[a.t]]
  {
  }

  /** Every other access, by any thread, moves permits between accounts without making or losing one. */
  lemma PermitsConserved(s: State, a: Action)
    requires InBounds(s) && Enabled(s, a)
    requires a.Advance? ==> !Overwrites(s.pcs[a.t])
    ensures FreeDrift(Apply(s, a)) == FreeDrift(s)
    ensures UsedDrift(Apply(s, a)) == UsedDrift(s)
  {
    var r := Apply(s, a);
    StepsOneThread(s, a);
    DriftChange(s, r, a.t);
  }

  // ---- the invariant ------------------------------------------------------

  /** Between mutex_lock and mutex_unlock. */
  predicate Inside(pc: Pc) {
    pc.WLocked? || pc.WStored? || pc.WAdvanced? || pc.WCounted? ||
    pc.RLocked? || pc.RCopied? || pc.RAdvanced? || pc.RCounted? ||
    pc.FLocked? || pc.FHead? || pc.FTail? || pc.FCount? || pc.FFree? || pc.FUsed?
  }

  ghost predicate MutualExclusion(s: State) {
    && (s.lock.Some? ==> s.lock.value < |s.pcs|)
    && forall t | 0 <= t < |s.pcs| :: Inside(s.pcs[t]) <==> s.lock == Some(t)
  }

  /** The program point of the lock holder; Idle when the mutex is free. */
  function Holder(s: State): Pc {
    if s.lock.Some? && s.lock.value < |s.pcs| then s.pcs[s.lock.value] else Idle
  }

  /** How far tail is from head + count at each point inside a critical section. */
  function Skew(pc: Pc): int {
    if pc.WAdvanced? then 1 else if pc.RAdvanced? then -1 else 0
  }

  /** The ring relation, with its exact form at every intermediate point. */
  ghost predicate RingShape(s: State)
    requires InBounds(s)
  {
    var pc := Holder(s);
    var n := |s.slots|;
    && (pc.FHead? ==> s.head == 0)
    && (pc.FTail? ==> s.head == 0 && s.tail == 0)
    && (pc.FCount? || pc.FFree? || pc.FUsed? ==> s.head == 0 && s.tail == 0 && s.count == 0)
    && (!pc.FHead? && !pc.FTail? ==> s.tail == (s.head + s.count + Skew(pc)) % n)
    && (pc.WStored? ==> s.slots[s.tail] == pc.m)
    && (pc.WAdvanced? ==> s.slots[(s.head + s.count) % n] == pc.m)
    && (pc.RCopied? ==> s.slots[s.head] == pc.m)
  }

  /** Holds in every run, flushes included: it does not mention the semaphores. */
  ghost predicate Structure(s: State) {
    InBounds(s) && MutualExclusion(s) && RingShape(s)
  }

  /** The permit accounts; a flush in progress suspends the ones it is rewriting. */
  ghost predicate Balanced(s: State) {
    && (!Holder(s).FCount? ==> FreeDrift(s) == 0)
    && (!Holder(s).FCount? && !Holder(s).FFree? ==> UsedDrift(s) == 0)
  }

  /** Accounts balanced, nobody asleep where no up can find him, no wait list torn. */
  ghost predicate Inv(s: State) {
    Structure(s) && Balanced(s) && s.lists == WaitLists({}, false)
  }

  lemma {:induction false} NobodyCounted(pcs: seq<Pc>, role: Role)
    requires forall t | 0 <= t < |pcs| :: pcs[t].Idle?
    ensures Tally(pcs, role) == 0
  {
    TallyPositive(pcs, role);
  }

  lemma InitInv(slots: seq<Message>, threads: nat)
    requires |slots| > 0
    ensures Inv(Init(slots, threads))
  {
    var s := Init(slots, threads);
    NobodyCounted(s.pcs, WriterClaim);
    NobodyCounted(s.pcs, WriterSignal);
    NobodyCounted(s.pcs, ReaderClaim);
    NobodyCounted(s.pcs, ReaderSignal);
    Ring.WrapSmall(0, |slots|);
  }

  lemma KeepsMutualExclusion(s: State, a: Action)
    requires InBounds(s) && MutualExclusion(s) && Enabled(s, a)
    ensures MutualExclusion(Apply(s, a))
  {
    StepsOneThread(s, a);
  }

  /** The ring relation after one step of a writer inside the critical section. */
  lemma WriterKeepsRing(s: State, t: nat)
    requires Structure(s) && t < |s.pcs| && s.lock == Some(t) && MutualExclusion(Move(s, t))
    requires s.pcs[t].WLocked? || s.pcs[t].WStored? || s.pcs[t].WAdvanced? || s.pcs[t].WCounted?
    ensures InBounds(Move(s, t)) && RingShape(Move(s, t))
  {
    if s.pcs[t].WStored? {
      Ring.WrapAdd(s.head + s.count, 1, |s.slots|);
    }
  }

  /** The same for a reader. */
  lemma ReaderKeepsRing(s: State, t: nat)
    requires Structure(s) && t < |s.pcs| && s.lock == Some(t) && MutualExclusion(Move(s, t))
    requires s.pcs[t].RLocked? || s.pcs[t].RAdvanced? || s.pcs[t].RCounted?
    ensures InBounds(Move(s, t)) && RingShape(Move(s, t))
  {
  }

  lemma HeadMoves(s: State, r: State, t: nat)
    requires Structure(s) && t < |s.pcs| && s.lock == Some(t) && s.pcs[t].RCopied?
    requires r == s.(head := (s.head + 1) % |s.slots|, pcs := r.pcs) && |r.pcs| == |s.pcs| && r.pcs[t].RAdvanced?
    ensures InBounds(r) && RingShape(r)
  {
    assert Holder(s) == s.pcs[t] && Holder(r) == r.pcs[t];
    Ring.HeadAdvances(s.head, s.count, |s.slots|);
  }

  lemma HeadMoveKeepsRing(s: State, t: nat)
    requires Structure(s) && t < |s.pcs| && s.lock == Some(t) && MutualExclusion(Move(s, t))
    requires s.pcs[t].RCopied?
    ensures InBounds(Move(s, t)) && RingShape(Move(s, t))
  {
    HeadMoves(s, Move(s, t), t);
  }

  /** The same for a flush, and for whoever takes the lock. */
  lemma OtherKeepsRing(s: State, t: nat)
    requires Structure(s) && t < |s.pcs| && Ready(s, t) && MutualExclusion(Move(s, t))
    requires s.pcs[t].WPermit? || s.pcs[t].RPermit? || s.pcs[t].FWait? || (s.lock == Some(t) &&
             (s.pcs[t].FLocked? || s.pcs[t].FHead? || s.pcs[t].FTail? || s.pcs[t].FCount? || s.pcs[t].FFree? || s.pcs[t].FUsed?))
    ensures InBounds(Move(s, t)) && RingShape(Move(s, t))
  {
  }

  /** Ring relation and mutual exclusion survive every step of every run. */
  lemma KeepsStructure(s: State, a: Action)
    requires Structure(s) && Enabled(s, a)
    ensures Structure(Apply(s, a))
  {
    KeepsMutualExclusion(s, a);
    var pc := s.pcs[a.t];
    if a.Advance? && (pc.WLocked? || pc.WStored? || pc.WAdvanced? || pc.WCounted?) {
      WriterKeepsRing(s, a.t);
    } else if a.Advance? && pc.RCopied? {
      HeadMoveKeepsRing(s, a.t);
    } else if a.Advance? && (pc.RLocked? || pc.RAdvanced? || pc.RCounted?) {
      ReaderKeepsRing(s, a.t);
    } else if a.Advance? && (Inside(pc) || pc.WPermit? || pc.RPermit? || pc.FWait?) {
      OtherKeepsRing(s, a.t);
    } else {
      assert Holder(Apply(s, a)) == Holder(s);
    }
  }
}

/**
 * direct_add_to_inbox and direct_pop_inbox_front at their accesses. Nothing locks
 * the array or its count: adds run in the handler threads, pops in the one API thread.
 * The copy of a whole message counts as one access.
 */
module MirrorRace {
  import opened Messages
  import M = InboxMirror

  /** Where an add stands: not begun, past its test, its index loaded, its message copied. */
  datatype AddPc = Fresh | Tested | Loaded(c: int) | Stored(c: int)

  datatype Adder = Adder(m: Message, pc: AddPc)

  /** The pop under way: the loop guard, a copy of its body, the load and the store of the decrement. */
  datatype Pop = NoPop | Guard(i: int) | Copy(i: int) | Load | Store(c: int)

  /** `adding` is in the order of the device writes; `due` are device reads whose pop has not begun. */
  datatype Racy = Racy(
    fifo: seq<Message>,
    slots: seq<Message>,
    count: int,
    adding: seq<Adder>,
    due: nat,
    pop: Pop,
    missed: nat,
    dropped: nat)

  datatype Step = DeviceWrite(m: Message) | DeviceRead | AddStep(i: nat) | PopBegin | PopNext

  function Start(slots: seq<Message>): Racy {
    Racy([], slots, 0, [], 0, NoPop, 0, 0)
  }

  /** The next access of add i is a store behind the end of the array; what follows it C leaves undefined. */
  predicate Outside(s: Racy, i: nat)
    requires i < |s.adding|
  {
    s.adding[i].pc.Loaded? && s.adding[i].pc.c >= M.MAX_MESSAGES
  }

  /** Runs end where an add would store outside the array. */
  predicate Can(s: Racy, st: Step) {
    match st
    case DeviceWrite(_) => |s.fifo| < FIFO_SIZE
    case DeviceRead => s.fifo != []
    case AddStep(i) => i < |s.adding| && !Outside(s, i)
    case PopBegin => s.due > 0 && s.pop.NoPop?
    case PopNext => !s.pop.NoPop?
  }

  /** The count is between 0 and 64, and every index but a loaded one lies in the array. */
  ghost predicate InRange(s: Racy) {
    && |s.slots| == M.MAX_MESSAGES && 0 <= s.count <= M.MAX_MESSAGES
    && (forall i | 0 <= i < |s.adding| && s.adding[i].pc.Loaded? :: 0 <= s.adding[i].pc.c <= M.MAX_MESSAGES)
    && (forall i | 0 <= i < |s.adding| && s.adding[i].pc.Stored? :: 0 <= s.adding[i].pc.c < M.MAX_MESSAGES)
    && (!s.pop.NoPop? && !s.pop.Store? ==> s.count >= 1)
    && (s.pop.Guard? ==> 0 <= s.pop.i < M.MAX_MESSAGES)
    && (s.pop.Copy? ==> 0 <= s.pop.i < M.MAX_MESSAGES - 1)
    && (s.pop.Store? ==> 1 <= s.pop.c <= M.MAX_MESSAGES)
  }

  ghost function AddAccess(s: Racy, i: nat): Racy
    requires InRange(s) && i < |s.adding| && !Outside(s, i)
  {
    var a := s.adding[i];
    var rest := s.adding[..i] + s.adding[i + 1..];
    match a.pc
    case Fresh =>
      if s.count >= M.MAX_MESSAGES then s.(adding := rest, dropped := s.dropped + 1)
      else s.(adding := s.adding[i := Adder(a.m, Tested)])
    case Tested => s.(adding := s.adding[i := Adder(a.m, Loaded(s.count))])
    case Loaded(c) => s.(slots := s.slots[c := a.m], adding := s.adding[i := Adder(a.m, Stored(c))])
    case Stored(c) => s.(count := c + 1, adding := rest)
  }

  ghost function PopAccess(s: Racy): Racy
    requires InRange(s) && !s.pop.NoPop?
  {
    match s.pop
    case Guard(i) => s.(pop := if i < s.count - 1 then Copy(i) else Load)
    case Copy(i) => s.(slots := s.slots[i := s.slots[i + 1]], pop := Guard(i + 1))
    case Load => s.(pop := Store(s.count))
    case Store(c) => s.(count := c - 1, pop := NoPop)
  }

  ghost function Do(s: Racy, st: Step): Racy
    requires InRange(s) && Can(s, st)
  {
    match st
    case DeviceWrite(m) => s.(fifo := s.fifo + [m], adding := s.adding + [Adder(m, Fresh)])
    case DeviceRead => s.(fifo := s.fifo[1..], due := s.due + 1)
    case AddStep(i) => AddAccess(s, i)
    case PopBegin =>
      if s.count == 0 then s.(due := s.due - 1, missed := s.missed + 1)
      else s.(due := s.due - 1, pop := Guard(0))
    case PopNext => PopAccess(s)
  }

  ghost function Run(s: Racy, steps: seq<Step>): Option<Racy> {
    if steps == [] then Some(s)
    else
      var st := steps[|steps| - 1];
      match Run(s, steps[..|steps| - 1])
      case None => None
      case Some(p) => if InRange(p) && Can(p, st) then Some(Do(p, st)) else None
  }

  /** However the accesses fall, the count and the indices of the pops stay in range: InRange in Run excludes nothing. */
  lemma KeepsInRange(s: Racy, st: Step)
    requires InRange(s) && Can(s, st)
    ensures InRange(Do(s, st))
  {
  }

  lemma {:induction false} RunsStayInRange(s: Racy, steps: seq<Step>)
    requires InRange(s) && Run(s, steps).Some?
    ensures InRange(Run(s, steps).value)
  {
    if steps != [] {
      RunsStayInRange(s, steps[..|steps| - 1]);
      KeepsInRange(Run(s, steps[..|steps| - 1]).value, steps[|steps| - 1]);
    }
  }

  // ---- runs without overlap ---------------------------------------------------

  /** Nobody is inside an add or a pop. */
  ghost predicate Calm(s: Racy) {
    s.pop.NoPop? && forall i | 0 <= i < |s.adding| :: s.adding[i].pc.Fresh?
  }

  predicate Begins(s: Racy, st: Step)
    requires Can(s, st)
  {
    st.PopBegin? || (st.AddStep? && s.adding[st.i].pc.Fresh?)
  }

  /** No add overlaps a pop or another add; device writes and reads may fall anywhere. */
  ghost predicate Apart(s: Racy, steps: seq<Step>)
    requires Run(s, steps).Some?
  {
    steps == [] ||
    var init, st := steps[..|steps| - 1], steps[|steps| - 1];
    Apart(s, init) && (Begins(Run(s, init).value, st) ==> Calm(Run(s, init).value))
  }

  /** At most one operation is inside, and what it has loaded is still true. */
  ghost predicate Solo(s: Racy) {
    && InRange(s)
    && (!s.pop.NoPop? ==> forall i | 0 <= i < |s.adding| :: s.adding[i].pc.Fresh?)
    && (forall i, j | 0 <= i < j < |s.adding| :: s.adding[i].pc.Fresh? || s.adding[j].pc.Fresh?)
    && (forall i | 0 <= i < |s.adding| && !s.adding[i].pc.Fresh? :: s.count < M.MAX_MESSAGES)
    && (forall i | 0 <= i < |s.adding| && s.adding[i].pc.Loaded? :: s.adding[i].pc.c == s.count)
    && (forall i | 0 <= i < |s.adding| && s.adding[i].pc.Stored? ::
          s.adding[i].pc.c == s.count && s.slots[s.count] == s.adding[i].m)
    && (s.pop.Guard? ==> s.pop.i < s.count)
    && (s.pop.Copy? ==> s.pop.i < s.count - 1)
    && (s.pop.Store? ==> s.pop.c == s.count)
  }

  /** The mirror as the atomic model has it: a pop has happened when it begins, an add when it ends. */
  ghost function Mirror(s: Racy): seq<Message>
    requires Solo(s)
  {
    match s.pop
    case NoPop => s.slots[..s.count]
    case Guard(i) => s.slots[..i] + s.slots[i + 1..s.count]
    case Copy(i) => s.slots[..i] + s.slots[i + 1..s.count]
    case Load => s.slots[..s.count - 1]
    case Store(_) => s.slots[..s.count - 1]
  }

  function Pending(adding: seq<Adder>): (ms: seq<Message>)
    ensures |ms| == |adding|
  {
    seq(|adding|, i requires 0 <= i < |adding| => adding[i].m)
  }

  ghost function Abs(s: Racy): M.Views
    requires Solo(s)
  {
    M.Views(s.fifo, Mirror(s), Pending(s.adding), s.due, s.missed, s.dropped)
  }

  /** The atomic step an access completes, if it completes one. */
  function LabelOf(s: Racy, st: Step): Option<M.Step>
    requires Can(s, st)
  {
    match st
    case DeviceWrite(m) => Some(M.DeviceWrite(m))
    case DeviceRead => Some(M.DeviceRead)
    case AddStep(i) =>
      if s.adding[i].pc.Stored? || (s.adding[i].pc.Fresh? && s.count >= M.MAX_MESSAGES) then Some(M.Add(i)) else None
    case PopBegin => Some(M.Pop)
    case PopNext => None
  }

  ghost predicate Matches(s: Racy, st: Step)
    requires InRange(s) && Solo(s) && Can(s, st)
  {
    var r := Do(s, st);
    && Solo(r)
    && match LabelOf(s, st)
       case None => Abs(r) == Abs(s)
       case Some(a) => M.Can(Abs(s), a) && Abs(r) == M.Do(Abs(s), a)
  }

  /** An access inside an add changes nothing the atomic model sees. */
  lemma AddInsideMatches(s: Racy, i: nat)
    requires Solo(s) && i < |s.adding| && (s.adding[i].pc.Fresh? ==> Calm(s) && s.count < M.MAX_MESSAGES)
    requires !s.adding[i].pc.Stored?
    ensures Can(s, AddStep(i)) && Matches(s, AddStep(i))
  {
    KeepsInRange(s, AddStep(i));
    assert Pending(Do(s, AddStep(i)).adding) == Pending(s.adding);
  }

  lemma AddEndMatches(s: Racy, i: nat)
    requires Solo(s) && i < |s.adding| && (s.adding[i].pc.Fresh? ==> Calm(s) && s.count >= M.MAX_MESSAGES)
    requires s.adding[i].pc.Stored? || s.adding[i].pc.Fresh?
    ensures Can(s, AddStep(i)) && Matches(s, AddStep(i))
  {
    var r := Do(s, AddStep(i));
    KeepsInRange(s, AddStep(i));
    assert Pending(r.adding) == Pending(s.adding)[..i] + Pending(s.adding)[i + 1..];
    assert s.adding[i].pc.Stored? ==> r.slots[..r.count] == s.slots[..s.count] + [s.adding[i].m];
  }

  lemma AddMatches(s: Racy, i: nat)
    requires Solo(s) && i < |s.adding| && (s.adding[i].pc.Fresh? ==> Calm(s))
    ensures Can(s, AddStep(i)) && Matches(s, AddStep(i))
  {
    if s.adding[i].pc.Stored? || (s.adding[i].pc.Fresh? && s.count >= M.MAX_MESSAGES) {
      AddEndMatches(s, i);
    } else {
      AddInsideMatches(s, i);
    }
  }

  lemma CopyMatches(s: Racy)
    requires Solo(s) && s.pop.Copy?
    ensures Matches(s, PopNext)
  {
    var r, i := Do(s, PopNext), s.pop.i;
    KeepsInRange(s, PopNext);
    assert r.slots[..i + 1] + r.slots[i + 2..s.count] == s.slots[..i] + s.slots[i + 1..s.count];
  }

  lemma PopMatches(s: Racy)
    requires Solo(s) && !s.pop.NoPop?
    ensures Matches(s, PopNext)
  {
    if s.pop.Copy? {
      CopyMatches(s);
    } else {
      KeepsInRange(s, PopNext);
      assert s.pop.Guard? && s.pop.i == s.count - 1 ==>
             s.slots[..s.pop.i] + s.slots[s.pop.i + 1..s.count] == s.slots[..s.count - 1];
    }
  }

  lemma BeginMatches(s: Racy)
    requires Solo(s) && Calm(s) && Can(s, PopBegin)
    ensures Matches(s, PopBegin)
  {
    KeepsInRange(s, PopBegin);
    assert s.count > 0 ==> s.slots[..0] + s.slots[1..s.count] == s.slots[..s.count][1..];
  }

  lemma DeviceMatches(s: Racy, st: Step)
    requires Solo(s) && Can(s, st) && (st.DeviceWrite? || st.DeviceRead?)
    ensures Matches(s, st)
  {
    KeepsInRange(s, st);
    if st.DeviceWrite? {
      assert Pending(Do(s, st).adding) == Pending(s.adding) + [st.m];
    }
  }

  lemma StepMatches(s: Racy, st: Step)
    requires Solo(s) && Can(s, st) && (Begins(s, st) ==> Calm(s))
    ensures Matches(s, st)
  {
    match st
    case AddStep(i) => AddMatches(s, i);
    case PopNext => PopMatches(s);
    case DeviceWrite(_) => DeviceMatches(s, st);
    case DeviceRead => DeviceMatches(s, st);
    case PopBegin => BeginMatches(s);
  }

  /** The steps of InboxMirror a run amounts to. */
  ghost function Atomic(s: Racy, steps: seq<Step>): seq<M.Step>
    requires Run(s, steps).Some?
  {
    if steps == [] then []
    else
      var init, st := steps[..|steps| - 1], steps[|steps| - 1];
      Atomic(s, init) +
      match LabelOf(Run(s, init).value, st)
      case None => []
      case Some(a) => [a]
  }

  /** Runs whose adds and pops do not overlap are runs of the atomic model. */
  lemma {:induction false} ApartReduces(slots: seq<Message>, steps: seq<Step>)
    requires |slots| == M.MAX_MESSAGES
    requires Run(Start(slots), steps).Some? && Apart(Start(slots), steps)
    ensures var s := Run(Start(slots), steps).value;
            Solo(s) && M.Run(M.Empty(), Atomic(Start(slots), steps)) == Some(Abs(s))
  {
    if steps == [] {
      assert Abs(Start(slots)) == M.Empty();
    } else {
      var init, st := steps[..|steps| - 1], steps[|steps| - 1];
      ApartReduces(slots, init);
      var p := Run(Start(slots), init).value;
      StepMatches(p, st);
      match LabelOf(p, st) {
        case None =>
          assert Atomic(Start(slots), steps) == Atomic(Start(slots), init);
        case Some(a) =>
          M.RunMore(M.Empty(), Atomic(Start(slots), init), a);
      }
    }
  }

  ghost predicate Quiet(s: Racy) { s.adding == [] && s.due == 0 && s.pop.NoPop? }

  /** One handler at a time: only the oldest pending add moves. */
  predicate InOrder(steps: seq<Step>) {
    forall k | 0 <= k < |steps| :: steps[k].AddStep? ==> steps[k].i == 0
  }

  lemma {:induction false} AtomicInOrder(s: Racy, steps: seq<Step>)
    requires Run(s, steps).Some? && InOrder(steps)
    ensures M.InOrder(Atomic(s, steps))
  {
    if steps != [] {
      AtomicInOrder(s, steps[..|steps| - 1]);
    }
  }

  /** So the array agrees with the device exactly as InboxMirror says. */
  lemma ApartAgreesIff(slots: seq<Message>, steps: seq<Step>)
    requires |slots| == M.MAX_MESSAGES
    requires Run(Start(slots), steps).Some? && Apart(Start(slots), steps)
    requires InOrder(steps) && Quiet(Run(Start(slots), steps).value)
    ensures var s := Run(Start(slots), steps).value;
            var atomic := Atomic(Start(slots), steps);
            && InRange(s) && M.Run(M.Empty(), atomic).Some?
            && var fine := s.missed == s.dropped && M.KeptFrom(M.Kept(atomic), M.DeviceReads(atomic));
               && (fine ==> s.slots[..s.count] == s.fifo)
               && (s.slots[..s.count] == s.fifo && M.Distinct(M.Writes(atomic)) ==> fine)
  {
    ApartReduces(slots, steps);
    AtomicInOrder(Start(slots), steps);
    M.MirrorAgreesIff(Atomic(Start(slots), steps));
  }

  // ---- overlapping operations ---------------------------------------------------

  lemma RunMore(s: Racy, steps: seq<Step>, st: Step)
    requires Run(s, steps).Some? && InRange(Run(s, steps).value) && Can(Run(s, steps).value, st)
    ensures Run(s, steps + [st]) == Some(Do(Run(s, steps).value, st))
  {
  }

  lemma {:induction false} RunAppend(s: Racy, first: seq<Step>, second: seq<Step>)
    requires Run(s, first).Some?
    ensures Run(s, first + second) == Run(Run(s, first).value, second)
  {
    if second == [] {
      assert first + second == first;
    } else {
      var init := second[..|second| - 1];
      assert (first + second)[..|first + second| - 1] == first + init;
      RunAppend(s, first, init);
    }
  }

  /** What LengthsConserved says is zero: the length of the mirror against the device's. */
  function Balance(s: Racy): int {
    s.count - (if s.pop.NoPop? then 0 else 1) + |s.adding| + s.dropped - |s.fifo| - s.due - s.missed
  }

  /** Every access keeps the balance, but the store of a count loaded before another store. */
  lemma BalanceMoves(s: Racy, st: Step)
    requires InRange(s) && Can(s, st)
    ensures Balance(Do(s, st)) - Balance(s) ==
            if st.AddStep? && s.adding[st.i].pc.Stored? then s.adding[st.i].pc.c - s.count
            else if st.PopNext? && s.pop.Store? then s.pop.c - s.count
            else 0
  {
  }

  lemma BalancedWhenApart(slots: seq<Message>, steps: seq<Step>)
    requires |slots| == M.MAX_MESSAGES
    requires Run(Start(slots), steps).Some? && Apart(Start(slots), steps)
    ensures Balance(Run(Start(slots), steps).value) == 0
  {
    ApartReduces(slots, steps);
    M.LengthsConserved(Atomic(Start(slots), steps));
  }

  /** The add i is taken up to its last store. */
  lemma DriveAdd(s: Racy, i: nat) returns (more: seq<Step>, r: Racy)
    requires InRange(s) && i < |s.adding| && s.count < M.MAX_MESSAGES
    requires s.adding[i].pc.Fresh? || s.adding[i].pc.Tested? || s.adding[i].pc.c == s.count
    ensures Run(s, more) == Some(r) && InRange(r) && |r.slots| == |s.slots|
    ensures r == s.(slots := r.slots, adding := s.adding[i := Adder(s.adding[i].m, Stored(s.count))])
    ensures r.slots == if s.adding[i].pc.Stored? then s.slots else s.slots[s.count := s.adding[i].m]
    ensures NoDevice(more) && (i == 0 ==> InOrder(more))
    decreases if s.adding[i].pc.Fresh? then 3 else if s.adding[i].pc.Tested? then 2 else if s.adding[i].pc.Loaded? then 1 else 0
  {
    if s.adding[i].pc.Stored? {
      more, r := [], s;
    } else {
      KeepsInRange(s, AddStep(i));
      var rest;
      rest, r := DriveAdd(Do(s, AddStep(i)), i);
      assert r.adding == s.adding[i := Adder(s.adding[i].m, Stored(s.count))];
      more := Then(s, AddStep(i), rest);
    }
  }

  /** The pop is taken up to its last store. */
  lemma {:induction false} DrivePop(s: Racy) returns (more: seq<Step>, r: Racy)
    requires InRange(s) && (s.pop.Copy? ==> s.pop.i < s.count - 1) && (s.pop.Store? ==> s.pop.c == s.count)
    requires s.pop.NoPop? ==> s.due > 0 && s.count > 0
    ensures Run(s, more) == Some(r) && InRange(r) && NoDevice(more)
    ensures r == s.(slots := r.slots, pop := Store(s.count), due := s.due - if s.pop.NoPop? then 1 else 0)
    decreases if s.pop.NoPop? then 3 else if s.pop.Load? then 1 else if s.pop.Store? then 0 else 2,
              if s.pop.Guard? || s.pop.Copy? then s.count - s.pop.i else 0,
              s.pop.Guard?
  {
    if s.pop.Store? {
      more, r := [], s;
    } else {
      var st := if s.pop.NoPop? then PopBegin else PopNext;
      RunMore(s, [], st);
      KeepsInRange(s, st);
      var rest;
      rest, r := DrivePop(Do(s, st));
      more := Then(s, st, rest);
    }
  }

  /** One access and what follows it. */
  lemma Then(s: Racy, st: Step, rest: seq<Step>) returns (more: seq<Step>)
    requires InRange(s) && Can(s, st)
    ensures more == [st] + rest && Run(s, more) == Run(Do(s, st), rest)
    ensures NoDevice(rest) && !st.DeviceWrite? && !st.DeviceRead? ==> NoDevice(more)
    ensures InOrder(rest) && (st.AddStep? ==> st.i == 0) ==> InOrder(more)
  {
    RunMore(s, [], st);
    assert [] + [st] == [st];
    RunAppend(s, [st], rest);
    more := [st] + rest;
  }

  /** Two operations are unfinished, at least one of them an add that finds room. */
  ghost predicate TwoUnfinished(s: Racy) {
    && s.count < M.MAX_MESSAGES
    && (|s.adding| >= 2 || (|s.adding| == 1 && (!s.pop.NoPop? || (s.due > 0 && s.count > 0))))
  }

  /** Both adds load the same count: one of the two messages is overwritten. */
  lemma TwoAddsLoseOne(s: Racy) returns (more: seq<Step>, r: Racy)
    requires Solo(s) && |s.adding| >= 2 && s.count < M.MAX_MESSAGES
    ensures Run(s, more) == Some(r) && Balance(r) == Balance(s) - 1 && |r.adding| == |s.adding| - 2
    ensures r == s.(slots := r.slots, adding := r.adding, count := s.count + 1)
  {
    var m0, p0 := DriveAdd(s, 0);
    var m1, p1 := DriveAdd(p0, 1);
    RunAppend(s, m0, m1);
    more := m0 + m1;
    RunMore(s, more, AddStep(0));
    KeepsInRange(p1, AddStep(0));
    BalanceMoves(p1, AddStep(0));
    more, r := more + [AddStep(0)], Do(p1, AddStep(0));
    assert r.adding[0] == p1.adding[1];
    RunMore(s, more, AddStep(0));
    BalanceMoves(r, AddStep(0));
    more, r := more + [AddStep(0)], Do(r, AddStep(0));
  }

  /** The pop stores a count loaded before the add's: the add is lost. */
  lemma AddAndPopLoseOne(s: Racy) returns (more: seq<Step>, r: Racy)
    requires Solo(s) && |s.adding| == 1 && s.count < M.MAX_MESSAGES
    requires !s.pop.NoPop? || (s.due > 0 && s.count > 0)
    ensures Run(s, more) == Some(r) && Balance(r) == Balance(s) - 1 && r.adding == [] && r.pop.NoPop?
  {
    var m0, p0 := DrivePop(s);
    assert p0.adding == s.adding;
    var m1, p1 := DriveAdd(p0, 0);
    RunAppend(s, m0, m1);
    more := m0 + m1;
    RunMore(s, more, AddStep(0));
    KeepsInRange(p1, AddStep(0));
    BalanceMoves(p1, AddStep(0));
    more, r := more + [AddStep(0)], Do(p1, AddStep(0));
    RunMore(s, more, PopNext);
    BalanceMoves(r, PopNext);
    more, r := more + [PopNext], Do(r, PopNext);
  }

  /** A lost balance shows: at a quiet moment without misses and drops the two have different lengths. */
  lemma SpoiledDisagrees(s: Racy)
    requires InRange(s) && Balance(s) != 0
    ensures Quiet(s) && s.missed == s.dropped ==> s.slots[..s.count] != s.fifo
  {
  }

  /**
   * The converse: wherever a run without overlap has two operations unfinished,
   * they can be scheduled to overlap and lose an add, which no atomic run does.
   */
  lemma OverlapCanSpoil(slots: seq<Message>, steps: seq<Step>) returns (more: seq<Step>)
    requires |slots| == M.MAX_MESSAGES
    requires Run(Start(slots), steps).Some? && Apart(Start(slots), steps)
    requires TwoUnfinished(Run(Start(slots), steps).value)
    ensures Run(Start(slots), steps + more).Some?
    ensures var s := Run(Start(slots), steps + more).value;
            && InRange(s) && Balance(s) == -1
            && (Quiet(s) && s.missed == s.dropped ==> s.slots[..s.count] != s.fifo)
  {
    ApartReduces(slots, steps);
    BalancedWhenApart(slots, steps);
    var s := Run(Start(slots), steps).value;
    var r;
    if |s.adding| >= 2 {
      more, r := TwoAddsLoseOne(s);
    } else {
      more, r := AddAndPopLoseOne(s);
    }
    RunAppend(Start(slots), steps, more);
    RunsStayInRange(s, more);
    SpoiledDisagrees(r);
  }

  /** The first add, past its test or before it, runs to its end. */
  lemma FinishFirst(s: Racy) returns (more: seq<Step>, r: Racy)
    requires InRange(s) && s.adding != [] && (s.adding[0].pc.Tested? || s.adding[0].pc.Fresh?) && s.count < M.MAX_MESSAGES
    ensures Run(s, more) == Some(r) && NoDevice(more) && InOrder(more) && InRange(r)
    ensures r == s.(slots := s.slots[s.count := s.adding[0].m], count := s.count + 1, adding := s.adding[1..])
  {
    var drive, p := DriveAdd(s, 0);
    RunMore(s, drive, AddStep(0));
    KeepsInRange(p, AddStep(0));
    more, r := drive + [AddStep(0)], Do(p, AddStep(0));
    assert r.adding == s.adding[1..];
  }

  /** A device write whose add is still to come. */
  lemma WriteWaits(s0: Racy, before: seq<Step>, s: Racy, m: Message)
    requires Run(s0, before) == Some(s) && InRange(s) && |s.fifo| < FIFO_SIZE
    ensures Run(s0, before + [DeviceWrite(m)]) ==
            Some(s.(fifo := s.fifo + [m], adding := s.adding + [Adder(m, Fresh)]))
  {
    RunMore(s0, before, DeviceWrite(m));
  }

  lemma OrderAppends(a: seq<Step>, b: seq<Step>)
    requires InOrder(a) && InOrder(b)
    ensures InOrder(a + b)
  {
  }

  /** A delivery with nothing else moving. */
  lemma AddAlone(s0: Racy, before: seq<Step>, s: Racy, m: Message) returns (steps: seq<Step>, r: Racy)
    requires Run(s0, before) == Some(s) && InRange(s) && InOrder(before)
    requires s.adding == [] && s.count < M.MAX_MESSAGES && |s.fifo| < FIFO_SIZE
    ensures Run(s0, steps) == Some(r) && InRange(r) && InOrder(steps)
    ensures r == s.(fifo := s.fifo + [m], slots := s.slots[s.count := m], count := s.count + 1)
  {
    WriteWaits(s0, before, s, m);
    var written := before + [DeviceWrite(m)];
    var p := s.(fifo := s.fifo + [m], adding := s.adding + [Adder(m, Fresh)]);
    assert p.adding[0] == Adder(m, Fresh) && p.adding[1..] == s.adding;
    var add;
    add, r := FinishFirst(p);
    OrderAppends(written, add);
    RunAppend(s0, written, add);
    steps := written + add;
  }

  /** A pop of a single message up to its decrement: the loop has no round. */
  lemma PopOfOne(s0: Racy, before: seq<Step>, s: Racy) returns (steps: seq<Step>, r: Racy)
    requires Run(s0, before) == Some(s) && InRange(s) && InOrder(before)
    requires s.pop.NoPop? && s.due > 0 && s.count == 1
    ensures Run(s0, steps) == Some(r) && InRange(r) && InOrder(steps)
    ensures r == s.(due := s.due - 1, pop := Load)
  {
    RunMore(s0, before, PopBegin);
    KeepsInRange(s, PopBegin);
    steps, r := before + [PopBegin], Do(s, PopBegin);
    RunMore(s0, steps, PopNext);
    KeepsInRange(r, PopNext);
    steps, r := steps + [PopNext], Do(r, PopNext);
  }

  /** A message delivered, read, and its pop begun. */
  lemma PopBegun(slots: seq<Message>, a: Message) returns (steps: seq<Step>, s: Racy)
    requires |slots| == M.MAX_MESSAGES
    ensures Run(Start(slots), steps) == Some(s) && InRange(s) && InOrder(steps)
    ensures s == Racy([], slots[0 := a], 1, [], 0, Load, 0, 0)
  {
    var s0 := Start(slots);
    var p;
    steps, p := AddAlone(s0, [], s0, a);
    RunMore(s0, steps, DeviceRead);
    KeepsInRange(p, DeviceRead);
    steps, p := steps + [DeviceRead], Do(p, DeviceRead);
    assert p.fifo == [];
    steps, s := PopOfOne(s0, steps, p);
  }

  /** An add between the shift and the decrement: nothing is missed or dropped, and the mirror holds the message that was read. */
  lemma AddInsidePopRun(slots: seq<Message>, a: Message, b: Message) returns (steps: seq<Step>)
    requires |slots| == M.MAX_MESSAGES
    ensures Run(Start(slots), steps).Some? && InOrder(steps)
    ensures var s := Run(Start(slots), steps).value;
            && InRange(s) && Quiet(s) && s.missed == 0 && s.dropped == 0
            && s.fifo == [b] && s.slots[..s.count] == [a]
  {
    var s0 := Start(slots);
    var s;
    steps, s := PopBegun(slots, a);
    steps, s := AddAlone(s0, steps, s, b);
    RunMore(s0, steps, PopNext);
    KeepsInRange(s, PopNext);
    steps, s := steps + [PopNext], Do(s, PopNext);
    RunMore(s0, steps, PopNext);
    KeepsInRange(s, PopNext);
    steps, s := steps + [PopNext], Do(s, PopNext);
    assert s.count == 1 && s.slots == slots[0 := a][1 := b];
    assert s.slots[..1] == [s.slots[0]];
  }

  lemma TwoWaiting(slots: seq<Message>, a: Message, b: Message) returns (steps: seq<Step>, s: Racy)
    requires |slots| == M.MAX_MESSAGES
    ensures Run(Start(slots), steps) == Some(s)
    ensures s == Start(slots).(fifo := [] + [a] + [b], adding := [] + [Adder(a, Fresh)] + [Adder(b, Fresh)])
  {
    var s0 := Start(slots);
    WriteWaits(s0, [], s0, a);
    s := s0.(fifo := [] + [a], adding := [] + [Adder(a, Fresh)]);
    WriteWaits(s0, [] + [DeviceWrite(a)], s, b);
    s := s.(fifo := s.fifo + [b], adding := s.adding + [Adder(b, Fresh)]);
    steps := [] + [DeviceWrite(a)] + [DeviceWrite(b)];
  }

  /** Two handlers load the same count: the device holds both messages, the mirror one. */
  lemma TwoAddsRun(slots: seq<Message>, a: Message, b: Message) returns (steps: seq<Step>)
    requires |slots| == M.MAX_MESSAGES
    ensures Run(Start(slots), steps).Some?
    ensures var s := Run(Start(slots), steps).value;
            Quiet(s) && s.missed == 0 && s.dropped == 0 && s.fifo == [a, b] && s.count == 1
  {
    var before, s := TwoWaiting(slots, a, b);
    var more, r := TwoAddsLoseOne(s);
    RunAppend(Start(slots), before, more);
    assert |r.adding| == 0;
    steps := before + more;
  }

  // ---- when an add can leave the array ------------------------------------------

  /** An add is about to store behind the end of the array. */
  ghost predicate Overruns(s: Racy) {
    exists i :: 0 <= i < |s.adding| && Outside(s, i)
  }

  /** No add makes its test while another is past its own; pops may overlap everything. */
  ghost predicate TestsApart(s: Racy, steps: seq<Step>)
    requires Run(s, steps).Some?
  {
    steps == [] ||
    var init, st := steps[..|steps| - 1], steps[|steps| - 1];
    TestsApart(s, init) && (st.AddStep? ==> TestsAlone(Run(s, init).value, st.i))
  }

  ghost predicate TestsAlone(s: Racy, i: nat) {
    i < |s.adding| && s.adding[i].pc.Fresh? ==> forall j | 0 <= j < |s.adding| :: s.adding[j].pc.Fresh?
  }

  /** One add at most is past its test, and the room it found is still there. */
  ghost predicate OneAdd(s: Racy) {
    && InRange(s)
    && (forall i, j | 0 <= i < j < |s.adding| :: s.adding[i].pc.Fresh? || s.adding[j].pc.Fresh?)
    && (forall i | 0 <= i < |s.adding| && !s.adding[i].pc.Fresh? :: s.count < M.MAX_MESSAGES)
    && (forall i | 0 <= i < |s.adding| && s.adding[i].pc.Loaded? :: s.adding[i].pc.c < M.MAX_MESSAGES)
  }

  lemma KeepsOneAdd(s: Racy, st: Step)
    requires OneAdd(s) && Can(s, st) && (st.AddStep? ==> TestsAlone(s, st.i))
    ensures OneAdd(Do(s, st))
  {
    KeepsInRange(s, st);
  }

  /** Then no add ever leaves the array, however the pops fall. */
  lemma {:induction false} TestsApartStayInside(slots: seq<Message>, steps: seq<Step>)
    requires |slots| == M.MAX_MESSAGES
    requires Run(Start(slots), steps).Some? && TestsApart(Start(slots), steps)
    ensures OneAdd(Run(Start(slots), steps).value) && !Overruns(Run(Start(slots), steps).value)
  {
    if steps != [] {
      TestsApartStayInside(slots, steps[..|steps| - 1]);
      KeepsOneAdd(Run(Start(slots), steps[..|steps| - 1]).value, steps[|steps| - 1]);
    }
  }

  /** Only adds and pops go on. */
  predicate NoDevice(steps: seq<Step>) {
    forall k | 0 <= k < |steps| :: !steps[k].DeviceWrite? && !steps[k].DeviceRead?
  }

  /** Two adds wait, together they need more than the room, and there is room or will be. */
  ghost predicate TooMany(s: Racy) {
    |s.adding| >= 2 && s.count + |s.adding| > M.MAX_MESSAGES && (s.count < M.MAX_MESSAGES || s.due > 0)
  }

  /** All adds from k on make their test. */
  lemma TestAll(s: Racy, k: nat) returns (more: seq<Step>, r: Racy)
    requires InRange(s) && s.count < M.MAX_MESSAGES && k <= |s.adding|
    requires forall i | 0 <= i < |s.adding| :: s.adding[i].pc == if i < k then Tested else Fresh
    ensures Run(s, more) == Some(r) && NoDevice(more) && InRange(r)
    ensures r == s.(adding := r.adding) && |r.adding| == |s.adding|
    ensures forall i | 0 <= i < |r.adding| :: r.adding[i].pc.Tested?
    decreases |s.adding| - k
  {
    if k == |s.adding| {
      more, r := [], s;
    } else {
      KeepsInRange(s, AddStep(k));
      var rest;
      rest, r := TestAll(Do(s, AddStep(k)), k + 1);
      more := Then(s, AddStep(k), rest);
    }
  }

  /** One stretch after another. */
  lemma Joined(s: Racy, first: seq<Step>, p: Racy, second: seq<Step>)
    requires Run(s, first) == Some(p) && NoDevice(first) && NoDevice(second)
    ensures Run(s, first + second) == Run(p, second) && NoDevice(first + second)
  {
    RunAppend(s, first, second);
  }

  lemma LoadsOutside(s: Racy)
    requires InRange(s) && s.count == M.MAX_MESSAGES && s.adding != [] && s.adding[0].pc.Tested?
    ensures Run(s, [AddStep(0)]).Some? && Overruns(Run(s, [AddStep(0)]).value)
  {
    RunMore(s, [], AddStep(0));
    assert [] + [AddStep(0)] == [AddStep(0)];
    assert Outside(Do(s, AddStep(0)), 0);
  }

  /** Adds past their test fill the array one after the other; the next loads 64. */
  lemma {:induction false} FillAndLoad(s: Racy) returns (more: seq<Step>)
    requires InRange(s) && s.count + |s.adding| > M.MAX_MESSAGES
    requires forall i | 0 <= i < |s.adding| :: s.adding[i].pc.Tested?
    ensures Run(s, more).Some? && NoDevice(more) && Overruns(Run(s, more).value)
    decreases M.MAX_MESSAGES - s.count
  {
    if s.count == M.MAX_MESSAGES {
      LoadsOutside(s);
      more := [AddStep(0)];
    } else {
      var first, p := FinishFirst(s);
      var rest := FillAndLoad(p);
      Joined(s, first, p, rest);
      more := first + rest;
    }
  }

  /** On a full array a due pop makes room for one. */
  lemma PopOnce(s: Racy) returns (more: seq<Step>, r: Racy)
    requires InRange(s) && s.pop.NoPop? && s.due > 0 && s.count > 0
    ensures Run(s, more) == Some(r) && NoDevice(more) && InRange(r)
    ensures r.count == s.count - 1 && r.adding == s.adding && r.pop.NoPop?
  {
    var drive, q := DrivePop(s);
    RunMore(s, drive, PopNext);
    KeepsInRange(q, PopNext);
    more, r := drive + [PopNext], Do(q, PopNext);
  }

  lemma CanOverrunWithRoom(s: Racy) returns (more: seq<Step>)
    requires InRange(s) && Calm(s) && s.count < M.MAX_MESSAGES && s.count + |s.adding| > M.MAX_MESSAGES
    ensures Run(s, more).Some? && NoDevice(more) && Overruns(Run(s, more).value)
  {
    var tests, p := TestAll(s, 0);
    var fill := FillAndLoad(p);
    Joined(s, tests, p, fill);
    more := tests + fill;
  }

  lemma CanOverrun(s: Racy) returns (more: seq<Step>)
    requires InRange(s) && Calm(s) && TooMany(s)
    ensures Run(s, more).Some? && NoDevice(more) && Overruns(Run(s, more).value)
  {
    if s.count < M.MAX_MESSAGES {
      more := CanOverrunWithRoom(s);
    } else {
      var pop, p := PopOnce(s);
      var rest := CanOverrunWithRoom(p);
      Joined(s, pop, p, rest);
      more := pop + rest;
    }
  }

  /** h bounds the count and everything loaded from it, and leaves room for every add under way. */
  ghost predicate Below(s: Racy, h: int) {
    && InRange(s) && s.count <= h && h + |s.adding| <= M.MAX_MESSAGES
    && (forall i | 0 <= i < |s.adding| && (s.adding[i].pc.Loaded? || s.adding[i].pc.Stored?) :: s.adding[i].pc.c <= h)
    && (s.pop.Store? ==> s.pop.c <= h)
  }

  lemma StaysBelow(s: Racy, st: Step, h: int) returns (h': int)
    requires Below(s, h) && Can(s, st) && !st.DeviceWrite? && !st.DeviceRead?
    ensures Below(Do(s, st), h')
  {
    KeepsInRange(s, st);
    h' := if st.AddStep? && s.adding[st.i].pc.Stored? then h + 1 else h;
  }

  lemma {:induction false} RunsStayBelow(s: Racy, more: seq<Step>, h: int) returns (h': int)
    requires Below(s, h) && Run(s, more).Some? && NoDevice(more)
    ensures Below(Run(s, more).value, h') && !Overruns(Run(s, more).value)
  {
    h' := h;
    if more != [] {
      var before := RunsStayBelow(s, more[..|more| - 1], h);
      h' := StaysBelow(Run(s, more[..|more| - 1]).value, more[|more| - 1], before);
    }
  }

  /** The array is full and no pop is due: every add is dropped. */
  ghost predicate Full(s: Racy) {
    InRange(s) && Calm(s) && s.count == M.MAX_MESSAGES && s.due == 0
  }

  lemma {:induction false} RunsStayFull(s: Racy, more: seq<Step>)
    requires Full(s) && Run(s, more).Some? && NoDevice(more)
    ensures Full(Run(s, more).value)
  {
    if more != [] {
      RunsStayFull(s, more[..|more| - 1]);
      KeepsInRange(Run(s, more[..|more| - 1]).value, more[|more| - 1]);
    }
  }

  lemma {:induction false} RunsKeepOneAdd(s: Racy, more: seq<Step>)
    requires OneAdd(s) && |s.adding| <= 1 && Run(s, more).Some? && NoDevice(more)
    ensures OneAdd(Run(s, more).value) && |Run(s, more).value.adding| <= 1
  {
    if more != [] {
      RunsKeepOneAdd(s, more[..|more| - 1]);
      KeepsOneAdd(Run(s, more[..|more| - 1]).value, more[|more| - 1]);
    }
  }

  /**
   * Exactly when the adds and pops that wait can be scheduled so that an add
   * leaves the array: when at least two adds wait, the room is too small for
   * all of them, and there is room at all or a pop is due to make some.
   */
  lemma OverrunReachableIff(s: Racy)
    requires InRange(s) && Calm(s)
    ensures (exists more :: NoDevice(more) && Run(s, more).Some? && Overruns(Run(s, more).value)) <==> TooMany(s)
  {
    if TooMany(s) {
      var more := CanOverrun(s);
    } else {
      forall more | NoDevice(more) && Run(s, more).Some?
        ensures !Overruns(Run(s, more).value)
      {
        if |s.adding| <= 1 {
          RunsKeepOneAdd(s, more);
        } else if s.count + |s.adding| <= M.MAX_MESSAGES {
          var _ := RunsStayBelow(s, more, s.count);
        } else {
          RunsStayFull(s, more);
        }
      }
    }
  }

  /** k deliveries in a row. */
  lemma {:induction false} Deliveries(slots: seq<Message>, m: Message, k: nat) returns (steps: seq<Step>, s: Racy)
    requires |slots| == M.MAX_MESSAGES && k <= M.MAX_MESSAGES
    ensures Run(Start(slots), steps) == Some(s) && InRange(s) && InOrder(steps)
    ensures |s.fifo| == s.count == k && s.adding == [] && s.due == 0 && s.pop.NoPop?
  {
    if k == 0 {
      steps, s := [], Start(slots);
    } else {
      var before, p := Deliveries(slots, m, k - 1);
      steps, s := AddAlone(Start(slots), before, p, m);
    }
  }

  /** From the empty inbox: 63 deliveries, then two handlers that both write the device around an API read. */
  lemma OverrunRun(slots: seq<Message>, m: Message) returns (steps: seq<Step>)
    requires |slots| == M.MAX_MESSAGES
    ensures Run(Start(slots), steps).Some? && Overruns(Run(Start(slots), steps).value)
  {
    var s0 := Start(slots);
    var before, s := Deliveries(slots, m, M.MAX_MESSAGES - 1);
    WriteWaits(s0, before, s, m);
    before := before + [DeviceWrite(m)];
    s := s.(fifo := s.fifo + [m], adding := s.adding + [Adder(m, Fresh)]);
    RunMore(s0, before, DeviceRead);
    before, s := before + [DeviceRead], Do(s, DeviceRead);
    WriteWaits(s0, before, s, m);
    before := before + [DeviceWrite(m)];
    s := s.(fifo := s.fifo + [m], adding := s.adding + [Adder(m, Fresh)]);
    var more := CanOverrun(s);
    RunAppend(s0, before, more);
    steps := before + more;
  }
}

/** userspace/messaging/direct.c: the daemon's copy of the inbox, against the kernel FIFO. */
module InboxMirror {
  import opened Messages
  import opened Selection

  const MAX_MESSAGES := 64

  function Added(s: seq<Message>, m: Message): seq<Message> {
    if |s| >= MAX_MESSAGES then s else s + [m]
  }

  function Popped(s: seq<Message>): seq<Message> {
    if s == [] then s else s[1..]
  }

  class Inbox {
    const inbox: array<Message>
    var inboxCount: int

    ghost predicate Valid()
      reads this
    {
      inbox.Length == MAX_MESSAGES && 0 <= inboxCount <= MAX_MESSAGES
    }

    ghost function Contents(): seq<Message>
      reads this, inbox
      requires Valid()
    {
      inbox[..inboxCount]
    }

    constructor (blank: Message)
      ensures Valid() && Contents() == [] && fresh(inbox)
    {
      inbox := new Message[MAX_MESSAGES](_ => blank);
      inboxCount := 0;
    }

    /** direct_add_to_inbox. */
    method Add(m: Message)
      requires Valid()
      modifies this, inbox
      ensures Valid() && Contents() == Added(old(Contents()), m)
    {
      if inboxCount >= MAX_MESSAGES {
        return;
      }
      inbox[inboxCount] := m;
      inboxCount := inboxCount + 1;
    }

    /** direct_pop_inbox_front: shifts every later message down by one. */
    method PopFront() returns (r: int)
      requires Valid()
      modifies this, inbox
      ensures Valid() && Contents() == Popped(old(Contents()))
      ensures r == if old(Contents()) == [] then -1 else 0
    {
      if inboxCount == 0 {
        return -1;
      }
      var i := 0;
      while i < inboxCount - 1
        invariant 0 <= i <= inboxCount - 1
        invariant inboxCount == old(inboxCount)
        invariant forall j | 0 <= j < i :: inbox[j] == old(inbox[j + 1])
        invariant forall j | i <= j < inboxCount :: inbox[j] == old(inbox[j])
      {
        inbox[i] := inbox[i + 1];
        i := i + 1;
      }
      inboxCount := inboxCount - 1;
      return 0;
    }
  }

  // ---- handlers and readers interleaved --------------------------------

  /**
   * Each add and each pop is one step here; MirrorRace takes them apart and says
   * which runs that covers.
   * `adding`: messages the device took whose direct_add_to_inbox has not run;
   * `popping`: device reads whose direct_pop_inbox_front has not run;
   * `missed` and `dropped`: pops that found the mirror empty, adds that found it full.
   */
  datatype Views = Views(
    fifo: seq<Message>,
    mirror: seq<Message>,
    adding: seq<Message>,
    popping: nat,
    missed: nat,
    dropped: nat)

  datatype Step = DeviceWrite(m: Message) | Add(i: nat) | DeviceRead | Pop

  function Empty(): Views { Views([], [], [], 0, 0, 0) }

  predicate Can(v: Views, st: Step) {
    match st
    case DeviceWrite(_) => |v.fifo| < FIFO_SIZE
    case Add(i) => i < |v.adding|
    case DeviceRead => v.fifo != []
    case Pop => v.popping > 0
  }

  function Do(v: Views, st: Step): Views
    requires Can(v, st)
  {
    match st
    case DeviceWrite(m) => v.(fifo := v.fifo + [m], adding := v.adding + [m])
    case Add(i) =>
      v.(mirror := Added(v.mirror, v.adding[i]),
         adding := v.adding[..i] + v.adding[i + 1..],
         dropped := v.dropped + if |v.mirror| >= MAX_MESSAGES then 1 else 0)
    case DeviceRead => v.(fifo := v.fifo[1..], popping := v.popping + 1)
    case Pop =>
      v.(mirror := Popped(v.mirror), popping := v.popping - 1,
         missed := v.missed + if v.mirror == [] then 1 else 0)
  }

  ghost function Run(v: Views, steps: seq<Step>): Option<Views> {
    if steps == [] then Some(v)
    else
      match Run(v, steps[..|steps| - 1])
      case None => None
      case Some(p) => if Can(p, steps[|steps| - 1]) then Some(Do(p, steps[|steps| - 1])) else None
  }

  /** All handlers and readers are between operations. */
  predicate Quiet(v: Views) { v.adding == [] && v.popping == 0 }

  /** For any number of concurrent handlers and readers, the two lengths drift only by misses and drops. */
  lemma {:induction false} LengthsConserved(steps: seq<Step>)
    requires Run(Empty(), steps).Some?
    ensures var v := Run(Empty(), steps).value;
            && |v.mirror| + |v.adding| + v.dropped == |v.fifo| + v.popping + v.missed
            && |v.mirror| <= MAX_MESSAGES && |v.fifo| <= FIFO_SIZE
  {
    if steps != [] {
      LengthsConserved(steps[..|steps| - 1]);
    }
  }

  /** One handler at a time: adds happen in the order of the device writes. */
  predicate InOrder(steps: seq<Step>) {
    forall k | 0 <= k < |steps| :: steps[k].Add? ==> steps[k].i == 0
  }

  // ---- what the mirror holds, whatever happened -------------------------

  /** The messages the device took. */
  function Writes(steps: seq<Step>): seq<Message> {
    if steps == [] then []
    else
      var st := steps[|steps| - 1];
      Writes(steps[..|steps| - 1]) + if st.DeviceWrite? then [st.m] else []
  }

  function DeviceReads(steps: seq<Step>): nat {
    if steps == [] then 0
    else DeviceReads(steps[..|steps| - 1]) + if steps[|steps| - 1].DeviceRead? then 1 else 0
  }

  function Pops(steps: seq<Step>): nat {
    if steps == [] then 0
    else Pops(steps[..|steps| - 1]) + if steps[|steps| - 1].Pop? then 1 else 0
  }

  /** The messages direct_add_to_inbox found room for. */
  ghost function AddsAccepted(steps: seq<Step>): seq<Message>
    requires Run(Empty(), steps).Some?
  {
    if steps == [] then []
    else
      var p := Run(Empty(), steps[..|steps| - 1]).value;
      var st := steps[|steps| - 1];
      AddsAccepted(steps[..|steps| - 1]) +
      if st.Add? && |p.mirror| < MAX_MESSAGES then [p.adding[st.i]] else []
  }

  /** One step on a device and a mirror that are suffixes of what went into them. */
  lemma SuffixesStep(p: Views, st: Step, written: seq<Message>, read: nat, added: seq<Message>, popped: nat)
    requires Can(p, st) && read <= |written| && popped <= |added|
    requires p.fifo == written[read..] && p.mirror == added[popped..]
    ensures var v := Do(p, st);
            var written' := written + if st.DeviceWrite? then [st.m] else [];
            var read' := read + if st.DeviceRead? then 1 else 0;
            var added' := added + if st.Add? && |p.mirror| < MAX_MESSAGES then [p.adding[st.i]] else [];
            var popped' := popped + if st.Pop? && p.mirror != [] then 1 else 0;
            && read' <= |written'| && popped' <= |added'|
            && v.fifo == written'[read'..] && v.mirror == added'[popped'..]
  {
  }

  /**
   * For any number of handlers and readers in any order: the device holds its
   * writes from the number of reads on, the mirror holds the accepted adds
   * from the number of pops that found something on.
   */
  lemma {:induction false} ViewsAreSuffixes(steps: seq<Step>)
    requires Run(Empty(), steps).Some?
    ensures var v := Run(Empty(), steps).value;
            && DeviceReads(steps) <= |Writes(steps)| && v.fifo == Writes(steps)[DeviceReads(steps)..]
            && 0 <= Pops(steps) - v.missed <= |AddsAccepted(steps)|
            && v.mirror == AddsAccepted(steps)[Pops(steps) - v.missed..]
            && v.popping == DeviceReads(steps) - Pops(steps)
  {
    if steps != [] {
      var init, st := steps[..|steps| - 1], steps[|steps| - 1];
      ViewsAreSuffixes(init);
      var p := Run(Empty(), init).value;
      SuffixesStep(p, st, Writes(init), DeviceReads(init), AddsAccepted(init), Pops(init) - p.missed);
    }
  }

  /** At a quiet moment the two agree if and only if those suffixes do. */
  lemma MirrorAgreesIffSuffixesDo(steps: seq<Step>)
    requires Run(Empty(), steps).Some? && Quiet(Run(Empty(), steps).value)
    ensures var v := Run(Empty(), steps).value;
            var read := DeviceReads(steps);
            && v.missed <= read <= |Writes(steps)| && read - v.missed <= |AddsAccepted(steps)|
            && (v.mirror == v.fifo <==> AddsAccepted(steps)[read - v.missed..] == Writes(steps)[read..])
  {
    ViewsAreSuffixes(steps);
  }

  /** For each add in turn, whether the mirror had room. */
  ghost function Kept(steps: seq<Step>): seq<bool>
    requires Run(Empty(), steps).Some?
  {
    if steps == [] then []
    else
      var p := Run(Empty(), steps[..|steps| - 1]).value;
      Kept(steps[..|steps| - 1]) + if steps[|steps| - 1].Add? then [|p.mirror| < MAX_MESSAGES] else []
  }

  /** One step of handlers that add in the order of their writes. */
  lemma AddsStep(p: Views, st: Step, written: seq<Message>, keep: seq<bool>)
    requires Can(p, st) && (st.Add? ==> st.i == 0)
    requires |keep| <= |written| && p.adding == written[|keep|..]
    ensures var room := |p.mirror| < MAX_MESSAGES;
            var written' := written + if st.DeviceWrite? then [st.m] else [];
            var keep' := keep + if st.Add? then [room] else [];
            && |keep'| <= |written'| && Do(p, st).adding == written'[|keep'|..]
            && Select(written'[..|keep'|], keep') ==
               Select(written[..|keep|], keep) + if st.Add? && room then [p.adding[0]] else []
  {
    var n := |keep|;
    assert keep + [] == keep && written + [] == written;
    if st.Add? {
      SelectGrows(written[..n], keep, written[n], |p.mirror| < MAX_MESSAGES);
      assert written[..n] + [written[n]] == written[..n + 1];
    } else if st.DeviceWrite? {
      assert (written + [st.m])[..n] == written[..n];
    }
  }

  /** With one handler at a time the n-th add is for the n-th write. */
  lemma {:induction false} AddsFollowWrites(steps: seq<Step>)
    requires Run(Empty(), steps).Some? && InOrder(steps)
    ensures var v := Run(Empty(), steps).value;
            var n := |Kept(steps)|;
            && n <= |Writes(steps)| && v.adding == Writes(steps)[n..]
            && AddsAccepted(steps) == Select(Writes(steps)[..n], Kept(steps))
            && v.dropped == n - |AddsAccepted(steps)|
  {
    if steps != [] {
      var init, st := steps[..|steps| - 1], steps[|steps| - 1];
      AddsFollowWrites(init);
      var p := Run(Empty(), init).value;
      AddsStep(p, st, Writes(init), Kept(init));
      assert Writes(steps) == Writes(init) + if st.DeviceWrite? then [st.m] else [];
      assert Kept(steps) == Kept(init) + if st.Add? then [|p.mirror| < MAX_MESSAGES] else [];
    }
  }

  /** The part of the argument that is about suffixes only: everything kept, every pop effective. */
  lemma SuffixesJoin(w: seq<Message>, keep: seq<bool>, popped: nat, read: nat)
    requires |keep| <= |w| && popped <= |keep| && popped <= read <= |w|
    requires |Select(w[..|keep|], keep)| == |keep|
    ensures var held := Select(w[..|keep|], keep)[popped..] + w[|keep|..];
            read - popped <= |held| && held[read - popped..] == w[read..]
  {
    SelectAll(w[..|keep|], keep);
    assert w[..|keep|][popped..] + w[|keep|..] == w[popped..];
    assert w[popped..][read - popped..] == w[read..];
  }

  /** Without a miss or a drop, mirror and pending adds hold the device's messages behind the pops still due. */
  lemma MirrorTracksFifo(steps: seq<Step>)
    requires Run(Empty(), steps).Some? && InOrder(steps)
    ensures var v := Run(Empty(), steps).value;
            v.missed == 0 && v.dropped == 0 ==>
              v.popping <= |v.mirror + v.adding| && (v.mirror + v.adding)[v.popping..] == v.fifo
  {
    ViewsAreSuffixes(steps);
    AddsFollowWrites(steps);
    var v := Run(Empty(), steps).value;
    if v.missed == 0 && v.dropped == 0 {
      SuffixesJoin(Writes(steps), Kept(steps), Pops(steps), DeviceReads(steps));
    }
  }

  /**
   * With one handler at a time the mirror equals the FIFO at every quiet moment
   * of every interleaving, unless a pop found it empty or an add found it full;
   * and one of the two without the other always shows.
   */
  lemma MirrorAgreesUnlessMissed(steps: seq<Step>)
    requires Run(Empty(), steps).Some? && InOrder(steps) && Quiet(Run(Empty(), steps).value)
    ensures var v := Run(Empty(), steps).value;
            && (v.missed == 0 && v.dropped == 0 ==> v.mirror == v.fifo)
            && (v.dropped == 0 ==> (v.mirror == v.fifo <==> v.missed == 0))
            && (v.missed == 0 ==> (v.mirror == v.fifo <==> v.dropped == 0))
  {
    MirrorTracksFifo(steps);
    LengthsConserved(steps);
    var v := Run(Empty(), steps).value;
    assert v.mirror + [] == v.mirror;
  }

  ghost predicate Distinct(ms: seq<Message>) {
    forall i, j | 0 <= i < j < |ms| :: ms[i] != ms[j]
  }

  /** No add from the r-th on was dropped. */
  ghost predicate KeptFrom(keep: seq<bool>, r: nat) {
    forall i | r <= i < |keep| :: keep[i]
  }

  /** A suffix of what was kept is what was written from r on exactly when nothing was dropped from r on. */
  lemma SuffixKept(w: seq<Message>, keep: seq<bool>, r: nat, start: nat)
    requires |w| == |keep| && r <= |w| && start <= |Select(w, keep)| && |Select(w, keep)| - start == |w| - r
    ensures KeptFrom(keep, r) ==> Select(w, keep)[start..] == w[r..]
    ensures Select(w, keep)[start..] == w[r..] && Distinct(w) ==> KeptFrom(keep, r)
  {
    var read, unread := Select(w[..r], keep[..r]), Select(w[r..], keep[r..]);
    assert w[..r] + w[r..] == w && keep[..r] + keep[r..] == keep;
    SelectSplit(w[..r], keep[..r], w[r..], keep[r..]);
    SelectAll(w[r..], keep[r..]);
    if start < |read| {
      var i := SelectedFrom(w[..r], keep[..r], start);
      assert Select(w, keep)[start..][0] == w[i];
      assert w[r..][0] == w[r];
    } else {
      assert forall i | r <= i < |keep| :: keep[i] == keep[r..][i - r];
    }
    if KeptFrom(keep, r) {
      assert forall i | 0 <= i < |keep[r..]| :: keep[r..][i];
    }
  }

  /**
   * Exactness, with one handler at a time and messages their timestamps tell
   * apart: at a quiet moment the mirror agrees with the device if and only if as
   * many pops missed as adds were dropped and no message still in the device was
   * among the dropped ones.
   */
  lemma MirrorAgreesIff(steps: seq<Step>)
    requires Run(Empty(), steps).Some? && InOrder(steps) && Quiet(Run(Empty(), steps).value)
    ensures var v := Run(Empty(), steps).value;
            var unread := DeviceReads(steps);
            && unread <= |Kept(steps)| == |Writes(steps)|
            && (v.missed == v.dropped && KeptFrom(Kept(steps), unread) ==> v.mirror == v.fifo)
            && (v.mirror == v.fifo && Distinct(Writes(steps)) ==> v.missed == v.dropped && KeptFrom(Kept(steps), unread))
  {
    MirrorAgreesIffSuffixesDo(steps);
    AddsFollowWrites(steps);
    LengthsConserved(steps);
    var v := Run(Empty(), steps).value;
    var w := Writes(steps);
    assert w[..|w|] == w;
    if v.missed == v.dropped {
      SuffixKept(w, Kept(steps), DeviceReads(steps), DeviceReads(steps) - v.missed);
    }
  }

  /** A whole delivery, or a whole API read, with nothing in between. */
  datatype Job = Deliver(m: Message) | ReadOne

  function StepsOf(j: Job): seq<Step> {
    match j
    case Deliver(m) => [DeviceWrite(m), Add(0)]
    case ReadOne => [DeviceRead, Pop]
  }

  function Flatten(jobs: seq<Job>): seq<Step> {
    if jobs == [] then [] else Flatten(jobs[..|jobs| - 1]) + StepsOf(jobs[|jobs| - 1])
  }

  /** Jobs that do not overlap keep the mirror equal to the FIFO: nothing is ever missed or dropped. */
  lemma {:induction false} SerialJobsAgree(jobs: seq<Job>)
    requires Run(Empty(), Flatten(jobs)).Some?
    ensures var v := Run(Empty(), Flatten(jobs)).value;
            Quiet(v) && v.mirror == v.fifo && v.missed == 0 && v.dropped == 0
  {
    if jobs != [] {
      var before, two := Flatten(jobs[..|jobs| - 1]), StepsOf(jobs[|jobs| - 1]);
      var all := Flatten(jobs);
      assert all[..|all| - 1] == before + [two[0]];
      assert (before + [two[0]])[..|before|] == before;
      SerialJobsAgree(jobs[..|jobs| - 1]);
      var v := Run(Empty(), before).value;
      var w := Do(v, two[0]);
      assert Run(Empty(), before + [two[0]]) == Some(w);
      LengthsConserved(before);
    }
  }

  lemma RunMore(v: Views, steps: seq<Step>, st: Step)
    requires Run(v, steps).Some? && Can(Run(v, steps).value, st)
    ensures Run(v, steps + [st]) == Some(Do(Run(v, steps).value, st))
  {
  }

  /** An API read between the device write and the add leaves a message the FIFO no longer has. */
  lemma DivergentRun(m: Message) returns (steps: seq<Step>)
    ensures Run(Empty(), steps).Some? && InOrder(steps) && Quiet(Run(Empty(), steps).value)
    ensures Run(Empty(), steps).value.fifo == [] && Run(Empty(), steps).value.mirror == [m]
  {
    RunMore(Empty(), [], DeviceWrite(m));
    RunMore(Empty(), [] + [DeviceWrite(m)], DeviceRead);
    RunMore(Empty(), [] + [DeviceWrite(m)] + [DeviceRead], Pop);
    RunMore(Empty(), [] + [DeviceWrite(m)] + [DeviceRead] + [Pop], Add(0));
    steps := [] + [DeviceWrite(m)] + [DeviceRead] + [Pop] + [Add(0)];
  }

  lemma {:induction false} RunAppend(v: Views, first: seq<Step>, second: seq<Step>)
    requires Run(v, first).Some?
    ensures Run(v, first + second) == Run(Run(v, first).value, second)
  {
    if second == [] {
      assert first + second == first;
    } else {
      var init := second[..|second| - 1];
      assert (first + second)[..|first + second| - 1] == first + init;
      RunAppend(v, first, init);
    }
  }

  /** k deliveries in a row. */
  lemma {:induction false} Filled(m: Message, k: nat) returns (steps: seq<Step>)
    requires k <= FIFO_SIZE
    ensures Run(Empty(), steps) == Some(Views(seq(k, _ => m), seq(k, _ => m), [], 0, 0, 0)) && InOrder(steps)
  {
    steps := [];
    if k == 0 {
      assert seq(k, _ => m) == [];
    } else {
      var before := Filled(m, k - 1);
      var v := Run(Empty(), before).value;
      assert Do(Do(v, DeviceWrite(m)), Add(0)) == Views(v.fifo + [m], v.mirror + [m], [], 0, 0, 0);
      RunMore(Empty(), before, DeviceWrite(m));
      RunMore(Empty(), before + [DeviceWrite(m)], Add(0));
      steps := before + [DeviceWrite(m)] + [Add(0)];
      assert seq(k, _ => m) == seq(k - 1, _ => m) + [m];
    }
  }

  /** On a full inbox, a delivery between the device read and the pop is dropped from the mirror. */
  lemma DroppedRun(v: Views, m: Message) returns (steps: seq<Step>)
    requires Quiet(v) && v.mirror == v.fifo && |v.fifo| == FIFO_SIZE
    ensures Run(v, steps).Some? && InOrder(steps) && Quiet(Run(v, steps).value)
    ensures Run(v, steps).value.fifo == v.fifo[1..] + [m] && Run(v, steps).value.mirror == v.fifo[1..]
  {
    RunMore(v, [], DeviceRead);
    RunMore(v, [] + [DeviceRead], DeviceWrite(m));
    RunMore(v, [] + [DeviceRead] + [DeviceWrite(m)], Add(0));
    RunMore(v, [] + [DeviceRead] + [DeviceWrite(m)] + [Add(0)], Pop);
    steps := [] + [DeviceRead] + [DeviceWrite(m)] + [Add(0)] + [Pop];
  }

  /** The same from the empty inbox: sixty-four deliveries, then a read with a delivery inside it. */
  lemma DroppedRunFromEmpty(m: Message, last: Message) returns (steps: seq<Step>)
    ensures Run(Empty(), steps).Some? && InOrder(steps) && Quiet(Run(Empty(), steps).value)
    ensures var v := Run(Empty(), steps).value;
            v.fifo == seq(FIFO_SIZE - 1, _ => m) + [last] && v.mirror == seq(FIFO_SIZE - 1, _ => m)
  {
    var before := Filled(m, FIFO_SIZE);
    var v := Run(Empty(), before).value;
    var after := DroppedRun(v, last);
    RunAppend(Empty(), before, after);
    steps := before + after;
    assert v.fifo[1..] == seq(FIFO_SIZE - 1, _ => m);
  }
}

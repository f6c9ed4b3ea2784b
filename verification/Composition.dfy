/** The whole path with both of its queues as concurrent FIFOs, access by access. */
module Composition {
  import opened Messages
  import opened FifoProtocol
  import opened FifoTheorems
  import Spec = BoundedQueue
  import L = LineEditor
  import E = EndToEnd
  import Selection

  /** `pipe` is the path with atomic queues; `out` and `inn` are outbox_fifo and inbox_fifo. */
  datatype Joint = Joint(pipe: E.Pipe, out: State, inn: State)

  /**
   * An access of a thread of one FIFO, with the step of the path that takes
   * effect at it, if one does; or a step that concerns neither queue.
   */
  datatype Step =
    | Outbox(a: Action, taking: Option<E.Step>)
    | Inbox(a: Action, taking: Option<E.Step>)
    | Aside(st: E.Step)

  function Start(outSlots: seq<Message>, inSlots: seq<Message>, threads: nat): Joint {
    Joint(E.Start(), Init(outSlots, threads), Init(inSlots, threads))
  }

  /** What the path itself asks of a step; what the queues ask is left to the FIFOs. */
  ghost predicate Asks(p: E.Pipe, st: E.Step) {
    match st
    case Key(_) => true
    case Take => |p.taken| == |p.net.results|
    case Send(a, _) => E.D.Possible(p.net, a) && (a.Begin? ==> |p.taken| > |p.net.results|)
    case Read => true
  }

  /** The message an Enter puts in the outbox. */
  ghost function Entered(p: E.Pipe, st: E.Step): seq<Message>
    requires L.Sound(p.keyboard) && st.Key?
  {
    E.Committed(p.keyboard, L.Handle(p.keyboard, st.e))
  }

  /** fifo_write puts the entered message in at its effect; a read from the device is direct_send_loop's. */
  ghost predicate OutEffect(p: E.Pipe, st: E.Step, effect: Spec.Effect)
    requires L.Sound(p.keyboard)
  {
    match effect
    case PutIn(m) => st.Key? && Entered(p, st) == [m]
    case TookOut(_) => st.Take?
    case Emptied => false
  }

  /** keycipher_in_write puts a handler's request in; keycipher_in_read takes a message out. */
  ghost predicate InEffect(p: E.Pipe, st: E.Step, effect: Spec.Effect)
    requires Asks(p, st)
  {
    match effect
    case PutIn(m) => st.Send? && E.Stores(st.a) && E.Requested(p, st.a.k, st.author) == [m]
    case TookOut(_) => st.Read?
    case Emptied => false
  }

  ghost predicate TouchesNeither(p: E.Pipe, st: E.Step)
    requires L.Sound(p.keyboard)
  {
    (st.Key? && Entered(p, st) == []) || (st.Send? && !E.Stores(st.a))
  }

  predicate NoFlush(a: Action) { a.Call? ==> !a.op.Flush? }

  ghost predicate Can(j: Joint, s: Step)
    requires L.Sound(j.pipe.keyboard)
  {
    match s
    case Outbox(a, st) =>
      Enabled(j.out, a) && NoFlush(a) &&
      (var l := LabelOf(j.out, a);
       if l.Commit? then st.Some? && Asks(j.pipe, st.value) && OutEffect(j.pipe, st.value, l.effect) else st.None?)
    case Inbox(a, st) =>
      Enabled(j.inn, a) && NoFlush(a) &&
      (var l := LabelOf(j.inn, a);
       if l.Commit? then st.Some? && Asks(j.pipe, st.value) && InEffect(j.pipe, st.value, l.effect) else st.None?)
    case Aside(st) => Asks(j.pipe, st) && TouchesNeither(j.pipe, st)
  }

  /** A FIFO of the original size without a flush under way, whose live messages are q. */
  ghost predicate Holds(s: State, q: seq<Message>) {
    Inv(s) && FlushIdle(s) && |s.slots| == FIFO_SIZE && LiveLen(s) >= 0 && Live(s) == q
  }

  ghost predicate Linked(j: Joint) {
    && L.Sound(j.pipe.keyboard) && AllFit(j.pipe.inbox)
    && Holds(j.out, j.pipe.outbox) && Holds(j.inn, j.pipe.inbox)
  }

  /** What one access does to the live messages. */
  lemma AccessHolds(s: State, a: Action, q: seq<Message>)
    requires Holds(s, q) && Enabled(s, a) && NoFlush(a)
    ensures InBounds(s) && Inv(Apply(s, a)) && LiveLen(Apply(s, a)) >= 0
    ensures Holds(Apply(s, a), Live(Apply(s, a))) && EffectIs(q, LabelOf(s, a), Live(Apply(s, a)), FIFO_SIZE)
  {
    FlushStaysIdle(s, a);
    LiveAfter(s, a);
  }

  /** So the queues allow the step of the path that takes effect. */
  lemma QueueAllows(j: Joint, s: Step)
    requires Linked(j) && Can(j, s)
    ensures s.Aside? ==> E.Can(j.pipe, s.st)
    ensures !s.Aside? && s.taking.Some? ==> E.Can(j.pipe, s.taking.value)
  {
    match s
    case Outbox(a, _) => AccessHolds(j.out, a, j.pipe.outbox);
    case Inbox(a, _) => AccessHolds(j.inn, a, j.pipe.inbox);
    case Aside(_) =>
  }

  ghost function Follow(p: E.Pipe, st: Option<E.Step>): E.Pipe
    requires st.Some? ==> L.Sound(p.keyboard) && E.Can(p, st.value)
  {
    if st.Some? then E.Do(p, st.value) else p
  }

  ghost function Do(j: Joint, s: Step): Joint
    requires Linked(j) && Can(j, s)
  {
    QueueAllows(j, s);
    match s
    case Outbox(a, st) => Joint(Follow(j.pipe, st), Apply(j.out, a), j.inn)
    case Inbox(a, st) => Joint(Follow(j.pipe, st), j.out, Apply(j.inn, a))
    case Aside(st) => Joint(E.Do(j.pipe, st), j.out, j.inn)
  }

  lemma OutboxKeeps(j: Joint, a: Action, st: Option<E.Step>)
    requires Linked(j) && Can(j, Outbox(a, st))
    ensures var r := Do(j, Outbox(a, st));
            Holds(r.out, r.pipe.outbox) && Holds(r.inn, r.pipe.inbox) && L.Sound(r.pipe.keyboard)
  {
    QueueAllows(j, Outbox(a, st));
    AccessHolds(j.out, a, j.pipe.outbox);
  }

  lemma InboxKeeps(j: Joint, a: Action, st: Option<E.Step>)
    requires Linked(j) && Can(j, Inbox(a, st))
    ensures var r := Do(j, Inbox(a, st));
            Holds(r.out, r.pipe.outbox) && Holds(r.inn, r.pipe.inbox) && L.Sound(r.pipe.keyboard)
  {
    QueueAllows(j, Inbox(a, st));
    AccessHolds(j.inn, a, j.pipe.inbox);
  }

  lemma AsideKeeps(j: Joint, st: E.Step)
    requires Linked(j) && Can(j, Aside(st))
    ensures var r := Do(j, Aside(st));
            Holds(r.out, r.pipe.outbox) && Holds(r.inn, r.pipe.inbox) && L.Sound(r.pipe.keyboard)
  {
    QueueAllows(j, Aside(st));
    assert j.pipe.outbox + [] == j.pipe.outbox && j.pipe.inbox + [] == j.pipe.inbox;
  }

  /** The state a run reaches; RunsStayLinked: the link never stops one. */
  ghost function Run(start: Joint, steps: seq<Step>): Option<Joint> {
    if steps == [] then Some(start)
    else
      match Run(start, steps[..|steps| - 1])
      case None => None
      case Some(p) =>
        if Linked(p) && Can(p, steps[|steps| - 1]) then Some(Do(p, steps[|steps| - 1])) else None
  }

  /** The steps of the path, in the order they take effect. */
  function PathSteps(steps: seq<Step>): seq<E.Step> {
    if steps == [] then []
    else
      var s := steps[|steps| - 1];
      PathSteps(steps[..|steps| - 1]) +
      if s.Aside? then [s.st] else if s.taking.Some? then [s.taking.value] else []
  }

  lemma StartHolds(slots: seq<Message>, threads: nat)
    requires |slots| == FIFO_SIZE
    ensures Holds(Init(slots, threads), [])
  {
    InitInv(slots, threads);
    assert LiveLen(Init(slots, threads)) == 0;
  }

  /**
   * Every run of the path on the concurrent FIFOs is a run of the path on
   * atomic queues, and at every moment their live rings are those queues.
   */
  lemma {:induction false} RunsStayLinked(outSlots: seq<Message>, inSlots: seq<Message>, threads: nat, steps: seq<Step>)
    requires |outSlots| == FIFO_SIZE && |inSlots| == FIFO_SIZE
    requires Run(Start(outSlots, inSlots, threads), steps).Some?
    ensures var j := Run(Start(outSlots, inSlots, threads), steps).value;
            E.Run(PathSteps(steps)) == Some(j.pipe) && Linked(j)
  {
    var start := Start(outSlots, inSlots, threads);
    if steps == [] {
      StartHolds(outSlots, threads);
      StartHolds(inSlots, threads);
    } else {
      var init, s := steps[..|steps| - 1], steps[|steps| - 1];
      RunsStayLinked(outSlots, inSlots, threads, init);
      var p := Run(start, init).value;
      QueueAllows(p, s);
      match s {
        case Outbox(a, st) => OutboxKeeps(p, a, st);
        case Inbox(a, st) => InboxKeeps(p, a, st);
        case Aside(st) => AsideKeeps(p, st);
      }
      var st := if s.Aside? then Some(s.st) else s.taking;
      PathGoesOn(PathSteps(init), p.pipe, st);
      assert PathSteps(steps) == PathSteps(init) + if st.Some? then [st.value] else [];
      E.RunsConserve(PathSteps(steps));
    }
  }

  lemma PathGoesOn(path: seq<E.Step>, p: E.Pipe, st: Option<E.Step>)
    requires E.Run(path) == Some(p) && (st.Some? ==> E.Can(p, st.value))
    ensures E.Run(path + if st.Some? then [st.value] else []) == Some(Follow(p, st))
  {
    if st.Some? {
      assert (path + [st.value])[..|path|] == path;
    } else {
      assert path + [] == path;
    }
  }

  /**
   * The end-to-end result on the concurrent FIFOs: what was read, what is live
   * in the inbox, in hand and live in the outbox are, in order, the committed
   * lines less exactly those whose call ended without a store.
   */
  lemma ReadIsTypedLessLost(outSlots: seq<Message>, inSlots: seq<Message>, threads: nat, steps: seq<Step>)
    requires |outSlots| == FIFO_SIZE && |inSlots| == FIFO_SIZE
    requires Run(Start(outSlots, inSlots, threads), steps).Some?
    requires E.SentInTurn(PathSteps(steps))
    ensures var j := Run(Start(outSlots, inSlots, threads), steps).value;
            && Linked(j) && E.Wired(j.pipe) && AllFit(Live(j.out)) && AllFit(E.InHand(j.pipe))
            && var typed := E.Typed(E.Keys(PathSteps(steps)));
               && |E.Reaches(j.pipe)| == |typed|
               && j.pipe.readings + E.ReadAll(Live(j.inn)) + E.ReadAll(E.InHand(j.pipe)) + E.ReadAll(Live(j.out))
                  == Selection.Select(typed, E.Reaches(j.pipe))
  {
    RunsStayLinked(outSlots, inSlots, threads, steps);
    E.ReadIsTypedLessLost(PathSteps(steps));
  }

  // ---- nothing but the queues restrains the path --------------------------

  /** Every step the path can take on atomic queues has its effect on one FIFO, which that FIFO's contents allow, or none. */
  lemma StepsHaveEffects(p: E.Pipe, st: E.Step, e: Spec.Effect)
    requires L.Sound(p.keyboard) && E.Can(p, st)
    requires st.Key? && Entered(p, st) != [] ==> e == Spec.PutIn(Entered(p, st)[0])
    requires st.Take? ==> e == Spec.TookOut(p.outbox[0])
    requires st.Send? && E.Stores(st.a) && E.Requested(p, st.a.k, st.author) != [] ==>
               e == Spec.PutIn(E.Requested(p, st.a.k, st.author)[0])
    requires st.Read? ==> e == Spec.TookOut(p.inbox[0])
    ensures Asks(p, st)
    ensures st.Key? || st.Take? ==> TouchesNeither(p, st) || OutEffect(p, st, e)
    ensures st.Send? || st.Read? ==> TouchesNeither(p, st) || InEffect(p, st, e) || E.Requested(p, st.a.k, st.author) == []
  {
  }
}

/**
 * The specification of the FIFO: a bounded queue whose operations take effect
 * at one atomic point between their invocation and their response.
 */
module BoundedQueue {
  import opened Messages

  datatype Request = Put(m: Message) | Get | Clear
  datatype Response = Done | Got(m: Message)

  /** Where the caller stands: not in the queue, waiting for its effect, or past it. */
  datatype Phase = Quiet | Asked(req: Request) | Served(resp: Response)

  datatype Queue = Queue(phases: seq<Phase>, items: seq<Message>)

  /** What one atomic effect did to the items. */
  datatype Effect = PutIn(m: Message) | TookOut(m: Message) | Emptied

  datatype Label =
    | Invoke(t: nat, req: Request)
    | Commit(t: nat, effect: Effect)
    | Respond(t: nat, resp: Response)
    | Withdraw(t: nat) // the call ends without any effect (-ERESTARTSYS, -EAGAIN)
    | Tau

  ghost predicate Allowed(cap: nat, q: Queue, l: Label) {
    match l
    case Tau => true
    case Invoke(t, _) => t < |q.phases| && q.phases[t].Quiet?
    case Respond(t, resp) => t < |q.phases| && q.phases[t] == Served(resp)
    case Withdraw(t) => t < |q.phases| && q.phases[t].Asked? && !q.phases[t].req.Clear?
    case Commit(t, effect) =>
      t < |q.phases| && q.phases[t].Asked? &&
      match effect
      case PutIn(m) => q.phases[t].req == Put(m) && |q.items| < cap
      case TookOut(m) => q.phases[t].req == Get && q.items != [] && q.items[0] == m
      case Emptied => q.phases[t].req == Clear
  }

  ghost function Next(cap: nat, q: Queue, l: Label): (r: Queue)
    requires Allowed(cap, q, l)
    ensures |r.phases| == |q.phases|
  {
    match l
    case Tau => q
    case Invoke(t, req) => q.(phases := q.phases[t := Asked(req)])
    case Respond(t, _) => q.(phases := q.phases[t := Quiet])
    case Withdraw(t) => q.(phases := q.phases[t := Quiet])
    case Commit(t, effect) =>
      match effect
      case PutIn(m) => Queue(q.phases[t := Served(Done)], q.items + [m])
      case TookOut(m) => Queue(q.phases[t := Served(Got(m))], q.items[1..])
      case Emptied => Queue(q.phases[t := Served(Done)], [])
  }

  /** The queue reached by a sequence of labels, if the specification accepts it. */
  ghost function Run(cap: nat, q: Queue, ls: seq<Label>): Option<Queue> {
    if ls == [] then Some(q)
    else
      var last := |ls| - 1;
      match Run(cap, q, ls[..last])
      case None => None
      case Some(p) => if Allowed(cap, p, ls[last]) then Some(Next(cap, p, ls[last])) else None
  }

  /** The messages stored, in the order their effects happened. */
  function PutLog(ls: seq<Label>): seq<Message> {
    if ls == [] then []
    else
      var last := |ls| - 1;
      PutLog(ls[..last]) +
      if ls[last].Commit? && ls[last].effect.PutIn? then [ls[last].effect.m] else []
  }

  /** The messages read, in the order their effects happened. */
  function GetLog(ls: seq<Label>): seq<Message> {
    if ls == [] then []
    else
      var last := |ls| - 1;
      GetLog(ls[..last]) +
      if ls[last].Commit? && ls[last].effect.TookOut? then [ls[last].effect.m] else []
  }

  ghost predicate NeverEmptied(ls: seq<Label>) {
    forall i | 0 <= i < |ls| :: ls[i].Commit? ==> !ls[i].effect.Emptied?
  }

  /** What was put in comes out once, in order; the rest is still queued. */
  lemma {:induction false} FirstInFirstOut(cap: nat, q: Queue, ls: seq<Label>)
    requires Run(cap, q, ls).Some? && NeverEmptied(ls)
    ensures q.items + PutLog(ls) == GetLog(ls) + Run(cap, q, ls).value.items
  {
    if ls != [] {
      var last := |ls| - 1;
      FirstInFirstOut(cap, q, ls[..last]);
      var p := Run(cap, q, ls[..last]).value;
      assert q.items + PutLog(ls[..last]) == GetLog(ls[..last]) + p.items;
      var l := ls[last];
      if l.Commit? && l.effect.PutIn? {
        assert q.items + PutLog(ls) == q.items + PutLog(ls[..last]) + [l.effect.m];
      } else if l.Commit? && l.effect.TookOut? {
        assert p.items == [l.effect.m] + p.items[1..];
        assert Run(cap, q, ls).value.items == p.items[1..];
        assert PutLog(ls) == PutLog(ls[..last]);
        assert GetLog(ls) == GetLog(ls[..last]) + [l.effect.m];
      } else {
        assert PutLog(ls) == PutLog(ls[..last]) && GetLog(ls) == GetLog(ls[..last]);
      }
    }
  }

  /** The queue never holds more than its capacity. */
  lemma {:induction false} CapacityRespected(cap: nat, q: Queue, ls: seq<Label>)
    requires |q.items| <= cap && Run(cap, q, ls).Some?
    ensures |Run(cap, q, ls).value.items| <= cap
  {
    if ls != [] {
      CapacityRespected(cap, q, ls[..|ls| - 1]);
    }
  }

  /** What the effects of one caller's calls will answer, in the order they happened. */
  function Effects(ls: seq<Label>, t: nat): seq<Response> {
    if ls == [] then []
    else
      var l := ls[|ls| - 1];
      Effects(ls[..|ls| - 1], t) +
      if l.Commit? && l.t == t then [if l.effect.TookOut? then Got(l.effect.m) else Done] else []
  }

  /** What one caller's calls did answer. */
  function Answers(ls: seq<Label>, t: nat): seq<Response> {
    if ls == [] then []
    else
      var l := ls[|ls| - 1];
      Answers(ls[..|ls| - 1], t) + if l.Respond? && l.t == t then [l.resp] else []
  }

  /** Every call that answers had exactly one effect and answers with it; a call that ends otherwise had none. */
  lemma {:induction false} OneEffectPerAnswer(cap: nat, q: Queue, ls: seq<Label>, t: nat)
    requires t < |q.phases| && !q.phases[t].Served? && Run(cap, q, ls).Some?
    ensures var r := Run(cap, q, ls).value;
            && |r.phases| == |q.phases|
            && Effects(ls, t) == Answers(ls, t) + if r.phases[t].Served? then [r.phases[t].resp] else []
  {
    if ls != [] {
      OneEffectPerAnswer(cap, q, ls[..|ls| - 1], t);
    }
  }
}

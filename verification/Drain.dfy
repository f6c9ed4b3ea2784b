/**
 * handle_read_all on the concurrent inbox: a count read without the lock, then
 * that many device reads among writers at every point of their calls.
 */
module Drain {
  import opened Messages
  import opened FifoProtocol
  import opened FifoTheorems
  import opened FifoProgress
  import Spec = BoundedQueue
  import Handlers

  predicate Reads(pc: Pc) {
    pc.RWait? || pc.RAsleep? || pc.RPermit? || pc.RLocked? || pc.RCopied? || pc.RAdvanced? || pc.RCounted? || pc.RUnlocked?
  }

  /** Nobody but t is in fifo_read, and t is in nothing else. */
  ghost predicate SoleReader(s: State, t: nat) {
    && t < |s.pcs| && (s.pcs[t].Idle? || Reads(s.pcs[t]))
    && forall u | 0 <= u < |s.pcs| && u != t :: !Reads(s.pcs[u])
  }

  /** The handler as the thread t: it reads and is not interrupted, and nobody else reads. */
  ghost predicate ReadBy(acts: seq<Action>, t: nat) {
    forall i | 0 <= i < |acts| ::
      && (acts[i].Call? ==> (acts[i].op.Read? <==> acts[i].t == t))
      && acts[i] != Interrupt(t)
  }

  /** The handler reads the count: no read and no flush is under way; writers may be anywhere. */
  ghost predicate CountTaken(s: State, t: nat) {
    Inv(s) && FlushIdle(s) && SoleReader(s, t) && s.pcs[t].Idle?
  }

  /** The unlocked count is the number of live messages, even between count++ and up. */
  lemma CountIsLive(s: State, t: nat)
    requires CountTaken(s, t)
    ensures LiveLen(s) == s.count >= 0
  {
    LiveBounds(s);
    if s.lock.Some? {
      assert Inside(s.pcs[s.lock.value]);
    }
  }

  lemma SoleReaderStays(s: State, t: nat, a: Action)
    requires SoleReader(s, t) && FlushIdle(s) && InBounds(s) && Enabled(s, a) && ReadBy([a], t)
    ensures SoleReader(Apply(s, a), t)
  {
    StepsOneThread(s, a);
    assert [a][0] == a;
  }

  /** The effects of the handler's calls are the reads of the ring. */
  lemma {:induction false} OnlyItsReads(s: State, t: nat, acts: seq<Action>)
    requires SoleReader(s, t) && FlushIdle(s) && FlushFree(acts) && ReadBy(acts, t) && Exec(s, acts).Some?
    ensures SoleReader(Exec(s, acts).value, t)
    ensures var taken := Spec.GetLog(Trace(s, acts));
            Spec.Effects(Trace(s, acts), t) == seq(|taken|, i requires 0 <= i < |taken| => Spec.Got(taken[i]))
  {
    if acts != [] {
      var last := |acts| - 1;
      OnlyItsReads(s, t, acts[..last]);
      FlushFreeRuns(s, acts[..last]);
      var p := Exec(s, acts[..last]).value;
      assert [acts[last]][0] == acts[last];
      SoleReaderStays(p, t, acts[last]);
      TraceLength(s, acts[..last]);
      var ls := Trace(s, acts);
      assert ls[..last] == Trace(s, acts[..last]) && ls[last] == LabelOf(p, acts[last]);
    }
  }

  /** What was live when the count was taken, and what came later, is read first or is still live. */
  lemma OldestFirst(s: State, acts: seq<Action>)
    requires Inv(s) && FlushIdle(s) && FlushFree(acts) && Exec(s, acts).Some?
    ensures var r := Exec(s, acts).value;
            && Inv(r) && FlushIdle(r) && LiveLen(s) >= 0 && LiveLen(r) >= 0
            && Live(s) + Spec.PutLog(Trace(s, acts)) == Spec.GetLog(Trace(s, acts)) + Live(r)
            && Spec.Run(|s.slots|, Abs(s), Trace(s, acts)) == Some(Abs(r))
  {
    FlushFreeRuns(s, acts);
    RefinesAtomicQueue(s, acts);
    FlushFreeTrace(s, acts);
    Spec.FirstInFirstOut(|s.slots|, Abs(s), Trace(s, acts));
  }

  /** Every effect of a call of t has been answered, but for the one t is still in. */
  lemma EffectsAnswered(s: State, t: nat, acts: seq<Action>)
    requires Inv(s) && FlushIdle(s) && FlushFree(acts) && Exec(s, acts).Some?
    requires t < |s.pcs| && s.pcs[t].Idle?
    ensures var r := Exec(s, acts).value;
            var ls := Trace(s, acts);
            && |r.pcs| == |s.pcs|
            && |Spec.Effects(ls, t)| == |Spec.Answers(ls, t)| + (if PhaseOf(r.pcs[t]).Served? then 1 else 0)
            && Spec.Answers(ls, t) <= Spec.Effects(ls, t)
  {
    OldestFirst(s, acts);
    assert Abs(s).phases[t].Quiet?;
    Spec.OneEffectPerAnswer(|s.slots|, Abs(s), Trace(s, acts), t);
    assert |Abs(Exec(s, acts).value).phases| == |s.pcs|;
  }

  /** What the handler has been answered so far, and the read it is in, are the messages read so far. */
  lemma AnswersAreReads(s: State, t: nat, acts: seq<Action>)
    requires CountTaken(s, t) && FlushFree(acts) && ReadBy(acts, t) && Exec(s, acts).Some?
    ensures var r := Exec(s, acts).value;
            var ls := Trace(s, acts);
            && SoleReader(r, t)
            && |Spec.GetLog(ls)| == |Spec.Answers(ls, t)| + (if PhaseOf(r.pcs[t]).Served? then 1 else 0)
            && forall i | 0 <= i < |Spec.Answers(ls, t)| :: Spec.Answers(ls, t)[i] == Spec.Got(Spec.GetLog(ls)[i])
  {
    OnlyItsReads(s, t, acts);
    EffectsAnswered(s, t, acts);
  }

  /**
   * From a count of k, in every interleaving with writers: the first k answers
   * are the k oldest messages in order, and once k are answered and the handler
   * is out of its read, exactly the later messages are left.
   */
  lemma DrainsOldest(s: State, t: nat, acts: seq<Action>)
    requires CountTaken(s, t) && FlushFree(acts) && ReadBy(acts, t) && Exec(s, acts).Some?
    ensures var r := Exec(s, acts).value;
            var ls := Trace(s, acts);
            var answers := Spec.Answers(ls, t);
            && LiveLen(s) == s.count >= 0 && InBounds(r) && LiveLen(r) >= 0 && t < |r.pcs|
            && (forall i | 0 <= i < |answers| && i < s.count :: answers[i] == Spec.Got(Live(s)[i]))
            && (|answers| == s.count && r.pcs[t].Idle? ==> Live(r) == Spec.PutLog(ls))
  {
    CountIsLive(s, t);
    OldestFirst(s, acts);
    AnswersAreReads(s, t, acts);
    var r, ls := Exec(s, acts).value, Trace(s, acts);
    var answers := Spec.Answers(ls, t);
    var all := Live(s) + Spec.PutLog(ls);
    forall i | 0 <= i < |answers| && i < s.count
      ensures answers[i] == Spec.Got(Live(s)[i])
    {
      assert all[i] == Live(s)[i] && all[i] == Spec.GetLog(ls)[i];
    }
    if |answers| == s.count && r.pcs[t].Idle? {
      assert Live(r) == all[s.count..];
    }
  }

  /**
   * The handler never blocks forever: before its k answers are there, no state
   * in which nobody can move has it inside a read, although it may sleep a
   * while for a message counted but not yet signalled.
   */
  lemma NeverBlocksForever(s: State, t: nat, acts: seq<Action>)
    requires CountTaken(s, t) && FlushFree(acts) && ReadBy(acts, t) && Exec(s, acts).Some?
    requires |Spec.Answers(Trace(s, acts), t)| < s.count && Stuck(Exec(s, acts).value)
    ensures t < |Exec(s, acts).value.pcs| && Exec(s, acts).value.pcs[t].Idle?
  {
    CountIsLive(s, t);
    OldestFirst(s, acts);
    AnswersAreReads(s, t, acts);
    var r := Exec(s, acts).value;
    StuckThreadsOnlyWait(r);
    NoDeadlock(r);
    assert |Live(s)| <= |Spec.GetLog(Trace(s, acts))| + |Live(r)|;
  }

  /** The entries handle_read_all has appended: one for each answer. */
  ghost function Emitted(answers: seq<Spec.Response>): seq<Handlers.Entry>
    requires forall i | 0 <= i < |answers| :: answers[i].Got? && WellFormed(answers[i].m)
  {
    seq(|answers|, i requires 0 <= i < |answers| => Handlers.OpenEntry(answers[i].m))
  }

  /** The whole reply: the k oldest messages, in order and opened. */
  lemma EmitsOldest(s: State, t: nat, acts: seq<Action>)
    requires CountTaken(s, t) && FlushFree(acts) && ReadBy(acts, t) && Exec(s, acts).Some?
    requires LiveLen(s) >= 0 && AllFit(Live(s)) && |Spec.Answers(Trace(s, acts), t)| == s.count
    ensures var answers := Spec.Answers(Trace(s, acts), t);
            && (forall i | 0 <= i < |answers| :: answers[i].Got? && WellFormed(answers[i].m))
            && Emitted(answers) == Handlers.Entries(Live(s)) && |Emitted(answers)| == |Live(s)|
            && forall i | 0 <= i < |Live(s)| :: Handlers.Answers(Live(s)[i], Emitted(answers)[i])
  {
    DrainsOldest(s, t, acts);
    var answers := Spec.Answers(Trace(s, acts), t);
    assert forall i | 0 <= i < |answers| :: answers[i] == Spec.Got(Live(s)[i]);
    Handlers.EntriesAnswer(Live(s));
  }
}

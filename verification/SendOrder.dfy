/** In which order the inbox receives the messages of successive calls, and when that is the order of the calls. */
module SendOrder {
  import opened Messages
  import opened Delivery

  /** A handler has the whole request and has not yet acted on it. */
  ghost predicate Pending(c: Conn) {
    c.server.Reading? && c.body.Some?
  }

  ghost predicate NonePending(s: System) {
    forall k | 0 <= k < |s.conns| :: !Pending(s.conns[k])
  }

  ghost predicate Increasing(log: seq<Store>) {
    forall i, j | 0 <= i < j < |log| :: log[i].call < log[j].call
  }

  /** The log is in the order of the calls, and whatever the handlers still do keeps it so. */
  ghost predicate Tidy(s: System) {
    && Increasing(s.log)
    && (forall i, k | 0 <= i < |s.log| && 0 <= k < |s.conns| && Pending(s.conns[k]) :: s.log[i].call < s.conns[k].body.value)
    && (forall j, k | 0 <= j < k < |s.conns| && Pending(s.conns[j]) :: !Pending(s.conns[k]))
  }

  /** At the moment a request is put on the wire, no log entry is of its call or a later one. */
  lemma NewRequestIsNewest(s: System, i: nat)
    requires Inv(s) && i < |s.log| && (s.client.SentHeader? || s.client.Sending?)
    ensures s.log[i].call < |s.results|
  {
    var c := s.conns[s.log[i].conn];
    assert ConnSound(c, |s.results|, true);
    assert MayStore(c, s.log[i].call);
  }

  lemma PutKeepsTidy(s: System, a: Action)
    requires Inv(s) && Tidy(s) && Possible(s, a) && PutsRequest(s, a) && NonePending(s)
    ensures Tidy(Next(s, a))
  {
    var r := Next(s, a);
    forall i, k | 0 <= i < |r.log| && 0 <= k < |r.conns| && Pending(r.conns[k])
      ensures r.log[i].call < r.conns[k].body.value
    {
      NewRequestIsNewest(s, i);
    }
  }

  /** A step that puts no request leaves no request pending that was not. */
  lemma NoNewPending(s: System, a: Action, k: nat)
    requires Possible(s, a) && !PutsRequest(s, a) && k < |Next(s, a).conns| && Pending(Next(s, a).conns[k])
    ensures k < |s.conns| && Pending(s.conns[k]) && s.conns[k].body == Next(s, a).conns[k].body
    ensures a.Act? ==> k != a.k
  {
    StepShape(s, a);
  }

  lemma OtherStepKeepsTidy(s: System, a: Action)
    requires Tidy(s) && Possible(s, a) && !PutsRequest(s, a)
    ensures Tidy(Next(s, a))
  {
    var r := Next(s, a);
    forall k: nat | k < |r.conns| && Pending(r.conns[k])
      ensures k < |s.conns| && Pending(s.conns[k]) && s.conns[k].body == r.conns[k].body && (a.Act? ==> k != a.k)
    {
      NoNewPending(s, a, k);
    }
    if a.Act? {
      assert Pending(s.conns[a.k]);
    } else {
      assert r.log == s.log;
    }
  }

  /** The one step that can spoil the order: a request put while an older one is pending. */
  lemma TidyStepIff(s: System, a: Action)
    requires Inv(s) && Tidy(s) && Possible(s, a)
    ensures Tidy(Next(s, a)) <==> !PutsRequest(s, a) || NonePending(s)
  {
    if !PutsRequest(s, a) {
      OtherStepKeepsTidy(s, a);
    } else if NonePending(s) {
      PutKeepsTidy(s, a);
    } else {
      var last := |s.conns| - 1;
      var k :| 0 <= k < |s.conns| && Pending(s.conns[k]);
      assert k < last && Pending(Next(s, a).conns[k]) && Pending(Next(s, a).conns[last]);
    }
  }

  /** No request of the run was put while an older one was pending. */
  ghost predicate Settled(acts: seq<Action>)
    requires Run(Start(), acts).Some?
  {
    acts == [] ||
    var init, a := acts[..|acts| - 1], acts[|acts| - 1];
    Settled(init) && (PutsRequest(Run(Start(), init).value, a) ==> NonePending(Run(Start(), init).value))
  }

  /** Then the inbox receives the messages in the order of the calls. */
  lemma {:induction false} StoredInOrder(acts: seq<Action>)
    requires Run(Start(), acts).Some? && Settled(acts)
    ensures Tidy(Run(Start(), acts).value)
  {
    if acts != [] {
      var init := acts[..|acts| - 1];
      StoredInOrder(init);
      RunsKeepInv(init);
      TidyStepIff(Run(Start(), init).value, acts[|acts| - 1]);
    }
  }

  lemma ActAlone(acts: seq<Action>, s: System, k: nat) returns (r: System)
    requires Run(Start(), acts) == Some(s) && k < |s.conns| && s.conns[k].header && Pending(s.conns[k])
    ensures Run(Start(), acts + [Act(k, Accepted)]) == Some(r)
    ensures r.log == s.log + [Store(k, s.conns[k].body.value)]
    ensures |r.conns| == |s.conns| && forall j | 0 <= j < |s.conns| && j != k :: r.conns[j] == s.conns[j]
  {
    RunMore(acts, s, Act(k, Accepted));
    r := Next(s, Act(k, Accepted));
  }

  /** A request pending behind a later one, or behind a later store. */
  ghost predicate Overtaken(s: System, k: nat) {
    k < |s.conns| && Pending(s.conns[k]) &&
    ((exists i :: 0 <= i < |s.log| && s.log[i].call >= s.conns[k].body.value)
     || exists j :: 0 <= j < |s.conns| && j != k && Pending(s.conns[j]) && s.conns[j].body.value >= s.conns[k].body.value)
  }

  lemma UntidyIsOvertaken(s: System) returns (k: nat)
    requires !Tidy(s) && Increasing(s.log)
    ensures Overtaken(s, k)
  {
    if i, c :| 0 <= i < |s.log| && 0 <= c < |s.conns| && Pending(s.conns[c]) && s.log[i].call >= s.conns[c].body.value {
      k := c;
    } else {
      var j, c :| 0 <= j < c < |s.conns| && Pending(s.conns[j]) && Pending(s.conns[c]);
      k := if s.conns[j].body.value <= s.conns[c].body.value then j else c;
      assert Overtaken(s, j) || Overtaken(s, c);
    }
  }

  lemma OvertakenReorders(acts: seq<Action>, s: System, k: nat) returns (more: seq<Action>)
    requires Run(Start(), acts) == Some(s) && Overtaken(s, k)
    requires forall j | 0 <= j < |s.conns| && Pending(s.conns[j]) :: s.conns[j].header
    ensures Run(Start(), acts + more).Some? && !Increasing(Run(Start(), acts + more).value.log)
    ensures forall i | 0 <= i < |more| :: more[i].Act?
  {
    if i :| 0 <= i < |s.log| && s.log[i].call >= s.conns[k].body.value {
      var r := ActAlone(acts, s, k);
      more := [Act(k, Accepted)];
      assert r.log[i].call >= r.log[|s.log|].call;
    } else {
      var j :| 0 <= j < |s.conns| && j != k && Pending(s.conns[j]) && s.conns[j].body.value >= s.conns[k].body.value;
      var p := ActAlone(acts, s, j);
      var r := ActAlone(acts + [Act(j, Accepted)], p, k);
      more := [Act(j, Accepted), Act(k, Accepted)];
      assert acts + more == acts + [Act(j, Accepted)] + [Act(k, Accepted)];
      assert r.log[|s.log|].call >= r.log[|s.log| + 1].call;
    }
  }

  /** And if not tidy, the handlers alone can put the log out of order. */
  lemma UntidyCanReorder(acts: seq<Action>) returns (more: seq<Action>)
    requires Run(Start(), acts).Some? && !Tidy(Run(Start(), acts).value)
    ensures Run(Start(), acts + more).Some? && !Increasing(Run(Start(), acts + more).value.log)
    ensures forall i | 0 <= i < |more| :: more[i].Act?
  {
    RunsKeepInv(acts);
    var s := Run(Start(), acts).value;
    if Increasing(s.log) {
      var k := UntidyIsOvertaken(s);
      assert forall j | 0 <= j < |s.conns| :: ConnSound(s.conns[j], |s.results|, !s.client.Outside?);
      more := OvertakenReorders(acts, s, k);
    } else {
      more := [];
      assert acts + more == acts;
    }
  }

  // ---- two runs whose first call loses its reply ---------------------------

  lemma SettledMore(acts: seq<Action>, s: System, a: Action)
    requires Run(Start(), acts) == Some(s) && Settled(acts) && Possible(s, a)
    requires PutsRequest(s, a) ==> NonePending(s)
    ensures Run(Start(), acts + [a]) == Some(Next(s, a)) && Settled(acts + [a])
  {
    RunMore(acts, s, a);
    assert (acts + [a])[..|acts|] == acts;
  }

  /** The second call, on its fresh connection behind any first one: request, store, answer. */
  lemma SecondCall(acts: seq<Action>, p: System) returns (acts': seq<Action>, r: System)
    requires Run(Start(), acts) == Some(p) && Settled(acts) && NonePending(p)
    requires p.client.Sending? && |p.conns| == 2 && p.conns[1] == Conn(false, None, Reading, false)
    ensures Run(Start(), acts') == Some(r) && Settled(acts')
    ensures r.results == p.results + [0] && r.log == p.log + [Store(1, |p.results|)]
  {
    SettledMore(acts, p, WriteHeader(true));
    acts', r := acts + [WriteHeader(true)], Next(p, WriteHeader(true));
    SettledMore(acts', r, WriteBody(true));
    acts', r := acts' + [WriteBody(true)], Next(r, WriteBody(true));
    assert r.conns[1] == Conn(true, Some(|p.results|), Reading, false);
    SettledMore(acts', r, Act(1, Accepted));
    acts', r := acts' + [Act(1, Accepted)], Next(r, Act(1, Accepted));
    SettledMore(acts', r, Reply(1, true));
    acts', r := acts' + [Reply(1, true)], Next(r, Reply(1, true));
    SettledMore(acts', r, ReadReply(true));
    acts', r := acts' + [ReadReply(true)], Next(r, ReadReply(true));
  }

  /** The first call puts its request; its handler stores it or not yet. */
  lemma FirstRequest(store: bool) returns (acts: seq<Action>, s: System)
    ensures Run(Start(), acts) == Some(s) && Settled(acts)
    ensures s.client.Awaiting? && s.status.Connected? && s.keeper.Watching? && s.results == []
    ensures s.conns == [Conn(true, Some(0), if store then Handled(OK) else Reading, store)]
    ensures s.log == if store then [Store(0, 0)] else []
  {
    acts, s := [], Start();
    SettledMore(acts, s, Connect(true, true));
    acts, s := acts + [Connect(true, true)], Next(s, Connect(true, true));
    SettledMore(acts, s, Begin);
    acts, s := acts + [Begin], Next(s, Begin);
    SettledMore(acts, s, WriteHeader(true));
    acts, s := acts + [WriteHeader(true)], Next(s, WriteHeader(true));
    SettledMore(acts, s, WriteBody(true));
    acts, s := acts + [WriteBody(true)], Next(s, WriteBody(true));
    if store {
      SettledMore(acts, s, Act(0, Accepted));
      acts, s := acts + [Act(0, Accepted)], Next(s, Act(0, Accepted));
    }
  }

  /** Its reply is lost, the keeper reconnects, the second call begins. */
  lemma ReplyLost(store: bool) returns (acts: seq<Action>, s: System)
    ensures Run(Start(), acts) == Some(s) && Settled(acts)
    ensures s.client.Sending? && s.results == [-1]
    ensures s.conns == [Conn(true, Some(0), if store then Handled(OK) else Reading, store), Conn(false, None, Reading, false)]
    ensures s.log == if store then [Store(0, 0)] else []
  {
    acts, s := FirstRequest(store);
    SettledMore(acts, s, ReadReply(false));
    acts, s := acts + [ReadReply(false)], Next(s, ReadReply(false));
    SettledMore(acts, s, Poll);
    acts, s := acts + [Poll], Next(s, Poll);
    SettledMore(acts, s, Connect(true, true));
    acts, s := acts + [Connect(true, true)], Next(s, Connect(true, true));
    SettledMore(acts, s, Begin);
    acts, s := acts + [Begin], Next(s, Begin);
  }

  /** Two lines in a row do arrive, in order, when the first call stored its message but returned -1. */
  lemma TwoStoredInTurn() returns (acts: seq<Action>)
    ensures Run(Start(), acts).Some? && Settled(acts)
    ensures Run(Start(), acts).value.results == [-1, 0]
    ensures Run(Start(), acts).value.log == [Store(0, 0), Store(1, 1)]
  {
    var before, s := ReplyLost(true);
    var r;
    acts, r := SecondCall(before, s);
  }

  /** A handler that acts after its call has failed can store behind a later call: the inbox is out of order. */
  lemma LateStoreRun() returns (acts: seq<Action>)
    ensures Run(Start(), acts).Some?
    ensures Run(Start(), acts).value.results == [-1, 0]
    ensures Run(Start(), acts).value.log == [Store(1, 1), Store(0, 0)]
  {
    var before, s := ReplyLost(false);
    var r;
    acts, r := Exchange(before, s, 1, Accepted);
    RunMore(acts, r, Act(0, Accepted));
    acts := acts + [Act(0, Accepted)];
  }
}

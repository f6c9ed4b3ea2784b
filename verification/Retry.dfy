/** What becomes of a call of client_send_message that has been answered 429, or has yet to write its request. */
module Retry {
  import opened Messages
  import opened Delivery

  /** The connection keeper makes no further connection. */
  ghost predicate NoConnect(acts: seq<Action>) {
    forall i | 0 <= i < |acts| :: acts[i].Connect? ==> !acts[i].ok
  }

  /** Call id is still under way on a connection nobody reads, or has failed; no handler can store it. */
  ghost predicate Doomed(s: System, id: nat) {
    && s.conns != [] && s.conns[|s.conns| - 1].server.Spent?
    && (forall k | 0 <= k < |s.conns| :: !MayStore(s.conns[k], id))
    && id <= |s.results| && (id == |s.results| ==> !s.client.Outside?)
    && (id < |s.results| ==> s.results[id] == -1)
  }

  lemma StaysDoomed(s: System, a: Action, id: nat)
    requires Doomed(s, id) && Possible(s, a) && (a.Connect? ==> !a.ok)
    ensures Doomed(Next(s, a), id)
  {
    var r := Next(s, a);
    forall k | 0 <= k < |r.conns|
      ensures !MayStore(r.conns[k], id)
    {
      assert k < |s.conns| ==> !MayStore(s.conns[k], id);
    }
  }

  lemma {:induction false} DoomedRuns(acts: seq<Action>, more: seq<Action>, id: nat)
    requires Run(Start(), acts).Some? && Doomed(Run(Start(), acts).value, id)
    requires Run(Start(), acts + more).Some? && NoConnect(more)
    ensures Doomed(Run(Start(), acts + more).value, id)
  {
    if more == [] {
      assert acts + more == acts;
    } else {
      var init := more[..|more| - 1];
      assert (acts + more)[..|acts + more| - 1] == acts + init;
      DoomedRuns(acts, init, id);
      StaysDoomed(Run(Start(), acts + init).value, more[|more| - 1], id);
    }
  }

  lemma DoomedIsUnstored(acts: seq<Action>, id: nat)
    requires Run(Start(), acts).Some? && Doomed(Run(Start(), acts).value, id)
    ensures !StoredFor(Run(Start(), acts).value, id)
  {
    RunsKeepInv(acts);
    var s := Run(Start(), acts).value;
    forall i | 0 <= i < |s.log|
      ensures s.log[i].call != id
    {
      assert MayStore(s.conns[s.log[i].conn], s.log[i].call);
    }
  }

  /** About to write its request, or asleep after a 429. */
  predicate BeforeRequest(s: System) { s.client.Sending? || s.client.Sleeping? }

  /** The connection in peer->ssl still has a handler that reads. */
  predicate Usable(s: System) { s.conns != [] && s.conns[|s.conns| - 1].server.Reading? }

  lemma UsedIsDoomed(s: System)
    requires Inv(s) && BeforeRequest(s) && !Usable(s)
    ensures Doomed(s, |s.results|)
  {
    assert forall k | 0 <= k < |s.conns| :: !MayStore(s.conns[k], |s.results|);
  }

  /** On a used-up connection the call fails whatever follows, unless the keeper reconnects. */
  lemma UsedConnectionFails(acts: seq<Action>, more: seq<Action>)
    requires Run(Start(), acts).Some? && Run(Start(), acts + more).Some? && NoConnect(more)
    requires BeforeRequest(Run(Start(), acts).value) && !Usable(Run(Start(), acts).value)
    ensures var id := |Run(Start(), acts).value.results|;
            var r := Run(Start(), acts + more).value;
            !StoredFor(r, id) && (id < |r.results| ==> r.results[id] == -1)
  {
    RunsKeepInv(acts);
    var id := |Run(Start(), acts).value.results|;
    UsedIsDoomed(Run(Start(), acts).value);
    DoomedRuns(acts, more, id);
    DoomedIsUnstored(acts + more, id);
  }

  /** A status of BLOCKED is the 429 just read: the connection it came on is used up. */
  lemma BlockedIsUsedUp(acts: seq<Action>)
    requires Run(Start(), acts).Some?
    requires Run(Start(), acts).value.client.Sleeping? && Run(Start(), acts).value.status.Blocked?
    ensures !Usable(Run(Start(), acts).value)
  {
    RunsKeepInv(acts);
  }

  /**
   * A call answered 429 whose keeper does not reconnect: its message is never
   * stored, and if the call returns at all it returns -1.
   */
  lemma BlockedCallFails(acts: seq<Action>, more: seq<Action>)
    requires Run(Start(), acts).Some? && Run(Start(), acts + more).Some? && NoConnect(more)
    requires Run(Start(), acts).value.client.Sleeping? && Run(Start(), acts).value.status.Blocked?
    ensures var id := |Run(Start(), acts).value.results|;
            var r := Run(Start(), acts + more).value;
            !StoredFor(r, id) && (id < |r.results| ==> r.results[id] == -1)
  {
    BlockedIsUsedUp(acts);
    UsedConnectionFails(acts, more);
  }

  lemma SendingCanSucceed(acts: seq<Action>, s: System)
    requires Run(Start(), acts) == Some(s) && s.client.Sending? && Usable(s)
    ensures var more := ExchangeActs(|s.conns| - 1, Accepted);
            && NoConnect(more) && Run(Start(), acts + more).Some?
            && Run(Start(), acts + more).value.results == s.results + [0]
  {
    RunsKeepInv(acts);
    var k := |s.conns| - 1;
    assert ConnSound(s.conns[k], |s.results|, true) && Untouched(s.conns[k]);
    var all, r := Exchange(acts, s, k, Accepted);
  }

  /** On an unused connection the call can still return 0. */
  lemma UnusedConnectionCanSucceed(acts: seq<Action>) returns (more: seq<Action>)
    requires Run(Start(), acts).Some? && BeforeRequest(Run(Start(), acts).value) && Usable(Run(Start(), acts).value)
    ensures NoConnect(more) && Run(Start(), acts + more).Some?
    ensures var id := |Run(Start(), acts).value.results|;
            var r := Run(Start(), acts + more).value;
            id < |r.results| && r.results[id] == 0
  {
    var s := Run(Start(), acts).value;
    var rest := ExchangeActs(|s.conns| - 1, Accepted);
    if s.client.Sending? {
      SendingCanSucceed(acts, s);
      more := rest;
    } else {
      RunMore(acts, s, Wake);
      SendingCanSucceed(acts + [Wake], Next(s, Wake));
      more := [Wake] + rest;
      assert acts + more == acts + [Wake] + rest;
    }
  }

  /**
   * Exactly when a call that has yet to write its request can still succeed
   * without a further connection: when nobody has used the one in peer->ssl.
   */
  lemma SucceedsWithoutConnectIff(acts: seq<Action>)
    requires Run(Start(), acts).Some? && BeforeRequest(Run(Start(), acts).value)
    ensures var id := |Run(Start(), acts).value.results|;
            (exists more :: NoConnect(more) && Run(Start(), acts + more).Some?
                            && id < |Run(Start(), acts + more).value.results|
                            && Run(Start(), acts + more).value.results[id] == 0)
            <==> Usable(Run(Start(), acts).value)
  {
    var id := |Run(Start(), acts).value.results|;
    if Usable(Run(Start(), acts).value) {
      var more := UnusedConnectionCanSucceed(acts);
    } else {
      forall more | NoConnect(more) && Run(Start(), acts + more).Some?
                    && id < |Run(Start(), acts + more).value.results|
        ensures Run(Start(), acts + more).value.results[id] != 0
      {
        UsedConnectionFails(acts, more);
      }
    }
  }

  /** A call that sleeps after 429, wakes, writes to the closed connection and returns -1. */
  lemma RetryFailsRun() returns (acts: seq<Action>)
    ensures Run(Start(), acts).Some?
    ensures Run(Start(), acts).value.results == [-1] && Run(Start(), acts).value.log == []
    ensures |acts| >= 2 && acts[|acts| - 2] == Wake
    ensures Run(Start(), acts[..|acts| - 2]).Some?
    ensures var s := Run(Start(), acts[..|acts| - 2]).value; s.client.Sleeping? && s.status.Blocked?
  {
    var s := Start();
    var before := [];
    RunMore(before, s, Connect(true, true));
    before, s := before + [Connect(true, true)], Next(s, Connect(true, true));
    RunMore(before, s, Begin);
    before, s := before + [Begin], Next(s, Begin);
    before, s := Exchange(before, s, 0, Refused);
    RunMore(before, s, Wake);
    RunMore(before + [Wake], Next(s, Wake), WriteHeader(false));
    acts := before + [Wake] + [WriteHeader(false)];
    assert acts[..|acts| - 2] == before;
  }
}

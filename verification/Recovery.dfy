/** What peer->status is after each access of client_send_message, and how a failed call lets the keeper recover. */
module Recovery {
  import opened Messages
  import opened Delivery

  /** An access to the connection that fails. */
  predicate Fails(a: Action) {
    a == WriteHeader(false) || a == WriteBody(false) || a == ReadReply(false)
  }

  /** The answer the client is about to read. */
  ghost function Answer(s: System): int
    requires Possible(s, ReadReply(true))
  {
    s.conns[|s.conns| - 1].server.code
  }

  /** A failed access ends the call with -1 and leaves the peer OFFLINE. */
  lemma FailedAccessGoesOffline(s: System, a: Action)
    requires Possible(s, a) && Fails(a)
    ensures var r := Next(s, a);
            r.status.Offline? && r.client.Outside? && r.results == s.results + [-1] && r.keeper == s.keeper
  {
  }

  /** What each answer makes of the call and the status: only 429 keeps the call, only an unknown answer keeps the status. */
  lemma AnswerDecides(s: System)
    requires Possible(s, ReadReply(true))
    ensures var r, code := Next(s, ReadReply(true)), Answer(s);
            && (r.client.Sleeping? <==> code == 429) && (r.client.Outside? <==> code != 429)
            && (code == 200 ==> r.status.Connected? && r.results == s.results + [0])
            && (code == 429 ==> r.status.Blocked? && r.results == s.results)
            && (code == 503 ==> r.status.Offline? && r.results == s.results + [-1])
            && (code != 200 && code != 429 && code != 503 ==> r.status == s.status && r.results == s.results + [-1])
  {
  }

  /** A step that ends a call leaves the peer OFFLINE, unless it returned 0, never wrote, or read an answer it does not know. */
  lemma EndedCallGoesOffline(s: System, a: Action)
    requires Possible(s, a) && |Next(s, a).results| > |s.results|
    ensures Next(s, a).status.Offline? || Next(s, a).results[|s.results|] == 0 || a.Begin?
            || (a == ReadReply(true) && Answer(s) != 200 && Answer(s) != 429 && Answer(s) != 503)
    ensures a.Begin? ==> !s.status.Connected? && Next(s, a).status == s.status && Next(s, a).results[|s.results|] == -1
  {
  }

  /** What client_connect leaves: CONNECTED with a new connection the keeper watches, or OFFLINE and another try. */
  lemma ConnectDecides(s: System, ok: bool, replaced: bool)
    requires Possible(s, Connect(ok, replaced))
    ensures var r := Next(s, Connect(ok, replaced));
            && r.client == s.client && r.results == s.results && r.log == s.log
            && (ok ==> r.status.Connected? && r.keeper.Watching? && r.conns == s.conns + [Conn(false, None, Reading, false)])
            && (!ok ==> r.status.Offline? && r.keeper.Backoff?)
            && (!ok ==> r.conns == s.conns + if replaced then [Conn(false, None, Spent, false)] else [])
  {
  }

  /** The keeper leaves its loop exactly when the status is not CONNECTED, and connects only after that. */
  lemma KeeperWaits(s: System)
    requires s.keeper.Watching?
    ensures Possible(s, Poll) <==> !s.status.Connected?
    ensures forall ok, replaced :: !Possible(s, Connect(ok, replaced))
  {
  }

  /** How a handler answers: 200 for a store, 429 for a refused device write, 503 without a device, 400 for a bad request. */
  lemma DeviceDecides(s: System, k: nat, dev: Device)
    requires Possible(s, Act(k, dev))
    ensures var r := Next(s, Act(k, dev));
            && r.conns[k].server == Handled(if dev.Accepted? then 200 else if dev.Refused? then 429 else if dev.OpenFailed? then 503 else 400)
            && (r.conns[k].stored <==> dev.Accepted?)
            && |r.log| == |s.log| + if dev.Accepted? then 1 else 0
  {
  }

  /** A call starts exactly when the peer is CONNECTED, and returns -1 at once otherwise. */
  lemma BeginDecides(s: System)
    requires Possible(s, Begin)
    ensures var r := Next(s, Begin);
            && r.status == s.status && r.conns == s.conns && r.log == s.log
            && (s.status.Connected? ==> r.client.Sending? && r.results == s.results)
            && (!s.status.Connected? ==> r.client.Outside? && r.results == s.results + [-1])
  {
  }

  /** A handler that answers leaves its own code on the connection, one that fails leaves it dead; neither touches what was stored. */
  lemma HandlerEnds(s: System, a: Action, k: nat)
    requires Possible(s, a) && (a == Reply(k, true) || a == Reply(k, false) || a == Abort(k))
    ensures var c, c' := s.conns[k], Next(s, a).conns[k];
            && c'.body == c.body && c'.stored == c.stored
            && c'.server == (if a == Reply(k, true) then Answered(c.server.code) else Spent)
            && Next(s, a) == s.(conns := s.conns[k := c'])
  {
  }

  /** Whatever can fail may fail at any of its steps: no failure is ruled out. */
  lemma EveryFailureCanHappen(s: System, k: nat)
    requires k < |s.conns|
    ensures s.client.Outside? ==> Possible(s, Begin)
    ensures s.client.Sending? ==> Possible(s, WriteHeader(true)) && Possible(s, WriteHeader(false))
    ensures s.client.SentHeader? ==> Possible(s, WriteBody(true)) && Possible(s, WriteBody(false))
    ensures s.client.Awaiting? ==> Possible(s, ReadReply(false))
    ensures s.client.Awaiting? && s.conns[|s.conns| - 1].server.Answered? ==> Possible(s, ReadReply(true))
    ensures s.client.Sleeping? ==> Possible(s, Wake)
    ensures s.keeper.Backoff? ==> forall ok, replaced :: Possible(s, Connect(ok, replaced))
    ensures s.conns[k].server.Reading? ==> Possible(s, Abort(k))
    ensures s.conns[k].server.Reading? && s.conns[k].header && s.conns[k].body.Some? ==> forall dev :: Possible(s, Act(k, dev))
    ensures s.conns[k].server.Handled? ==> Possible(s, Reply(k, true)) && Possible(s, Reply(k, false))
  {
  }

  // ---- recovery ------------------------------------------------------------------

  /** The keeper's way back and one accepted exchange on the new connection, which is number k. */
  function WayBack(keeper: Keeper, k: nat): seq<Action> {
    (if keeper.Watching? then [Poll] else []) + [Connect(true, true)] + [Begin] + ExchangeActs(k, Accepted)
  }

  lemma Reconnects(acts: seq<Action>, s: System) returns (acts': seq<Action>, r: System)
    requires Run(Start(), acts) == Some(s) && s.client.Outside? && !s.status.Connected?
    ensures acts' == acts + (if s.keeper.Watching? then [Poll] else []) + [Connect(true, true)] + [Begin]
    ensures Run(Start(), acts') == Some(r) && r.client.Sending? && r.results == s.results && r.log == s.log
    ensures r.conns == s.conns + [Conn(false, None, Reading, false)]
  {
    acts', r := acts + [], s;
    assert acts' == acts;
    if s.keeper.Watching? {
      RunMore(acts, s, Poll);
      acts', r := acts + [Poll], Next(s, Poll);
    }
    RunMore(acts', r, Connect(true, true));
    acts', r := acts' + [Connect(true, true)], Next(r, Connect(true, true));
    RunMore(acts', r, Begin);
    acts', r := acts' + [Begin], Next(r, Begin);
  }

  /** From every reachable state between calls whose peer is not CONNECTED, the keeper can reconnect and the next call be stored. */
  lemma RecoversUnlessConnected(acts: seq<Action>, s: System)
    requires Run(Start(), acts) == Some(s) && s.client.Outside? && !s.status.Connected?
    ensures var more := WayBack(s.keeper, |s.conns|);
            && Run(Start(), acts + more).Some?
            && Run(Start(), acts + more).value.results == s.results + [0]
            && Run(Start(), acts + more).value.log == s.log + [Store(|s.conns|, |s.results|)]
  {
    var before, p := Reconnects(acts, s);
    var all, r := Exchange(before, p, |s.conns|, Accepted);
    assert all == acts + WayBack(s.keeper, |s.conns|);
  }

  /** So after every call that ended on a failed access: the keeper reacts, reconnects, and the next call can return 0. */
  lemma FailedCallRecovers(acts: seq<Action>, s: System, a: Action)
    requires Run(Start(), acts) == Some(s) && Possible(s, a) && Fails(a)
    ensures var p := Next(s, a);
            var more := [a] + WayBack(s.keeper, |s.conns|);
            && (p.keeper.Watching? ==> Possible(p, Poll))
            && Run(Start(), acts + more).Some?
            && Run(Start(), acts + more).value.results == s.results + [-1] + [0]
  {
    FailedAccessGoesOffline(s, a);
    RunMore(acts, s, a);
    assert Next(s, a).conns == s.conns;
    RecoversUnlessConnected(acts + [a], Next(s, a));
    assert acts + ([a] + WayBack(s.keeper, |s.conns|)) == acts + [a] + WayBack(s.keeper, |s.conns|);
  }

  /** After a success nothing happens by itself: neither poll nor connect, until the next call has failed. */
  lemma NothingUntilNextCall(acts: seq<Action>)
    requires Run(Start(), acts).Some?
    requires var r := Run(Start(), acts).value.results; |r| > 0 && r[|r| - 1] == 0
    ensures var s := Run(Start(), acts).value;
            && s.status.Connected? && !Possible(s, Poll)
            && forall ok, replaced :: !Possible(s, Connect(ok, replaced))
  {
    RunsKeepInv(acts);
    KeeperWaits(Run(Start(), acts).value);
  }
}

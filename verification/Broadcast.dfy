/** client_broadcast: one thread sends each message to the peers one after another. */
module Broadcast {
  import opened Messages
  import D = Delivery

  /**
   * One Delivery system for each peer; `taken` messages have been broadcast or
   * are being broadcast, and peer `at` is being sent the last of them, or none
   * when `at` is past the last peer.
   */
  datatype Cast = Cast(peers: seq<D.System>, taken: nat, at: nat)

  datatype Step = Take | Peer(k: nat, a: D.Action)

  function Start(n: nat): Cast {
    Cast(seq(n, _ => D.Start()), 0, n)
  }

  /** The steps of client_send_message itself; the others belong to the keeper or to the peer's handlers. */
  predicate IsClient(a: D.Action) {
    a.Begin? || a.WriteHeader? || a.WriteBody? || a.ReadReply? || a.Wake?
  }

  ghost predicate Can(c: Cast, st: Step) {
    match st
    case Take => c.at == |c.peers|
    case Peer(k, a) => k < |c.peers| && D.Possible(c.peers[k], a) && (IsClient(a) ==> k == c.at)
  }

  ghost function Do(c: Cast, st: Step): (r: Cast)
    requires Can(c, st)
    ensures |r.peers| == |c.peers|
  {
    match st
    case Take => c.(taken := c.taken + 1, at := 0)
    case Peer(k, a) =>
      var s := D.Next(c.peers[k], a);
      c.(peers := c.peers[k := s], at := if |s.results| > |c.peers[k].results| then c.at + 1 else c.at)
  }

  ghost function Run(n: nat, steps: seq<Step>): (r: Option<Cast>)
    ensures r.Some? ==> |r.value.peers| == n
  {
    if steps == [] then Some(Start(n))
    else
      match Run(n, steps[..|steps| - 1])
      case None => None
      case Some(p) => if Can(p, steps[|steps| - 1]) then Some(Do(p, steps[|steps| - 1])) else None
  }

  // ---- each peer on its own ------------------------------------------------------

  function Of(steps: seq<Step>, k: nat): seq<D.Action> {
    if steps == [] then []
    else
      var st := steps[|steps| - 1];
      Of(steps[..|steps| - 1], k) + if st.Peer? && st.k == k then [st.a] else []
  }

  /** What one peer sees is a run of Delivery. */
  lemma {:induction false} PeerIsADeliveryRun(n: nat, steps: seq<Step>, k: nat)
    requires Run(n, steps).Some? && k < n
    ensures D.Run(D.Start(), Of(steps, k)) == Some(Run(n, steps).value.peers[k])
  {
    if steps != [] {
      var init, st := steps[..|steps| - 1], steps[|steps| - 1];
      PeerIsADeliveryRun(n, init, k);
      if st.Peer? && st.k == k {
        D.RunMore(Of(init, k), Run(n, init).value.peers[k], st.a);
      } else {
        assert Of(steps, k) == Of(init, k);
      }
    }
  }

  // ---- in turn ---------------------------------------------------------------------

  /** Peers before `at` have had the message, those behind it have not; only peer `at` can be in a call. */
  ghost predicate InTurn(c: Cast) {
    && c.at <= |c.peers|
    && (forall k | 0 <= k < |c.peers| && k < c.at :: |c.peers[k].results| == c.taken && c.peers[k].client.Outside?)
    && (forall k | 0 <= k < |c.peers| && k >= c.at :: |c.peers[k].results| == c.taken - 1)
    && (forall k | 0 <= k < |c.peers| && k > c.at :: c.peers[k].client.Outside?)
  }

  lemma ClientAlone(s: D.System, a: D.Action)
    requires D.Possible(s, a)
    ensures var r := D.Next(s, a);
            && |s.results| <= |r.results| <= |s.results| + 1
            && (|r.results| > |s.results| ==> IsClient(a) && r.client.Outside?)
            && (!IsClient(a) ==> r.client == s.client)
  {
  }

  lemma KeepsTurn(c: Cast, st: Step)
    requires InTurn(c) && Can(c, st)
    ensures InTurn(Do(c, st))
  {
    if st.Peer? {
      ClientAlone(c.peers[st.k], st.a);
    }
  }

  lemma {:induction false} RunsStayInTurn(n: nat, steps: seq<Step>)
    requires Run(n, steps).Some?
    ensures InTurn(Run(n, steps).value)
  {
    if steps != [] {
      RunsStayInTurn(n, steps[..|steps| - 1]);
      KeepsTurn(Run(n, steps[..|steps| - 1]).value, steps[|steps| - 1]);
    }
  }

  /**
   * While a peer is in its call, asleep after a 429 or not, no request with the
   * message has been put to any peer behind it, and none of them has stored it.
   */
  lemma LaterPeersWait(n: nat, steps: seq<Step>, i: nat, k: nat)
    requires Run(n, steps).Some? && i < k < n
    requires !Run(n, steps).value.peers[i].client.Outside?
    ensures var c := Run(n, steps).value;
            && c.taken > 0 && |c.peers[i].results| == |c.peers[k].results| == c.taken - 1
            && D.NeverSent(c.peers[k], c.taken - 1) && !D.StoredFor(c.peers[k], c.taken - 1)
  {
    RunsStayInTurn(n, steps);
    PeerIsADeliveryRun(n, steps, k);
    D.RunsKeepInv(Of(steps, k));
    var s := Run(n, steps).value.peers[k];
    forall j | 0 <= j < |s.conns|
      ensures s.conns[j].body != Some(|s.results|)
    {
      assert D.ConnSound(s.conns[j], |s.results|, false);
    }
  }

  // ---- a peer that is held up ----------------------------------------------------

  lemma RunMore(n: nat, steps: seq<Step>, c: Cast, st: Step)
    requires Run(n, steps) == Some(c) && Can(c, st)
    ensures Run(n, steps + [st]) == Some(Do(c, st))
  {
  }

  /** One step of the peer whose turn it is, during which its call does not return. */
  lemma PeerStep(n: nat, steps: seq<Step>, c: Cast, s: D.System, a: D.Action) returns (steps': seq<Step>, s': D.System)
    requires c.at < n == |c.peers| && Run(n, steps) == Some(c.(peers := c.peers[c.at := s])) && D.Possible(s, a)
    requires |D.Next(s, a).results| == |s.results|
    ensures s' == D.Next(s, a) && Run(n, steps') == Some(c.(peers := c.peers[c.at := s']))
  {
    var p := c.(peers := c.peers[c.at := s]);
    RunMore(n, steps, p, Peer(c.at, a));
    steps', s' := steps + [Peer(c.at, a)], D.Next(s, a);
    assert p.peers[c.at := s'] == c.peers[c.at := s'];
  }

  /** The peer whose turn it is answers 429. */
  lemma PeerRefuses(n: nat, steps: seq<Step>, c: Cast, s: D.System) returns (steps': seq<Step>, s': D.System)
    requires c.at < n == |c.peers| && Run(n, steps) == Some(c.(peers := c.peers[c.at := s]))
    requires s.client.Sending? && s.conns == [D.Conn(false, None, D.Reading, false)]
    ensures Run(n, steps') == Some(c.(peers := c.peers[c.at := s']))
    ensures s'.client.Sleeping? && s'.status.Blocked?
  {
    steps', s' := PeerStep(n, steps, c, s, D.WriteHeader(true));
    steps', s' := PeerStep(n, steps', c, s', D.WriteBody(true));
    assert s'.conns == [D.Conn(true, Some(|s.results|), D.Reading, false)];
    steps', s' := PeerStep(n, steps', c, s', D.Act(0, D.Refused));
    steps', s' := PeerStep(n, steps', c, s', D.Reply(0, true));
    steps', s' := PeerStep(n, steps', c, s', D.ReadReply(true));
  }

  /** The second peer is connected, and the broadcast of the first message has begun. */
  lemma SecondReady() returns (steps: seq<Step>)
    ensures Run(2, steps) == Some(Cast([D.Start(), D.Next(D.Start(), D.Connect(true, true))], 1, 0))
  {
    var c := Start(2);
    RunMore(2, [], c, Peer(1, D.Connect(true, true)));
    var d := Do(c, Peer(1, D.Connect(true, true)));
    RunMore(2, [] + [Peer(1, D.Connect(true, true))], d, Take);
    steps := [] + [Peer(1, D.Connect(true, true))] + [Take];
    assert d.peers == [D.Start(), D.Next(D.Start(), D.Connect(true, true))];
  }

  /** Two connected peers: the first sleeps after a 429 and the second, with a fresh connection, has been sent nothing. */
  lemma HeldUpRun() returns (steps: seq<Step>)
    ensures Run(2, steps).Some?
    ensures var c := Run(2, steps).value;
            && c.taken == 1 && c.peers[0].client.Sleeping? && c.peers[0].status.Blocked?
            && c.peers[1].status.Connected? && c.peers[1].conns == [D.Conn(false, None, D.Reading, false)]
  {
    steps := SecondReady();
    var c := Run(2, steps).value;
    assert c.peers[0 := D.Start()] == c.peers;
    var s;
    steps, s := PeerStep(2, steps, c, D.Start(), D.Connect(true, true));
    steps, s := PeerStep(2, steps, c, s, D.Begin);
    steps, s := PeerRefuses(2, steps, c, s);
  }
}

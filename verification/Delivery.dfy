/**
 * client_send_message against server_handle_connection: one sender thread, the
 * thread that keeps the connection, and one handler per connection, with every
 * failure and every interleaving of their steps.
 */
module Delivery {
  import opened Messages

  const OK := 200
  const BAD_REQUEST := 400
  const BUSY := 429
  const UNAVAILABLE := 503

  /** How the handler's part with the device ends; Malformed is a request answered before it. */
  datatype Device = Accepted | Refused | OpenFailed | Malformed

  /** The answer: 429 for any negative return of the device write, 200 otherwise. */
  function CodeFor(dev: Device): int {
    match dev
    case Accepted => OK
    case Refused => BUSY
    case OpenFailed => UNAVAILABLE
    case Malformed => BAD_REQUEST
  }

  /** A handler serves one request: it reads it, acts on it, answers, and closes. */
  datatype Server = Reading | Handled(code: int) | Answered(code: int) | Spent

  /** One TLS connection: what the client put on it and how far its handler is. */
  datatype Conn = Conn(header: bool, body: Option<nat>, server: Server, stored: bool)

  datatype Status = Connected | Blocked | Offline

  /** client_connect_thread: polling the status, or about to call client_connect. */
  datatype Keeper = Watching | Backoff

  /** client_send_message, at its accesses to the connection; the call is number |results|. */
  datatype Client = Outside | Sending | SentHeader | Awaiting | Sleeping

  datatype Store = Store(conn: nat, call: nat)

  /** `conns` ends with the connection in peer->ssl; `log` is the inbox FIFO's write history. */
  datatype System = System(
    client: Client,
    status: Status,
    keeper: Keeper,
    conns: seq<Conn>,
    log: seq<Store>,
    results: seq<int>)

  function Start(): System {
    System(Outside, Offline, Backoff, [], [], [])
  }

  datatype Action =
    | Begin                      // the status test on entry
    | WriteHeader(ok: bool)
    | WriteBody(ok: bool)
    | ReadReply(ok: bool)
    | Wake                       // sleep(1) is over, goto retry_send
    | Poll                       // the keeper sees a status other than CONNECTED
    | Connect(ok: bool, replaced: bool)
    | Act(k: nat, dev: Device)   // a handler with a whole request writes the device and picks its answer
    | Reply(k: nat, ok: bool)
    | Abort(k: nat)              // a handler fails before acting

  ghost predicate Possible(s: System, a: Action) {
    match a
    case Begin => s.client.Outside?
    case WriteHeader(_) => s.client.Sending? && s.conns != []
    case WriteBody(_) => s.client.SentHeader? && s.conns != []
    case ReadReply(ok) => s.client.Awaiting? && s.conns != [] && (ok ==> s.conns[|s.conns| - 1].server.Answered?)
    case Wake => s.client.Sleeping?
    case Poll => s.keeper.Watching? && !s.status.Connected?
    case Connect(_, _) => s.keeper.Backoff?
    case Act(k, _) => k < |s.conns| && s.conns[k].server.Reading? && s.conns[k].header && s.conns[k].body.Some?
    case Reply(k, _) => k < |s.conns| && s.conns[k].server.Handled?
    case Abort(k) => k < |s.conns| && s.conns[k].server.Reading?
  }

  /** client_send_message returns. */
  function Return(s: System, status: Status, r: int): System {
    s.(client := Outside, status := status, results := s.results + [r])
  }

  function SetConn(s: System, k: nat, c: Conn): System
    requires k < |s.conns|
  {
    s.(conns := s.conns[k := c])
  }

  function Next(s: System, a: Action): System
    requires Possible(s, a)
  {
    var last := |s.conns| - 1;
    match a
    case Begin => if s.status.Connected? then s.(client := Sending) else Return(s, s.status, -1)
    case WriteHeader(ok) =>
      if !ok then Return(s, Offline, -1)
      else
        // bytes written to a connection whose handler is done go nowhere
        var c := s.conns[last];
        SetConn(s, last, if c.server.Reading? then c.(header := true) else c).(client := SentHeader)
    case WriteBody(ok) =>
      if !ok then Return(s, Offline, -1)
      else
        // a body that follows no header on its own connection is no request
        var c := s.conns[last];
        var c' := if c.server.Reading? && c.header && c.body.None? then c.(body := Some(|s.results|)) else c;
        SetConn(s, last, c').(client := Awaiting)
    case ReadReply(ok) =>
      if !ok then Return(s, Offline, -1)
      else
        var c := s.conns[last];
        var s' := SetConn(s, last, c.(server := Spent));
        if c.server.code == OK then Return(s', Connected, 0)
        else if c.server.code == BUSY then s'.(client := Sleeping, status := Blocked)
        else if c.server.code == UNAVAILABLE then Return(s', Offline, -1)
        else Return(s', s.status, -1)
    case Wake => s.(client := Sending)
    case Poll => s.(keeper := Backoff)
    case Connect(ok, replaced) =>
      if ok then s.(conns := s.conns + [Conn(false, None, Reading, false)], status := Connected, keeper := Watching)
      else s.(conns := s.conns + if replaced then [Conn(false, None, Spent, false)] else [], status := Offline)
    case Act(k, dev) =>
      var c := s.conns[k];
      SetConn(s, k, c.(server := Handled(CodeFor(dev)), stored := dev.Accepted?))
        .(log := s.log + if dev.Accepted? then [Store(k, c.body.value)] else [])
    case Reply(k, ok) =>
      var c := s.conns[k];
      SetConn(s, k, c.(server := if ok then Answered(c.server.code) else Spent))
    case Abort(k) => SetConn(s, k, s.conns[k].(server := Spent))
  }

  ghost function Run(s: System, acts: seq<Action>): Option<System> {
    if acts == [] then Some(s)
    else
      match Run(s, acts[..|acts| - 1])
      case None => None
      case Some(p) => if Possible(p, acts[|acts| - 1]) then Some(Next(p, acts[|acts| - 1])) else None
  }

  // ---- invariant --------------------------------------------------------------

  /** Connection k has stored, or may still store, the message of call id. */
  ghost predicate MayStore(c: Conn, id: nat) {
    c.body == Some(id) && (c.stored || c.server.Reading?)
  }

  ghost predicate ConnSound(c: Conn, call: nat, busy: bool) {
    && (c.body.Some? ==> c.header && (c.body.value < call || (busy && c.body.value == call)))
    && (c.stored ==> c.body.Some? && !c.server.Reading?)
    && (c.server.Handled? || c.server.Answered? ==>
          c.body.Some? && (c.server.code == OK <==> c.stored))
  }

  /** The current connection cannot answer before the client has sent a request on it. */
  ghost predicate Untouched(c: Conn) {
    c.server.Spent? || (c.server.Reading? && c.body.None? && !c.header)
  }

  ghost predicate ConnsSound(s: System) {
    && (forall k | 0 <= k < |s.conns| :: ConnSound(s.conns[k], |s.results|, !s.client.Outside?))
    && (forall j, k, id | 0 <= j < k < |s.conns| && MayStore(s.conns[j], id) :: !MayStore(s.conns[k], id))
  }

  /** Where the request of the call under way can be. */
  ghost predicate ClientSound(s: System) {
    && (!s.client.Outside? || s.status.Connected? ==> s.conns != [])
    && (s.conns != [] ==>
          var last := |s.conns| - 1;
          var id := |s.results|;
          && (forall k | 0 <= k < |s.conns| :: MayStore(s.conns[k], id) ==> s.client.Awaiting? && k == last && s.status.Connected?)
          && (s.client.Outside? && s.status.Connected? ==> Untouched(s.conns[last]))
          && (s.client.Sending? ==> Untouched(s.conns[last]))
          && (s.client.Sleeping? ==> Untouched(s.conns[last]))
          && (s.client.SentHeader? ==> s.conns[last].server.Spent? || (s.conns[last].server.Reading? && s.conns[last].body.None?))
          && (s.client.Awaiting? ==> s.conns[last].server.Spent? || s.conns[last].body.None? || s.conns[last].body == Some(id))
          && (!s.client.Outside? && !s.status.Connected? ==> s.conns[last].server.Spent?))
    && (s.keeper.Backoff? ==> !s.status.Connected?)
  }

  ghost predicate LogSound(s: System) {
    && (forall i | 0 <= i < |s.log| ::
          && s.log[i].conn < |s.conns|
          && s.conns[s.log[i].conn].stored && s.conns[s.log[i].conn].body == Some(s.log[i].call))
    && (forall i, j | 0 <= i < j < |s.log| :: s.log[i].conn != s.log[j].conn)
    && (forall k | 0 <= k < |s.conns| && s.conns[k].stored :: exists i :: 0 <= i < |s.log| && s.log[i].conn == k)
  }

  ghost predicate StoredFor(s: System, id: nat) {
    exists i :: 0 <= i < |s.log| && s.log[i].call == id
  }

  ghost predicate NeverSent(s: System, id: nat) {
    forall k | 0 <= k < |s.conns| :: s.conns[k].body != Some(id)
  }

  ghost predicate ResultsSound(s: System) {
    && (forall i | 0 <= i < |s.results| :: s.results[i] == 0 || s.results[i] == -1)
    && (forall i | 0 <= i < |s.results| && s.results[i] == 0 :: StoredFor(s, i))
    && (forall i | 0 <= i < |s.results| - 1 && s.results[i] == 0 :: s.results[i + 1] == -1 && NeverSent(s, i + 1))
    && (|s.results| > 0 && s.results[|s.results| - 1] == 0 ==>
          && s.conns != [] && s.conns[|s.conns| - 1].server.Spent?
          && s.status.Connected? && s.keeper.Watching? && !s.client.Sleeping?
          && NeverSent(s, |s.results|))
  }

  ghost predicate Inv(s: System) {
    ConnsSound(s) && ClientSound(s) && LogSound(s) && ResultsSound(s)
  }

  /** The only step that gives a connection a request is a body after its header. */
  ghost predicate PutsRequest(s: System, a: Action)
    requires Possible(s, a)
  {
    a == WriteBody(true) &&
    var c := s.conns[|s.conns| - 1];
    c.server.Reading? && c.header && c.body.None?
  }

  /** What one step can do to the connections, the log and the results. */
  lemma StepShape(s: System, a: Action)
    requires Possible(s, a)
    ensures |s.conns| <= |Next(s, a).conns|
    ensures forall k | 0 <= k < |s.conns| ::
              var c, c' := s.conns[k], Next(s, a).conns[k];
              && (c'.body != c.body ==> PutsRequest(s, a) && k == |s.conns| - 1 && c'.body == Some(|s.results|))
              && (c.header ==> c'.header)
              && (c'.server.Reading? ==> c.server.Reading?)
              && (c.stored && !c.server.Reading? ==> c'.stored)
    ensures forall k | |s.conns| <= k < |Next(s, a).conns| ::
              var c := Next(s, a).conns[k];
              c.body.None? && !c.stored && !c.header && (c.server.Reading? || c.server.Spent?)
    ensures s.log <= Next(s, a).log && s.results <= Next(s, a).results
    ensures |Next(s, a).results| <= |s.results| + 1
  {
  }

  lemma KeepsEachConn(s: System, a: Action)
    requires Inv(s) && Possible(s, a)
    ensures var r := Next(s, a);
            forall k | 0 <= k < |r.conns| :: ConnSound(r.conns[k], |r.results|, !r.client.Outside?)
  {
  }

  lemma KeepsOneMayStore(s: System, a: Action)
    requires Inv(s) && Possible(s, a)
    ensures var r := Next(s, a);
            forall j, k, id | 0 <= j < k < |r.conns| && MayStore(r.conns[j], id) :: !MayStore(r.conns[k], id)
  {
    StepShape(s, a);
    var r := Next(s, a);
    forall j, k, id | 0 <= j < k < |r.conns| && MayStore(r.conns[j], id)
      ensures !MayStore(r.conns[k], id)
    {
      if k < |s.conns| {
        assert ConnSound(s.conns[j], |s.results|, !s.client.Outside?);
        assert ConnSound(s.conns[k], |s.results|, !s.client.Outside?);
        assert MayStore(s.conns[j], id);
        assert MayStore(s.conns[k], id) ==> false;
        if r.conns[k].body != s.conns[k].body {
          assert MayStore(s.conns[j], |s.results|) ==> s.client.Awaiting?;
        }
      }
    }
  }

  lemma KeepsClient(s: System, a: Action)
    requires Inv(s) && Possible(s, a)
    ensures ClientSound(Next(s, a))
  {
  }

  lemma LogGrows(s: System, r: System, k: nat, added: bool)
    requires LogSound(s) && |s.conns| <= |r.conns|
    requires forall i | 0 <= i < |s.conns| && s.conns[i].stored :: r.conns[i].stored && r.conns[i].body == s.conns[i].body
    requires forall i | 0 <= i < |r.conns| && r.conns[i].stored :: (added && i == k) || (i < |s.conns| && s.conns[i].stored)
    requires if added
             then k < |s.conns| && !s.conns[k].stored && r.conns[k].stored && r.conns[k].body.Some?
                  && r.log == s.log + [Store(k, r.conns[k].body.value)]
             else r.log == s.log
    ensures LogSound(r)
  {
    forall i | 0 <= i < |r.conns| && r.conns[i].stored
      ensures exists j :: 0 <= j < |r.log| && r.log[j].conn == i
    {
      if added && i == k {
        assert r.log[|s.log|].conn == i;
      } else {
        var j :| 0 <= j < |s.log| && s.log[j].conn == i;
        assert r.log[j].conn == i;
      }
    }
  }

  lemma KeepsLog(s: System, a: Action)
    requires Inv(s) && Possible(s, a)
    ensures LogSound(Next(s, a))
  {
    var r := Next(s, a);
    forall i | 0 <= i < |s.conns|
      ensures s.conns[i].stored ==> s.conns[i].body.Some? && !s.conns[i].server.Reading?
    {
      assert ConnSound(s.conns[i], |s.results|, !s.client.Outside?);
    }
    StepShape(s, a);
    LogGrows(s, r, if a.Act? then a.k else 0, a.Act? && a.dev.Accepted?);
  }

  /** A message that got no request before its call ended never gets one. */
  lemma NeverSentStays(s: System, a: Action, id: nat)
    requires Possible(s, a) && NeverSent(s, id) && (PutsRequest(s, a) ==> id != |s.results|)
    ensures NeverSent(Next(s, a), id)
  {
  }

  /** A call returns 0 only with its message in the log, and leaves a closed connection nobody will replace. */
  lemma SuccessLeavesClosed(s: System, a: Action)
    requires Inv(s) && Possible(s, a)
    requires |Next(s, a).results| > |s.results| && Next(s, a).results[|s.results|] == 0
    ensures StoredFor(Next(s, a), |s.results|)
    ensures var r := Next(s, a);
            && r.conns != [] && r.conns[|r.conns| - 1].server.Spent?
            && r.status.Connected? && r.keeper.Watching? && r.client.Outside? && NeverSent(r, |r.results|)
  {
  }

  lemma ResultsGrow(s: System, r: System)
    requires ResultsSound(s) && s.log <= r.log && s.results <= r.results && |r.results| <= |s.results| + 1
    requires forall id: nat | NeverSent(s, id) && (id != |s.results| || (id > 0 && s.results[id - 1] == 0)) :: NeverSent(r, id)
    requires |r.results| > |s.results| ==>
               r.results[|s.results|] == -1
               || (r.results[|s.results|] == 0 && (|s.results| > 0 ==> s.results[|s.results| - 1] != 0)
                   && StoredFor(r, |s.results|))
    requires |r.results| > 0 && r.results[|r.results| - 1] == 0 ==>
               && r.conns != [] && r.conns[|r.conns| - 1].server.Spent?
               && r.status.Connected? && r.keeper.Watching? && !r.client.Sleeping?
               && NeverSent(r, |r.results|)
    ensures ResultsSound(r)
  {
  }

  /** Any other step leaves the marks of an earlier success alone, or reports a failure. */
  lemma FailureOrProgress(s: System, a: Action)
    requires Inv(s) && Possible(s, a)
    requires |Next(s, a).results| > |s.results| ==> Next(s, a).results[|s.results|] != 0
    ensures |Next(s, a).results| > |s.results| ==> Next(s, a).results[|s.results|] == -1
    ensures var r := Next(s, a);
            |r.results| == |s.results| > 0 && r.results[|r.results| - 1] == 0 ==>
              && r.conns != [] && r.conns[|r.conns| - 1].server.Spent?
              && r.status.Connected? && r.keeper.Watching? && !r.client.Sleeping?
              && !PutsRequest(s, a)
  {
  }

  /** Only a new request changes which messages were never sent, and none follows a success. */
  lemma NeverSentKept(s: System, a: Action, id: nat)
    requires Inv(s) && Possible(s, a) && NeverSent(s, id)
    requires id == |s.results| ==> id > 0 && s.results[id - 1] == 0
    ensures NeverSent(Next(s, a), id)
  {
    if |Next(s, a).results| > |s.results| && Next(s, a).results[|s.results|] == 0 {
      SuccessLeavesClosed(s, a);
    } else {
      FailureOrProgress(s, a);
    }
    NeverSentStays(s, a, id);
  }

  lemma AllNeverSentKept(s: System, a: Action)
    requires Inv(s) && Possible(s, a)
    ensures forall id: nat | NeverSent(s, id) && (id != |s.results| || (id > 0 && s.results[id - 1] == 0)) ::
              NeverSent(Next(s, a), id)
  {
    forall id: nat | NeverSent(s, id) && (id != |s.results| || (id > 0 && s.results[id - 1] == 0))
      ensures NeverSent(Next(s, a), id)
    {
      NeverSentKept(s, a, id);
    }
  }

  lemma KeepsResults(s: System, a: Action)
    requires Inv(s) && Possible(s, a)
    ensures ResultsSound(Next(s, a))
  {
    var r := Next(s, a);
    var n := |s.results|;
    AllNeverSentKept(s, a);
    if |r.results| > n && r.results[n] == 0 {
      SuccessLeavesClosed(s, a);
    } else {
      FailureOrProgress(s, a);
    }
    StepShape(s, a);
    ResultsGrow(s, r);
  }

  lemma KeepsInv(s: System, a: Action)
    requires Inv(s) && Possible(s, a)
    ensures Inv(Next(s, a))
  {
    KeepsEachConn(s, a);
    KeepsOneMayStore(s, a);
    KeepsClient(s, a);
    KeepsLog(s, a);
    KeepsResults(s, a);
  }

  lemma {:induction false} RunsKeepInv(acts: seq<Action>)
    requires Run(Start(), acts).Some?
    ensures Inv(Run(Start(), acts).value)
  {
    if acts != [] {
      RunsKeepInv(acts[..|acts| - 1]);
      KeepsInv(Run(Start(), acts[..|acts| - 1]).value, acts[|acts| - 1]);
    }
  }

  // ---- what every run guarantees ---------------------------------------

  /** At most one store per call, whatever fails and however often 429 is answered. */
  lemma AtMostOnce(acts: seq<Action>, i: nat, j: nat)
    requires Run(Start(), acts).Some?
    requires i < j < |Run(Start(), acts).value.log|
    ensures var s := Run(Start(), acts).value; s.log[i].call != s.log[j].call
  {
    RunsKeepInv(acts);
    var s := Run(Start(), acts).value;
    assert MayStore(s.conns[s.log[i].conn], s.log[i].call);
    assert MayStore(s.conns[s.log[j].conn], s.log[j].call);
  }

  /** A call that returned 0 is stored, and by AtMostOnce stored once. */
  lemma ReturnZeroMeansStored(acts: seq<Action>, id: nat)
    requires Run(Start(), acts).Some?
    requires id < |Run(Start(), acts).value.results| && Run(Start(), acts).value.results[id] == 0
    ensures StoredFor(Run(Start(), acts).value, id)
  {
    RunsKeepInv(acts);
  }

  /** While the client is about to retry, no handler has stored or can still store its message. */
  lemma RetryOnlyWhenNotStored(acts: seq<Action>, k: nat)
    requires Run(Start(), acts).Some?
    requires var s := Run(Start(), acts).value;
             (s.client.Sleeping? || s.client.Sending?) && k < |s.conns|
    ensures var s := Run(Start(), acts).value;
            !MayStore(s.conns[k], |s.results|) && !StoredFor(s, |s.results|)
  {
    RunsKeepInv(acts);
    var s := Run(Start(), acts).value;
    forall i | 0 <= i < |s.log|
      ensures s.log[i].call != |s.results|
    {
      assert MayStore(s.conns[s.log[i].conn], s.log[i].call);
    }
  }

  /**
   * The server closes after every answer and the keeper reconnects only when
   * the status is not CONNECTED, which a 200 sets: so the call after a
   * successful one always returns -1 and its message is never stored.
   */
  lemma NextCallIsLost(acts: seq<Action>, id: nat)
    requires Run(Start(), acts).Some?
    requires id + 1 < |Run(Start(), acts).value.results| && Run(Start(), acts).value.results[id] == 0
    ensures Run(Start(), acts).value.results[id + 1] == -1
    ensures !StoredFor(Run(Start(), acts).value, id + 1)
  {
    RunsKeepInv(acts);
  }

  lemma RunMore(acts: seq<Action>, p: System, a: Action)
    requires Run(Start(), acts) == Some(p) && Possible(p, a)
    ensures Run(Start(), acts + [a]) == Some(Next(p, a))
  {
  }

  function ExchangeActs(k: nat, dev: Device): seq<Action> {
    [WriteHeader(true), WriteBody(true), Act(k, dev), Reply(k, true), ReadReply(true)]
  }

  /** One exchange on a fresh connection: request, device write, answer, reading it. */
  lemma Exchange(acts: seq<Action>, p: System, k: nat, dev: Device) returns (acts': seq<Action>, r: System)
    requires Run(Start(), acts) == Some(p)
    requires p.client.Sending? && |p.conns| == k + 1 && p.conns[k] == Conn(false, None, Reading, false)
    ensures acts' == acts + ExchangeActs(k, dev) && Run(Start(), acts') == Some(r)
    ensures r.conns == p.conns[k := Conn(true, Some(|p.results|), Spent, dev.Accepted?)] && r.keeper == p.keeper
    ensures dev.Accepted? ==> r.client.Outside? && r.status.Connected? && r.results == p.results + [0]
                              && r.log == p.log + [Store(k, |p.results|)]
    ensures dev.Refused? ==> r.client.Sleeping? && r.status.Blocked? && r.results == p.results && r.log == p.log
  {
    RunMore(acts, p, WriteHeader(true));
    var p1 := Next(p, WriteHeader(true));
    RunMore(acts + [WriteHeader(true)], p1, WriteBody(true));
    var p2 := Next(p1, WriteBody(true));
    assert p2.conns[k] == Conn(true, Some(|p.results|), Reading, false);
    acts', r := acts + [WriteHeader(true)] + [WriteBody(true)], p2;
    RunMore(acts', r, Act(k, dev));
    acts', r := acts' + [Act(k, dev)], Next(r, Act(k, dev));
    RunMore(acts', r, Reply(k, true));
    acts', r := acts' + [Reply(k, true)], Next(r, Reply(k, true));
    RunMore(acts', r, ReadReply(true));
    acts', r := acts' + [ReadReply(true)], Next(r, ReadReply(true));
    assert acts' == acts + ExchangeActs(k, dev);
  }

  /** A 429 can be retried to success, when the keeper reconnects during the sleep; the next call is then lost. */
  lemma RetryThenSuccessThenLoss() returns (acts: seq<Action>)
    ensures Run(Start(), acts).Some?
    ensures Run(Start(), acts).value.results == [0, -1] && Run(Start(), acts).value.log == [Store(1, 0)]
  {
    var p := Start();
    acts := [];
    RunMore(acts, p, Connect(true, true));
    acts, p := acts + [Connect(true, true)], Next(p, Connect(true, true));
    RunMore(acts, p, Begin);
    acts, p := acts + [Begin], Next(p, Begin);
    acts, p := Exchange(acts, p, 0, Refused);
    RunMore(acts, p, Poll);
    acts, p := acts + [Poll], Next(p, Poll);
    RunMore(acts, p, Connect(true, true));
    acts, p := acts + [Connect(true, true)], Next(p, Connect(true, true));
    RunMore(acts, p, Wake);
    acts, p := acts + [Wake], Next(p, Wake);
    acts, p := Exchange(acts, p, 1, Accepted);
    RunMore(acts, p, Begin);
    acts, p := acts + [Begin], Next(p, Begin);
    RunMore(acts, p, WriteHeader(false));
    acts := acts + [WriteHeader(false)];
  }
}

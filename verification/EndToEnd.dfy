/** From keys to the text a peer reads: keyboard, outbox, client_send_message and its handlers, inbox, reader. */
module EndToEnd {
  import opened Messages
  import opened Selection
  import Cipher
  import L = LineEditor
  import D = Delivery
  import SendOrder

  /** What keycipher_in_read returns of a message, without the author, which the server overwrites. */
  datatype Reading = Reading(timestamp: int, text: seq<Byte>, len: int)

  function Read1(m: Message): Reading
    requires WellFormed(m)
  {
    Reading(m.timestamp, Cipher.Rotated(m.data, m.len)[..m.len], m.len)
  }

  /**
   * `taken` is what direct_send_loop has read from the outbox; its n-th message
   * is the one of call n in `net`, which holds the client, the connections and
   * their handlers.
   */
  datatype Pipe = Pipe(
    keyboard: L.Keyboard,
    outbox: seq<Message>,
    taken: seq<Message>,
    net: D.System,
    inbox: seq<Message>,
    readings: seq<Reading>)

  datatype Step =
    | Key(e: L.Event)
    | Take                                   // keycipher_out_read by direct_send_loop
    | Send(a: D.Action, author: seq<Byte>)   // a step of the client, its connection keeper or a handler
    | Read                                   // keycipher_in_read

  function Start(): Pipe {
    Pipe(L.Keyboard(L.Zeros(MSG_MAX_LEN), 0, []), [], [], D.Start(), [], [])
  }

  predicate IsEnter(e: L.Event) {
    e.kind == L.EV_KEY && e.value == 1 && e.code == L.KEY_ENTER
  }

  predicate Stores(a: D.Action) {
    a.Act? && a.dev.Accepted?
  }

  /** The send loop takes a message only between calls, and makes one call for each. */
  ghost predicate Can(p: Pipe, st: Step) {
    match st
    case Key(e) => IsEnter(e) && e.written ==> |p.outbox| < FIFO_SIZE
    case Take => p.outbox != [] && |p.taken| == |p.net.results|
    case Send(a, _) =>
      && D.Possible(p.net, a)
      && (a.Begin? ==> |p.taken| > |p.net.results|)
      && (Stores(a) ==> |p.inbox| < FIFO_SIZE)
    case Read => p.inbox != [] && WellFormed(p.inbox[0])
  }

  ghost function Do(p: Pipe, st: Step): Pipe
    requires L.Sound(p.keyboard) && Can(p, st)
  {
    match st
    case Key(e) =>
      var k := L.Handle(p.keyboard, e);
      p.(keyboard := k, outbox := p.outbox + Committed(p.keyboard, k))
    case Take => p.(taken := p.taken + [p.outbox[0]], outbox := p.outbox[1..])
    case Send(a, author) =>
      p.(net := D.Next(p.net, a), inbox := p.inbox + if Stores(a) then Requested(p, a.k, author) else [])
    case Read => p.(inbox := p.inbox[1..], readings := p.readings + [Read1(p.inbox[0])])
  }

  /** The message of the request on connection k, as the handler stores it; RequestWasTaken: there is one. */
  ghost function Requested(p: Pipe, k: nat, author: seq<Byte>): seq<Message>
    requires k < |p.net.conns| && p.net.conns[k].body.Some?
  {
    var n := p.net.conns[k].body.value;
    if n < |p.taken| then [p.taken[n].(author := author)] else []
  }

  /** What one event appended to the outbox. */
  function Committed(before: L.Keyboard, after: L.Keyboard): seq<Message> {
    if |before.outbox| <= |after.outbox| then after.outbox[|before.outbox|..] else []
  }

  ghost function Run(steps: seq<Step>): (r: Option<Pipe>)
    ensures r.Some? ==> L.Sound(r.value.keyboard)
  {
    if steps == [] then Some(Start())
    else
      match Run(steps[..|steps| - 1])
      case None => None
      case Some(p) => if Can(p, steps[|steps| - 1]) then Some(Do(p, steps[|steps| - 1])) else None
  }

  // ---- the network half is a run of Delivery ------------------------------

  function Sends(steps: seq<Step>): seq<D.Action> {
    if steps == [] then []
    else
      Sends(steps[..|steps| - 1]) + if steps[|steps| - 1].Send? then [steps[|steps| - 1].a] else []
  }

  /** Whatever is proved of every run of Delivery holds of the pipe. */
  lemma {:induction false} SendsAreADeliveryRun(steps: seq<Step>)
    requires Run(steps).Some?
    ensures D.Run(D.Start(), Sends(steps)) == Some(Run(steps).value.net)
  {
    if steps != [] {
      var init := steps[..|steps| - 1];
      SendsAreADeliveryRun(init);
      if steps[|steps| - 1].Send? {
        D.RunMore(Sends(init), Run(init).value.net, steps[|steps| - 1].a);
      } else {
        assert Sends(steps) == Sends(init);
      }
    }
  }

  /** The send loop is between calls, or in the call of the last message it took. */
  ghost predicate Wired(p: Pipe) {
    && |p.net.results| <= |p.taken| <= |p.net.results| + 1
    && (!p.net.client.Outside? ==> |p.taken| == |p.net.results| + 1)
  }

  /** Only a call that begins needs a message, and only a call that ends is done with it. */
  lemma CallsEndOneByOne(s: D.System, a: D.Action)
    requires D.Possible(s, a)
    ensures var r := D.Next(s, a);
            && |s.results| <= |r.results| <= |s.results| + 1
            && (|r.results| > |s.results| ==> (a.Begin? || !s.client.Outside?) && r.client.Outside?)
            && (!r.client.Outside? ==> a.Begin? || !s.client.Outside?)
  {
  }

  lemma {:induction false} RunsStayWired(steps: seq<Step>)
    requires Run(steps).Some?
    ensures Wired(Run(steps).value)
  {
    if steps != [] {
      RunsStayWired(steps[..|steps| - 1]);
      if steps[|steps| - 1].Send? {
        CallsEndOneByOne(Run(steps[..|steps| - 1]).value.net, steps[|steps| - 1].a);
      }
    }
  }

  /** A handler's request is a message that was taken. */
  lemma RequestWasTaken(steps: seq<Step>, k: nat)
    requires Run(steps).Some? && k < |Run(steps).value.net.conns| && Run(steps).value.net.conns[k].body.Some?
    ensures Run(steps).value.net.conns[k].body.value < |Run(steps).value.taken|
  {
    SendsAreADeliveryRun(steps);
    D.RunsKeepInv(Sends(steps));
    RunsStayWired(steps);
    var s := Run(steps).value.net;
    assert D.ConnSound(s.conns[k], |s.results|, !s.client.Outside?);
  }

  // ---- the keyboard half is a run of the handler --------------------------

  /** The events typed, in order. */
  function Keys(steps: seq<Step>): seq<L.Event> {
    if steps == [] then []
    else
      Keys(steps[..|steps| - 1]) + if steps[|steps| - 1].Key? then [steps[|steps| - 1].e] else []
  }

  lemma {:induction false} KeyboardRun(steps: seq<Step>)
    requires Run(steps).Some?
    ensures L.Sound(Start().keyboard)
    ensures Run(steps).value.keyboard == L.HandleAll(Start().keyboard, Keys(steps))
  {
    if steps != [] {
      var init := steps[..|steps| - 1];
      KeyboardRun(init);
      if steps[|steps| - 1].Key? {
        assert Keys(steps)[..|Keys(init)|] == Keys(init);
      } else {
        assert Keys(steps) == Keys(init);
      }
    }
  }

  /** What the reference editor's lines look like to a reader. */
  function Lines(ls: seq<L.Line>): (r: seq<Reading>)
    ensures |r| == |ls|
  {
    seq(|ls|, i requires 0 <= i < |ls| => Reading(ls[i].timestamp, ls[i].text, |ls[i].text|))
  }

  /** The lines the reference editor commits. */
  function Typed(es: seq<L.Event>): seq<Reading> {
    Lines(L.TypeAll(L.Draft([], []), es).sent)
  }

  function ReadAll(ms: seq<Message>): (r: seq<Reading>)
    requires AllFit(ms)
    ensures |r| == |ms|
  {
    seq(|ms|, i requires 0 <= i < |ms| => Read1(ms[i]))
  }

  lemma Read1OfSeal(l: L.Line)
    requires |l.text| <= MSG_MAX_LEN
    ensures WellFormed(L.Seal(l)) && Read1(L.Seal(l)) == Reading(l.timestamp, l.text, |l.text|)
  {
    L.SealOpens(l);
  }

  /** Everything ever written to the outbox, opened, is what the reference editor commits. */
  lemma OutboxIsTyped(steps: seq<Step>)
    requires Run(steps).Some?
    ensures AllFit(Run(steps).value.keyboard.outbox)
    ensures ReadAll(Run(steps).value.keyboard.outbox) == Typed(Keys(steps))
  {
    KeyboardRun(steps);
    L.EditorSimulation(Start().keyboard, Keys(steps));
    L.LinesFit(Keys(steps));
    var sent := L.TypeAll(L.Draft([], []), Keys(steps)).sent;
    var outbox := Run(steps).value.keyboard.outbox;
    assert outbox == L.SealAll(sent);
    forall i | 0 <= i < |sent|
      ensures WellFormed(outbox[i]) && Read1(outbox[i]) == Lines(sent)[i]
    {
      Read1OfSeal(sent[i]);
    }
  }

  // ---- what was stored and read ---------------------------------------------

  /** The stored messages as the handlers' log names them. */
  ghost predicate LogNamesTaken(p: Pipe) {
    AllFit(p.taken) && forall j | 0 <= j < |p.net.log| :: p.net.log[j].call < |p.taken|
  }

  ghost function StoredReadings(p: Pipe): seq<Reading>
    requires LogNamesTaken(p)
  {
    seq(|p.net.log|, j requires 0 <= j < |p.net.log| => Read1(p.taken[p.net.log[j].call]))
  }

  /** Nothing leaves the queues but by being taken, or read; what is read was stored. */
  ghost predicate Conserved(p: Pipe) {
    && p.taken + p.outbox == p.keyboard.outbox
    && LogNamesTaken(p) && AllFit(p.inbox) && AllFit(p.outbox)
    && p.readings + ReadAll(p.inbox) == StoredReadings(p)
  }

  lemma StoreConserves(p: Pipe, r: Pipe, n: nat, author: seq<Byte>, conn: nat)
    requires Conserved(p) && n < |p.taken|
    requires r.keyboard == p.keyboard && r.outbox == p.outbox && r.taken == p.taken && r.readings == p.readings
    requires r.net.log == p.net.log + [D.Store(conn, n)] && r.inbox == p.inbox + [p.taken[n].(author := author)]
    ensures Conserved(r)
  {
    assert WellFormed(p.taken[n]) && Read1(p.taken[n].(author := author)) == Read1(p.taken[n]);
    assert ReadAll(r.inbox) == ReadAll(p.inbox) + [Read1(p.taken[n])];
    assert StoredReadings(r) == StoredReadings(p) + [Read1(p.taken[n])];
  }

  lemma SendConserves(p: Pipe, a: D.Action, author: seq<Byte>)
    requires L.Sound(p.keyboard) && Conserved(p) && Can(p, Send(a, author))
    requires Stores(a) ==> p.net.conns[a.k].body.value < |p.taken|
    ensures Conserved(Do(p, Send(a, author)))
  {
    var r := Do(p, Send(a, author));
    if Stores(a) {
      StoreConserves(p, r, p.net.conns[a.k].body.value, author, a.k);
    } else {
      assert r.net.log == p.net.log && r.inbox == p.inbox + [] == p.inbox;
    }
  }

  lemma OtherStepConserves(p: Pipe, st: Step)
    requires L.Sound(p.keyboard) && Conserved(p) && Can(p, st) && !st.Send?
    requires AllFit(p.keyboard.outbox) && AllFit(Do(p, st).keyboard.outbox)
    ensures Conserved(Do(p, st))
  {
    var r := Do(p, st);
    match st
    case Key(e) =>
      assert r.keyboard.outbox == p.keyboard.outbox + Committed(p.keyboard, r.keyboard);
      assert p.taken + (p.outbox + Committed(p.keyboard, r.keyboard)) == r.keyboard.outbox;
    case Take =>
      assert r.taken + r.outbox == p.taken + p.outbox;
      assert p.outbox[0] == p.keyboard.outbox[|p.taken|];
      assert StoredReadings(r) == StoredReadings(p);
    case Read =>
      assert ReadAll(p.inbox) == [Read1(p.inbox[0])] + ReadAll(r.inbox);
  }

  lemma {:induction false} RunsConserve(steps: seq<Step>)
    requires Run(steps).Some?
    ensures Conserved(Run(steps).value)
  {
    if steps != [] {
      var init, st := steps[..|steps| - 1], steps[|steps| - 1];
      RunsConserve(init);
      if st.Send? {
        if Stores(st.a) {
          RequestWasTaken(init, st.a.k);
        }
        SendConserves(Run(init).value, st.a, st.author);
      } else {
        OutboxIsTyped(init);
        OutboxIsTyped(steps);
        OtherStepConserves(Run(init).value, st);
      }
    }
  }

  /**
   * In every run, whatever fails and in whatever order handlers store: the n-th
   * reading is the line of the n-th store, unaltered, and no line is read twice.
   */
  lemma ReadingsAreStoredLines(steps: seq<Step>, n: nat)
    requires Run(steps).Some? && n < |Run(steps).value.readings|
    ensures var p := Run(steps).value;
            && n < |p.net.log| && p.net.log[n].call < |Typed(Keys(steps))|
            && p.readings[n] == Typed(Keys(steps))[p.net.log[n].call]
            && forall i | 0 <= i < n :: p.net.log[i].call != p.net.log[n].call
  {
    RunsConserve(steps);
    OutboxIsTyped(steps);
    SendsAreADeliveryRun(steps);
    var p := Run(steps).value;
    assert p.readings[n] == StoredReadings(p)[n];
    assert p.taken[p.net.log[n].call] == p.keyboard.outbox[p.net.log[n].call];
    forall i | 0 <= i < n
      ensures p.net.log[i].call != p.net.log[n].call
    {
      D.AtMostOnce(Sends(steps), i, n);
    }
  }

  /** What that line is: the reader gets its text, its length and the clock of its Enter. */
  lemma ReadingsCarryLines(steps: seq<Step>, n: nat)
    requires Run(steps).Some? && n < |Run(steps).value.readings|
    ensures var p := Run(steps).value;
            var sent := L.TypeAll(L.Draft([], []), Keys(steps)).sent;
            && n < |p.net.log| && p.net.log[n].call < |sent|
            && var l := sent[p.net.log[n].call];
               p.readings[n].text == l.text && p.readings[n].timestamp == l.timestamp && p.readings[n].len == |l.text|
  {
    ReadingsAreStoredLines(steps, n);
  }

  /** A store appends the taken message with the author replaced and everything else as it was. */
  lemma StoreReplacesAuthor(steps: seq<Step>, a: D.Action, author: seq<Byte>)
    requires Run(steps).Some? && Can(Run(steps).value, Send(a, author)) && Stores(a)
    ensures var p := Run(steps).value;
            var r := Do(p, Send(a, author));
            && |r.inbox| == |p.inbox| + 1 && p.inbox <= r.inbox && |r.net.log| == |p.net.log| + 1
            && var n := r.net.log[|p.net.log|].call;
               n < |p.taken| && var m := r.inbox[|p.inbox|];
               m.author == author && m.timestamp == p.taken[n].timestamp && m.data == p.taken[n].data && m.len == p.taken[n].len
  {
    RequestWasTaken(steps, a.k);
  }

  /** The line whose call comes after one that returned 0 never reaches the reader. */
  lemma LineAfterSuccessIsNeverRead(steps: seq<Step>, id: nat, n: nat)
    requires Run(steps).Some?
    requires var r := Run(steps).value.net.results; id + 1 < |r| && r[id] == 0
    requires n < |Run(steps).value.readings|
    ensures n < |Run(steps).value.net.log| && Run(steps).value.net.log[n].call != id + 1
  {
    SendsAreADeliveryRun(steps);
    D.NextCallIsLost(Sends(steps), id);
    ReadingsAreStoredLines(steps, n);
  }

  // ---- exactly which lines arrive ---------------------------------------------

  /** For each committed line: its call is still to end, or it was stored. */
  ghost function Reaches(p: Pipe): (keep: seq<bool>)
    ensures |keep| == |p.keyboard.outbox|
  {
    seq(|p.keyboard.outbox|, i requires 0 <= i < |p.keyboard.outbox| =>
      i >= |p.net.results| || D.StoredFor(p.net, i))
  }

  /** The message of the call under way, unless it is stored already. */
  ghost function InHand(p: Pipe): (r: seq<Message>)
    requires Wired(p)
    ensures r == [] || (p.taken != [] && r == [p.taken[|p.taken| - 1]])
  {
    if |p.taken| > |p.net.results| && !D.StoredFor(p.net, |p.net.results|) then [p.taken[|p.net.results|]] else []
  }

  /** What has been read and what is still on its way, in order. */
  ghost function Along(p: Pipe): seq<Reading>
    requires Wired(p) && Conserved(p)
  {
    p.readings + ReadAll(p.inbox) + ReadAll(InHand(p)) + ReadAll(p.outbox)
  }

  /** The calls in the log, in order. */
  ghost function Calls(s: D.System): (c: seq<nat>)
    ensures |c| == |s.log|
  {
    seq(|s.log|, j requires 0 <= j < |s.log| => s.log[j].call)
  }

  lemma CallsAreStored(s: D.System, id: nat)
    ensures id in Calls(s) <==> D.StoredFor(s, id)
  {
    if i :| 0 <= i < |s.log| && s.log[i].call == id {
      assert Calls(s)[i] == id;
    }
  }

  /** In the part of the taken messages whose fate is settled, the log names exactly those that reach. */
  lemma CallsNameReached(p: Pipe, m: nat)
    requires Wired(p) && Conserved(p) && SendOrder.Tidy(p.net) && m == |p.taken| - |InHand(p)|
    ensures m <= |p.keyboard.outbox| && Names(Calls(p.net), Reaches(p)[..m])
  {
    var places, keep := Calls(p.net), Reaches(p)[..m];
    forall i: nat
      ensures i in places <==> D.StoredFor(p.net, i)
    {
      CallsAreStored(p.net, i);
    }
    forall j | 0 <= j < |places|
      ensures places[j] < m
    {
      assert places[j] in places;
    }
  }

  lemma StoredIsSelected(p: Pipe, m: nat)
    requires Conserved(p) && AllFit(p.keyboard.outbox)
    requires m <= |p.taken| <= |p.keyboard.outbox| && Names(Calls(p.net), Reaches(p)[..m])
    ensures StoredReadings(p) == Select(ReadAll(p.keyboard.outbox)[..m], Reaches(p)[..m])
  {
    var typed := ReadAll(p.keyboard.outbox)[..m];
    PickedIsSelected(typed, Reaches(p)[..m], Calls(p.net));
    forall j | 0 <= j < |p.net.log|
      ensures StoredReadings(p)[j] == Picked(typed, Calls(p.net))[j]
    {
      assert p.keyboard.outbox[p.net.log[j].call] == (p.taken + p.outbox)[p.net.log[j].call];
    }
  }

  /** The rest of the taken messages and the outbox are on their way. */
  lemma RestIsUnderWay(p: Pipe, m: nat)
    requires Wired(p) && Conserved(p) && m == |p.taken| - |InHand(p)| && AllFit(p.keyboard.outbox)
    ensures m <= |p.taken| <= |p.keyboard.outbox|
    ensures ReadAll(p.keyboard.outbox)[m..] == ReadAll(InHand(p)) + ReadAll(p.outbox)
    ensures forall i | m <= i < |Reaches(p)| :: Reaches(p)[i]
  {
    var rest := ReadAll(InHand(p)) + ReadAll(p.outbox);
    assert |p.keyboard.outbox| == |p.taken| + |p.outbox|;
    forall i | 0 <= i < |rest|
      ensures ReadAll(p.keyboard.outbox)[m..][i] == rest[i]
    {
      assert p.keyboard.outbox[m + i] == (p.taken + p.outbox)[m + i];
    }
  }

  lemma AlongParts(p: Pipe)
    requires Wired(p) && Conserved(p)
    ensures Along(p) == StoredReadings(p) + (ReadAll(InHand(p)) + ReadAll(p.outbox))
  {
    var read, hand, rest := StoredReadings(p), ReadAll(InHand(p)), ReadAll(p.outbox);
    assert (read + hand) + rest == read + (hand + rest);
  }

  lemma AlongIsSelected(p: Pipe, m: nat)
    requires Wired(p) && Conserved(p) && AllFit(p.keyboard.outbox) && m == |p.taken| - |InHand(p)|
    requires m <= |p.keyboard.outbox| && Names(Calls(p.net), Reaches(p)[..m])
    ensures Along(p) == Select(ReadAll(p.keyboard.outbox), Reaches(p))
  {
    AlongParts(p);
    RestIsUnderWay(p, m);
    StoredIsSelected(p, m);
    SelectPrefix(ReadAll(p.keyboard.outbox), Reaches(p), m);
  }

  /** No request was put on the wire while a handler still held an older one. */
  ghost predicate SentInTurn(steps: seq<Step>) {
    D.Run(D.Start(), Sends(steps)).Some? && SendOrder.Settled(Sends(steps))
  }

  /**
   * Exactly what arrives, when no request is put while an older one is pending:
   * read and under way are the committed lines less those whose call has ended
   * without a store. A call that stored and returned -1 counts as delivered.
   */
  lemma ReadIsTypedLessLost(steps: seq<Step>)
    requires Run(steps).Some? && SentInTurn(steps)
    ensures var p := Run(steps).value;
            && Wired(p) && Conserved(p) && |Reaches(p)| == |Typed(Keys(steps))|
            && Along(p) == Select(Typed(Keys(steps)), Reaches(p))
  {
    SendsAreADeliveryRun(steps);
    SendOrder.StoredInOrder(Sends(steps));
    RunsConserve(steps);
    OutboxIsTyped(steps);
    RunsStayWired(steps);
    var p := Run(steps).value;
    var m := |p.taken| - |InHand(p)|;
    CallsNameReached(p, m);
    AlongIsSelected(p, m);
  }

  // ---- interrupted writes -----------------------------------------------------

  /** The same events if no fifo_write had been interrupted. */
  function Uninterrupted(es: seq<L.Event>): (r: seq<L.Event>)
    ensures |r| == |es|
  {
    seq(|es|, i requires 0 <= i < |es| => es[i].(written := true))
  }

  /** For each Enter pressed, whether its fifo_write went through. */
  function Written(es: seq<L.Event>): seq<bool> {
    if es == [] then []
    else
      var e := es[|es| - 1];
      Written(es[..|es| - 1]) +
      if IsEnter(e) then [e.written] else []
  }

  /** One event on an editor that loses interrupted lines and one that does not. */
  lemma InterruptionStep(d: L.Draft, u: L.Draft, keep: seq<bool>, e: L.Event)
    requires d.line == u.line && |u.sent| == |keep| && Lines(d.sent) == Select(Lines(u.sent), keep)
    ensures var d', u' := L.Type(d, e), L.Type(u, e.(written := true));
            var keep' := keep + if IsEnter(e) then [e.written] else [];
            && d'.line == u'.line && |u'.sent| == |keep'| && Lines(d'.sent) == Select(Lines(u'.sent), keep')
  {
    assert keep + [] == keep && d.sent + [] == d.sent;
    if IsEnter(e) {
      var line := L.Line(e.timestamp, e.author, d.line);
      var x := Reading(e.timestamp, d.line, |d.line|);
      SelectGrows(Lines(u.sent), keep, x, e.written);
      assert Lines(u.sent + [line]) == Lines(u.sent) + [x] && Lines(d.sent + [line]) == Lines(d.sent) + [x];
    }
  }

  /** The committed lines are the lines entered less those whose write was interrupted. */
  lemma {:induction false} TypedIsEnteredLessInterrupted(es: seq<L.Event>)
    ensures |Typed(Uninterrupted(es))| == |Written(es)|
    ensures Typed(es) == Select(Typed(Uninterrupted(es)), Written(es))
    ensures L.TypeAll(L.Draft([], []), Uninterrupted(es)).line == L.TypeAll(L.Draft([], []), es).line
  {
    if es != [] {
      var init, e := es[..|es| - 1], es[|es| - 1];
      TypedIsEnteredLessInterrupted(init);
      assert Uninterrupted(es)[..|es| - 1] == Uninterrupted(init);
      var d, u := L.TypeAll(L.Draft([], []), init), L.TypeAll(L.Draft([], []), Uninterrupted(init));
      InterruptionStep(d, u, Written(init), e);
    }
  }

  /** One line is entered for every press of Enter, and one flag says whether its write went through. */
  lemma {:induction false} EnteredIsPressed(es: seq<L.Event>)
    ensures |Written(es)| == Presses(es) == |Typed(Uninterrupted(es))|
  {
    TypedIsEnteredLessInterrupted(es);
    if es != [] {
      EnteredIsPressed(es[..|es| - 1]);
    }
  }

  /** How often Enter was pressed, by the numbers of the input headers. */
  function Presses(es: seq<L.Event>): nat {
    if es == [] then 0
    else
      var e := es[|es| - 1];
      Presses(es[..|es| - 1]) + if e.kind == 1 && e.value == 1 && e.code == 28 then 1 else 0
  }

  /** Both losses together: entered, less interrupted, less lost on the way. */
  lemma ReadWithinTyped(steps: seq<Step>)
    requires Run(steps).Some? && SentInTurn(steps)
    ensures var p := Run(steps).value;
            var entered, written := Typed(Uninterrupted(Keys(steps))), Written(Keys(steps));
            && Wired(p) && Conserved(p) && |entered| == |written| && |Select(entered, written)| == |Reaches(p)|
            && Along(p) == Select(Select(entered, written), Reaches(p))
  {
    ReadIsTypedLessLost(steps);
    TypedIsEnteredLessInterrupted(Keys(steps));
  }

  /** No fifo_write was interrupted, and no call has ended without a store. */
  ghost predicate NoneLost(steps: seq<Step>)
    requires Run(steps).Some?
  {
    && (forall i | 0 <= i < |Written(Keys(steps))| :: Written(Keys(steps))[i])
    && (forall i | 0 <= i < |Run(steps).value.net.results| :: D.StoredFor(Run(steps).value.net, i))
  }

  lemma ReachesAll(p: Pipe)
    requires Wired(p) && Conserved(p)
    ensures (forall i | 0 <= i < |Reaches(p)| :: Reaches(p)[i]) <==>
            (forall i | 0 <= i < |p.net.results| :: D.StoredFor(p.net, i))
  {
    assert |p.keyboard.outbox| == |p.taken| + |p.outbox|;
    if forall i | 0 <= i < |Reaches(p)| :: Reaches(p)[i] {
      forall i | 0 <= i < |p.net.results|
        ensures D.StoredFor(p.net, i)
      {
        assert Reaches(p)[i];
      }
    }
  }

  /** What was read and what is under way is exactly what was entered, if and only if nothing was lost. */
  lemma ReadEqualsTyped(steps: seq<Step>)
    requires Run(steps).Some? && SentInTurn(steps)
    ensures Wired(Run(steps).value) && Conserved(Run(steps).value)
    ensures Along(Run(steps).value) == Typed(Uninterrupted(Keys(steps))) <==> NoneLost(steps)
  {
    ReadWithinTyped(steps);
    var p := Run(steps).value;
    var entered, written := Typed(Uninterrupted(Keys(steps))), Written(Keys(steps));
    SelectAll(entered, written);
    SelectAll(Select(entered, written), Reaches(p));
    ReachesAll(p);
  }

  /** When everything has arrived, the reader has the committed lines less those never stored. */
  lemma DeliveredWhenIdle(steps: seq<Step>)
    requires Run(steps).Some? && SentInTurn(steps)
    requires var p := Run(steps).value; p.outbox == [] && |p.taken| == |p.net.results| && p.inbox == []
    ensures var p := Run(steps).value;
            && |Reaches(p)| == |Typed(Keys(steps))|
            && p.readings == Select(Typed(Keys(steps)), Reaches(p))
            && forall i | 0 <= i < |Reaches(p)| :: Reaches(p)[i] <==> D.StoredFor(p.net, i)
  {
    ReadIsTypedLessLost(steps);
  }

  /** A call that ends takes out exactly its own message, and only if it was not stored. */
  lemma ReturnDropsAtMostOne(p: Pipe, a: D.Action, author: seq<Byte>)
    requires L.Sound(p.keyboard) && Wired(p) && Conserved(p) && Can(p, Send(a, author))
    requires |D.Next(p.net, a).results| > |p.net.results|
    ensures var r := Do(p, Send(a, author));
            && Wired(r) && Conserved(r)
            && var i := |p.readings| + |p.inbox|;
               Along(r) == if D.StoredFor(p.net, |p.net.results|) then Along(p)
                           else assert i < |Along(p)|; Along(p)[..i] + Along(p)[i + 1..]
  {
    SendConserves(p, a, author);
    CallsEndOneByOne(p.net, a);
  }

  // ---- one line from key to reader ---------------------------------------------

  lemma RunMore(steps: seq<Step>, p: Pipe, st: Step)
    requires Run(steps) == Some(p) && Can(p, st)
    ensures Run(steps + [st]) == Some(Do(p, st))
  {
  }

  /** A step of the network that stores nothing. */
  lemma SendMore(steps: seq<Step>, p: Pipe, a: D.Action, author: seq<Byte>) returns (steps': seq<Step>, r: Pipe)
    requires Run(steps) == Some(p) && D.Possible(p.net, a) && (a.Begin? ==> |p.taken| > |p.net.results|) && !Stores(a)
    ensures Run(steps') == Some(r) && r == p.(net := D.Next(p.net, a))
  {
    RunMore(steps, p, Send(a, author));
    steps', r := steps + [Send(a, author)], Do(p, Send(a, author));
    assert p.inbox + [] == p.inbox;
  }

  /** The request of the message in hand on a new connection. */
  lemma Requests(steps: seq<Step>, p: Pipe, author: seq<Byte>) returns (steps': seq<Step>, r: Pipe)
    requires Run(steps) == Some(p) && p.net.client.Sending? && p.net.results == []
    requires p.net.conns == [D.Conn(false, None, D.Reading, false)]
    ensures Run(steps') == Some(r) && r == p.(net := r.net)
    ensures r.net == p.net.(client := D.Awaiting, conns := [D.Conn(true, Some(0), D.Reading, false)])
  {
    steps', r := SendMore(steps, p, D.WriteHeader(true), author);
    assert r.net.conns == [D.Conn(true, None, D.Reading, false)];
    steps', r := SendMore(steps', r, D.WriteBody(true), author);
  }

  /** The handler stores the message and answers, and the client reads the answer. */
  lemma Exchanged(steps: seq<Step>, p: Pipe, author: seq<Byte>) returns (steps': seq<Step>, r: Pipe)
    requires Run(steps) == Some(p) && |p.taken| == 1 && p.inbox == []
    requires p.net.client.Awaiting? && p.net.results == [] && p.net.conns == [D.Conn(true, Some(0), D.Reading, false)]
    ensures Run(steps') == Some(r) && r.net.results == [0]
    ensures r == p.(net := r.net, inbox := [p.taken[0].(author := author)])
  {
    var act := Send(D.Act(0, D.Accepted), author);
    RunMore(steps, p, act);
    steps', r := steps + [act], Do(p, act);
    steps', r := SendMore(steps', r, D.Reply(0, true), author);
    steps', r := SendMore(steps', r, D.ReadReply(true), author);
  }

  /** A letter and Enter: one committed message waits in the outbox. */
  lemma OneTyped(t: int, mac: seq<Byte>) returns (steps: seq<Step>, p: Pipe)
    ensures Run(steps) == Some(p) && p.taken == [] && p.inbox == [] && p.readings == [] && p.net == D.Start()
    ensures |p.outbox| == 1 && WellFormed(p.outbox[0]) && Read1(p.outbox[0]) == Reading(t, [97], 1)
    ensures p.outbox[0].data[0] == 110
  {
    var a, enter := L.Event(1, 30, 1, t, mac, true), L.Event(1, 28, 1, t, mac, true);
    L.HomeRow(30);
    assert L.KeyToAscii(30) == 97 && Cipher.Rot13(97) == 110;
    RunMore([], Start(), Key(a));
    p := Do(Start(), Key(a));
    RunMore([] + [Key(a)], p, Key(enter));
    steps, p := [] + [Key(a)] + [Key(enter)], Do(p, Key(enter));
  }

  /** Its call begins on a new connection. */
  lemma CallBegun(t: int, mac: seq<Byte>, sender: seq<Byte>) returns (steps: seq<Step>, p: Pipe)
    ensures Run(steps) == Some(p) && p.outbox == [] && p.inbox == [] && p.readings == []
    ensures |p.taken| == 1 && WellFormed(p.taken[0]) && Read1(p.taken[0]) == Reading(t, [97], 1) && p.taken[0].data[0] == 110
    ensures p.net.client.Sending? && p.net.results == [] && p.net.conns == [D.Conn(false, None, D.Reading, false)]
  {
    steps, p := OneTyped(t, mac);
    RunMore(steps, p, Take);
    steps, p := steps + [Take], Do(p, Take);
    steps, p := SendMore(steps, p, D.Connect(true, true), sender);
    steps, p := SendMore(steps, p, D.Begin, sender);
  }

  /** From the key A and Enter to the reader of the peer: an a and its clock, encrypted on the way. */
  lemma OneLineArrives(t: int, mac: seq<Byte>, sender: seq<Byte>) returns (steps: seq<Step>)
    ensures Run(steps).Some? && Run(steps).value.readings == [Reading(t, [97], 1)] && Run(steps).value.net.results == [0]
    ensures var taken := Run(steps).value.taken; |taken| == 1 && |taken[0].data| == 256 && taken[0].data[0] == 110
  {
    var p;
    steps, p := CallBegun(t, mac, sender);
    steps, p := Requests(steps, p, sender);
    steps, p := Exchanged(steps, p, sender);
    RunMore(steps, p, Read);
    steps := steps + [Read];
  }
}

/** The encrypted-record file the server appends to and inbox_terminal pairs with the messages it pops. */
module Records {
  import opened Messages
  import Cipher
  import L = LineEditor

  const RECORD := 256

  /** The length rule of the record, the terminal and the JSON output. */
  function ShownLen(len: int): nat {
    if len > 0 && len < RECORD then len else 0
  }

  /** enc_record. */
  function RecordOf(m: Message): (r: seq<Byte>)
    requires WellFormed(m)
    ensures |r| == RECORD
  {
    m.data[..ShownLen(m.len)] + seq(RECORD - ShownLen(m.len), _ => 0)
  }

  /** A handler that has appended its record and not yet written the device; n is the record's place in the file. */
  datatype Handler = Handler(n: nat, m: Message)

  /** One device write, of the message of the n-th record. */
  datatype Write = Write(n: nat, stored: bool)

  /** What the terminal prints: the next record of the file and the next message of the device. */
  datatype Pair = Pair(record: seq<Byte>, m: Message)

  /** `recorded` and `writes` are histories: the messages behind the records, and the device writes. */
  datatype Desk = Desk(
    file: seq<seq<Byte>>,
    queue: seq<Message>,
    pending: seq<Handler>,
    cursor: nat,
    shown: seq<Pair>,
    recorded: seq<Message>,
    writes: seq<Write>)

  /** Each connection has its own handler thread: any number may be between their record and their write. */
  datatype Step = Record(m: Message) | DeviceWrite(i: nat, ok: bool) | Show

  function Start(): Desk { Desk([], [], [], 0, [], [], []) }

  predicate Can(d: Desk, st: Step) {
    match st
    case Record(m) => WellFormed(m)
    case DeviceWrite(i, _) => i < |d.pending|
    case Show => d.queue != []
  }

  function Do(d: Desk, st: Step): Desk
    requires Can(d, st)
  {
    match st
    case Record(m) =>
      d.(file := d.file + [RecordOf(m)], recorded := d.recorded + [m],
         pending := d.pending + [Handler(|d.recorded|, m)])
    case DeviceWrite(i, ok) =>
      d.(queue := d.queue + if ok then [d.pending[i].m] else [],
         pending := d.pending[..i] + d.pending[i + 1..],
         writes := d.writes + [Write(d.pending[i].n, ok)])
    case Show =>
      // fread leaves the zeroed buffer alone at the end of the file
      var record := if d.cursor < |d.file| then d.file[d.cursor] else seq(RECORD, _ => 0);
      d.(queue := d.queue[1..], cursor := d.cursor + 1, shown := d.shown + [Pair(record, d.queue[0])])
  }

  ghost function Run(steps: seq<Step>): Option<Desk> {
    if steps == [] then Some(Start())
    else
      match Run(steps[..|steps| - 1])
      case None => None
      case Some(p) => if Can(p, steps[|steps| - 1]) then Some(Do(p, steps[|steps| - 1])) else None
  }

  /** The records whose messages the device took, in the order it took them. */
  function Accepted(writes: seq<Write>): seq<nat> {
    if writes == [] then []
    else
      Accepted(writes[..|writes| - 1]) +
      if writes[|writes| - 1].stored then [writes[|writes| - 1].n] else []
  }

  lemma {:induction false} AcceptedIsWritten(writes: seq<Write>)
    ensures |Accepted(writes)| <= |writes|
    ensures forall a | a in Accepted(writes) :: Write(a, true) in writes
    ensures forall n: nat | Write(n, true) in writes :: n in Accepted(writes)
  {
    if writes != [] {
      AcceptedIsWritten(writes[..|writes| - 1]);
      assert writes == writes[..|writes| - 1] + [writes[|writes| - 1]];
    }
  }

  // ---- what every interleaving keeps ---------------------------------------

  /** Every record is of exactly one handler that still waits, or of exactly one write. */
  ghost predicate Numbered(recorded: seq<Message>, pending: seq<Handler>, writes: seq<Write>) {
    && |pending| + |writes| == |recorded|
    && (forall i | 0 <= i < |pending| :: pending[i].n < |recorded| && recorded[pending[i].n] == pending[i].m)
    && (forall i | 0 <= i < |writes| :: writes[i].n < |recorded|)
    && (forall i, j | 0 <= i < j < |pending| :: pending[i].n != pending[j].n)
    && (forall i, j | 0 <= i < j < |writes| :: writes[i].n != writes[j].n)
    && (forall i, j | 0 <= i < |pending| && 0 <= j < |writes| :: pending[i].n != writes[j].n)
    && (forall n: nat | n < |recorded| :: HasHandler(pending, writes, n))
  }

  ghost predicate IsPending(pending: seq<Handler>, n: nat) {
    exists i :: 0 <= i < |pending| && pending[i].n == n
  }

  ghost predicate Refused(writes: seq<Write>, n: nat) {
    Write(n, false) in writes
  }

  ghost predicate HasHandler(pending: seq<Handler>, writes: seq<Write>, n: nat) {
    IsPending(pending, n) || Refused(writes, n) || Write(n, true) in writes
  }

  /** The n-th record is of the n-th message. */
  ghost predicate FileShows(file: seq<seq<Byte>>, recorded: seq<Message>) {
    |file| == |recorded| && forall n | 0 <= n < |recorded| :: WellFormed(recorded[n]) && file[n] == RecordOf(recorded[n])
  }

  /** Screen and queue are the accepted messages in order, the screen beside the records in order. */
  ghost predicate Ordered(file: seq<seq<Byte>>, queue: seq<Message>, shown: seq<Pair>, recorded: seq<Message>, accepted: seq<nat>) {
    && |file| == |recorded| && |shown| + |queue| == |accepted| <= |recorded|
    && (forall k | 0 <= k < |accepted| :: accepted[k] < |recorded|)
    && (forall k | |shown| <= k < |accepted| :: queue[k - |shown|] == recorded[accepted[k]])
    && (forall k | 0 <= k < |shown| :: shown[k] == Pair(file[k], recorded[accepted[k]]))
  }

  ghost predicate Shown(d: Desk) {
    FileShows(d.file, d.recorded) && d.cursor == |d.shown| && Ordered(d.file, d.queue, d.shown, d.recorded, Accepted(d.writes))
  }

  lemma RecordNumbers(recorded: seq<Message>, pending: seq<Handler>, writes: seq<Write>, m: Message)
    requires Numbered(recorded, pending, writes)
    ensures Numbered(recorded + [m], pending + [Handler(|recorded|, m)], writes)
  {
    var more := pending + [Handler(|recorded|, m)];
    forall n: nat | n < |recorded| + 1
      ensures HasHandler(more, writes, n)
    {
      if n == |recorded| {
        assert more[|pending|].n == n;
      } else {
        assert HasHandler(pending, writes, n);
        if i :| 0 <= i < |pending| && pending[i].n == n {
          assert more[i].n == n;
        }
      }
    }
  }

  lemma RecordShows(d: Desk, m: Message)
    requires Shown(d) && Can(d, Record(m))
    ensures Shown(Do(d, Record(m)))
  {
  }

  /** A write takes its handler from the pending ones to the writes. */
  lemma WriteNumbers(recorded: seq<Message>, pending: seq<Handler>, writes: seq<Write>, i: nat, ok: bool)
    requires Numbered(recorded, pending, writes) && i < |pending|
    ensures Numbered(recorded, pending[..i] + pending[i + 1..], writes + [Write(pending[i].n, ok)])
  {
    var rest, more := pending[..i] + pending[i + 1..], writes + [Write(pending[i].n, ok)];
    assert forall j | 0 <= j < |rest| :: rest[j] == pending[if j < i then j else j + 1];
    forall n: nat | n < |recorded|
      ensures HasHandler(rest, more, n)
    {
      assert HasHandler(pending, writes, n);
      if n == pending[i].n {
        assert more[|writes|] == Write(n, ok);
      } else if j :| 0 <= j < |pending| && pending[j].n == n {
        assert rest[if j < i then j else j - 1].n == n;
      }
    }
  }

  lemma WriteShows(d: Desk, i: nat, ok: bool)
    requires Shown(d) && Can(d, DeviceWrite(i, ok))
    requires d.pending[i].n < |d.recorded| && d.recorded[d.pending[i].n] == d.pending[i].m
    requires |d.pending| + |d.writes| == |d.recorded|
    ensures Shown(Do(d, DeviceWrite(i, ok)))
  {
    AcceptedIsWritten(d.writes);
    var r := Do(d, DeviceWrite(i, ok));
    assert Accepted(r.writes) == Accepted(d.writes) + if ok then [d.pending[i].n] else [];
    AcceptOrders(d.file, d.queue, d.shown, d.recorded, Accepted(d.writes), d.pending[i].n);
    assert d.queue + [] == d.queue && Accepted(d.writes) + [] == Accepted(d.writes);
  }

  lemma AcceptOrders(file: seq<seq<Byte>>, queue: seq<Message>, shown: seq<Pair>, recorded: seq<Message>, accepted: seq<nat>, n: nat)
    requires Ordered(file, queue, shown, recorded, accepted) && n < |recorded| && |accepted| < |recorded|
    ensures Ordered(file, queue + [recorded[n]], shown, recorded, accepted + [n])
  {
  }

  lemma ShowOrders(file: seq<seq<Byte>>, queue: seq<Message>, shown: seq<Pair>, recorded: seq<Message>, accepted: seq<nat>)
    requires Ordered(file, queue, shown, recorded, accepted) && queue != []
    ensures |shown| < |file| && Ordered(file, queue[1..], shown + [Pair(file[|shown|], queue[0])], recorded, accepted)
  {
    assert queue[|shown| - |shown|] == recorded[accepted[|shown|]];
  }

  lemma ShowShows(d: Desk)
    requires Shown(d) && Can(d, Show)
    ensures Shown(Do(d, Show))
  {
    ShowOrders(d.file, d.queue, d.shown, d.recorded, Accepted(d.writes));
  }

  lemma {:induction false} RunsKeepNumbers(steps: seq<Step>)
    requires Run(steps).Some?
    ensures var d := Run(steps).value; Numbered(d.recorded, d.pending, d.writes) && Shown(d)
  {
    if steps != [] {
      RunsKeepNumbers(steps[..|steps| - 1]);
      var d := Run(steps[..|steps| - 1]).value;
      match steps[|steps| - 1]
      case Record(m) =>
        RecordNumbers(d.recorded, d.pending, d.writes, m);
        RecordShows(d, m);
      case DeviceWrite(i, ok) =>
        WriteNumbers(d.recorded, d.pending, d.writes, i, ok);
        WriteShows(d, i, ok);
      case Show =>
        ShowShows(d);
    }
  }

  /** In every interleaving of handlers and terminal, pair n is the n-th record and the n-th accepted message. */
  lemma PairsByIndex(steps: seq<Step>, n: nat, d: Desk)
    requires Run(steps) == Some(d) && n < |d.shown|
    ensures n < |d.recorded| && n < |Accepted(d.writes)| && Accepted(d.writes)[n] < |d.recorded|
    ensures WellFormed(d.recorded[n])
    ensures d.shown[n] == Pair(RecordOf(d.recorded[n]), d.recorded[Accepted(d.writes)[n]])
  {
    RunsKeepNumbers(steps);
  }

  // ---- when a pair belongs together -----------------------------------------

  /** Pair k sets a message beside its own record. */
  ghost predicate Aligned(d: Desk, k: nat) {
    k < |Accepted(d.writes)| && Accepted(d.writes)[k] == k
  }

  /** The k-th accepted message is of a later record than j, and j's message was not accepted before it. */
  ghost predicate PassedAt(accepted: seq<nat>, j: nat, k: nat)
    requires k < |accepted|
  {
    accepted[k] > j && j !in accepted[..k]
  }

  /** None of the first n + 1 records is passed while the first n + 1 messages are accepted. */
  ghost predicate NonePassed(accepted: seq<nat>, n: nat)
    requires n < |accepted|
  {
    forall j: nat, k: nat | j <= k <= n :: !PassedAt(accepted, j, k)
  }

  lemma {:induction false} AcceptedOnce(writes: seq<Write>)
    requires forall i, j | 0 <= i < j < |writes| :: writes[i].n != writes[j].n
    ensures forall i, j | 0 <= i < j < |Accepted(writes)| :: Accepted(writes)[i] != Accepted(writes)[j]
  {
    if writes != [] {
      var init, last := writes[..|writes| - 1], writes[|writes| - 1];
      AcceptedOnce(init);
      AcceptedIsWritten(init);
      forall i | 0 <= i < |Accepted(init)|
        ensures Accepted(init)[i] != last.n
      {
        assert Write(Accepted(init)[i], true) in init;
      }
    }
  }

  /** A message is refused or accepted, and neither twice. */
  lemma NotBoth(writes: seq<Write>, n: nat)
    requires forall i, j | 0 <= i < j < |writes| :: writes[i].n != writes[j].n
    ensures !(Write(n, true) in writes && Write(n, false) in writes)
  {
  }

  lemma PassedIff(recorded: seq<Message>, pending: seq<Handler>, writes: seq<Write>, j: nat, k: nat)
    requires Numbered(recorded, pending, writes)
    requires j < |recorded| && k < |Accepted(writes)| && Accepted(writes)[k] > j
    ensures PassedAt(Accepted(writes), j, k) <==> Refused(writes, j) || IsPending(pending, j) || j in Accepted(writes)[k..]
  {
    AcceptedIsWritten(writes);
    AcceptedOnce(writes);
    NotBoth(writes, j);
    var accepted := Accepted(writes);
    assert accepted == accepted[..k] + accepted[k..];
    assert HasHandler(pending, writes, j);
    assert j in accepted <==> Write(j, true) in writes;
  }

  /** What it means to be passed: refused, or overtaken by a handler that recorded later. */
  lemma PassedMeans(steps: seq<Step>, d: Desk, j: nat, k: nat)
    requires Run(steps) == Some(d) && j < |d.recorded| && k < |Accepted(d.writes)| && Accepted(d.writes)[k] > j
    ensures PassedAt(Accepted(d.writes), j, k) <==>
            Refused(d.writes, j) || IsPending(d.pending, j) || j in Accepted(d.writes)[k..]
  {
    RunsKeepNumbers(steps);
    PassedIff(d.recorded, d.pending, d.writes, j, k);
  }

  lemma {:induction false} AlignedIfNotPassed(accepted: seq<nat>, n: nat, k: nat)
    requires forall i, j | 0 <= i < j < |accepted| :: accepted[i] != accepted[j]
    requires n < |accepted| && k <= n + 1 && NonePassed(accepted, n)
    ensures forall i | 0 <= i < k :: accepted[i] == i
  {
    if k > 0 {
      var last := k - 1;
      AlignedIfNotPassed(accepted, n, last);
      assert last !in accepted[..last];
      assert !PassedAt(accepted, last, last);
      forall v: nat | v < last
        ensures v in accepted[..last]
      {
        assert accepted[..last][v] == v;
      }
      assert accepted[last] !in accepted[..last];
    }
  }

  lemma NotPassedIfAligned(accepted: seq<nat>, n: nat)
    requires n < |accepted| && forall i | 0 <= i <= n :: accepted[i] == i
    ensures NonePassed(accepted, n)
  {
    forall j: nat, k: nat | j <= k <= n
      ensures !PassedAt(accepted, j, k)
    {
      assert j < k ==> accepted[..k][j] == j;
    }
  }

  /**
   * Exactly when the first n + 1 pairs belong together: when none of the first
   * n + 1 records was passed, that is, refused or overtaken, while they were accepted.
   */
  lemma PairsAlignedIff(steps: seq<Step>, n: nat, d: Desk)
    requires Run(steps) == Some(d) && n < |d.shown|
    ensures n < |Accepted(d.writes)|
    ensures (forall k | 0 <= k <= n :: Aligned(d, k)) <==> NonePassed(Accepted(d.writes), n)
  {
    RunsKeepNumbers(steps);
    AcceptedOnce(d.writes);
    if NonePassed(Accepted(d.writes), n) {
      AlignedIfNotPassed(Accepted(d.writes), n, n + 1);
    }
    if forall k | 0 <= k <= n :: Aligned(d, k) {
      assert forall k | 0 <= k <= n :: Aligned(d, k) ==> Accepted(d.writes)[k] == k;
      NotPassedIfAligned(Accepted(d.writes), n);
    }
  }

  /** A record holds the text of a message of fewer than 256 characters and zeros behind it, and nothing of a longer one. */
  lemma RecordHoldsText(m: Message)
    requires WellFormed(m)
    ensures m.len < 256 ==> RecordOf(m)[..m.len] == m.data[..m.len] && forall i | m.len <= i < 256 :: RecordOf(m)[i] == 0
    ensures m.len == 256 ==> forall i | 0 <= i < 256 :: RecordOf(m)[i] == 0
  {
  }

  lemma RecordTurns(m: Message)
    requires WellFormed(m)
    ensures Cipher.Turned(RecordOf(m)[..ShownLen(m.len)]) == Cipher.Rotated(m.data, m.len)[..ShownLen(m.len)]
    ensures m.len < 256 ==> Cipher.Turned(RecordOf(m)[..m.len]) == Cipher.Rotated(m.data, m.len)[..m.len]
  {
  }

  /** The two lines the terminal prints for a pair: dlen bytes of the record, and of the message the device has decrypted. */
  function Ciphertext(p: Pair): seq<Byte>
    requires |p.record| == RECORD
  {
    p.record[..ShownLen(p.m.len)]
  }

  function Plaintext(p: Pair): seq<Byte>
    requires WellFormed(p.m)
  {
    Cipher.Rotated(p.m.data, p.m.len)[..ShownLen(p.m.len)]
  }

  /** What an aligned pair of a committed line shows: the line and its encryption, or nothing of a line of 256. */
  lemma AlignedLineShows(steps: seq<Step>, n: nat, d: Desk, l: L.Line, author: seq<Byte>)
    requires Run(steps) == Some(d) && n < |d.shown| && Aligned(d, n)
    requires |l.text| <= 256 && d.shown[n].m == L.Seal(l).(author := author)
    ensures var p := d.shown[n];
            && WellFormed(p.m) && |p.record| == 256
            && (|l.text| < 256 ==> Plaintext(p) == l.text && |Ciphertext(p)| == |l.text|
                                   && forall i | 0 <= i < |l.text| :: Cipher.HalfTurn(l.text[i], Ciphertext(p)[i]))
            && (|l.text| == 256 ==> Plaintext(p) == [] && Ciphertext(p) == [])
  {
    AlignedPairTurns(steps, n, d);
    L.SealOpens(l);
    L.SealEncrypts(l);
    RecordHoldsText(d.shown[n].m);
  }

  /** An aligned pair shows a ciphertext that turns into the plaintext beside it. */
  lemma AlignedPairTurns(steps: seq<Step>, n: nat, d: Desk)
    requires Run(steps) == Some(d) && n < |d.shown| && Aligned(d, n)
    ensures var p := d.shown[n];
            && WellFormed(p.m) && p.record == RecordOf(p.m)
            && Cipher.Turned(p.record[..ShownLen(p.m.len)])
               == Cipher.Rotated(p.m.data, p.m.len)[..ShownLen(p.m.len)]
            && (p.m.len < 256 ==> p.record[..p.m.len] == p.m.data[..p.m.len]
                                  && Cipher.Turned(p.record[..p.m.len]) == Cipher.Rotated(p.m.data, p.m.len)[..p.m.len])
            && (forall i | (if p.m.len == 256 then 0 else p.m.len) <= i < 256 :: p.record[i] == 0)
  {
    PairsByIndex(steps, n, d);
    RecordTurns(d.recorded[n]);
    RecordHoldsText(d.recorded[n]);
  }

  /** Two handlers cross between record and device: nothing is refused, and both pairs are wrong. */
  lemma CrossingRun(a: Message, b: Message) returns (steps: seq<Step>)
    requires WellFormed(a) && WellFormed(b)
    ensures Run(steps).Some?
    ensures var d := Run(steps).value;
            && d.writes == [Write(1, true), Write(0, true)]
            && d.shown == [Pair(RecordOf(a), b), Pair(RecordOf(b), a)]
  {
    var d;
    steps, d := Crossed(a, b);
    RunMore(steps, Show);
    steps, d := steps + [Show], Do(d, Show);
    RunMore(steps, Show);
    steps := steps + [Show];
  }

  lemma Crossed(a: Message, b: Message) returns (steps: seq<Step>, d: Desk)
    requires WellFormed(a) && WellFormed(b)
    ensures Run(steps) == Some(d)
    ensures d == Desk([RecordOf(a), RecordOf(b)], [b, a], [], 0, [], [a, b], [Write(1, true), Write(0, true)])
  {
    steps, d := [], Start();
    RunMore(steps, Record(a));
    steps, d := steps + [Record(a)], Do(d, Record(a));
    RunMore(steps, Record(b));
    steps, d := steps + [Record(b)], Do(d, Record(b));
    assert d.pending == [Handler(0, a), Handler(1, b)];
    RunMore(steps, DeviceWrite(1, true));
    steps, d := steps + [DeviceWrite(1, true)], Do(d, DeviceWrite(1, true));
    assert d.pending == [Handler(0, a)];
    RunMore(steps, DeviceWrite(0, true));
    steps, d := steps + [DeviceWrite(0, true)], Do(d, DeviceWrite(0, true));
  }

  lemma RunMore(steps: seq<Step>, st: Step)
    requires Run(steps).Some? && Can(Run(steps).value, st)
    ensures Run(steps + [st]) == Some(Do(Run(steps).value, st))
  {
  }

  // ---- one handler at a time -------------------------------------------------

  /** No record is appended while another handler is between its record and its write. */
  ghost predicate Serial(steps: seq<Step>)
    requires Run(steps).Some?
  {
    steps == [] ||
    var init := steps[..|steps| - 1];
    Serial(init) && (steps[|steps| - 1].Record? ==> Run(init).value.pending == [])
  }

  /** The writes are those of the records in turn. */
  ghost predicate InTurn(writes: seq<Write>) {
    forall i | 0 <= i < |writes| :: writes[i].n == i
  }

  lemma {:induction false} SerialIsInTurn(steps: seq<Step>)
    requires Run(steps).Some? && Serial(steps)
    ensures var d := Run(steps).value;
            InTurn(d.writes) && |d.pending| <= 1 && (d.pending != [] ==> d.pending[0].n == |d.writes|)
  {
    if steps != [] {
      SerialIsInTurn(steps[..|steps| - 1]);
      RunsKeepNumbers(steps[..|steps| - 1]);
    }
  }

  function Refusals(writes: seq<Write>): nat {
    if writes == [] then 0
    else Refusals(writes[..|writes| - 1]) + if writes[|writes| - 1].stored then 0 else 1
  }

  lemma {:induction false} AcceptedPlusRefused(writes: seq<Write>)
    ensures |Accepted(writes)| + Refusals(writes) == |writes|
  {
    if writes != [] {
      AcceptedPlusRefused(writes[..|writes| - 1]);
    }
  }

  /** The i-th accepted message is as many places late as attempts were refused before it. */
  lemma {:induction false} SourceIsShifted(writes: seq<Write>, i: nat)
    requires InTurn(writes) && i < |Accepted(writes)|
    ensures Accepted(writes)[i] < |writes| && Accepted(writes)[i] == i + Refusals(writes[..Accepted(writes)[i]])
  {
    var init := writes[..|writes| - 1];
    AcceptedPlusRefused(init);
    if i < |Accepted(init)| {
      SourceIsShifted(init, i);
      assert init[..Accepted(init)[i]] == writes[..Accepted(init)[i]];
    }
  }

  lemma {:induction false} RefusalsMonotone(writes: seq<Write>, k: nat)
    requires k <= |writes|
    ensures Refusals(writes[..k]) <= Refusals(writes)
    ensures Accepted(writes[..k]) <= Accepted(writes)
  {
    if k < |writes| {
      RefusalsMonotone(writes[..|writes| - 1], k);
      assert writes[..|writes| - 1][..k] == writes[..k];
    } else {
      assert writes[..k] == writes;
    }
  }

  /** The n-th accepted message is of the n-th attempt exactly when none of the first n + 1 was refused. */
  lemma SourceAlignedIff(writes: seq<Write>, n: nat)
    requires InTurn(writes) && n < |Accepted(writes)| && n < |writes|
    ensures Accepted(writes)[n] == n <==> Refusals(writes[..n + 1]) == 0
  {
    var prefix := writes[..n + 1];
    SourceIsShifted(writes, n);
    AcceptedPlusRefused(prefix);
    RefusalsMonotone(writes, n + 1);
    assert prefix[..n] == writes[..n];
    if Refusals(prefix) == 0 {
      SourceIsShifted(prefix, n);
      RefusalsMonotone(prefix, Accepted(prefix)[n]);
    }
  }

  /** With serial handlers, pair n belongs together if and only if none of the first n + 1 attempts was refused. */
  lemma PairAlignedIff(steps: seq<Step>, n: nat, d: Desk)
    requires Run(steps) == Some(d) && Serial(steps) && n < |d.shown|
    ensures n < |d.writes|
    ensures Aligned(d, n) <==> Refusals(d.writes[..n + 1]) == 0
  {
    RunsKeepNumbers(steps);
    SerialIsInTurn(steps);
    AcceptedIsWritten(d.writes);
    SourceAlignedIff(d.writes, n);
  }

  /** With serial handlers and no refusal, every pair shows a ciphertext that turns into its plaintext. */
  lemma NoRefusalAligns(steps: seq<Step>, n: nat, d: Desk)
    requires Run(steps) == Some(d) && Serial(steps) && n < |d.shown| && Refusals(d.writes) == 0
    ensures var p := d.shown[n];
            && WellFormed(p.m) && p.record == RecordOf(p.m)
            && Cipher.Turned(p.record[..ShownLen(p.m.len)])
               == Cipher.Rotated(p.m.data, p.m.len)[..ShownLen(p.m.len)]
            && (p.m.len < 256 ==> p.record[..p.m.len] == p.m.data[..p.m.len]
                                  && Cipher.Turned(p.record[..p.m.len]) == Cipher.Rotated(p.m.data, p.m.len)[..p.m.len])
  {
    PairAlignedIff(steps, n, d);
    RefusalsMonotone(d.writes, n + 1);
    AlignedPairTurns(steps, n, d);
  }

  lemma ShiftedByOne(writes: seq<Write>, n: nat)
    requires InTurn(writes) && n < |Accepted(writes)| && n < |writes|
    requires Refusals(writes) == 1 && Refusals(writes[..n + 1]) == 1
    ensures Accepted(writes)[n] == n + 1
  {
    SourceAlignedIff(writes, n);
    SourceIsShifted(writes, n);
    RefusalsMonotone(writes, Accepted(writes)[n]);
  }

  /** After exactly one refusal, every later pair sets a record beside the message of the attempt after it. */
  lemma OneRefusalShifts(steps: seq<Step>, n: nat, d: Desk)
    requires Run(steps) == Some(d) && Serial(steps) && n < |d.shown|
    requires Refusals(d.writes) == 1 && n < |d.writes| && Refusals(d.writes[..n + 1]) == 1
    ensures n + 1 < |d.recorded| && WellFormed(d.recorded[n])
    ensures d.shown[n] == Pair(RecordOf(d.recorded[n]), d.recorded[n + 1])
  {
    PairsByIndex(steps, n, d);
    SerialIsInTurn(steps);
    ShiftedByOne(d.writes, n);
  }
}

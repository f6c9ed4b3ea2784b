/** The text handle_read_all builds with strcat in its json[8192] (userspace/api/handlers.c). */
module Reply {
  import opened Messages
  import opened Text
  import opened Handlers

  const JSON_SIZE := 8192
  const ENTRY_SIZE := 512
  const AUTHOR_MAX := 64
  const OPEN: Byte := 91
  const CLOSE: Byte := 93
  const COMMA: Byte := 44

  /** %lld */
  function SignedDecimal(n: int): seq<Byte> {
    if n < 0 then [45] + Decimal(-n) else Decimal(n)
  }

  /** The format of msg_to_json. */
  function EntryText(e: Entry): seq<Byte>
    requires e.len >= 0
  {
    Ascii("{\"author\":\"") + CString(e.author) +
    Ascii("\",\"timestamp\":") + SignedDecimal(e.timestamp) +
    Ascii(",\"data\":\"") + CString(e.data) +
    Ascii("\",\"len\":") + Decimal(e.len) + Ascii("}")
  }

  /** What snprintf leaves in entry[512]. */
  function Piece(e: Entry): seq<Byte>
    requires e.len >= 0
  {
    var text := EntryText(e);
    if |text| < ENTRY_SIZE then text else text[..ENTRY_SIZE - 1]
  }

  /** snprintf stores the text, or its first 511 characters when there are more. */
  lemma PieceIsCut(e: Entry)
    requires e.len >= 0
    ensures Piece(e) <= EntryText(e) && |Piece(e)| <= 511
    ensures |EntryText(e)| <= 511 ==> Piece(e) == EntryText(e)
    ensures |EntryText(e)| > 511 ==> |Piece(e)| == 511
  {
  }

  function Pieces(es: seq<Entry>): (ps: seq<seq<Byte>>)
    requires forall i | 0 <= i < |es| :: es[i].len >= 0
    ensures |ps| == |es|
  {
    seq(|es|, i requires 0 <= i < |es| => Piece(es[i]))
  }

  /** The pieces with commas between them. */
  function Joined(ps: seq<seq<Byte>>): seq<Byte> {
    if ps == [] then []
    else
      var last := |ps| - 1;
      Joined(ps[..last]) + (if last > 0 then [COMMA] else []) + ps[last]
  }

  function JsonArray(ps: seq<seq<Byte>>): seq<Byte> {
    [OPEN] + Joined(ps) + [CLOSE]
  }

  // ---- the buffer ---------------------------------------------------------------

  /** strcat after len characters; `fits` is false where it would write past the end of the buffer. */
  method Strcat(buf: array<Byte>, len: nat, s: seq<Byte>) returns (fits: bool)
    requires len < buf.Length
    modifies buf
    ensures fits <==> len + |s| < buf.Length
    ensures fits ==> buf[..len + |s|] == old(buf[..len]) + s
  {
    if len + |s| >= buf.Length {
      return false;
    }
    var i := 0;
    while i < |s|
      invariant 0 <= i <= |s|
      invariant buf[..len + i] == old(buf[..len]) + s[..i]
    {
      buf[len + i] := s[i];
      i := i + 1;
    }
    buf[len + |s|] := 0;
    return true;
  }

  lemma {:induction false} JoinedGrows(ps: seq<seq<Byte>>, i: nat)
    requires i <= |ps|
    ensures |Joined(ps[..i])| <= |Joined(ps)|
    decreases |ps| - i
  {
    if i < |ps| {
      JoinedNext(ps, i);
      JoinedGrows(ps, i + 1);
    } else {
      assert ps[..i] == ps;
    }
  }

  lemma JoinedNext(ps: seq<seq<Byte>>, i: nat)
    requires i < |ps|
    ensures Joined(ps[..i + 1]) == Joined(ps[..i]) + ((if i > 0 then [COMMA] else []) + ps[i])
  {
    assert ps[..i + 1][..i] == ps[..i];
  }

  /** The separator and one entry, as the loop appends them. */
  method AppendPiece(json: array<Byte>, len: nat, i: nat, piece: seq<Byte>) returns (fits: bool, end: nat)
    requires len < json.Length
    modifies json
    ensures var added := (if i > 0 then [COMMA] else []) + piece;
            && (fits <==> len + |added| < json.Length)
            && (fits ==> end == len + |added| && json[..end] == old(json[..len]) + added)
  {
    ghost var was := json[..len];
    end := len;
    if i > 0 {
      fits := Strcat(json, end, [COMMA]);
      if !fits {
        return;
      }
      end := end + 1;
    }
    fits := Strcat(json, end, piece);
    end := end + |piece|;
    assert (was + [COMMA]) + piece == was + ([COMMA] + piece);
    assert [] + piece == piece;
  }

  /**
   * The strcat calls of handle_read_all: they stay inside the buffer if and
   * only if the whole reply is shorter than it, and then leave that reply.
   */
  method Build(json: array<Byte>, ps: seq<seq<Byte>>) returns (fits: bool, len: nat)
    requires json.Length >= 2
    modifies json
    ensures fits <==> |JsonArray(ps)| < json.Length
    ensures fits ==> len == |JsonArray(ps)| && json[..len] == JsonArray(ps)
  {
    fits := Strcat(json, 0, [OPEN]);
    len := 1;
    var i := 0;
    while i < |ps|
      invariant 0 <= i <= |ps| && len < json.Length
      invariant json[..len] == [OPEN] + Joined(ps[..i])
    {
      JoinedGrows(ps, i + 1);
      JoinedNext(ps, i);
      ghost var joined := Joined(ps[..i]);
      fits, len := AppendPiece(json, len, i, ps[i]);
      if !fits {
        return;
      }
      i := i + 1;
    }
    assert ps[..i] == ps;
    fits := Strcat(json, len, [CLOSE]);
    len := len + 1;
  }

  // ---- when it fits --------------------------------------------------------------

  function TotalLength(ps: seq<seq<Byte>>): nat {
    if ps == [] then 0 else TotalLength(ps[..|ps| - 1]) + |ps[|ps| - 1]|
  }

  /** The reply is the entries, one character for each, and one or two more. */
  lemma {:induction false} ReplyLength(ps: seq<seq<Byte>>)
    ensures |JsonArray(ps)| == TotalLength(ps) + |ps| + if ps == [] then 2 else 1
  {
    if ps != [] {
      ReplyLength(ps[..|ps| - 1]);
    }
  }

  /** The lengths of the four printed fields decide the length of an entry. */
  lemma EntryLength(e: Entry)
    requires e.len >= 0
    ensures |EntryText(e)| == 43 + |CString(e.author)| + |SignedDecimal(e.timestamp)| + |CString(e.data)| + |Decimal(e.len)|
  {
  }

  /** What the server and the kernel guarantee of an entry: author[64] ends in NUL, a long long, fewer than 256 characters. */
  ghost predicate Bounded(e: Entry) {
    && |CString(e.author)| < AUTHOR_MAX && -0x8000_0000_0000_0000 <= e.timestamp < 0x8000_0000_0000_0000
    && 0 <= e.len < MSG_MAX_LEN && |e.data| == e.len
  }

  ghost predicate AllBounded(es: seq<Entry>) {
    forall i | 0 <= i < |es| :: Bounded(es[i]) && es[i].len >= 0
  }

  lemma {:induction false} CStringIsShorter(s: seq<Byte>)
    ensures |CString(s)| <= |s|
  {
  }

  /** entry[512] is large enough: snprintf never cuts. */
  lemma EntryNotCut(e: Entry)
    requires Bounded(e)
    ensures |EntryText(e)| <= 384 && Piece(e) == EntryText(e)
  {
    EntryLength(e);
    CStringIsShorter(e.data);
    Powers();
    DecimalLength(e.len, 3);
    DecimalLength(if e.timestamp < 0 then -e.timestamp else e.timestamp, 19);
  }

  lemma {:induction false} TotalBetween(ps: seq<seq<Byte>>, least: nat, most: nat)
    requires forall i | 0 <= i < |ps| :: least <= |ps[i]| <= most
    ensures least * |ps| <= TotalLength(ps) <= most * |ps|
  {
    if ps != [] {
      var n := |ps| - 1;
      TotalBetween(ps[..n], least, most);
      assert least * (n + 1) == least * n + least && most * (n + 1) == most * n + most;
    }
  }

  /** Twenty-one messages always fit, whatever they are. */
  lemma TwentyOneFit(es: seq<Entry>)
    requires |es| <= 21 && AllBounded(es)
    ensures |JsonArray(Pieces(es))| < JSON_SIZE
  {
    forall i | 0 <= i < |es|
      ensures |Pieces(es)[i]| <= 384
    {
      EntryNotCut(es[i]);
    }
    TotalBetween(Pieces(es), 0, 384);
    ReplyLength(Pieces(es));
  }

  /** A line of 255 characters from a dotted-quad sender, with a present-day timestamp. */
  ghost predicate LongLine(e: Entry) {
    e.len == 255 && 0 !in e.data && |CString(e.author)| >= 7 && e.timestamp >= 1000000000
  }

  lemma {:induction false} DecimalAtLeast(n: nat, k: nat)
    requires k >= 1 && n >= Power10(k - 1)
    ensures |Decimal(n)| >= k
  {
    if k > 1 {
      assert Power10(k - 1) == 10 * Power10(k - 2);
      DecimalAtLeast(n / 10, k - 1);
    }
  }

  lemma LongLineLength(e: Entry)
    requires Bounded(e) && LongLine(e)
    ensures |Piece(e)| >= 318
  {
    EntryNotCut(e);
    EntryLength(e);
    CStringOfText(e.data, []);
    assert e.data + [] == e.data;
    Powers();
    DecimalAtLeast(e.timestamp, 10);
    DecimalAtLeast(e.len, 3);
  }

  /** Twenty-six such lines overrun the buffer, and the inbox holds sixty-four. */
  lemma TwentySixLongLinesOverrun(es: seq<Entry>)
    requires 26 <= |es| <= FIFO_SIZE && AllBounded(es) && forall i | 0 <= i < |es| :: LongLine(es[i])
    ensures |JsonArray(Pieces(es))| >= JSON_SIZE
  {
    forall i | 0 <= i < |es|
      ensures 318 <= |Pieces(es)[i]| <= 384
    {
      EntryNotCut(es[i]);
      LongLineLength(es[i]);
    }
    TotalBetween(Pieces(es), 318, 384);
    ReplyLength(Pieces(es));
  }

  /** One such line: 255 letters from 10.0.0.1 in the year 2023, sent twenty-six times. */
  lemma OverrunExample() returns (es: seq<Entry>)
    ensures |es| == 26 && AllBounded(es) && |JsonArray(Pieces(es))| >= JSON_SIZE
  {
    var author := Ascii("10.0.0.1");
    CStringOfText(author, []);
    assert author + [] == author && CString([]) == [];
    var e := Entry(author, 1700000000, seq(255, _ => 97), 255);
    assert Bounded(e) && LongLine(e);
    es := seq(26, _ => e);
    TwentySixLongLinesOverrun(es);
  }

  // ---- what an entry says -----------------------------------------------------

  const AUTHOR_NAME: seq<Byte> := Ascii("{\"author\":\"")
  const TIME_NAME: seq<Byte> := Ascii("\",\"timestamp\":")
  const DATA_NAME: seq<Byte> := Ascii(",\"data\":\"")
  const LEN_NAME: seq<Byte> := Ascii("\",\"len\":")
  const END_MARK: seq<Byte> := Ascii("}")

  /** Each value stands behind its own name and before the next: author and data in quotes, clock and length as numbers. */
  lemma FieldsUnderTheirNames(e: Entry)
    requires e.len >= 0
    ensures var t := EntryText(e);
            var author, time, data := CString(e.author), SignedDecimal(e.timestamp), CString(e.data);
            && At(t, AUTHOR_NAME + author + TIME_NAME, 0)
            && At(t, TIME_NAME + time + DATA_NAME, |AUTHOR_NAME + author|)
            && At(t, DATA_NAME + data + LEN_NAME, |AUTHOR_NAME + author + TIME_NAME + time|)
            && At(t, LEN_NAME + Decimal(e.len) + END_MARK, |AUTHOR_NAME + author + TIME_NAME + time + DATA_NAME + data|)
            && |t| == |AUTHOR_NAME + author + TIME_NAME + time + DATA_NAME + data + LEN_NAME + Decimal(e.len) + END_MARK|
  {
    EntryParts(AUTHOR_NAME, CString(e.author), TIME_NAME, SignedDecimal(e.timestamp), DATA_NAME, CString(e.data),
               LEN_NAME, Decimal(e.len), END_MARK);
  }

  lemma EntryParts(n0: seq<Byte>, v0: seq<Byte>, n1: seq<Byte>, v1: seq<Byte>, n2: seq<Byte>, v2: seq<Byte>,
                   n3: seq<Byte>, v3: seq<Byte>, n4: seq<Byte>)
    ensures var t := n0 + v0 + n1 + v1 + n2 + v2 + n3 + v3 + n4;
            && At(t, n0 + v0 + n1, 0) && At(t, n1 + v1 + n2, |n0 + v0|)
            && At(t, n2 + v2 + n3, |n0 + v0 + n1 + v1|) && At(t, n3 + v3 + n4, |n0 + v0 + n1 + v1 + n2 + v2|)
  {
    var p1 := n0 + v0;
    var p2 := p1 + n1 + v1;
    var p3 := p2 + n2 + v2;
    Between([], n0, v0, n1);
    assert [] + n0 == n0;
    Between(p1, n1, v1, n2);
    Between(p2, n2, v2, n3);
    Between(p3, n3, v3, n4);
    StaysAt(p1 + n1, v1, n2, n0 + v0 + n1, 0);
    StaysAt(p2 + n2, v2, n3, n0 + v0 + n1, 0);
    StaysAt(p3 + n3, v3, n4, n0 + v0 + n1, 0);
    StaysAt(p2 + n2, v2, n3, n1 + v1 + n2, |p1|);
    StaysAt(p3 + n3, v3, n4, n1 + v1 + n2, |p1|);
    StaysAt(p3 + n3, v3, n4, n2 + v2 + n3, |p2|);
  }

  /** A value between two names stands where the text before it ends. */
  lemma Between(before: seq<Byte>, name: seq<Byte>, v: seq<Byte>, next: seq<Byte>)
    ensures At(before + name + v + next, name + v + next, |before|)
  {
    assert before + name + v + next == before + (name + v + next);
  }

  /** More text does not move what is there. */
  lemma StaysAt(s: seq<Byte>, v: seq<Byte>, n: seq<Byte>, x: seq<Byte>, i: int)
    requires At(s, x, i)
    ensures At(s + v + n, x, i)
  {
    assert (s + v + n)[i..i + |x|] == s[i..i + |x|];
  }

  /** Clock and length are printed so that they read back. */
  lemma NumbersReadBack(e: Entry)
    requires e.len >= 0
    ensures Digits(Decimal(e.len), 0) == e.len
    ensures e.timestamp >= 0 ==> Digits(SignedDecimal(e.timestamp), 0) == e.timestamp
    ensures e.timestamp < 0 ==> SignedDecimal(e.timestamp)[0] == 45 && Digits(SignedDecimal(e.timestamp)[1..], 0) == -e.timestamp
  {
    DigitsOfDecimal(e.len);
    DigitsOfDecimal(if e.timestamp < 0 then -e.timestamp else e.timestamp);
    assert e.timestamp < 0 ==> SignedDecimal(e.timestamp)[1..] == Decimal(-e.timestamp);
  }

  lemma ArraysOfTexts(a: seq<Byte>, b: seq<Byte>)
    ensures JsonArray([]) == Ascii("[]")
    ensures JsonArray([a]) == Ascii("[") + a + Ascii("]")
    ensures JsonArray([a, b]) == Ascii("[") + a + Ascii(",") + b + Ascii("]")
  {
    assert [a][..0] == [] && [a, b][..1] == [a];
    assert Joined([a]) == a;
    assert Joined([a, b]) == a + [COMMA] + b;
  }
}

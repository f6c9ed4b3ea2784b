/** The request does not depend on how the stream is cut into SSL_read results. */
module Chunking {
  import opened Messages
  import opened Text
  import opened Framing

  /** h is the header block of the stream: no NUL, no earlier blank line, and it fits the buffer. */
  ghost predicate HeaderBlock(h: seq<Byte>) {
    0 !in h && Find(h + BLANK_LINE, BLANK_LINE) == |h| && |h| + 4 <= HDRBUF - 1
  }

  lemma {:induction false} CStringGrows(a: seq<Byte>, b: seq<Byte>)
    ensures CString(a) <= CString(a + b)
  {
  }

  /** The first loop stops exactly when the whole header block is in the buffer, and sees it there. */
  lemma StopsAfterBlock(h: seq<Byte>, after: seq<Byte>, total: nat)
    requires HeaderBlock(h) && total <= |h + BLANK_LINE + after| && total <= HDRBUF - 1
    ensures StopPoint(h + BLANK_LINE + after, total) <==> |h| + 4 <= total
    ensures |h| + 4 <= total ==>
              && BodyStart(h + BLANK_LINE + after, total) == |h| + 4
              && h + BLANK_LINE <= CString((h + BLANK_LINE + after)[..total])
  {
    var block := h + BLANK_LINE;
    var stream := block + after;
    FindIsFirst(block, BLANK_LINE);
    if |h| + 4 <= total {
      var more := after[..total - |block|];
      assert stream[..total] == block + more;
      CStringOfText(block, more);
      FindExtends(block, CString(more), BLANK_LINE);
    } else {
      var text := CString(stream[..total]);
      FindIsFirst(text, BLANK_LINE);
      var r := Find(text, BLANK_LINE);
      assert stream[..total] == block[..total];
      if r >= 0 {
        assert text <= block[..total];
        assert r + 4 <= |text| && forall i | r <= i < r + 4 :: text[i] == block[i];
        assert text[r..r + 4] == block[r..r + 4];
        assert At(block, BLANK_LINE, r);
      }
    }
  }

  lemma MatchEndsInside(h: seq<Byte>, key: seq<Byte>, i: nat)
    requires key != [] && CR !in key && LF !in key && At(h + BLANK_LINE, key, i)
    ensures i + |key| <= |h| && CR in (h + BLANK_LINE)[i + |key|..]
  {
    var block := h + BLANK_LINE;
    var end := i + |key|;
    var last := block[end - 1];
    assert last == key[|key| - 1];
    assert block[end..][|h| - end] == block[|h|];
  }

  lemma KeyInsideBlock(h: seq<Byte>, key: seq<Byte>)
    requires key != [] && CR !in key && LF !in key && Find(h + BLANK_LINE, key) >= 0
    ensures Find(h + BLANK_LINE, key) + |key| <= |h|
    ensures CR in (h + BLANK_LINE)[Find(h + BLANK_LINE, key) + |key|..]
  {
    var block := h + BLANK_LINE;
    FindHits(block, key);
    MatchEndsInside(h, key, Find(block, key));
  }

  /** A header present in the block reads the same at every stop. */
  lemma FieldOfBlock(h: seq<Byte>, after: seq<Byte>, total: nat, key: seq<Byte>, outLen: nat)
    requires HeaderBlock(h) && |h| + 4 <= total <= |h + BLANK_LINE + after| && total <= HDRBUF - 1
    requires key != [] && CR !in key && LF !in key && outLen > 0 && Find(h + BLANK_LINE, key) >= 0
    ensures Field(CString((h + BLANK_LINE + after)[..total]), key, outLen) == Field(h + BLANK_LINE, key, outLen)
  {
    var block := h + BLANK_LINE;
    StopsAfterBlock(h, after, total);
    KeyInsideBlock(h, key);
    var text := CString((block + after)[..total]);
    assert text == block + text[|block|..];
    FieldExtends(block, text[|block|..], key, outLen);
  }

  lemma KeysAreOneLine()
    ensures SENDER_KEY != [] && CR !in SENDER_KEY && LF !in SENDER_KEY && 0 !in SENDER_KEY
    ensures CHATROOM_KEY != [] && CR !in CHATROOM_KEY && LF !in CHATROOM_KEY && 0 !in CHATROOM_KEY
    ensures LENGTH_KEY != [] && CR !in LENGTH_KEY && LF !in LENGTH_KEY && 0 !in LENGTH_KEY
  {
  }

  /** The block declares a body of n bytes. */
  ghost predicate Declares(h: seq<Byte>, n: nat) {
    Find(h + BLANK_LINE, LENGTH_KEY) >= 0 && Length(h + BLANK_LINE) == n
  }

  lemma BodySlice(block: seq<Byte>, body: seq<Byte>, rest: seq<Byte>)
    ensures (block + (body + rest))[|block|..|block| + |body|] == body
  {
  }

  /** Wherever the first loop stops, the request ends up with exactly the declared body. */
  lemma BodyIndependentOfStop(h: seq<Byte>, body: seq<Byte>, rest: seq<Byte>, total: nat)
    requires HeaderBlock(h) && body != [] && Declares(h, |body|)
    requires StopPoint(h + BLANK_LINE + (body + rest), total)
    ensures var r := Seen(h + BLANK_LINE + (body + rest), total);
            r.Received? && r.body == body
    ensures Find(h + BLANK_LINE, SENDER_KEY) >= 0 ==>
              Seen(h + BLANK_LINE + (body + rest), total).sender == Sender(h + BLANK_LINE)
    ensures Find(h + BLANK_LINE, CHATROOM_KEY) >= 0 ==>
              Seen(h + BLANK_LINE + (body + rest), total).chatroom == Chatroom(h + BLANK_LINE)
  {
    var after := body + rest;
    var stream := h + BLANK_LINE + after;
    StopsAfterBlock(h, after, total);
    KeysAreOneLine();
    FieldOfBlock(h, after, total, LENGTH_KEY, 16);
    if Find(h + BLANK_LINE, SENDER_KEY) >= 0 {
      FieldOfBlock(h, after, total, SENDER_KEY, 64);
    }
    if Find(h + BLANK_LINE, CHATROOM_KEY) >= 0 {
      FieldOfBlock(h, after, total, CHATROOM_KEY, 8);
    }
    BodySlice(h + BLANK_LINE, body, rest);
  }

  /** Every SSL_read delivers something until the stream is used up. */
  ghost predicate Plenty(stream: seq<Byte>, sizes: seq<nat>) {
    |sizes| >= |stream| && forall i | 0 <= i < |sizes| :: sizes[i] > 0
  }

  lemma MustBeReceived(h: seq<Byte>, body: seq<Byte>, rest: seq<Byte>, r: Outcome, total: nat, pos: nat)
    requires HeaderBlock(h) && body != [] && Declares(h, |body|)
    requires Explains(h + BLANK_LINE + (body + rest), total, pos, r)
    requires r.Closed? ==> pos == |h + BLANK_LINE + (body + rest)|
    ensures r.Received? && r.body == body
    ensures Find(h + BLANK_LINE, SENDER_KEY) >= 0 ==> r.sender == Sender(h + BLANK_LINE)
    ensures Find(h + BLANK_LINE, CHATROOM_KEY) >= 0 ==> r.chatroom == Chatroom(h + BLANK_LINE)
  {
    StopsAfterBlock(h, body + rest, total);
    if StopPoint(h + BLANK_LINE + (body + rest), total) {
      BodyIndependentOfStop(h, body, rest, total);
    }
  }

  /** The two loops, run on any cutting of h, blank line, body and whatever follows. */
  method ReadFramed(w: Wire, ghost h: seq<Byte>, ghost body: seq<Byte>, ghost rest: seq<Byte>) returns (r: Outcome)
    requires w.Valid() && w.pos == 0
    requires w.stream == h + BLANK_LINE + (body + rest) && Plenty(w.stream, w.sizes)
    requires HeaderBlock(h) && body != [] && Declares(h, |body|)
    modifies w
    ensures r.Received? && r.body == body
    ensures Find(h + BLANK_LINE, SENDER_KEY) >= 0 ==> r.sender == Sender(h + BLANK_LINE)
    ensures Find(h + BLANK_LINE, CHATROOM_KEY) >= 0 ==> r.chatroom == Chatroom(h + BLANK_LINE)
  {
    ghost var total;
    r, total := ReadRequest(w);
    MustBeReceived(h, body, rest, r, total, w.pos);
  }

  // ---- a header the block does not have ------------------------------

  function LatestStop(stream: seq<Byte>): nat {
    if |stream| <= HDRBUF - 1 then |stream| else HDRBUF - 1
  }

  /**
   * What parse_header answers is the same for every cutting if and only if the
   * key is in the header block, or is not in the buffer even when it is fullest:
   * it searches the body bytes that arrived early, too.
   */
  lemma FieldIndependentIff(h: seq<Byte>, after: seq<Byte>, key: seq<Byte>, outLen: nat)
    requires HeaderBlock(h) && key != [] && CR !in key && LF !in key && outLen > 0
    ensures var stream := h + BLANK_LINE + after;
            (forall t: nat, u: nat | StopPoint(stream, t) && StopPoint(stream, u) ::
               Field(CString(stream[..t]), key, outLen) == Field(CString(stream[..u]), key, outLen))
            <==> Find(h + BLANK_LINE, key) >= 0 || Find(CString(stream[..LatestStop(stream)]), key) < 0
  {
    var stream := h + BLANK_LINE + after;
    var first, latest := |h| + 4, LatestStop(stream);
    StopsAfterBlock(h, after, first);
    StopsAfterBlock(h, after, latest);
    FirstStopText(h, after);
    FieldNoneIff(h + BLANK_LINE, key, outLen);
    FieldNoneIff(CString(stream[..latest]), key, outLen);
    forall t: nat | StopPoint(stream, t)
      ensures Find(h + BLANK_LINE, key) >= 0 ==>
                Field(CString(stream[..t]), key, outLen) == Field(h + BLANK_LINE, key, outLen)
      ensures Find(CString(stream[..latest]), key) < 0 ==> Field(CString(stream[..t]), key, outLen) == None
    {
      StopsAfterBlock(h, after, t);
      if Find(h + BLANK_LINE, key) >= 0 {
        FieldOfBlock(h, after, t, key, outLen);
      }
      AbsentAtLatest(stream, t, latest, key);
      FieldNoneIff(CString(stream[..t]), key, outLen);
    }
  }

  lemma FirstStopText(h: seq<Byte>, after: seq<Byte>)
    requires 0 !in h
    ensures CString((h + BLANK_LINE + after)[..|h| + 4]) == h + BLANK_LINE
  {
  }

  lemma AbsentAtLatest(stream: seq<Byte>, t: nat, latest: nat, key: seq<Byte>)
    requires t <= latest <= |stream|
    ensures Find(CString(stream[..latest]), key) < 0 ==> Find(CString(stream[..t]), key) < 0
  {
    assert stream[..latest] == stream[..t] + stream[t..latest];
    CStringGrows(stream[..t], stream[t..latest]);
    var text, full := CString(stream[..t]), CString(stream[..latest]);
    if Find(text, key) >= 0 {
      assert full == text + full[|text|..];
      FindExtends(text, full[|text|..], key);
    }
  }

  lemma FieldNoneIff(text: seq<Byte>, key: seq<Byte>, outLen: nat)
    requires outLen > 0
    ensures Field(text, key, outLen) == None <==> Find(text, key) < 0
  {
  }

  /** A concrete stream whose sender header is read, or not, depending on the cutting. */
  lemma SenderDependsOnCutting() returns (stream: seq<Byte>)
    ensures StopPoint(stream, 4) && StopPoint(stream, |stream|)
    ensures Field(CString(stream[..4]), SENDER_KEY, 64) == None
    ensures Field(CString(stream[..|stream|]), SENDER_KEY, 64) != None
  {
    KeysAreOneLine();
    stream := [] + BLANK_LINE + SENDER_KEY;
    assert stream == BLANK_LINE + SENDER_KEY && |stream| == 16;
    assert stream[..4] == BLANK_LINE && stream[..|stream|] == stream;
    CStringOfText(BLANK_LINE, []);
    CStringOfText(BLANK_LINE + SENDER_KEY, []);
    assert BLANK_LINE + [] == BLANK_LINE && stream + [] == stream;
    assert At(BLANK_LINE, BLANK_LINE, 0) && At(stream, BLANK_LINE, 0) && At(stream, SENDER_KEY, 4);
    FindIsFirst(BLANK_LINE, SENDER_KEY);
    FindIsFirst(stream, SENDER_KEY);
    FieldNoneIff(BLANK_LINE, SENDER_KEY, 64);
    FieldNoneIff(stream, SENDER_KEY, 64);
  }
}

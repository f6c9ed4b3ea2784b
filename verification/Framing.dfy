/** server_handle_connection's request reader: two read loops and parse_header. */
module Framing {
  import opened Messages
  import opened Text

  const HDRBUF: nat := 2048
  const BLANK_LINE: seq<Byte> := [CR, LF, CR, LF]

  const SENDER_KEY: seq<Byte> := Ascii("X-Sender-IP:")
  const CHATROOM_KEY: seq<Byte> := Ascii("X-Chatroom:")
  const LENGTH_KEY: seq<Byte> := Ascii("Content-Length:")

  // ---- parse_header -----------------------------------------------------------

  function SkipSpaces(s: seq<Byte>): seq<Byte> {
    if s != [] && s[0] == SPACE then SkipSpaces(s[1..]) else s
  }

  /** The bytes up to the end of the line, at most `most` of them. */
  function Value(s: seq<Byte>, most: nat): (v: seq<Byte>)
    ensures |v| <= most && v <= s
  {
    if s == [] || s[0] == CR || s[0] == LF || most == 0 then [] else [s[0]] + Value(s[1..], most - 1)
  }

  /** parse_header on a C string: what it copies to an `out` of outLen bytes, if it returns 1. */
  function Field(text: seq<Byte>, key: seq<Byte>, outLen: nat): Option<seq<Byte>>
    requires outLen > 0
  {
    var i := Find(text, key);
    if 0 <= i && i + |key| <= |text| then Some(Value(SkipSpaces(text[i + |key|..]), outLen - 1)) else None
  }

  lemma {:induction false} ValueIs(s: seq<Byte>, most: nat, k: nat)
    requires k <= |s| && k <= most && forall j | 0 <= j < k :: s[j] != CR && s[j] != LF
    requires k == |s| || k == most || s[k] == CR || s[k] == LF
    ensures Value(s, most) == s[..k]
  {
    if k > 0 {
      ValueIs(s[1..], most - 1, k - 1);
      assert s[..k] == [s[0]] + s[1..][..k - 1];
    }
  }

  /** A header line's value, when the line ends before the text does. */
  lemma {:induction false} ValueStops(v: seq<Byte>, rest: seq<Byte>, most: nat)
    requires |v| <= most && CR !in v && LF !in v && rest != [] && (rest[0] == CR || rest[0] == LF)
    ensures Value(v + rest, most) == v
  {
    if v == [] {
      assert v + rest == rest;
    } else {
      assert (v + rest)[1..] == v[1..] + rest;
      ValueStops(v[1..], rest, most - 1);
    }
  }

  /** Text after a complete line does not change what is read from it. */
  lemma {:induction false} ValueExtends(s: seq<Byte>, more: seq<Byte>, most: nat)
    requires CR in s
    ensures Value(s + more, most) == Value(s, most)
  {
    if s[0] != CR && s[0] != LF && most > 0 {
      assert (s + more)[1..] == s[1..] + more;
      ValueExtends(s[1..], more, most - 1);
    }
  }

  lemma {:induction false} SpacesExtend(s: seq<Byte>, more: seq<Byte>)
    requires CR in s
    ensures SkipSpaces(s + more) == SkipSpaces(s) + more && CR in SkipSpaces(s)
  {
    if s[0] == SPACE {
      assert (s + more)[1..] == s[1..] + more;
      SpacesExtend(s[1..], more);
    }
  }

  /** Where the key is first found decides what is read. */
  lemma {:induction false} FieldFound(text: seq<Byte>, key: seq<Byte>, outLen: nat)
    requires outLen > 0
    ensures Field(text, key, outLen).Some? <==> Find(text, key) >= 0
    ensures var i := Find(text, key);
            i >= 0 ==> i + |key| <= |text| && Field(text, key, outLen) == Some(Value(SkipSpaces(text[i + |key|..]), outLen - 1))
  {
    FindIsFirst(text, key);
  }

  lemma {:induction false} FieldsAgree(a: seq<Byte>, b: seq<Byte>, key: seq<Byte>, outLen: nat)
    requires outLen > 0 && Find(a, key) == Find(b, key) >= 0
    requires Find(a, key) + |key| <= |a| && Find(b, key) + |key| <= |b|
    requires Value(SkipSpaces(a[Find(a, key) + |key|..]), outLen - 1) == Value(SkipSpaces(b[Find(b, key) + |key|..]), outLen - 1)
    ensures Field(a, key, outLen) == Field(b, key, outLen) != None
  {
    FieldFound(a, key, outLen);
    FieldFound(b, key, outLen);
  }

  lemma {:induction false} RestExtends(block: seq<Byte>, more: seq<Byte>, j: nat, most: nat)
    requires j <= |block| && CR in block[j..]
    ensures Value(SkipSpaces((block + more)[j..]), most) == Value(SkipSpaces(block[j..]), most)
  {
    assert (block + more)[j..] == block[j..] + more;
    SpacesExtend(block[j..], more);
    ValueExtends(SkipSpaces(block[j..]), more, most);
  }

  /** A header found before the end of the header block reads the same whatever follows. */
  lemma {:induction false} FieldExtends(block: seq<Byte>, more: seq<Byte>, key: seq<Byte>, outLen: nat)
    requires outLen > 0 && Find(block, key) >= 0
    requires Find(block, key) + |key| <= |block| && CR in block[Find(block, key) + |key|..]
    ensures Field(block + more, key, outLen) == Field(block, key, outLen) != None
  {
    FindExtends(block, more, key);
    RestExtends(block, more, Find(block, key) + |key|, outLen - 1);
    FieldsAgree(block, block + more, key, outLen);
  }

  lemma FieldHasNoNul(text: seq<Byte>, key: seq<Byte>, outLen: nat)
    requires outLen > 0 && Field(text, key, outLen).Some?
    ensures 0 !in text ==> 0 !in Field(text, key, outLen).value
  {
    var rest := text[Find(text, key) + |key|..];
    SkipIsSuffix(rest);
    var kept := SkipSpaces(rest);
    assert forall b | b in kept :: b in rest;
  }

  lemma {:induction false} SkipIsSuffix(s: seq<Byte>)
    ensures |SkipSpaces(s)| <= |s| && SkipSpaces(s) == s[|s| - |SkipSpaces(s)|..]
  {
    if s != [] && s[0] == SPACE {
      SkipIsSuffix(s[1..]);
    }
  }

  // ---- what the handler makes of a buffer --------------------------------

  /** Closed without an answer, 400, or a request handed on to the device. */
  datatype Outcome = Closed | BadRequest | Received(sender: seq<Byte>, chatroom: bool, body: seq<Byte>)

  function Sender(text: seq<Byte>): seq<Byte> {
    match Field(text, SENDER_KEY, 64) case Some(v) => v case None => Ascii("unknown")
  }

  function Chatroom(text: seq<Byte>): bool {
    Atoi(match Field(text, CHATROOM_KEY, 8) case Some(v) => v case None => [48]) != 0
  }

  function Length(text: seq<Byte>): int {
    Atoi(match Field(text, LENGTH_KEY, 16) case Some(v) => v case None => [48])
  }

  /** The first loop can stop with the first `total` bytes of the stream in hdrbuf. */
  predicate StopPoint(stream: seq<Byte>, total: nat) {
    total <= |stream| && total <= HDRBUF - 1 && Find(CString(stream[..total]), BLANK_LINE) >= 0
  }

  /** Where the body starts, for a given end of the first loop. */
  function BodyStart(stream: seq<Byte>, total: nat): int
    requires total <= |stream|
  {
    Find(CString(stream[..total]), BLANK_LINE) + 4
  }

  lemma BodyStartsInside(stream: seq<Byte>, total: nat)
    requires StopPoint(stream, total)
    ensures 4 <= BodyStart(stream, total) <= total
  {
    FindHits(CString(stream[..total]), BLANK_LINE);
  }

  /** The request a handler that stopped at `total` ends up with, given the whole stream. */
  function Seen(stream: seq<Byte>, total: nat): Outcome
    requires StopPoint(stream, total)
  {
    var text := CString(stream[..total]);
    var from := BodyStart(stream, total);
    if Length(text) <= 0 then BadRequest
    else if from + Length(text) > |stream| then Closed
    else Received(Sender(text), Chatroom(text), stream[from..from + Length(text)])
  }

  // ---- the loops ---------------------------------------------------------------

  /** A TLS stream cut into pieces: `sizes` is what successive SSL_read calls can deliver at most. */
  class Wire {
    const stream: seq<Byte>
    const sizes: seq<nat>
    var pos: nat
    var turn: nat

    ghost predicate Valid()
      reads this
    {
      turn <= pos <= |stream| && turn <= |sizes|
    }

    /** The next SSL_read returns n <= 0. */
    predicate Dry()
      reads this
    {
      pos >= |stream| || turn >= |sizes| || sizes[turn] == 0
    }

    constructor (stream: seq<Byte>, sizes: seq<nat>)
      ensures Valid() && this.stream == stream && this.sizes == sizes && pos == 0 && turn == 0
    {
      this.stream, this.sizes := stream, sizes;
      pos, turn := 0, 0;
    }

    /** SSL_read(ssl, buf + off, want). */
    method Read(buf: array<Byte>, off: nat, want: nat) returns (n: nat)
      requires Valid() && off + want <= buf.Length && want > 0
      modifies this, buf
      ensures Valid() && n <= want && pos == old(pos) + n <= |stream|
      ensures n == 0 <==> old(Dry())
      ensures n == 0 ==> turn == old(turn)
      ensures buf[..off] == old(buf[..off])
      ensures buf[off..off + n] == stream[old(pos)..old(pos) + n]
    {
      if pos >= |stream| || turn >= |sizes| || sizes[turn] == 0 {
        return 0;
      }
      n := sizes[turn];
      if n > want { n := want; }
      if n > |stream| - pos { n := |stream| - pos; }
      forall i | 0 <= i < n {
        buf[off + i] := stream[pos + i];
      }
      assert forall k | off <= k < off + n :: buf[k] == stream[k - off + pos];
      pos, turn := pos + n, turn + 1;
    }
  }

  /** The copying loop of parse_header. */
  method CopyLine(text: seq<Byte>, start: nat, out: array<Byte>) returns (i: nat)
    requires out.Length > 0 && start <= |text|
    modifies out
    ensures i < out.Length && out[..i] == Value(text[start..], out.Length - 1) && out[i] == 0
  {
    var p := start;
    i := 0;
    while p < |text| && text[p] != CR && text[p] != LF && i < out.Length - 1
      invariant start <= p <= |text| && i == p - start < out.Length
      invariant forall j | 0 <= j < i :: out[j] == text[start..][j] && text[start..][j] != CR && text[start..][j] != LF
    {
      out[i] := text[p];
      p, i := p + 1, i + 1;
    }
    out[i] := 0;
    ValueIs(text[start..], out.Length - 1, i);
  }

  /** parse_header: find the key, step over spaces, copy to the end of the line. */
  method ParseHeader(text: seq<Byte>, key: seq<Byte>, out: array<Byte>) returns (found: bool)
    requires out.Length > 0
    modifies out
    ensures found <==> Field(text, key, out.Length).Some?
    ensures found ==> var v := Field(text, key, out.Length).value;
                      |v| < out.Length && out[..|v|] == v && out[|v|] == 0
    ensures !found ==> out[..] == old(out[..])
  {
    var at := Find(text, key);
    FieldFound(text, key, out.Length);
    if at < 0 {
      return false;
    }
    var p := at + |key|;
    while p < |text| && text[p] == SPACE
      invariant at + |key| <= p <= |text|
      invariant SkipSpaces(text[p..]) == SkipSpaces(text[at + |key|..])
    {
      assert text[p..][1..] == text[p + 1..];
      p := p + 1;
    }
    assert SkipSpaces(text[p..]) == text[p..];
    assert Field(text, key, out.Length).value == Value(text[p..], out.Length - 1);
    var n := CopyLine(text, p, out);
    assert n == |Field(text, key, out.Length).value|;
    return true;
  }

  /** The text of a header's buffer, or its initial text when the header is absent. */
  method HeaderOr(text: seq<Byte>, key: seq<Byte>, size: nat, initial: seq<Byte>) returns (v: seq<Byte>)
    requires size > 0 && 0 !in text
    ensures v == match Field(text, key, size) case Some(f) => f case None => initial
  {
    var out := new Byte[size](_ => 0);
    var found := ParseHeader(text, key, out);
    if !found {
      return initial;
    }
    var n := 0;
    ghost var f := Field(text, key, size).value;
    FieldHasNoNul(text, key, size);
    while n < size - 1 && out[n] != 0
      invariant 0 <= n <= |f| < size
    {
      assert out[..|f|] == f;
      n := n + 1;
    }
    v := out[..n];
  }

  /** The three parse_header calls and the conversions of their results. */
  method ParseAll(text: seq<Byte>) returns (sender: seq<Byte>, chatroom: bool, msgLen: int)
    requires 0 !in text
    ensures sender == Sender(text) && chatroom == Chatroom(text) && msgLen == Length(text)
  {
    sender := HeaderOr(text, SENDER_KEY, 64, Ascii("unknown"));
    var chatroomText := HeaderOr(text, CHATROOM_KEY, 8, [48]);
    var lengthText := HeaderOr(text, LENGTH_KEY, 16, [48]);
    chatroom := Atoi(chatroomText) != 0;
    msgLen := Atoi(lengthText);
  }

  /** The loop that reads until the blank line is in hdrbuf or the buffer is full. */
  method FillHeader(w: Wire, hdrbuf: array<Byte>) returns (open: bool, got: nat)
    requires w.Valid() && w.pos == 0 && hdrbuf.Length == HDRBUF
    modifies w, hdrbuf
    ensures w.Valid() && got == w.pos <= HDRBUF - 1
    ensures hdrbuf[..got] == w.stream[..got]
    ensures open ==> StopPoint(w.stream, got) || got == HDRBUF - 1
    ensures !open ==> w.Dry() && !StopPoint(w.stream, got)
  {
    got := 0;
    var blank := -1;
    FindIsFirst(CString(w.stream[..0]), BLANK_LINE);
    while got < HDRBUF - 1 && blank < 0
      invariant w.Valid() && got == w.pos <= HDRBUF - 1
      invariant hdrbuf[..got] == w.stream[..got]
      invariant blank >= 0 <==> Find(CString(w.stream[..got]), BLANK_LINE) >= 0
      decreases HDRBUF - got
    {
      var n := w.Read(hdrbuf, got, HDRBUF - 1 - got);
      if n == 0 {
        return false, got;
      }
      assert hdrbuf[..got + n] == hdrbuf[..got] + hdrbuf[got..got + n];
      assert w.stream[..got + n] == w.stream[..got] + w.stream[got..got + n];
      got := got + n;
      hdrbuf[got] := 0;
      assert hdrbuf[..got] == w.stream[..got];
      blank := Find(CString(hdrbuf[..got]), BLANK_LINE);
    }
    open := true;
  }

  /** The loop that reads the body bytes still missing. */
  method ReadRest(w: Wire, body: array<Byte>, have: nat, ghost from: nat) returns (open: bool)
    requires w.Valid() && have <= body.Length && w.pos == from + have
    requires body[..have] == w.stream[from..from + have]
    modifies w, body
    ensures w.Valid()
    ensures open ==> from + body.Length <= |w.stream| && body[..] == w.stream[from..from + body.Length]
    ensures !open ==> w.Dry() && w.pos < from + body.Length
  {
    var bodyRead := have;
    while bodyRead < body.Length
      invariant w.Valid() && bodyRead <= body.Length && w.pos == from + bodyRead
      invariant body[..bodyRead] == w.stream[from..from + bodyRead]
    {
      var n := w.Read(body, bodyRead, body.Length - bodyRead);
      if n == 0 {
        return false;
      }
      assert body[..bodyRead + n] == body[..bodyRead] + body[bodyRead..bodyRead + n];
      assert w.stream[from..from + bodyRead + n]
          == w.stream[from..from + bodyRead] + w.stream[from + bodyRead..from + bodyRead + n];
      bodyRead := bodyRead + n;
    }
    assert body[..] == body[..bodyRead];
    open := true;
  }

  /** The body: what came with the headers, then the rest of it. */
  method FillBody(w: Wire, hdrbuf: array<Byte>, got: nat, from: nat, msgLen: nat)
    returns (open: bool, body: array<Byte>)
    requires w.Valid() && from <= got == w.pos <= hdrbuf.Length && hdrbuf[..got] == w.stream[..got]
    requires msgLen > 0
    modifies w
    ensures w.Valid() && fresh(body)
    ensures open ==> from + msgLen <= |w.stream| && body[..] == w.stream[from..from + msgLen]
    ensures !open ==> w.Dry() && w.pos < from + msgLen
  {
    body := new Byte[msgLen](_ => 0);
    var inHeader := got - from;
    var copied := if inHeader < msgLen then inHeader else msgLen;
    var early := hdrbuf[..got][from..from + copied];
    assert early == w.stream[from..from + copied];
    forall i | 0 <= i < copied {
      body[i] := early[i];
    }
    assert body[..copied] == early;
    if inHeader >= msgLen {
      assert body[..] == body[..copied];
      return true, body;
    }
    open := ReadRest(w, body, inHeader, from);
  }

  /** What the handler may end with, `pos` bytes having been read and the first loop having stopped at `total`. */
  ghost predicate Explains(stream: seq<Byte>, total: nat, pos: nat, r: Outcome) {
    total <= |stream| && total <= HDRBUF - 1 &&
    if StopPoint(stream, total) then
      var text := CString(stream[..total]);
      match r
      case Received(_, _, _) => r == Seen(stream, total)
      case BadRequest => r == Seen(stream, total)
      case Closed => 0 < Length(text) && pos < BodyStart(stream, total) + Length(text)
    else
      match r
      case Received(_, _, _) => false
      case BadRequest => total == HDRBUF - 1
      case Closed => pos == total
  }

  lemma ExplainsReceived(stream: seq<Byte>, total: nat, pos: nat, text: seq<Byte>, n: int, body: seq<Byte>)
    requires StopPoint(stream, total) && text == CString(stream[..total]) && n == Length(text) && n > 0
    requires BodyStart(stream, total) + n <= |stream|
    requires body == stream[BodyStart(stream, total)..BodyStart(stream, total) + n]
    ensures Explains(stream, total, pos, Received(Sender(text), Chatroom(text), body))
  {
  }

  lemma ExplainsRefusal(stream: seq<Byte>, total: nat, pos: nat, text: seq<Byte>)
    requires total <= |stream| && total <= HDRBUF - 1 && text == CString(stream[..total])
    requires if StopPoint(stream, total) then Length(text) <= 0 else total == HDRBUF - 1
    ensures Explains(stream, total, pos, BadRequest)
  {
  }

  lemma ExplainsClosed(stream: seq<Byte>, total: nat, pos: nat)
    requires total <= |stream| && total <= HDRBUF - 1
    requires if StopPoint(stream, total)
             then 0 < Length(CString(stream[..total]))
                  && pos < BodyStart(stream, total) + Length(CString(stream[..total]))
             else pos == total
    ensures Explains(stream, total, pos, Closed)
  {
  }

  /**
   * The reading part of server_handle_connection, for any cutting of the stream.
   * `total` is where the first loop stopped.
   */
  method ReadRequest(w: Wire) returns (r: Outcome, ghost total: nat)
    requires w.Valid() && w.pos == 0
    modifies w
    ensures w.Valid() && Explains(w.stream, total, w.pos, r)
    ensures r.Closed? ==> w.Dry()
  {
    var hdrbuf := new Byte[HDRBUF](_ => 0);
    var open, got := FillHeader(w, hdrbuf);
    total := got;
    if !open {
      ExplainsClosed(w.stream, total, w.pos);
      return Closed, total;
    }
    var text := CString(hdrbuf[..got]);
    var sender, chatroom, msgLen := ParseAll(text);
    var blank := Find(text, BLANK_LINE);
    if blank < 0 || msgLen <= 0 {
      ExplainsRefusal(w.stream, total, w.pos, text);
      return BadRequest, total;
    }
    BodyStartsInside(w.stream, got);
    var whole, body := FillBody(w, hdrbuf, got, blank + 4, msgLen);
    if !whole {
      ExplainsClosed(w.stream, total, w.pos);
      return Closed, total;
    }
    ExplainsReceived(w.stream, total, w.pos, text, msgLen, body[..]);
    r := Received(sender, chatroom, body[..]);
  }

  // ---- what a header line means ----------------------------------------------

  lemma {:induction false} SpacesSkipped(spaces: seq<Byte>, text: seq<Byte>)
    requires (forall i | 0 <= i < |spaces| :: spaces[i] == 32) && (text == [] || text[0] != 32)
    ensures SkipSpaces(spaces + text) == text
  {
    if spaces == [] {
      assert spaces + text == text;
    } else {
      assert (spaces + text)[1..] == spaces[1..] + text;
      SpacesSkipped(spaces[1..], text);
    }
  }

  /**
   * After the first place of the key: any number of spaces, then the value up to
   * the end of the line or of the text, or as much of it as fits the output.
   */
  lemma {:induction false} FieldMeans(front: seq<Byte>, key: seq<Byte>, spaces: seq<Byte>, v: seq<Byte>, rest: seq<Byte>, outLen: nat)
    requires Find(front + key + (spaces + (v + rest)), key) == |front|
    requires (forall i | 0 <= i < |spaces| :: spaces[i] == 32) && (v + rest == [] || (v + rest)[0] != 32)
    requires CR !in v && LF !in v && |v| < outLen
    requires rest == [] || rest[0] == CR || rest[0] == LF || |v| == outLen - 1
    ensures Field(front + key + (spaces + (v + rest)), key, outLen) == Some(v)
  {
    var text := front + key + (spaces + (v + rest));
    assert text[|front| + |key|..] == spaces + (v + rest);
    SpacesSkipped(spaces, v + rest);
    ValueIs(v + rest, outLen - 1, |v|);
    assert (v + rest)[..|v|] == v;
  }

  /** An absent header leaves the initial value, and an absent or non-positive length is a bad request. */
  lemma AbsentHeaders(text: seq<Byte>)
    ensures Find(text, SENDER_KEY) < 0 ==> Sender(text) == Ascii("unknown")
    ensures Find(text, CHATROOM_KEY) < 0 ==> !Chatroom(text)
    ensures Find(text, LENGTH_KEY) < 0 ==> Length(text) == 0
  {
    assert Digits([48], 0) == Digits([48][1..], 0) == 0;
    assert Atoi([48]) == 0;
  }

  lemma BadLengthIsBadRequest(stream: seq<Byte>, total: nat)
    requires StopPoint(stream, total)
    ensures Find(CString(stream[..total]), LENGTH_KEY) < 0 ==> Seen(stream, total) == BadRequest
    ensures Seen(stream, total) == BadRequest <==> Length(CString(stream[..total])) <= 0
  {
    AbsentHeaders(CString(stream[..total]));
  }
}

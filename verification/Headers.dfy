/** The header block client_send_message prints, read back by the server. */
module Headers {
  import opened Messages
  import opened Text
  import opened Framing
  import opened Chunking

  /** A dotted quad, as inet_ntop prints one and inet_pton accepts one. */
  predicate Quad(s: seq<Byte>) {
    1 <= |s| <= 15 && forall i | 0 <= i < |s| :: IsDigit(s[i]) || s[i] == 46
  }

  const REQUEST_LINE: seq<Byte> := Ascii("POST /message") + Ascii(" HTTP/1.1")
  const HOST_LINE: seq<Byte> := Ascii("\r\nHost: ")
  const TYPE_KEY: seq<Byte> := Ascii("Content-Type:")
  const TYPE_VALUE: seq<Byte> := Ascii(" application/") + Ascii("octet-stream")
  const TYPE_LINE: seq<Byte> := TYPE_KEY + TYPE_VALUE
  const NEW_LINE: seq<Byte> := Ascii("\r\n")
  const ONE_SPACE: seq<Byte> := Ascii(" ")

  /** One header line after the first two: line end, key, space, value. */
  function HeaderLine(key: seq<Byte>, value: seq<Byte>): seq<Byte> {
    NEW_LINE + (key + (ONE_SPACE + value))
  }

  /** The printed headers without the final blank line. */
  function Block(host: seq<Byte>, length: nat, chatroom: nat, sender: seq<Byte>): seq<Byte> {
    REQUEST_LINE + ((HOST_LINE + host) + ((NEW_LINE + TYPE_LINE) +
      (HeaderLine(LENGTH_KEY, Decimal(length)) +
        (HeaderLine(CHATROOM_KEY, Decimal(chatroom)) + HeaderLine(SENDER_KEY, sender)))))
  }

  /** snprintf(headers, 512, ...): at most 511 bytes are stored. */
  function Snprintf(size: nat, s: seq<Byte>): seq<Byte>
    requires size > 0
  {
    if |s| < size then s else s[..size - 1]
  }

  function Printed(host: seq<Byte>, length: nat, chatroom: nat, sender: seq<Byte>): seq<Byte> {
    Snprintf(512, Block(host, length, chatroom, sender) + BLANK_LINE)
  }

  // ---- sizes and characters ----------------------------------------------

  lemma BlockIsShort(host: seq<Byte>, length: nat, chatroom: nat, sender: seq<Byte>)
    requires Quad(host) && Quad(sender) && length < 0x8000_0000 && chatroom <= 1
    ensures |Block(host, length, chatroom, sender)| + 4 < 512
    ensures Printed(host, length, chatroom, sender) == Block(host, length, chatroom, sender) + BLANK_LINE
    ensures |Decimal(length)| <= 10 && |Decimal(chatroom)| == 1
  {
    assert Power10(10) == 10_000_000_000 by { Powers(); }
    DecimalLength(length, 10);
  }

  /** Bytes of numbers and addresses: never a line end, a space, a NUL or a letter. */
  predicate Plain(s: seq<Byte>) {
    forall i | 0 <= i < |s| :: 46 <= s[i] <= 57
  }

  lemma RequestLineBytes()
    ensures CR !in REQUEST_LINE && 0 !in REQUEST_LINE && 88 !in REQUEST_LINE && 67 !in REQUEST_LINE
  {
  }

  lemma HostLineBytes()
    ensures HOST_LINE[0] == CR && HOST_LINE[1] == LF && HOST_LINE[2] == 72 && CR !in HOST_LINE[1..]
    ensures 0 !in HOST_LINE && 88 !in HOST_LINE && 67 !in HOST_LINE
  {
  }

  lemma TypeLineBytes()
    ensures CR !in TYPE_LINE && 0 !in TYPE_LINE && 88 !in TYPE_LINE
    ensures TYPE_LINE[0] == 67 && TYPE_LINE[8] == 84 && 67 !in TYPE_LINE[1..]
  {
    TypeKeyBytes();
    TypeValueBytes();
    assert TYPE_LINE[1..] == TYPE_KEY[1..] + TYPE_VALUE;
  }

  lemma TypeKeyBytes()
    ensures CR !in TYPE_KEY && 0 !in TYPE_KEY && 88 !in TYPE_KEY
    ensures |TYPE_KEY| == 13 && TYPE_KEY[0] == 67 && TYPE_KEY[8] == 84 && 67 !in TYPE_KEY[1..]
  {
  }

  lemma TypeValueBytes()
    ensures CR !in TYPE_VALUE && 0 !in TYPE_VALUE && 88 !in TYPE_VALUE && 67 !in TYPE_VALUE
  {
  }

  lemma KeyBytes()
    ensures NEW_LINE == [CR, LF] && ONE_SPACE == [SPACE]
    ensures LENGTH_KEY[0] == 67 && LENGTH_KEY[8] == 76 && 88 !in LENGTH_KEY
    ensures CHATROOM_KEY[0] == 88 && CHATROOM_KEY[2] == 67 && 88 !in CHATROOM_KEY[1..]
    ensures SENDER_KEY[0] == 88 && SENDER_KEY[2] == 83
  {
  }

  // ---- where each search stops ---------------------------------------------

  /** The block and its blank line, cut before each header line. */
  function FromSender(sender: seq<Byte>): seq<Byte> { HeaderLine(SENDER_KEY, sender) + BLANK_LINE }

  function FromChatroom(chatroom: nat, sender: seq<Byte>): seq<Byte> {
    HeaderLine(CHATROOM_KEY, Decimal(chatroom)) + FromSender(sender)
  }

  function FromLength(length: nat, chatroom: nat, sender: seq<Byte>): seq<Byte> {
    HeaderLine(LENGTH_KEY, Decimal(length)) + FromChatroom(chatroom, sender)
  }

  function FromType(length: nat, chatroom: nat, sender: seq<Byte>): seq<Byte> {
    (NEW_LINE + TYPE_LINE) + FromLength(length, chatroom, sender)
  }

  function FromHost(host: seq<Byte>, length: nat, chatroom: nat, sender: seq<Byte>): seq<Byte> {
    (HOST_LINE + host) + FromType(length, chatroom, sender)
  }

  lemma BlockFromLines(host: seq<Byte>, length: nat, chatroom: nat, sender: seq<Byte>)
    ensures Block(host, length, chatroom, sender) + BLANK_LINE
            == REQUEST_LINE + FromHost(host, length, chatroom, sender)
  {
  }

  /** A header line is no place for the blank line to start. */
  lemma LineIsNotBlank(key: seq<Byte>, value: seq<Byte>, rest: seq<Byte>)
    requires CR !in key && CR !in value && key != [] && Find(rest, BLANK_LINE) >= 0
    ensures Find(HeaderLine(key, value) + rest, BLANK_LINE) == |HeaderLine(key, value)| + Find(rest, BLANK_LINE)
  {
    KeyBytes();
    var line := HeaderLine(key, value);
    assert line[2] == key[0] && key[0] in key;
    assert line[1..] == [LF] + (key + (ONE_SPACE + value));
    FindSkipsMiss(line, rest, BLANK_LINE, 2);
  }

  lemma BlankAfterLength(length: nat, chatroom: nat, sender: seq<Byte>)
    requires Plain(sender)
    ensures Find(FromLength(length, chatroom, sender), BLANK_LINE) == |FromLength(length, chatroom, sender)| - 4
  {
    KeysAreOneLine();
    assert At(BLANK_LINE, BLANK_LINE, 0);
    LineIsNotBlank(SENDER_KEY, sender, BLANK_LINE);
    LineIsNotBlank(CHATROOM_KEY, Decimal(chatroom), FromSender(sender));
    LineIsNotBlank(LENGTH_KEY, Decimal(length), FromChatroom(chatroom, sender));
  }

  lemma BlankLineEndsBlock(host: seq<Byte>, length: nat, chatroom: nat, sender: seq<Byte>)
    requires Plain(host) && Plain(sender)
    ensures Find(Block(host, length, chatroom, sender) + BLANK_LINE, BLANK_LINE)
            == |Block(host, length, chatroom, sender)|
  {
    BlockFromLines(host, length, chatroom, sender);
    BlankAfterLength(length, chatroom, sender);
    TypeLineBytes();
    KeyBytes();
    var l2 := NEW_LINE + TYPE_LINE;
    assert l2[1..] == [LF] + TYPE_LINE;
    FindSkipsMiss(l2, FromLength(length, chatroom, sender), BLANK_LINE, 2);
    HostLineBytes();
    var l1 := HOST_LINE + host;
    assert l1[1..] == HOST_LINE[1..] + host;
    FindSkipsMiss(l1, FromType(length, chatroom, sender), BLANK_LINE, 2);
    RequestLineBytes();
    FindSkips(REQUEST_LINE, FromHost(host, length, chatroom, sender), BLANK_LINE);
  }

  /** A search that starts like this header's key skips the line end and stops at it. */
  lemma LineMatches(key: seq<Byte>, value: seq<Byte>, rest: seq<Byte>)
    requires key != [] && key[0] != CR && key[0] != LF
    ensures Find(HeaderLine(key, value) + rest, key) == 2
  {
    KeyBytes();
    var tail := key + (ONE_SPACE + value) + rest;
    assert HeaderLine(key, value) + rest == NEW_LINE + tail;
    assert At(tail, key, 0);
    FindSkips(NEW_LINE, tail, key);
  }

  lemma LengthKeyFound(host: seq<Byte>, length: nat, chatroom: nat, sender: seq<Byte>)
    requires Plain(host)
    ensures Find(REQUEST_LINE + FromHost(host, length, chatroom, sender), LENGTH_KEY)
            == |REQUEST_LINE + (HOST_LINE + host) + (NEW_LINE + TYPE_LINE)| + 2
  {
    KeysAreOneLine();
    KeyBytes();
    TypeLineBytes();
    var t3 := FromLength(length, chatroom, sender);
    LineMatches(LENGTH_KEY, Decimal(length), FromChatroom(chatroom, sender));
    FindSkipsMiss(TYPE_LINE, t3, LENGTH_KEY, 8);
    FindSkips(NEW_LINE, TYPE_LINE + t3, LENGTH_KEY);
    assert NEW_LINE + (TYPE_LINE + t3) == (NEW_LINE + TYPE_LINE) + t3;
    HostLineBytes();
    FindSkips(HOST_LINE + host, FromType(length, chatroom, sender), LENGTH_KEY);
    RequestLineBytes();
    FindSkips(REQUEST_LINE, FromHost(host, length, chatroom, sender), LENGTH_KEY);
  }

  /** No byte X before the chatroom line. */
  lemma NoXBeforeChatroom(host: seq<Byte>, length: nat, chatroom: nat, sender: seq<Byte>, key: seq<Byte>)
    requires Plain(host) && key != [] && key[0] == 88 && Find(FromChatroom(chatroom, sender), key) >= 0
    ensures Find(REQUEST_LINE + FromHost(host, length, chatroom, sender), key)
            == |REQUEST_LINE + (HOST_LINE + host) + (NEW_LINE + TYPE_LINE) + HeaderLine(LENGTH_KEY, Decimal(length))|
               + Find(FromChatroom(chatroom, sender), key)
  {
    KeyBytes();
    TypeLineBytes();
    FindSkips(HeaderLine(LENGTH_KEY, Decimal(length)), FromChatroom(chatroom, sender), key);
    FindSkips(NEW_LINE + TYPE_LINE, FromLength(length, chatroom, sender), key);
    HostLineBytes();
    FindSkips(HOST_LINE + host, FromType(length, chatroom, sender), key);
    RequestLineBytes();
    FindSkips(REQUEST_LINE, FromHost(host, length, chatroom, sender), key);
  }

  lemma SenderAfterChatroom(chatroom: nat, sender: seq<Byte>)
    ensures Find(FromChatroom(chatroom, sender), SENDER_KEY) == |HeaderLine(CHATROOM_KEY, Decimal(chatroom))| + 2
  {
    KeysAreOneLine();
    KeyBytes();
    LineMatches(SENDER_KEY, sender, BLANK_LINE);
    var text := CHATROOM_KEY + (ONE_SPACE + Decimal(chatroom));
    assert text[1..] == CHATROOM_KEY[1..] + (ONE_SPACE + Decimal(chatroom));
    FindSkipsMiss(text, FromSender(sender), SENDER_KEY, 2);
    FindSkips(NEW_LINE, text + FromSender(sender), SENDER_KEY);
    Regroup(NEW_LINE, text, FromSender(sender));
  }

  // ---- what is read there -----------------------------------------------------

  lemma Regroup(a: seq<Byte>, b: seq<Byte>, c: seq<Byte>)
    ensures (a + b) + c == a + (b + c)
  {
  }

  lemma LineCut(before: seq<Byte>, key: seq<Byte>, value: seq<Byte>, rest: seq<Byte>)
    ensures before + (HeaderLine(key, value) + rest) == (before + NEW_LINE + key) + (ONE_SPACE + (value + rest))
  {
  }

  /** parse_header stops at the key and copies the value after the space. */
  lemma FieldRead(text: seq<Byte>, front: seq<Byte>, key: seq<Byte>, value: seq<Byte>, rest: seq<Byte>, outLen: nat)
    requires text == front + (ONE_SPACE + (value + rest)) && Find(text, key) == |front| - |key| >= 0
    requires Plain(value) && 0 < |value| < outLen && rest != [] && rest[0] == CR
    ensures Field(text, key, outLen) == Some(value)
  {
    FieldAt(front, ONE_SPACE + (value + rest), key, outLen);
    SpacesThenValue(value, rest, outLen - 1);
  }

  lemma FieldAt(front: seq<Byte>, back: seq<Byte>, key: seq<Byte>, outLen: nat)
    requires outLen > 0 && Find(front + back, key) == |front| - |key| >= 0
    ensures Field(front + back, key, outLen) == Some(Value(SkipSpaces(back), outLen - 1))
  {
  }

  lemma SpacesThenValue(value: seq<Byte>, rest: seq<Byte>, most: nat)
    requires Plain(value) && 0 < |value| <= most && rest != [] && rest[0] == CR
    ensures Value(SkipSpaces(ONE_SPACE + (value + rest)), most) == value
  {
    KeyBytes();
    assert (ONE_SPACE + (value + rest))[1..] == value + rest;
    assert (value + rest)[0] == value[0];
    ValueStops(value, rest, most);
  }

  /** The printed text, cut before each of the last three lines. */
  lemma PrintedCuts(host: seq<Byte>, length: nat, chatroom: nat, sender: seq<Byte>)
    returns (b3: seq<Byte>, b4: seq<Byte>, b5: seq<Byte>)
    ensures b3 == REQUEST_LINE + (HOST_LINE + host) + (NEW_LINE + TYPE_LINE)
    ensures b4 == b3 + HeaderLine(LENGTH_KEY, Decimal(length))
    ensures b5 == b4 + HeaderLine(CHATROOM_KEY, Decimal(chatroom))
    ensures var text := Block(host, length, chatroom, sender) + BLANK_LINE;
            && text == REQUEST_LINE + FromHost(host, length, chatroom, sender)
            && text == b3 + FromLength(length, chatroom, sender)
            && text == b4 + FromChatroom(chatroom, sender)
            && text == b5 + FromSender(sender)
  {
    BlockFromLines(host, length, chatroom, sender);
    var l4 := HeaderLine(CHATROOM_KEY, Decimal(chatroom));
    var l1, l2, l3 := HOST_LINE + host, NEW_LINE + TYPE_LINE, HeaderLine(LENGTH_KEY, Decimal(length));
    b3 := REQUEST_LINE + l1 + l2;
    b4 := b3 + l3;
    b5 := b4 + l4;
    Regroup(REQUEST_LINE, l1, l2 + FromLength(length, chatroom, sender));
    Regroup(REQUEST_LINE + l1, l2, FromLength(length, chatroom, sender));
    Regroup(b3, l3, FromChatroom(chatroom, sender));
    Regroup(b4, l4, FromSender(sender));
  }

  lemma PrintedLength(host: seq<Byte>, length: nat, chatroom: nat, sender: seq<Byte>)
    requires Quad(host) && Quad(sender) && length < 0x8000_0000 && chatroom <= 1
    ensures Field(Block(host, length, chatroom, sender) + BLANK_LINE, LENGTH_KEY, 16) == Some(Decimal(length))
  {
    BlockIsShort(host, length, chatroom, sender);
    var b3, b4, b5 := PrintedCuts(host, length, chatroom, sender);
    LengthKeyFound(host, length, chatroom, sender);
    KeyBytes();
    LineCut(b3, LENGTH_KEY, Decimal(length), FromChatroom(chatroom, sender));
    var text := Block(host, length, chatroom, sender) + BLANK_LINE;
    FieldRead(text, b3 + NEW_LINE + LENGTH_KEY, LENGTH_KEY, Decimal(length), FromChatroom(chatroom, sender), 16);
  }

  lemma PrintedChatroom(host: seq<Byte>, length: nat, chatroom: nat, sender: seq<Byte>)
    requires Quad(host) && Quad(sender) && length < 0x8000_0000 && chatroom <= 1
    ensures Field(Block(host, length, chatroom, sender) + BLANK_LINE, CHATROOM_KEY, 8) == Some(Decimal(chatroom))
  {
    var b3, b4, b5 := PrintedCuts(host, length, chatroom, sender);
    KeysAreOneLine();
    KeyBytes();
    LineMatches(CHATROOM_KEY, Decimal(chatroom), FromSender(sender));
    NoXBeforeChatroom(host, length, chatroom, sender, CHATROOM_KEY);
    LineCut(b4, CHATROOM_KEY, Decimal(chatroom), FromSender(sender));
    var text := Block(host, length, chatroom, sender) + BLANK_LINE;
    FieldRead(text, b4 + NEW_LINE + CHATROOM_KEY, CHATROOM_KEY, Decimal(chatroom), FromSender(sender), 8);
  }

  lemma PrintedSender(host: seq<Byte>, length: nat, chatroom: nat, sender: seq<Byte>)
    requires Quad(host) && Quad(sender) && length < 0x8000_0000 && chatroom <= 1
    ensures Field(Block(host, length, chatroom, sender) + BLANK_LINE, SENDER_KEY, 64) == Some(sender)
  {
    var b3, b4, b5 := PrintedCuts(host, length, chatroom, sender);
    KeysAreOneLine();
    KeyBytes();
    SenderAfterChatroom(chatroom, sender);
    NoXBeforeChatroom(host, length, chatroom, sender, SENDER_KEY);
    LineCut(b5, SENDER_KEY, sender, BLANK_LINE);
    var text := Block(host, length, chatroom, sender) + BLANK_LINE;
    FieldRead(text, b5 + NEW_LINE + SENDER_KEY, SENDER_KEY, sender, BLANK_LINE, 64);
  }

  lemma BlockHasNoNul(host: seq<Byte>, length: nat, chatroom: nat, sender: seq<Byte>)
    requires Plain(host) && Plain(sender)
    ensures 0 !in Block(host, length, chatroom, sender)
  {
    RequestLineBytes();
    HostLineBytes();
    TypeLineBytes();
    KeysAreOneLine();
    KeyBytes();
    LineHasNoNul(LENGTH_KEY, Decimal(length));
    LineHasNoNul(CHATROOM_KEY, Decimal(chatroom));
    LineHasNoNul(SENDER_KEY, sender);
  }

  lemma LineHasNoNul(key: seq<Byte>, value: seq<Byte>)
    requires 0 !in key && 0 !in value
    ensures 0 !in HeaderLine(key, value)
  {
  }

  /** The server reads back what the client printed: length, flag and sender. */
  lemma HeaderRoundTrip(host: seq<Byte>, length: nat, chatroom: nat, sender: seq<Byte>)
    requires Quad(host) && Quad(sender) && length < 0x8000_0000 && chatroom <= 1
    ensures var h := Block(host, length, chatroom, sender);
            && Printed(host, length, chatroom, sender) == h + BLANK_LINE
            && HeaderBlock(h) && Declares(h, length)
            && Find(h + BLANK_LINE, CHATROOM_KEY) >= 0 && Chatroom(h + BLANK_LINE) == (chatroom == 1)
            && Find(h + BLANK_LINE, SENDER_KEY) >= 0 && Sender(h + BLANK_LINE) == sender
  {
    BlockIsShort(host, length, chatroom, sender);
    BlockHasNoNul(host, length, chatroom, sender);
    BlankLineEndsBlock(host, length, chatroom, sender);
    PrintedLength(host, length, chatroom, sender);
    PrintedChatroom(host, length, chatroom, sender);
    PrintedSender(host, length, chatroom, sender);
    FieldNoneIff(Block(host, length, chatroom, sender) + BLANK_LINE, LENGTH_KEY, 16);
    FieldNoneIff(Block(host, length, chatroom, sender) + BLANK_LINE, CHATROOM_KEY, 8);
    FieldNoneIff(Block(host, length, chatroom, sender) + BLANK_LINE, SENDER_KEY, 64);
    AtoiOfDecimal(length);
    AtoiOfDecimal(chatroom);
  }

  /** A message sent by the client reaches the handler whole, for every cutting of the stream. */
  method SendAndRead(w: Wire, ghost host: seq<Byte>, ghost sender: seq<Byte>, ghost chatroom: nat,
                     ghost body: seq<Byte>, ghost rest: seq<Byte>)
    returns (r: Outcome)
    requires Quad(host) && Quad(sender) && chatroom <= 1 && 0 < |body| < 0x8000_0000
    requires w.Valid() && w.pos == 0 && Plenty(w.stream, w.sizes)
    requires w.stream == Printed(host, |body|, chatroom, sender) + (body + rest)
    modifies w
    ensures r == Received(sender, chatroom == 1, body)
  {
    HeaderRoundTrip(host, |body|, chatroom, sender);
    r := ReadFramed(w, Block(host, |body|, chatroom, sender), body, rest);
  }

  /** The printed text, line by line as the format string has it. */
  lemma {:induction false} BlockText(host: seq<Byte>, length: nat, chatroom: nat, sender: seq<Byte>)
    ensures Block(host, length, chatroom, sender) ==
            REQUEST_LINE + HOST_LINE + host + (NEW_LINE + TYPE_LINE)
            + HeaderLine(Ascii("Content-Length:"), Decimal(length))
            + HeaderLine(Ascii("X-Chatroom:"), Decimal(chatroom)) + HeaderLine(Ascii("X-Sender-IP:"), sender)
  {
    Flat(REQUEST_LINE, HOST_LINE, host, NEW_LINE + TYPE_LINE, HeaderLine(LENGTH_KEY, Decimal(length)),
         HeaderLine(CHATROOM_KEY, Decimal(chatroom)), HeaderLine(SENDER_KEY, sender));
  }

  lemma Flat(a: seq<Byte>, b: seq<Byte>, c: seq<Byte>, d: seq<Byte>, e: seq<Byte>, f: seq<Byte>, g: seq<Byte>)
    ensures a + ((b + c) + (d + (e + (f + g)))) == a + b + c + d + e + f + g
  {
  }

  /** A header line starts on a new line and has one space between its key and its value. */
  lemma LineText(key: string, value: seq<Byte>)
    requires forall i | 0 <= i < |key| :: key[i] as int < 256
    ensures HeaderLine(Ascii(key), value) == Ascii("\r\n" + key + " ") + value
  {
    KeyBytes();
    assert Ascii("\r\n" + key + " ") == NEW_LINE + Ascii(key) + ONE_SPACE;
  }
}

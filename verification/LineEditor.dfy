/** kernel/input_intercept.c: the key handler, against a plain line editor. */
module LineEditor {
  import opened Messages
  import Cipher
  import TypingStack

  const EV_KEY := 1
  const KEY_BACKSPACE := 14
  const KEY_ENTER := 28

  /**
   * One call of input_event_handler. The clock, the MAC address and whether
   * fifo_write was interrupted are the outside's choice.
   */
  datatype Event = Event(kind: int, code: nat, value: int, timestamp: int, author: seq<Byte>, written: bool)

  const DIGITS: seq<Byte> := [49, 50, 51, 52, 53, 54, 55, 56, 57, 48]
  const UPPER_ROW: seq<Byte> := [113, 119, 101, 114, 116, 121, 117, 105, 111, 112]
  const HOME_ROW: seq<Byte> := [97, 115, 100, 102, 103, 104, 106, 107, 108]
  const LOWER_ROW: seq<Byte> := [122, 120, 99, 118, 98, 110, 109]

  /** keycode_to_ascii; 0 for a key without a character. */
  function KeyToAscii(code: nat): Byte {
    if 2 <= code <= 11 then DIGITS[code - 2]
    else if code == 12 then 45
    else if 16 <= code <= 25 then UPPER_ROW[code - 16]
    else if code == KEY_ENTER then 10
    else if 30 <= code <= 38 then HOME_ROW[code - 30]
    else if 44 <= code <= 50 then LOWER_ROW[code - 44]
    else if code == 51 then 44
    else if code == 52 then 46
    else if code == 57 then 32
    else 0
  }

  // ---- the reference: a line editor on plain text ----------------------

  datatype Line = Line(timestamp: int, author: seq<Byte>, text: seq<Byte>)

  datatype Draft = Draft(line: seq<Byte>, sent: seq<Line>)

  function Type(d: Draft, e: Event): Draft {
    if e.kind != EV_KEY || e.value != 1 then d
    else if e.code == KEY_BACKSPACE then
      if d.line == [] then d else d.(line := d.line[..|d.line| - 1])
    else if e.code == KEY_ENTER then
      Draft([], d.sent + if e.written then [Line(e.timestamp, e.author, d.line)] else [])
    else if KeyToAscii(e.code) == 0 || |d.line| >= MSG_MAX_LEN then d
    else d.(line := d.line + [KeyToAscii(e.code)])
  }

  function TypeAll(d: Draft, es: seq<Event>): Draft {
    if es == [] then d else Type(TypeAll(d, es[..|es| - 1]), es[|es| - 1])
  }

  /** The message a line becomes: its text turned, zeros up to 256. */
  function Seal(l: Line): Message {
    Message(l.timestamp, l.author, Cipher.Turned(l.text) + Zeros(MSG_MAX_LEN - |l.text|), |l.text|)
  }

  function Zeros(n: int): (z: seq<Byte>)
    ensures |z| == if n < 0 then 0 else n
  {
    seq(if n < 0 then 0 else n, _ => 0)
  }

  function SealAll(ls: seq<Line>): (ms: seq<Message>)
    ensures |ms| == |ls|
  {
    seq(|ls|, i requires 0 <= i < |ls| => Seal(ls[i]))
  }

  // ---- the handler's state, stale bytes included ----------------------

  datatype Keyboard = Keyboard(data: seq<Byte>, top: int, outbox: seq<Message>)

  ghost predicate Sound(k: Keyboard) {
    |k.data| == MSG_MAX_LEN && 0 <= k.top <= MSG_MAX_LEN
  }

  /** input_event_handler as a function of the stack array, top and the outbox. */
  function Handle(k: Keyboard, e: Event): (r: Keyboard)
    requires |k.data| == MSG_MAX_LEN && 0 <= k.top <= MSG_MAX_LEN
    ensures |r.data| == MSG_MAX_LEN && 0 <= r.top <= MSG_MAX_LEN
  {
    if e.kind != EV_KEY || e.value != 1 then k
    else if e.code == KEY_BACKSPACE then
      if k.top == 0 then k else k.(top := k.top - 1)
    else if e.code == KEY_ENTER then
      var msg := Message(e.timestamp, e.author, k.data[..k.top] + Zeros(MSG_MAX_LEN - k.top), k.top);
      k.(top := 0, outbox := k.outbox + if e.written then [msg] else [])
    else if e.code >= 256 || KeyToAscii(e.code) == 0 || k.top >= MSG_MAX_LEN then k
    else k.(data := k.data[k.top := Cipher.Rot13(KeyToAscii(e.code))], top := k.top + 1)
  }

  ghost function HandleAll(k: Keyboard, es: seq<Event>): (r: Keyboard)
    requires Sound(k)
    ensures Sound(r)
  {
    if es == [] then k else Handle(HandleAll(k, es[..|es| - 1]), es[|es| - 1])
  }

  // ---- simulation ------------------------------------------------------------

  /** The stack is the line turned; the outbox has grown by the sealed lines. */
  ghost predicate Shows(k: Keyboard, d: Draft, earlier: seq<Message>) {
    && Sound(k) && k.top == |d.line|
    && k.data[..k.top] == Cipher.Turned(d.line)
    && k.outbox == earlier + SealAll(d.sent)
  }

  lemma HandleShows(k: Keyboard, d: Draft, earlier: seq<Message>, e: Event)
    requires Shows(k, d, earlier)
    ensures Shows(Handle(k, e), Type(d, e), earlier)
  {
    var k', d' := Handle(k, e), Type(d, e);
    assert k'.data[..k'.top] == Cipher.Turned(d'.line);
    if d'.sent != d.sent {
      var l := Line(e.timestamp, e.author, d.line);
      assert k'.outbox == k.outbox + [Seal(l)];
      assert SealAll(d'.sent) == SealAll(d.sent) + [Seal(l)];
    }
  }

  /** For every event sequence and whatever stale bytes the stack array holds. */
  lemma {:induction false} EditorSimulation(k: Keyboard, es: seq<Event>)
    requires Sound(k) && k.top == 0
    ensures Shows(HandleAll(k, es), TypeAll(Draft([], []), es), k.outbox)
  {
    if es == [] {
      assert SealAll([]) == [];
      assert k.data[..0] == Cipher.Turned([]);
    } else {
      EditorSimulation(k, es[..|es| - 1]);
      HandleShows(HandleAll(k, es[..|es| - 1]), TypeAll(Draft([], []), es[..|es| - 1]), k.outbox, es[|es| - 1]);
    }
  }

  /** No line is ever longer than a message can hold. */
  lemma {:induction false} LinesFit(es: seq<Event>)
    ensures |TypeAll(Draft([], []), es).line| <= MSG_MAX_LEN
    ensures forall i | 0 <= i < |TypeAll(Draft([], []), es).sent| ::
              |TypeAll(Draft([], []), es).sent[i].text| <= MSG_MAX_LEN
  {
    if es != [] {
      LinesFit(es[..|es| - 1]);
    }
  }

  /**
   * A committed message is a function of the keys of its own line: two handlers
   * with an empty line but different histories commit the same messages, each
   * with 0 <= len <= 256 and only zeros from len on.
   */
  lemma CommitsIgnoreHistory(k1: Keyboard, k2: Keyboard, es: seq<Event>) returns (committed: seq<Message>)
    requires Sound(k1) && Sound(k2) && k1.top == 0 && k2.top == 0
    ensures HandleAll(k1, es).outbox == k1.outbox + committed
    ensures HandleAll(k2, es).outbox == k2.outbox + committed
    ensures forall i | 0 <= i < |committed| ::
              && WellFormed(committed[i])
              && committed[i].data[committed[i].len..] == Zeros(MSG_MAX_LEN - committed[i].len)
  {
    EditorSimulation(k1, es);
    EditorSimulation(k2, es);
    LinesFit(es);
    var sent := TypeAll(Draft([], []), es).sent;
    committed := SealAll(sent);
    forall i | 0 <= i < |committed|
      ensures WellFormed(committed[i])
      ensures committed[i].data[committed[i].len..] == Zeros(MSG_MAX_LEN - committed[i].len)
    {
      assert committed[i] == Seal(sent[i]);
    }
  }

  /** Decrypting a sealed line the way keycipher_in_read does gives the text back. */
  lemma SealOpens(l: Line)
    requires |l.text| <= MSG_MAX_LEN
    ensures WellFormed(Seal(l))
    ensures Cipher.Rotated(Seal(l).data, Seal(l).len)[..Seal(l).len] == l.text
  {
    var z := Zeros(MSG_MAX_LEN - |l.text|);
    Cipher.RotatedSplits(Cipher.Turned(l.text), z);
    Cipher.RotatedTwice(l.text, |l.text|);
  }

  // ---- the handler in place ----------------------------------------------

  class Handler {
    const current: TypingStack.Stack
    var outbox: seq<Message>

    ghost predicate Valid()
      reads this, current
    {
      current.Valid()
    }

    ghost function View(): (k: Keyboard)
      reads this, current, current.data
      requires Valid()
      ensures Sound(k)
    {
      Keyboard(current.data[..], current.top, outbox)
    }

    constructor ()
      ensures Valid() && fresh(current) && fresh(current.data)
      ensures View() == Keyboard(Zeros(MSG_MAX_LEN), 0, [])
    {
      current := new TypingStack.Stack();
      outbox := [];
    }

    /** input_event_handler. */
    method OnEvent(e: Event)
      requires Valid()
      modifies this, current`top, current.data
      ensures Valid() && current.data == old(current.data)
      ensures View() == Handle(old(View()), e)
    {
      if e.kind != EV_KEY || e.value != 1 {
        return;
      }
      if e.code == KEY_BACKSPACE {
        var _, _ := current.Pop();
        return;
      }
      if e.code == KEY_ENTER {
        var len := current.Size();
        var msg := Message(e.timestamp, e.author, current.data[..len] + Zeros(MSG_MAX_LEN - len), len);
        if e.written {
          outbox := outbox + [msg];
        }
        current.Clear();
        return;
      }
      if e.code >= 256 {
        return;
      }
      var ch := KeyToAscii(e.code);
      if ch == 0 {
        return;
      }
      var cell := new Byte[1](_ => ch);
      Cipher.Encrypt(cell, 1);
      assert cell[..] == Cipher.Rotated([ch], 1);
      var _ := current.Push(cell[0]);
    }
  }

  // ---- what the keys and the bytes mean -------------------------------------

  /** The key codes of the Linux input headers for the characters the table maps. */
  const KEYMAP: map<nat, char> := map[
    30 := 'a', 48 := 'b', 46 := 'c', 32 := 'd', 18 := 'e', 33 := 'f', 34 := 'g', 35 := 'h', 23 := 'i',
    36 := 'j', 37 := 'k', 38 := 'l', 50 := 'm', 49 := 'n', 24 := 'o', 25 := 'p', 16 := 'q', 19 := 'r',
    31 := 's', 20 := 't', 22 := 'u', 47 := 'v', 17 := 'w', 45 := 'x', 21 := 'y', 44 := 'z',
    11 := '0', 2 := '1', 3 := '2', 4 := '3', 5 := '4', 6 := '5', 7 := '6', 8 := '7', 9 := '8', 10 := '9',
    57 := ' ', 28 := '\n', 52 := '.', 51 := ',', 12 := '-']

  lemma DigitRow(code: nat)
    requires 2 <= code <= 11
    ensures code in KEYMAP && KeyToAscii(code) as char == KEYMAP[code] && KeyToAscii(code) != 0
  {
    var row := "1234567890";
    assert KeyToAscii(code) as char == row[code - 2];
    assert KEYMAP[code] == row[code - 2];
  }

  lemma UpperRow(code: nat)
    requires 16 <= code <= 25
    ensures code in KEYMAP && KeyToAscii(code) as char == KEYMAP[code] && KeyToAscii(code) != 0
  {
    var row := "qwertyuiop";
    assert KeyToAscii(code) as char == row[code - 16];
    assert KEYMAP[code] == row[code - 16];
  }

  lemma HomeRow(code: nat)
    requires 30 <= code <= 38
    ensures code in KEYMAP && KeyToAscii(code) as char == KEYMAP[code] && KeyToAscii(code) != 0
  {
    var row := "asdfghjkl";
    assert KeyToAscii(code) as char == row[code - 30];
    assert KEYMAP[code] == row[code - 30];
  }

  lemma LowerRow(code: nat)
    requires 44 <= code <= 50
    ensures code in KEYMAP && KeyToAscii(code) as char == KEYMAP[code] && KeyToAscii(code) != 0
  {
    var row := "zxcvbnm";
    assert KeyToAscii(code) as char == row[code - 44];
    assert KEYMAP[code] == row[code - 44];
  }

  /** The rows of the keyboard hold the characters of the source's table, and every other code none. */
  lemma KeysAreMapped(code: nat)
    ensures KeyToAscii(code) as char == if code in KEYMAP then KEYMAP[code] else 0 as char
    ensures KeyToAscii(code) != 0 <==> code in KEYMAP
  {
    if 2 <= code <= 11 {
      DigitRow(code);
    } else if 16 <= code <= 25 {
      UpperRow(code);
    } else if 30 <= code <= 38 {
      HomeRow(code);
    } else if 44 <= code <= 50 {
      LowerRow(code);
    }
  }

  /** What each key does to a line, by the numbers of the input headers. */
  lemma KeyEffects(d: Draft, e: Event)
    ensures e.kind != 1 || e.value != 1 ==> Type(d, e) == d
    ensures e.code !in KEYMAP && e.code != 14 ==> Type(d, e) == d
    ensures e.code == 14 && d.line == [] ==> Type(d, e) == d
    ensures e.code != 28 && e.code != 14 && |d.line| >= 256 ==> Type(d, e) == d
    ensures e.kind == 1 && e.value == 1 && e.code == 14 && d.line != [] ==>
              Type(d, e).sent == d.sent && d.line == Type(d, e).line + [d.line[|d.line| - 1]]
  {
    KeysAreMapped(e.code);
  }

  /** What a mapped key does to a line with room: its character is appended. */
  lemma CharacterAppends(d: Draft, e: Event)
    requires e.kind == 1 && e.value == 1 && e.code != 28 && e.code in KEYMAP && |d.line| < 256
    ensures var line := Type(d, e).line;
            && Type(d, e).sent == d.sent && |line| == |d.line| + 1 && line[..|d.line|] == d.line
            && line[|d.line|] as char == KEYMAP[e.code]
  {
    KeysAreMapped(e.code);
    KeysAreMapped(14);
    assert KeyToAscii(14) == 0;
    assert Type(d, e) == d.(line := d.line + [KeyToAscii(e.code)]);
  }

  /** What Enter does: the line is sent with its clock and author, unless its write was interrupted, and a new one begins. */
  lemma EnterSends(d: Draft, e: Event)
    ensures e.kind == 1 && e.value == 1 && e.code == 28 ==>
              Type(d, e).line == [] && (!e.written ==> Type(d, e).sent == d.sent)
    ensures e.kind == 1 && e.value == 1 && e.code == 28 && e.written ==>
              |Type(d, e).sent| == |d.sent| + 1 && Type(d, e).sent[..|d.sent|] == d.sent
              && var l := Type(d, e).sent[|d.sent|];
                 l.timestamp == e.timestamp && l.author == e.author && l.text == d.line
  {
  }

  /** A message is what became of a line: its clock and author, each byte turned, zeros behind. */
  ghost predicate Encrypts(l: Line, m: Message) {
    && m.timestamp == l.timestamp && m.author == l.author
    && m.len == |l.text| <= |m.data| == 256
    && (forall i | 0 <= i < |l.text| :: Cipher.HalfTurn(l.text[i], m.data[i]))
    && (forall i | |l.text| <= i < 256 :: m.data[i] == 0)
  }

  lemma SealEncrypts(l: Line)
    requires |l.text| <= MSG_MAX_LEN
    ensures Encrypts(l, Seal(l))
  {
    Cipher.RotatedTurns(l.text, |l.text|);
  }

  /** For every event sequence: the stack holds the line turned, and every committed message encrypts its line. */
  lemma CommittedEncrypts(k: Keyboard, es: seq<Event>)
    requires Sound(k) && k.top == 0
    ensures var r, d := HandleAll(k, es), TypeAll(Draft([], []), es);
            && r.top == |d.line| <= |r.data| && (forall i | 0 <= i < |d.line| :: Cipher.HalfTurn(d.line[i], r.data[i]))
            && |r.outbox| == |k.outbox| + |d.sent| && k.outbox <= r.outbox
            && (forall n | 0 <= n < |d.sent| :: Encrypts(d.sent[n], r.outbox[|k.outbox| + n]))
  {
    EditorSimulation(k, es);
    LinesFit(es);
    var r, d := HandleAll(k, es), TypeAll(Draft([], []), es);
    Cipher.RotatedTurns(d.line, |d.line|);
    assert forall i | 0 <= i < |d.line| :: r.data[i] == r.data[..r.top][i];
    forall n | 0 <= n < |d.sent|
      ensures Encrypts(d.sent[n], r.outbox[|k.outbox| + n])
    {
      SealEncrypts(d.sent[n]);
    }
  }
}

/** userspace/api/handlers.c on top of keycipher_in_read: one message, or all that were counted. */
module Handlers {
  import opened Messages
  import Cipher
  import F = FifoBuffer
  import M = InboxMirror
  import L = LineEditor

  /** The message as keycipher_in_read hands it to userspace. */
  function Opened(m: Message): Message {
    m.(data := Cipher.Rotated(m.data, m.len))
  }

  /** One JSON object of the reply. */
  datatype Entry = Entry(author: seq<Byte>, timestamp: int, data: seq<Byte>, len: int)

  /** msg_to_json: a length of 256 is outside its 0 < len < 256 test. */
  function ToEntry(m: Message): Entry
    requires WellFormed(m)
  {
    var dlen := if m.len > 0 && m.len < 256 then m.len else 0;
    Entry(m.author, m.timestamp, m.data[..dlen], dlen)
  }

  /** What a reader of the API gets for a line: the whole line, unless it has all 256 characters. */
  lemma EmittedWholeIff(l: L.Line)
    requires |l.text| <= MSG_MAX_LEN
    ensures WellFormed(L.Seal(l)) && WellFormed(Opened(L.Seal(l)))
    ensures var e := ToEntry(Opened(L.Seal(l)));
            && e.timestamp == l.timestamp && e.author == l.author
            && (e.data == l.text && e.len == |l.text| <==> |l.text| != MSG_MAX_LEN)
            && (|l.text| == MSG_MAX_LEN ==> e.data == [] && e.len == 0)
  {
    L.SealOpens(l);
    var m := Opened(L.Seal(l));
    assert m.data[..m.len] == l.text;
  }

  /** Only the first len bytes change, and each is turned. */
  ghost predicate Decrypts(m: Message, r: Message) {
    && r.timestamp == m.timestamp && r.author == m.author && r.len == m.len && |r.data| == |m.data|
    && forall i | 0 <= i < |m.data| :: if i < m.len then Cipher.HalfTurn(m.data[i], r.data[i]) else r.data[i] == m.data[i]
  }

  /** keycipher_in_read. */
  method InRead(inbox: F.Fifo, signal: bool) returns (st: F.Status, m: Option<Message>)
    requires inbox.Valid() && AllFit(inbox.Contents())
    modifies inbox
    ensures inbox.Valid() && inbox.messages == old(inbox.messages)
    ensures st == if old(inbox.Contents()) != [] then F.Done else if signal then F.Interrupted else F.Sleeping
    ensures st.Done? ==> m == Some(Opened(old(inbox.Contents())[0])) && inbox.Contents() == old(inbox.Contents())[1..]
    ensures st.Done? ==> Decrypts(old(inbox.Contents())[0], m.value)
    ensures !st.Done? ==> m == None && inbox.Contents() == old(inbox.Contents())
  {
    var raw;
    st, raw := inbox.Read(signal);
    if !st.Done? {
      return st, None;
    }
    var msg := raw.value;
    assert msg == old(inbox.Contents())[0];
    var data := new Byte[|msg.data|](i requires 0 <= i < |msg.data| => msg.data[i]);
    assert data[..] == msg.data;
    Cipher.Encrypt(data, msg.len);
    m := Some(msg.(data := data[..]));
    Cipher.RotatedTurns(msg.data, msg.len);
  }

  function OpenEntry(m: Message): Entry
    requires WellFormed(m)
  {
    ToEntry(Opened(m))
  }

  function Entries(ms: seq<Message>): seq<Entry>
    requires AllFit(ms)
  {
    seq(|ms|, i requires 0 <= i < |ms| => OpenEntry(ms[i]))
  }

  /** An answer to a stored message: its author and clock, its bytes turned back, nothing of a text of 256. */
  ghost predicate Answers(m: Message, e: Entry) {
    && e.author == m.author && e.timestamp == m.timestamp
    && e.len == (if m.len == 256 then 0 else m.len) && |e.data| == e.len <= |m.data|
    && forall i | 0 <= i < e.len :: Cipher.HalfTurn(m.data[i], e.data[i])
  }

  lemma EntryAnswers(m: Message)
    requires WellFormed(m)
    ensures Answers(m, OpenEntry(m))
  {
    Cipher.RotatedTurns(m.data, m.len);
  }

  lemma EntriesAnswer(ms: seq<Message>)
    requires AllFit(ms)
    ensures |Entries(ms)| == |ms| && forall i | 0 <= i < |ms| :: Answers(ms[i], Entries(ms)[i])
  {
    forall i | 0 <= i < |ms|
      ensures Answers(ms[i], Entries(ms)[i])
    {
      EntryAnswers(ms[i]);
    }
  }

  /** The device and the daemon's copy of it hold the same messages. */
  ghost predicate InStep(inbox: F.Fifo, mirror: M.Inbox)
    reads inbox, inbox.messages, mirror, mirror.inbox
  {
    && inbox.Valid() && mirror.Valid() && inbox.messages != mirror.inbox && inbox.messages.Length == FIFO_SIZE
    && AllFit(inbox.Contents()) && mirror.Contents() == inbox.Contents()
  }

  /** Deliveries by the server that complete between two device reads. */
  method Arrive(inbox: F.Fifo, mirror: M.Inbox, ms: seq<Message>) returns (taken: seq<Message>)
    requires InStep(inbox, mirror) && AllFit(ms)
    modifies inbox, inbox.messages, mirror, mirror.inbox
    ensures InStep(inbox, mirror) && inbox.messages == old(inbox.messages)
    ensures AllFit(taken) && inbox.Contents() == old(inbox.Contents()) + taken
  {
    taken := [];
    var i := 0;
    while i < |ms|
      invariant 0 <= i <= |ms|
      invariant InStep(inbox, mirror) && inbox.messages == old(inbox.messages)
      invariant AllFit(taken) && inbox.Contents() == old(inbox.Contents()) + taken
    {
      var st := inbox.Write(ms[i], true, false);
      if st.Done? {
        mirror.Add(ms[i]);
        taken := taken + [ms[i]];
      }
      i := i + 1;
    }
  }

  /**
   * One round of the loop of handle_read_all, after whatever arrives while it
   * waits; a read that still finds nothing ends by a signal.
   */
  method ReadNext(inbox: F.Fifo, mirror: M.Inbox, arriving: seq<Message>)
    returns (e: Option<Entry>, ghost all: seq<Message>)
    requires InStep(inbox, mirror) && AllFit(arriving)
    modifies inbox, inbox.messages, mirror, mirror.inbox
    ensures InStep(inbox, mirror) && inbox.messages == old(inbox.messages)
    ensures old(inbox.Contents()) <= all && AllFit(all)
    ensures if all == [] then e == None && inbox.Contents() == []
            else e == Some(OpenEntry(all[0])) && Answers(all[0], e.value) && inbox.Contents() == all[1..]
  {
    var _ := Arrive(inbox, mirror, arriving);
    all := inbox.Contents();
    var st, m := InRead(inbox, true);
    if !st.Done? {
      return None, all;
    }
    var _ := mirror.PopFront();
    e := Some(ToEntry(m.value));
    EntryAnswers(all[0]);
  }

  /** The history and the answers after one more round, on the queue all[i..]. */
  lemma ReadOneOn(all: seq<Message>, i: nat, queue: seq<Message>) returns (now: seq<Message>)
    requires i <= |all| && AllFit(all) && AllFit(queue) && all[i..] <= queue
    ensures all <= now && AllFit(now) && now[i..] == queue
    ensures queue != [] ==> now[i + 1..] == queue[1..] && Entries(now[..i + 1]) == Entries(all[..i]) + [OpenEntry(queue[0])]
  {
    now := all[..i] + queue;
    assert all[..i] + all[i..] == all;
    if queue != [] {
      assert now[..i + 1] == all[..i] + [queue[0]];
    }
  }

  /**
   * handle_read_all for any count k, however stale, with deliveries between its
   * reads: it answers the oldest messages in order and opened, leaves the rest,
   * and the mirror goes along. It falls short of k only when the inbox has run
   * dry, so never when k messages were there at the start.
   */
  method ReadAll(inbox: F.Fifo, mirror: M.Inbox, k: nat, arrivals: seq<seq<Message>>)
    returns (emitted: seq<Entry>, ghost all: seq<Message>)
    requires InStep(inbox, mirror) && |arrivals| == k && forall i | 0 <= i < k :: AllFit(arrivals[i])
    modifies inbox, inbox.messages, mirror, mirror.inbox
    ensures InStep(inbox, mirror) && old(inbox.Contents()) <= all && AllFit(all)
    ensures |emitted| <= k && |emitted| <= |all| && (|emitted| < k ==> |emitted| == |all|)
    ensures emitted == Entries(all[..|emitted|]) && inbox.Contents() == all[|emitted|..]
    ensures forall n | 0 <= n < |emitted| :: Answers(all[n], emitted[n])
  {
    emitted, all := [], inbox.Contents();
    var i := 0;
    while i < k
      invariant 0 <= i <= k && i == |emitted| <= |all|
      invariant InStep(inbox, mirror) && inbox.messages == old(inbox.messages)
      invariant old(inbox.Contents()) <= all && AllFit(all)
      invariant emitted == Entries(all[..i]) && inbox.Contents() == all[i..]
    {
      var e, queue := ReadNext(inbox, mirror, arrivals[i]);
      all := ReadOneOn(all, i, queue);
      if e.None? {
        break;
      }
      emitted := emitted + [e.value];
      i := i + 1;
    }
    EntriesAnswer(all[..i]);
  }
}

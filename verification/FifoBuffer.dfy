/** kernel/fifo_buffer.c for one caller at a time: the structure and its operations in place. */
module FifoBuffer {
  import opened Messages
  import Ring

  /** The fields of struct fifo_buffer, semaphores as counters. */
  datatype Fields = Fields(slots: seq<Message>, head: int, tail: int, count: int, free: int, used: int)

  /** The state between two calls: all permits back, tail one past the live window. */
  ghost predicate Resting(f: Fields) {
    && |f.slots| > 0 && 0 <= f.head < |f.slots| && 0 <= f.count <= |f.slots|
    && f.tail == (f.head + f.count) % |f.slots|
    && f.used == f.count && f.free == |f.slots| - f.count
  }

  ghost function Queued(f: Fields): seq<Message>
    requires Resting(f)
  {
    Ring.Window(f.slots, f.head, f.count)
  }

  function Stored(f: Fields, m: Message): Fields
    requires |f.slots| > 0 && 0 <= f.tail < |f.slots|
  {
    Fields(f.slots[f.tail := m], f.head, (f.tail + 1) % |f.slots|, f.count + 1, f.free - 1, f.used + 1)
  }

  function Removed(f: Fields): Fields
    requires |f.slots| > 0
  {
    Fields(f.slots, (f.head + 1) % |f.slots|, f.tail, f.count - 1, f.free + 1, f.used - 1)
  }

  function Flushed(f: Fields): Fields {
    Fields(f.slots, 0, 0, 0, |f.slots|, 0)
  }

  /** fifo_write appends. */
  lemma StoredAppends(f: Fields, m: Message)
    requires Resting(f) && f.count < |f.slots|
    ensures 0 <= f.tail < |f.slots| && Resting(Stored(f, m))
    ensures Queued(Stored(f, m)) == Queued(f) + [m]
  {
    Ring.WrapAdd(f.head + f.count, 1, |f.slots|);
    Ring.WindowUntouched(f.slots, f.head, f.count, m);
    Ring.WindowAppend(f.slots[f.tail := m], f.head, f.count);
  }

  lemma RemovedRests(f: Fields)
    requires Resting(f) && f.count > 0
    ensures Resting(Removed(f))
  {
    Ring.HeadAdvances(f.head, f.count, |f.slots|);
  }

  /** fifo_read takes the oldest. */
  lemma RemovedIsOldest(f: Fields)
    requires Resting(f) && f.count > 0
    ensures Resting(Removed(f)) && Queued(f) != []
    ensures f.slots[f.head] == Queued(f)[0] && Queued(Removed(f)) == Queued(f)[1..]
  {
    RemovedRests(f);
    Ring.WindowTail(f.slots, f.head, f.count);
  }

  lemma FlushedIsEmpty(f: Fields)
    requires |f.slots| > 0
    ensures Resting(Flushed(f)) && Queued(Flushed(f)) == []
  {
  }

  /** How a call ends; Sleeping is a call that only another thread can complete. */
  datatype Status = Done | Interrupted | Again | Sleeping

  class Fifo {
    var messages: array<Message>
    var head: int
    var tail: int
    var count: int
    var free: int
    var used: int

    function View(): Fields
      reads this, messages
    {
      Fields(messages[..], head, tail, count, free, used)
    }

    ghost predicate Valid()
      reads this, messages
    {
      Resting(View())
    }

    ghost function Contents(): (q: seq<Message>)
      reads this, messages
      requires Valid()
      ensures |q| == count
    {
      Queued(View())
    }

    /** fifo_init. */
    constructor (size: nat, blank: Message)
      requires size > 0
      ensures Valid() && fresh(messages) && messages.Length == size && Contents() == []
    {
      messages := new Message[size](_ => blank);
      head, tail, count := 0, 0, 0;
      free, used := size, 0;
      new;
      Ring.WrapSmall(0, size);
    }

    /** fifo_write and the write half of keycipher_in_write; `signal`: one arrives while the caller sleeps. */
    method Write(m: Message, nonblock: bool, signal: bool) returns (st: Status)
      requires Valid()
      modifies this, messages
      ensures Valid() && messages == old(messages)
      ensures st == if old(count) < messages.Length then Done
                    else if nonblock then Again
                    else if signal then Interrupted else Sleeping
      ensures st.Done? ==> Contents() == old(Contents()) + [m] && View() == Stored(old(View()), m)
      ensures !st.Done? ==> View() == old(View())
    {
      if free == 0 {
        return if nonblock then Again else if signal then Interrupted else Sleeping;
      }
      StoredAppends(View(), m);
      free := free - 1;
      messages[tail] := m;
      tail := (tail + 1) % messages.Length;
      count := count + 1;
      used := used + 1;
      return Done;
    }

    /** fifo_read. */
    method Read(signal: bool) returns (st: Status, m: Option<Message>)
      requires Valid()
      modifies this
      ensures Valid() && messages == old(messages)
      ensures st == if old(count) > 0 then Done else if signal then Interrupted else Sleeping
      ensures st.Done? ==> m == Some(old(Contents())[0]) && Contents() == old(Contents())[1..]
                           && View() == Removed(old(View()))
      ensures !st.Done? ==> m == None && View() == old(View())
    {
      if used == 0 {
        return if signal then Interrupted else Sleeping, None;
      }
      RemovedIsOldest(View());
      used := used - 1;
      m := Some(messages[head]);
      head := (head + 1) % messages.Length;
      count := count - 1;
      free := free + 1;
      st := Done;
    }

    /** fifo_flush. */
    method Flush()
      requires Valid()
      modifies this
      ensures Valid() && messages == old(messages) && Contents() == []
      ensures View() == Flushed(old(View()))
    {
      FlushedIsEmpty(View());
      head, tail, count := 0, 0, 0;
      free := messages.Length;
      used := 0;
    }

    /** The used and free figures of KEYCIPHER_GET_STATS. */
    method Stats() returns (inUse: int, available: int)
      requires Valid()
      ensures inUse == |Contents()| && inUse + available == messages.Length && available >= 0
    {
      inUse := count;
      available := messages.Length - inUse;
    }
  }
}

/** kernel/typing_stack.c: the bounded character stack, in place. */
module TypingStack {
  import opened Messages

  class Stack {
    var data: array<Byte>
    var top: int

    ghost predicate Valid()
      reads this
    {
      data.Length == MSG_MAX_LEN && 0 <= top <= MSG_MAX_LEN
    }

    /** The characters typed so far; what lies above top is stale. */
    ghost function Contents(): (s: seq<Byte>)
      reads this, data
      requires Valid()
      ensures |s| == top
    {
      data[..top]
    }

    /** typing_stack_init. */
    constructor ()
      ensures Valid() && fresh(data) && Contents() == []
      ensures forall i | 0 <= i < data.Length :: data[i] == 0
    {
      data := new Byte[MSG_MAX_LEN](_ => 0);
      top := 0;
    }

    method Size() returns (n: int)
      requires Valid()
      ensures n == |Contents()|
    {
      n := top;
    }

    /** typing_stack_push: appends, or -1 when all 256 places are taken. */
    method Push(ch: Byte) returns (r: int)
      requires Valid()
      modifies this`top, data
      ensures Valid() && data == old(data)
      ensures r == if |old(Contents())| == MSG_MAX_LEN then -1 else 0
      ensures r == 0 ==> Contents() == old(Contents()) + [ch] && data[..] == old(data[..])[old(top) := ch]
      ensures r == -1 ==> Contents() == old(Contents()) && data[..] == old(data[..])
    {
      if top >= MSG_MAX_LEN {
        return -1;
      }
      data[top] := ch;
      top := top + 1;
      return 0;
    }

    /** typing_stack_pop: drops and returns the last character, or -1 when there is none. */
    method Pop() returns (r: int, ch: Option<Byte>)
      requires Valid()
      modifies this`top
      ensures Valid() && data == old(data)
      ensures old(Contents()) == [] ==> r == -1 && ch == None && Contents() == []
      ensures old(Contents()) != [] ==> r == 0 && ch.Some? && old(Contents()) == Contents() + [ch.value]
    {
      if top == 0 {
        return -1, None;
      }
      top := top - 1;
      return 0, Some(data[top]);
    }

    /** typing_stack_clear: forgets the characters without erasing them. */
    method Clear()
      requires Valid()
      modifies this`top
      ensures Valid() && data == old(data) && Contents() == []
    {
      top := 0;
    }
  }
}

/** Entities shared by the kernel module and the daemon (kernel/keycipher.h). */
module Messages {

  /** One C `char`, seen as its unsigned value. */
  type Byte = b: int | 0 <= b < 256

  const FIFO_SIZE := 64
  const MSG_MAX_LEN := 256

  datatype Option<+T> = None | Some(value: T)

  /** struct keycipher_message; timestamp and author are opaque. */
  datatype Message = Message(timestamp: int, author: seq<Byte>, data: seq<Byte>, len: int)

  /** The size and length rule every message made by the keyboard handler obeys. */
  predicate WellFormed(m: Message) {
    |m.data| == MSG_MAX_LEN && 0 <= m.len <= MSG_MAX_LEN
  }

  ghost predicate AllFit(ms: seq<Message>) {
    forall i | 0 <= i < |ms| :: WellFormed(ms[i])
  }
}

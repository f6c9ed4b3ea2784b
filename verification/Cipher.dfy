/** kernel/cipher.c: ROT13 over a buffer, in place. */
module Cipher {
  import opened Messages

  predicate IsUpper(b: Byte) { 65 <= b <= 90 }

  predicate IsLower(b: Byte) { 97 <= b <= 122 }

  function Rot13(b: Byte): Byte {
    if IsUpper(b) then (b - 65 + 13) % 26 + 65
    else if IsLower(b) then (b - 97 + 13) % 26 + 97
    else b
  }

  /** r is the letter of the same case half an alphabet away from b, or b itself if b is no letter. */
  predicate HalfTurn(b: Byte, r: Byte) {
    && (IsUpper(b) <==> IsUpper(r)) && (IsLower(b) <==> IsLower(r))
    && (if IsUpper(b) || IsLower(b) then r == b + 13 || r == b - 13 else r == b)
  }

  /** Rot13 is the one map that turns letters by half an alphabet, and it undoes itself. */
  lemma Rot13IsHalfTurn(b: Byte, r: Byte)
    ensures r == Rot13(b) <==> HalfTurn(b, r)
    ensures Rot13(Rot13(b)) == b
  {
  }

  /** The byte map is a bijection. */
  lemma Rot13Bijective(b: Byte, c: Byte)
    ensures Rot13(b) == Rot13(c) ==> b == c
    ensures exists a: Byte :: Rot13(a) == b
  {
    Rot13IsHalfTurn(b, Rot13(b));
    Rot13IsHalfTurn(c, Rot13(c));
  }

  /** s with its first len bytes turned. */
  function Rotated(s: seq<Byte>, len: int): (r: seq<Byte>)
    ensures |r| == |s|
  {
    seq(|s|, i requires 0 <= i < |s| => if i < len then Rot13(s[i]) else s[i])
  }

  /** A whole text turned. */
  function Turned(s: seq<Byte>): (r: seq<Byte>)
    ensures |r| == |s|
  {
    Rotated(s, |s|)
  }

  /** Two passes with the same length restore every buffer. */
  lemma RotatedTwice(s: seq<Byte>, len: int)
    ensures Rotated(Rotated(s, len), len) == s
  {
    forall i | 0 <= i < |s|
      ensures Rotated(Rotated(s, len), len)[i] == s[i]
    {
      Rot13IsHalfTurn(s[i], Rot13(s[i]));
    }
  }

  /** Turning a buffer up to len turns the text in front and keeps what follows. */
  lemma RotatedSplits(s: seq<Byte>, t: seq<Byte>)
    ensures Rotated(s + t, |s|) == Turned(s) + t
  {
  }

  /** Before len every byte is turned, from len on none is. */
  lemma RotatedTurns(s: seq<Byte>, len: int)
    ensures forall i | 0 <= i < |s| :: if i < len then HalfTurn(s[i], Rotated(s, len)[i]) else Rotated(s, len)[i] == s[i]
  {
    forall i | 0 <= i < |s|
      ensures HalfTurn(s[i], Rot13(s[i]))
    {
      Rot13IsHalfTurn(s[i], Rot13(s[i]));
    }
  }

  /** rot13_encrypt, and rot13_decrypt, which calls it. */
  method Encrypt(buf: array<Byte>, len: int)
    requires len <= buf.Length
    modifies buf
    ensures buf[..] == Rotated(old(buf[..]), len)
    ensures forall i | 0 <= i < buf.Length :: if i < len then HalfTurn(old(buf[i]), buf[i]) else buf[i] == old(buf[i])
  {
    var i := 0;
    while i < len
      invariant 0 <= i <= if len < 0 then 0 else len
      invariant forall j | 0 <= j < i :: buf[j] == Rot13(old(buf[j]))
      invariant forall j | i <= j < buf.Length :: buf[j] == old(buf[j])
    {
      var current := buf[i];
      if 65 <= current <= 90 {
        buf[i] := (current - 65 + 13) % 26 + 65;
      } else if 97 <= current <= 122 {
        buf[i] := (current - 97 + 13) % 26 + 97;
      }
      i := i + 1;
    }
    RotatedTurns(old(buf[..]), len);
    assert buf[..] == Rotated(old(buf[..]), len);
    assert forall j | 0 <= j < buf.Length :: buf[j] == buf[..][j] && old(buf[j]) == old(buf[..])[j];
  }

  /** Encrypting and then decrypting in place gives the buffer back. */
  method EncryptThenDecrypt(buf: array<Byte>, len: int)
    requires len <= buf.Length
    modifies buf
    ensures buf[..] == old(buf[..])
  {
    Encrypt(buf, len);
    Encrypt(buf, len);
    RotatedTwice(old(buf[..]), len);
  }
}

/** Index arithmetic of the ring buffer: `(i + 1) % FIFO_SIZE` and the window it delimits. */
module Ring {

  /** Euclidean division determines its remainder. */
  lemma RemainderUnique(x: int, q: int, r: int, n: nat)
    requires 0 <= r < n && x == q * n + r
    ensures x % n == r
  {
    var q', r' := x / n, x % n;
    assert x == q' * n + r' by { assert x == n * q' + r'; assert n * q' == q' * n; }
    assert (q - q') * n == r' - r by { assert (q - q') * n == q * n - q' * n; }
    if q - q' >= 1 {
      Scale(1, q - q', n);
    } else if q - q' <= -1 {
      Scale(q - q', -1, n);
    }
  }

  lemma Scale(a: int, b: int, n: nat)
    requires a <= b
    ensures a * n <= b * n
  {
  }

  /** Wrapping before or after adding a constant is the same. */
  lemma WrapAdd(x: int, k: int, n: nat)
    requires n > 0
    ensures (x % n + k) % n == (x + k) % n
  {
    var q := x / n;
    assert x == n * q + x % n;
    var y := x % n + k;
    var p := y / n;
    assert y == n * p + y % n;
    assert x + k == (q + p) * n + y % n by {
      assert (q + p) * n == n * q + n * p;
    }
    RemainderUnique(x + k, q + p, y % n, n);
  }

  /** Moving head one on and counting one less leaves the end of the window where it was. */
  lemma HeadAdvances(head: int, count: int, n: nat)
    requires n > 0
    ensures ((head + 1) % n + count - 1) % n == (head + count) % n
  {
    calc {
      ((head + 1) % n + count - 1) % n;
    ==
      ((head + 1) % n + (count - 1)) % n;
    ==  { WrapAdd(head + 1, count - 1, n); }
      (head + 1 + (count - 1)) % n;
    ==  { assert head + 1 + (count - 1) == head + count; }
      (head + count) % n;
    }
  }

  /** Two window positions closer than n never share a slot. */
  lemma WrapInjective(x: int, y: int, n: nat)
    requires n > 0 && x < y < x + n
    ensures x % n != y % n
  {
    if x % n == y % n {
      var p, q := x / n, y / n;
      assert x == n * p + x % n && y == n * q + y % n;
      assert y - x == (q - p) * n by { assert (q - p) * n == n * q - n * p; }
      if q - p >= 1 {
        Scale(1, q - p, n);
      } else {
        Scale(q - p, 0, n);
      }
    }
  }

  lemma WrapSmall(x: int, n: nat)
    requires 0 <= x < n
    ensures x % n == x
  {
  }

  /** The slot of the i-th element counted from `head`. */
  function Slot(head: int, i: int, n: nat): (r: int)
    requires n > 0
    ensures 0 <= r < n
  {
    (head + i) % n
  }

  /** The `len` elements met when walking the ring from `head`. */
  function Window<T>(slots: seq<T>, head: int, len: nat): (w: seq<T>)
    requires |slots| > 0
    ensures |w| == len
  {
    seq(len, i => slots[Slot(head, i, |slots|)])
  }

  /** Storing one past the window and then widening it appends the element. */
  lemma WindowAppend<T>(slots: seq<T>, head: int, len: nat)
    requires |slots| > 0
    ensures Window(slots, head, len + 1) == Window(slots, head, len) + [slots[Slot(head, len, |slots|)]]
  {
  }

  /** A store outside the window leaves the window alone. */
  lemma WindowUntouched<T>(slots: seq<T>, head: int, len: nat, x: T)
    requires len < |slots|
    ensures Window(slots[Slot(head, len, |slots|) := x], head, len) == Window(slots, head, len)
  {
    var after := slots[Slot(head, len, |slots|) := x];
    forall i | 0 <= i < len
      ensures Window(after, head, len)[i] == Window(slots, head, len)[i]
    {
      WrapInjective(head + i, head + len, |slots|);
    }
  }

  /** Advancing the head drops the oldest element. */
  lemma WindowTail<T>(slots: seq<T>, head: int, len: nat)
    requires 0 <= head < |slots| && len > 0
    ensures Window(slots, head, len)[0] == slots[head]
    ensures Window(slots, (head + 1) % |slots|, len - 1) == Window(slots, head, len)[1..]
  {
    WrapSmall(head, |slots|);
    var w := Window(slots, (head + 1) % |slots|, len - 1);
    forall i | 0 <= i < len - 1
      ensures w[i] == Window(slots, head, len)[1..][i]
    {
      WrapAdd(head + 1, i, |slots|);
      assert head + 1 + i == head + (i + 1);
    }
  }
}

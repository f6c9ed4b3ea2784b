/** A sequence with some of its elements left out. */
module Selection {

  /** The elements of s whose flag is set, in order. */
  function Select<T>(s: seq<T>, keep: seq<bool>): seq<T>
    requires |s| == |keep|
  {
    if s == [] then []
    else
      var last := |s| - 1;
      Select(s[..last], keep[..last]) + if keep[last] then [s[last]] else []
  }

  lemma SelectGrows<T>(s: seq<T>, keep: seq<bool>, x: T, k: bool)
    requires |s| == |keep|
    ensures Select(s + [x], keep + [k]) == Select(s, keep) + if k then [x] else []
  {
    assert (s + [x])[..|s|] == s && (keep + [k])[..|s|] == keep;
  }

  lemma {:induction false} SelectSplit<T>(a: seq<T>, ka: seq<bool>, b: seq<T>, kb: seq<bool>)
    requires |a| == |ka| && |b| == |kb|
    ensures Select(a + b, ka + kb) == Select(a, ka) + Select(b, kb)
  {
    if b == [] {
      assert a + b == a && ka + kb == ka;
    } else {
      var last := |b| - 1;
      SelectSplit(a, ka, b[..last], kb[..last]);
      SelectGrows(a + b[..last], ka + kb[..last], b[last], kb[last]);
      assert a + b[..last] + [b[last]] == a + b && ka + kb[..last] + [kb[last]] == ka + kb;
    }
  }

  /** Nothing left out, and only then, leaves the length. */
  lemma {:induction false} SelectAll<T>(s: seq<T>, keep: seq<bool>)
    requires |s| == |keep|
    ensures |Select(s, keep)| <= |s|
    ensures |Select(s, keep)| == |s| <==> forall i | 0 <= i < |keep| :: keep[i]
    ensures |Select(s, keep)| == |s| ==> Select(s, keep) == s
  {
    if s != [] {
      SelectAll(s[..|s| - 1], keep[..|s| - 1]);
    }
  }

  lemma SelectThenAll<T>(a: seq<T>, ka: seq<bool>, b: seq<T>, kb: seq<bool>)
    requires |a| == |ka| && |b| == |kb| && forall i | 0 <= i < |kb| :: kb[i]
    ensures Select(a + b, ka + kb) == Select(a, ka) + b
  {
    SelectSplit(a, ka, b, kb);
    SelectAll(b, kb);
  }

  /** With nothing left out from place m on. */
  lemma SelectPrefix<T>(s: seq<T>, keep: seq<bool>, m: nat)
    requires |s| == |keep| && m <= |s| && forall i | m <= i < |keep| :: keep[i]
    ensures Select(s, keep) == Select(s[..m], keep[..m]) + s[m..]
  {
    assert s[..m] + s[m..] == s && keep[..m] + keep[m..] == keep;
    SelectThenAll(s[..m], keep[..m], s[m..], keep[m..]);
  }

  lemma {:induction false} SelectedFrom<T>(s: seq<T>, keep: seq<bool>, j: nat) returns (i: nat)
    requires |s| == |keep| && j < |Select(s, keep)|
    ensures i < |s| && keep[i] && Select(s, keep)[j] == s[i]
  {
    var last := |s| - 1;
    if j < |Select(s[..last], keep[..last])| {
      i := SelectedFrom(s[..last], keep[..last], j);
    } else {
      i := last;
    }
  }

  function Picked<T>(s: seq<T>, places: seq<nat>): (r: seq<T>)
    requires forall j | 0 <= j < |places| :: places[j] < |s|
    ensures |r| == |places|
  {
    seq(|places|, j requires 0 <= j < |places| => s[places[j]])
  }

  /** Increasing places that name exactly the flagged elements. */
  ghost predicate Names(places: seq<nat>, keep: seq<bool>) {
    && (forall j | 0 <= j < |places| :: places[j] < |keep|)
    && (forall i, j | 0 <= i < j < |places| :: places[i] < places[j])
    && (forall i: nat | i < |keep| :: keep[i] <==> i in places)
  }

  lemma NamesFront(places: seq<nat>, keep: seq<bool>) returns (rest: seq<nat>)
    requires Names(places, keep) && keep != []
    ensures Names(rest, keep[..|keep| - 1])
    ensures places == rest + if keep[|keep| - 1] then [|keep| - 1] else []
  {
    var last := |keep| - 1;
    rest := places;
    if keep[last] {
      var j :| 0 <= j < |places| && places[j] == last;
      assert places[|places| - 1] <= last;
      assert j == |places| - 1;
      rest := places[..j];
    }
    forall j | 0 <= j < |rest|
      ensures rest[j] < last
    {
      assert places[j] in places;
    }
    forall i: nat | i < last
      ensures keep[..last][i] <==> i in rest
    {
      if i in places {
        var k :| 0 <= k < |places| && places[k] == i;
        assert rest[k] == i;
      }
    }
  }

  lemma {:induction false} FewPlaces(places: seq<nat>, n: nat)
    requires forall j | 0 <= j < |places| :: places[j] < n
    requires forall i, j | 0 <= i < j < |places| :: places[i] < places[j]
    ensures |places| <= n
  {
    if places != [] {
      var last := |places| - 1;
      FewPlaces(places[..last], places[last]);
    }
  }

  lemma {:induction false} PickedIsSelected<T>(s: seq<T>, keep: seq<bool>, places: seq<nat>)
    requires |s| == |keep| && Names(places, keep)
    ensures Picked(s, places) == Select(s, keep)
  {
    if s != [] {
      var last := |s| - 1;
      var rest := NamesFront(places, keep);
      PickedIsSelected(s[..last], keep[..last], rest);
      assert Picked(s, rest) == Picked(s[..last], rest);
    } else {
      FewPlaces(places, 0);
    }
  }
}

/** Splitting a sequence into groups of a given size (`grouped`). */
module Grouping {
  import opened Common

  /** Takes `size` elements at a time until nothing is left. A size of 0 takes nothing at
      once, so there is no group at all. */
  function Grouped<T>(s: seq<T>, size: nat): (gs: seq<seq<T>>)
    ensures forall g :: g in gs ==> 1 <= |g| <= size
    ensures forall i :: 0 <= i < |gs| - 1 ==> |gs[i]| == size
    decreases |s|
  {
    if s == [] || size == 0 then []
    else
      var m := Min(size, |s|);
      [s[..m]] + Grouped(s[m..], size)
  }

  lemma {:induction false} GroupedKeepsAll<T>(s: seq<T>, size: nat)
    requires size > 0
    ensures Flatten(Grouped(s, size)) == s
    decreases |s|
  {
    if s != [] {
      var m := Min(size, |s|);
      var rest := s[m..];
      GroupedKeepsAll(rest, size);
      FlattenCons(s[..m], Grouped(rest, size));
      assert s[..m] + rest == s;
    }
  }

  /** Grouping loses nothing exactly when the size is positive or there was nothing. */
  lemma GroupedFlatten<T>(s: seq<T>, size: nat)
    ensures Flatten(Grouped(s, size)) == s <==> size > 0 || s == []
  {
    if size > 0 {
      GroupedKeepsAll(s, size);
    }
  }

  lemma {:induction false} GroupedElements<T>(s: seq<T>, size: nat)
    ensures forall g, x :: g in Grouped(s, size) && x in g ==> x in s
    decreases |s|
  {
    if s != [] && size > 0 {
      GroupedElements(s[Min(size, |s|)..], size);
    }
  }

  lemma {:induction false} MulStep(d: int, q: int, n: int)
    requires d < q && n > 0
    ensures d * n + n <= q * n
    decreases q - d
  {
    assert q * n == (q - 1) * n + n;
    if d < q - 1 {
      MulStep(d, q - 1, n);
    }
  }

  lemma DivUnique(a: int, n: int, q: int)
    requires n > 0 && q * n <= a < q * n + n
    ensures a / n == q
  {
    var d := a / n;
    assert a == d * n + a % n;
    if d < q {
      MulStep(d, q, n);
    } else if d > q {
      MulStep(q, d, n);
    }
  }

  lemma DivStep(a: nat, n: nat)
    requires n > 0
    ensures a < n ==> a / n == 0
    ensures a >= n ==> a / n == (a - n) / n + 1
  {
    if a < n {
      DivUnique(a, n, 0);
    } else {
      var q := (a - n) / n;
      assert a - n == n * q + (a - n) % n;
      assert (q + 1) * n == q * n + n;
      DivUnique(a, n, q + 1);
    }
  }

  /** The number of groups is the length divided by the size, rounded up. */
  lemma {:induction false} GroupedCount<T>(s: seq<T>, size: nat)
    requires size > 0
    ensures |Grouped(s, size)| == (|s| + size - 1) / size
    decreases |s|
  {
    if s == [] {
      DivStep(size - 1, size);
    } else {
      var m := Min(size, |s|);
      GroupedCount(s[m..], size);
      DivStep(|s| + size - 1, size);
      if m < size {
        DivStep(size - 1, size);
        DivStep(|s| - 1, size);
      }
    }
  }
}

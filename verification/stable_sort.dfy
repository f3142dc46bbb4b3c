/**
 Stable descending sort on sequences, keyed by an integer. Both listings of the
 store use JavaScript's `Array.prototype.sort` with a comparator of the form
 `(a, b) => key(b) - key(a)`; that sort is stable, so elements with equal keys
 keep the order they had before sorting. `SortDesc` is an insertion sort with
 exactly that behaviour.
 */
module StableSort {

  /** Keys never increase from left to right. */
  predicate Descending<T>(xs: seq<T>, key: T -> int) {
    forall i, j | 0 <= i < j < |xs| :: key(xs[i]) >= key(xs[j])
  }

  /** Keys strictly increase from left to right (capture order under a ticking clock). */
  predicate StrictlyAscending<T>(xs: seq<T>, key: T -> int) {
    forall i, j | 0 <= i < j < |xs| :: key(xs[i]) < key(xs[j])
  }

  /** The subsequence of `xs` whose key is `v`, in the order of `xs`. */
  function WithKey<T>(xs: seq<T>, key: T -> int, v: int): seq<T> {
    if xs == [] then []
    else (if key(xs[0]) == v then [xs[0]] else []) + WithKey(xs[1..], key, v)
  }

  /** Two sequences list the elements of every key in the same relative order. */
  ghost predicate SameTies<T>(xs: seq<T>, ys: seq<T>, key: T -> int) {
    forall v :: WithKey(xs, key, v) == WithKey(ys, key, v)
  }

  function Reverse<T>(xs: seq<T>): (r: seq<T>)
    ensures |r| == |xs|
  {
    if xs == [] then [] else Reverse(xs[1..]) + [xs[0]]
  }

  /** Places `x` in front of the first element whose key is not larger than its own. */
  function Insert<T>(x: T, ys: seq<T>, key: T -> int): (r: seq<T>)
    ensures multiset(r) == multiset(ys) + multiset{x}
    ensures forall e | e in r :: e == x || e in ys
  {
    if ys == [] then [x]
    else if key(ys[0]) <= key(x) then [x] + ys
    else
      assert ys == [ys[0]] + ys[1..];
      [ys[0]] + Insert(x, ys[1..], key)
  }

  /** Insertion into a descending sequence keeps it descending. */
  lemma {:induction false} InsertDescending<T>(x: T, ys: seq<T>, key: T -> int)
    requires Descending(ys, key)
    ensures Descending(Insert(x, ys, key), key)
    decreases |ys|
  {
    if ys != [] && key(ys[0]) > key(x) {
      var rest := Insert(x, ys[1..], key);
      assert Descending(ys[1..], key);
      InsertDescending(x, ys[1..], key);
      forall e | e in rest
        ensures key(e) <= key(ys[0])
      {
        if e != x {
          var j :| 0 <= j < |ys[1..]| && ys[1..][j] == e;
          assert ys[j + 1] == e;
        }
      }
      var r := [ys[0]] + rest;
      forall i, j | 0 <= i < j < |r|
        ensures key(r[i]) >= key(r[j])
      {
        if i > 0 {
          assert r[i] == rest[i - 1] && r[j] == rest[j - 1];
        } else {
          assert r[j] in rest;
        }
      }
    }
  }

  /** Stable sort, largest key first. */
  function SortDesc<T>(xs: seq<T>, key: T -> int): (r: seq<T>)
    ensures multiset(r) == multiset(xs)
    ensures |r| == |xs|
    ensures Descending(r, key)
  {
    if xs == [] then []
    else
      assert xs == [xs[0]] + xs[1..];
      var rest := SortDesc(xs[1..], key);
      InsertDescending(xs[0], rest, key);
      Insert(xs[0], rest, key)
  }

  /** Sorting neither adds nor drops an element. */
  lemma SortDescSameElements<T>(xs: seq<T>, key: T -> int)
    ensures forall x :: x in SortDesc(xs, key) <==> x in xs
  {
    var r := SortDesc(xs, key);
    forall x
      ensures x in r <==> x in xs
    {
      assert x in r <==> x in multiset(r);
      assert x in xs <==> x in multiset(xs);
    }
  }

  lemma {:induction false} WithKeyConcat<T>(xs: seq<T>, ys: seq<T>, key: T -> int, v: int)
    ensures WithKey(xs + ys, key, v) == WithKey(xs, key, v) + WithKey(ys, key, v)
    decreases |xs|
  {
    if xs == [] {
      assert xs + ys == ys;
    } else {
      var h := if key(xs[0]) == v then [xs[0]] else [];
      var zs := xs + ys;
      assert zs[0] == xs[0] && zs[1..] == xs[1..] + ys;
      assert WithKey(zs, key, v) == h + WithKey(xs[1..] + ys, key, v);
      WithKeyConcat(xs[1..], ys, key, v);
      assert WithKey(xs, key, v) == h + WithKey(xs[1..], key, v);
    }
  }

  /** Inserting `x` adds it in front of the other elements of its key. */
  lemma {:induction false} InsertWithKey<T>(x: T, ys: seq<T>, key: T -> int, v: int)
    ensures WithKey(Insert(x, ys, key), key, v)
         == (if key(x) == v then [x] else []) + WithKey(ys, key, v)
    decreases |ys|
  {
    if ys == [] {
      PrependWithKey(x, ys, key, v);
      assert [x] + ys == [x];
    } else if key(ys[0]) <= key(x) {
      PrependWithKey(x, ys, key, v);
    } else {
      var y, tail := ys[0], ys[1..];
      var rest := Insert(x, tail, key);
      assert Insert(x, ys, key) == [y] + rest;
      assert [y] + tail == ys;
      InsertWithKey(x, tail, key, v);
      PrependWithKey(y, rest, key, v);
      PrependWithKey(y, tail, key, v);
      if key(x) == v {
        assert key(y) != v;
        assert WithKey([y] + rest, key, v) == WithKey(rest, key, v);
        assert WithKey(ys, key, v) == WithKey(tail, key, v);
      } else {
        assert WithKey(rest, key, v) == WithKey(tail, key, v);
      }
    }
  }

  lemma PrependWithKey<T>(y: T, rest: seq<T>, key: T -> int, v: int)
    ensures WithKey([y] + rest, key, v) == (if key(y) == v then [y] else []) + WithKey(rest, key, v)
  {
    assert ([y] + rest)[1..] == rest;
  }

  /** The sort is stable: within each key, elements keep their original order. */
  lemma {:induction false} SortDescIsStable<T>(xs: seq<T>, key: T -> int)
    ensures SameTies(SortDesc(xs, key), xs, key)
    decreases |xs|
  {
    if xs != [] {
      SortDescIsStable(xs[1..], key);
      forall v
        ensures WithKey(SortDesc(xs, key), key, v) == WithKey(xs, key, v)
      {
        InsertWithKey(xs[0], SortDesc(xs[1..], key), key, v);
        WithKeyConcat([xs[0]], xs[1..], key, v);
        assert xs == [xs[0]] + xs[1..];
      }
    }
  }

  /** A sequence that is already in descending order is left as it is. */
  lemma {:induction false} SortDescOfDescending<T>(xs: seq<T>, key: T -> int)
    requires Descending(xs, key)
    ensures SortDesc(xs, key) == xs
    decreases |xs|
  {
    if xs != [] {
      assert Descending(xs[1..], key);
      SortDescOfDescending(xs[1..], key);
      if |xs| > 1 {
        assert key(xs[1]) <= key(xs[0]);
      }
      assert xs == [xs[0]] + xs[1..];
    }
  }

  /** Sorting twice gives the same order as sorting once. */
  lemma SortDescIdempotent<T>(xs: seq<T>, key: T -> int)
    ensures SortDesc(SortDesc(xs, key), key) == SortDesc(xs, key)
  {
    SortDescOfDescending(SortDesc(xs, key), key);
  }

  /** An element smaller than everything in `ys` goes to the end. */
  lemma {:induction false} InsertSmallest<T>(x: T, ys: seq<T>, key: T -> int)
    requires forall i | 0 <= i < |ys| :: key(ys[i]) > key(x)
    ensures Insert(x, ys, key) == ys + [x]
    decreases |ys|
  {
    if ys != [] {
      InsertSmallest(x, ys[1..], key);
      assert ys == [ys[0]] + ys[1..];
    }
  }

  /** Entries stamped in strictly increasing order come out newest first. */
  lemma {:induction false} SortDescOfAscending<T>(xs: seq<T>, key: T -> int)
    requires StrictlyAscending(xs, key)
    ensures SortDesc(xs, key) == Reverse(xs)
    decreases |xs|
  {
    if xs != [] {
      var tail := xs[1..];
      assert StrictlyAscending(tail, key);
      SortDescOfAscending(tail, key);
      ReversedTailAbove(xs, key);
      InsertSmallest(xs[0], Reverse(tail), key);
    }
  }

  /** In a strictly ascending sequence every later key exceeds the first. */
  lemma ReversedTailAbove<T>(xs: seq<T>, key: T -> int)
    requires xs != [] && StrictlyAscending(xs, key)
    ensures forall i | 0 <= i < |Reverse(xs[1..])| :: key(Reverse(xs[1..])[i]) > key(xs[0])
  {
    var tail := xs[1..];
    ReverseElements(tail);
    var rev := Reverse(tail);
    forall i | 0 <= i < |rev|
      ensures key(rev[i]) > key(xs[0])
    {
      assert rev[i] == tail[|tail| - 1 - i] == xs[|xs| - 1 - i];
    }
  }

  lemma {:induction false} ReverseElements<T>(xs: seq<T>)
    ensures forall i | 0 <= i < |xs| :: Reverse(xs)[i] == xs[|xs| - 1 - i]
    decreases |xs|
  {
    if xs != [] {
      ReverseElements(xs[1..]);
    }
  }
}

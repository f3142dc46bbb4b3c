/**
 A JavaScript `Map` remembers the order in which its keys were first set:
 `set` on a new key appends it, `set` on a present key keeps its place, and
 `delete` removes it. The store keeps that order beside its link map as a
 duplicate-free sequence of keys; this module holds the sequence operations.
 */
module InsertionOrder {

  /** The keys of the store's maps: link short codes. */
  type Key = string

  predicate NoDup(xs: seq<Key>) {
    forall i, j | 0 <= i < j < |xs| :: xs[i] != xs[j]
  }

  /** The order after `Map.prototype.set(k, ...)`. */
  function SetKey(xs: seq<Key>, k: Key): (r: seq<Key>)
    ensures forall x :: x in r <==> x in xs || x == k
    ensures NoDup(xs) ==> NoDup(r)
    ensures k in xs ==> r == xs
    ensures k !in xs ==> |r| == |xs| + 1 && r[..|xs|] == xs && r[|xs|] == k
  {
    if k in xs then xs else xs + [k]
  }

  /** `xs` with every key of `gone` deleted, the rest in their old order. */
  function Without(xs: seq<Key>, gone: set<Key>): (r: seq<Key>)
    ensures forall x :: x in r <==> x in xs && x !in gone
    ensures NoDup(xs) ==> NoDup(r)
  {
    if xs == [] then []
    else if xs[0] in gone then Without(xs[1..], gone)
    else
      var rest := Without(xs[1..], gone);
      assert NoDup(xs) ==> xs[0] !in xs[1..];
      [xs[0]] + rest
  }

  /** Deleting one batch of keys and then another is deleting both at once. */
  lemma {:induction false} WithoutTwice(xs: seq<Key>, a: set<Key>, b: set<Key>)
    ensures Without(Without(xs, a), b) == Without(xs, a + b)
    decreases |xs|
  {
    if xs != [] {
      WithoutTwice(xs[1..], a, b);
      if xs[0] !in a {
        assert ([xs[0]] + Without(xs[1..], a))[1..] == Without(xs[1..], a);
      }
    }
  }

  /** Deleting keys that are not there changes nothing. */
  lemma {:induction false} WithoutAbsent(xs: seq<Key>, gone: set<Key>)
    requires forall i | 0 <= i < |xs| :: xs[i] !in gone
    ensures Without(xs, gone) == xs
    decreases |xs|
  {
    if xs != [] {
      WithoutAbsent(xs[1..], gone);
      assert xs == [xs[0]] + xs[1..];
    }
  }

  function Elements(xs: seq<Key>): set<Key> {
    set x | x in xs
  }

  /** A duplicate-free sequence has as many elements as its set. */
  lemma {:induction false} NoDupCard(xs: seq<Key>)
    requires NoDup(xs)
    ensures |Elements(xs)| == |xs|
    decreases |xs|
  {
    if xs != [] {
      assert NoDup(xs[1..]);
      NoDupCard(xs[1..]);
      assert xs[0] !in xs[1..];
      assert Elements(xs) == Elements(xs[1..]) + {xs[0]};
    }
  }
}

/** Generic sequence helpers: order-preserving filtering and the shape of
    a keyed table (primary keys strictly ascending, all below the key
    generator). */
module Seqs {

  /** The elements of `s` that satisfy `keep`, in their original order. */
  function Filter<T(!new)>(s: seq<T>, keep: T -> bool): (r: seq<T>)
    ensures |r| <= |s|
    ensures forall x :: x in r <==> x in s && keep(x)
  {
    if |s| == 0 then []
    else (if keep(s[0]) then [s[0]] else []) + Filter(s[1..], keep)
  }

  lemma {:induction false} FilterAppend<T(!new)>(a: seq<T>, b: seq<T>, keep: T -> bool)
    ensures Filter(a + b, keep) == Filter(a, keep) + Filter(b, keep)
  {
    if |a| == 0 {
      assert a + b == b;
    } else {
      assert (a + b)[1..] == a[1..] + b;
      FilterAppend(a[1..], b, keep);
    }
  }

  /** Filtering keeps everything when every element passes. */
  lemma {:induction false} FilterAll<T(!new)>(s: seq<T>, keep: T -> bool)
    requires forall i :: 0 <= i < |s| ==> keep(s[i])
    ensures Filter(s, keep) == s
  {
    if |s| > 0 {
      FilterAll(s[1..], keep);
    }
  }

  /** Filtering drops everything when no element passes. */
  lemma {:induction false} FilterNone<T(!new)>(s: seq<T>, keep: T -> bool)
    requires forall i :: 0 <= i < |s| ==> !keep(s[i])
    ensures Filter(s, keep) == []
  {
    if |s| > 0 {
      FilterNone(s[1..], keep);
    }
  }

  /** Primary keys strictly increase along the table (so they are unique). */
  ghost predicate Ascending<T>(s: seq<T>, key: T -> nat)
  {
    forall i, j :: 0 <= i < j < |s| ==> key(s[i]) < key(s[j])
  }

  /** Every key is below the table's key generator. */
  ghost predicate KeysBelow<T>(s: seq<T>, key: T -> nat, bound: nat)
  {
    forall i :: 0 <= i < |s| ==> key(s[i]) < bound
  }

  /** A filtered table is still in strictly ascending key order. */
  lemma {:induction false} FilterAscending<T(!new)>(s: seq<T>, keep: T -> bool, key: T -> nat)
    ensures Ascending(s, key) ==> Ascending(Filter(s, keep), key)
  {
    if |s| > 0 && Ascending(s, key) {
      FilterAscending(s[1..], keep, key);
      var rest := Filter(s[1..], keep);
      forall j | 0 <= j < |rest|
        ensures key(s[0]) < key(rest[j])
      {
        assert rest[j] in s[1..];
      }
    }
  }

  lemma FilterKeysBelow<T(!new)>(s: seq<T>, keep: T -> bool, key: T -> nat, bound: nat)
    ensures KeysBelow(s, key, bound) ==> KeysBelow(Filter(s, keep), key, bound)
  {
  }

  /** The key generator after records with explicit keys are added: it is
      raised past every such key and never lowered. */
  function BumpGenerator<T>(gen: nat, s: seq<T>, key: T -> nat): (r: nat)
    ensures gen <= r
    ensures KeysBelow(s, key, r)
    ensures KeysBelow(s, key, gen) ==> r == gen
    decreases |s|
  {
    if |s| == 0 then gen
    else
      var g := if key(s[0]) + 1 > gen then key(s[0]) + 1 else gen;
      BumpGenerator(g, s[1..], key)
  }
}

/** Sequence helpers shared by the model: removal of a set of elements, distinctness. */
module Collections {

  /** No element occurs twice. */
  predicate Distinct<T(==)>(s: seq<T>) {
    forall i, j :: 0 <= i < j < |s| ==> s[i] != s[j]
  }

  /** `s` without the elements in `gone`, in the original order. */
  function Without<T(==)>(s: seq<T>, gone: set<T>): (r: seq<T>)
    ensures forall x :: x in r ==> x in s && x !in gone
    ensures forall x :: x in s && x !in gone ==> x in r
    ensures |r| <= |s|
    ensures multiset(r) <= multiset(s)
  {
    if s == [] then []
    else
      assert s == [s[0]] + s[1..];
      if s[0] in gone then Without(s[1..], gone)
      else [s[0]] + Without(s[1..], gone)
  }

  /** Removal keeps every element outside `gone` as often as it occurs, and no copy of the others. */
  lemma {:induction false} WithoutMultiplicity<T>(s: seq<T>, gone: set<T>, x: T)
    ensures multiset(Without(s, gone))[x] == if x in gone then 0 else multiset(s)[x]
  {
    if s != [] {
      WithoutMultiplicity(s[1..], gone, x);
      WithoutHead(s, gone);
      assert s == [s[0]] + s[1..];
    }
  }

  /** Removal works piece by piece: the kept elements of a concatenation, in order. */
  lemma {:induction false} WithoutAppend<T>(a: seq<T>, b: seq<T>, gone: set<T>)
    ensures Without(a + b, gone) == Without(a, gone) + Without(b, gone)
  {
    if a == [] {
      assert a + b == b;
    } else {
      TailOfAppend(a, b);
      WithoutAppend(a[1..], b, gone);
      WithoutHead(a, gone);
      WithoutHead(a + b, gone);
      if a[0] !in gone {
        AppendAssociative([a[0]], Without(a[1..], gone), Without(b, gone));
      }
    }
  }

  /** One step of removal: the head is dropped or kept. */
  lemma WithoutHead<T>(s: seq<T>, gone: set<T>)
    requires s != []
    ensures s[0] in gone ==> Without(s, gone) == Without(s[1..], gone)
    ensures s[0] !in gone ==> Without(s, gone) == [s[0]] + Without(s[1..], gone)
  {
  }

  lemma TailOfAppend<T>(a: seq<T>, b: seq<T>)
    requires a != []
    ensures (a + b)[0] == a[0] && (a + b)[1..] == a[1..] + b
  {
  }

  lemma AppendAssociative<T>(x: seq<T>, y: seq<T>, z: seq<T>)
    ensures x + (y + z) == (x + y) + z
  {
  }

  /** Removing one set and then another is removing their union. */
  lemma {:induction false} WithoutTwice<T>(s: seq<T>, a: set<T>, b: set<T>)
    ensures Without(Without(s, a), b) == Without(s, a + b)
  {
    if s != [] {
      WithoutTwice(s[1..], a, b);
      if s[0] !in a {
        assert Without(s, a)[1..] == Without(s[1..], a);
      }
    }
  }

  /** Removing elements keeps a sequence free of repetitions. */
  lemma {:induction false} WithoutDistinct<T>(s: seq<T>, gone: set<T>)
    requires Distinct(s)
    ensures Distinct(Without(s, gone))
  {
    if s != [] {
      WithoutDistinct(s[1..], gone);
    }
  }

  /** Removing elements that do not occur changes nothing. */
  lemma {:induction false} WithoutAbsent<T>(s: seq<T>, gone: set<T>)
    requires forall x :: x in gone ==> x !in s
    ensures Without(s, gone) == s
  {
    if s != [] {
      WithoutAbsent(s[1..], gone);
    }
  }

  /** A repetition-free sequence holds each of its elements exactly once. */
  lemma {:induction false} DistinctMultiplicity<T>(s: seq<T>, x: T)
    requires Distinct(s)
    ensures multiset(s)[x] == if x in s then 1 else 0
  {
    if s != [] {
      assert s == [s[0]] + s[1..];
      DistinctMultiplicity(s[1..], x);
    }
  }

  /** A permutation of a repetition-free sequence is repetition-free. */
  lemma PermutationDistinct<T>(s: seq<T>, r: seq<T>)
    requires Distinct(s) && multiset(r) == multiset(s)
    ensures Distinct(r)
  {
    forall i, j | 0 <= i < j < |r| ensures r[i] != r[j] {
      if r[i] == r[j] {
        assert r == r[..i] + [r[i]] + r[i + 1..j] + [r[j]] + r[j + 1..];
        assert multiset(r)[r[i]] >= 2;
        DistinctMultiplicity(s, r[i]);
      }
    }
  }

  /** The elements at the given positions of `listed`, in the order of `offsets`. */
  function AtOffsets<T>(listed: seq<T>, offsets: seq<nat>): (r: seq<T>)
    requires forall k :: 0 <= k < |offsets| ==> offsets[k] < |listed|
    ensures |r| == |offsets|
    ensures forall k :: 0 <= k < |offsets| ==> r[k] == listed[offsets[k]]
  {
    if offsets == [] then [] else AtOffsets(listed, offsets[..|offsets| - 1]) + [listed[offsets[|offsets| - 1]]]
  }

  /** The set of elements of `s`. */
  function Elements<T(==)>(s: seq<T>): (r: set<T>)
    ensures |r| <= |s|
  {
    if s == [] then {} else Elements(s[..|s| - 1]) + {s[|s| - 1]}
  }

  lemma {:induction false} ElementsAreMembers<T>(s: seq<T>, x: T)
    ensures x in Elements(s) <==> x in s
  {
    if s != [] {
      ElementsAreMembers(s[..|s| - 1], x);
      assert s == s[..|s| - 1] + [s[|s| - 1]];
    }
  }

  lemma ElementsAppend<T>(s: seq<T>, x: T)
    ensures Elements(s + [x]) == Elements(s) + {x}
  {
    assert (s + [x])[..|s|] == s;
  }

  lemma ElementsGrow<T>(s: seq<T>, k: nat)
    requires k < |s|
    ensures Elements(s[..k + 1]) == Elements(s[..k]) + {s[k]}
  {
    assert s[..k + 1][..k] == s[..k];
  }

  /**
   * The elements of `s[lo..hi]` whose offsets are in `source` (when `moved`) or are not
   * (otherwise), in their original order.
   */
  function Pick<T>(s: seq<T>, source: set<nat>, lo: nat, hi: nat, moved: bool): (r: seq<T>)
    requires lo <= hi <= |s|
    ensures |r| <= hi - lo
    decreases hi - lo
  {
    if lo == hi then []
    else (if (lo in source) == moved then [s[lo]] else []) + Pick(s, source, lo + 1, hi, moved)
  }

  /**
   * `Array.move(fromOffsets:toOffset:)`: the elements at the offsets in `source` are
   * taken out, keeping their order, and inserted before the element that stood at
   * offset `destination` (at the end when `destination == |s|`).
   */
  function Move<T>(s: seq<T>, source: set<nat>, destination: nat): (r: seq<T>)
    requires destination <= |s|
  {
    Pick(s, source, 0, destination, false) + Pick(s, source, 0, |s|, true)
      + Pick(s, source, destination, |s|, false)
  }

  /** Picking over two adjacent ranges is picking over their union. */
  lemma {:induction false} PickSplit<T>(s: seq<T>, source: set<nat>, lo: nat, mid: nat, hi: nat, moved: bool)
    requires lo <= mid <= hi <= |s|
    ensures Pick(s, source, lo, hi, moved) == Pick(s, source, lo, mid, moved) + Pick(s, source, mid, hi, moved)
    decreases mid - lo
  {
    if lo < mid {
      PickSplit(s, source, lo + 1, mid, hi, moved);
    }
  }

  /** The moved and the unmoved elements of a range together are the range. */
  lemma {:induction false} PickPartition<T>(s: seq<T>, source: set<nat>, lo: nat, hi: nat)
    requires lo <= hi <= |s|
    ensures multiset(Pick(s, source, lo, hi, true)) + multiset(Pick(s, source, lo, hi, false))
      == multiset(s[lo..hi])
    decreases hi - lo
  {
    if lo < hi {
      PickPartition(s, source, lo + 1, hi);
      HeadMultiset(s, lo, hi);
    }
  }

  /** The multiset of a non-empty slice is its first element plus the multiset of the rest. */
  lemma HeadMultiset<T>(s: seq<T>, lo: nat, hi: nat)
    requires lo < hi <= |s|
    ensures multiset(s[lo..hi]) == multiset{s[lo]} + multiset(s[lo + 1..hi])
  {
    assert s[lo..hi] == [s[lo]] + s[lo + 1..hi];
  }

  /** The move is a permutation: nothing is added, lost or duplicated. */
  lemma MovePermutes<T>(s: seq<T>, source: set<nat>, destination: nat)
    requires destination <= |s|
    ensures multiset(Move(s, source, destination)) == multiset(s)
  {
    var before := Pick(s, source, 0, destination, false);
    var after := Pick(s, source, destination, |s|, false);
    var movedBefore := Pick(s, source, 0, destination, true);
    var movedAfter := Pick(s, source, destination, |s|, true);
    PickSplit(s, source, 0, destination, |s|, true);
    PickPartition(s, source, 0, destination);
    PickPartition(s, source, destination, |s|);
    SplitMultiset(s, destination);
    calc {
      multiset(Move(s, source, destination));
      multiset(before) + multiset(movedBefore + movedAfter) + multiset(after);
      (multiset(movedBefore) + multiset(before)) + (multiset(movedAfter) + multiset(after));
      multiset(s);
    }
  }

  /** Cutting a sequence in two splits its multiset of elements. */
  lemma SplitMultiset<T>(s: seq<T>, k: nat)
    requires k <= |s|
    ensures multiset(s[0..k]) + multiset(s[k..|s|]) == multiset(s)
  {
    assert s[0..k] + s[k..|s|] == s;
  }

  /**
   * The elements that are not moved keep their relative order: dropping the moved block
   * from the result leaves the unmoved elements of `s` in their original order.
   */
  lemma MoveKeepsOrder<T>(s: seq<T>, source: set<nat>, destination: nat)
    requires destination <= |s|
    ensures var before := Pick(s, source, 0, destination, false);
      var r := Move(s, source, destination);
      r[..|before|] + r[|before| + |Pick(s, source, 0, |s|, true)|..] == Pick(s, source, 0, |s|, false)
  {
    PickSplit(s, source, 0, destination, |s|, false);
    var before := Pick(s, source, 0, destination, false);
    var block := Pick(s, source, 0, |s|, true);
    var r := Move(s, source, destination);
    assert r[..|before|] == before;
    assert r[|before| + |block|..] == Pick(s, source, destination, |s|, false);
  }
}

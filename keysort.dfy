/**
 * `Array.prototype.sort` with no comparator, on arrays of strings: the order in which
 * `calculateHash` lists an object's keys. Strings compare character by character and a
 * proper prefix comes first. The result is the unique sorted permutation of the input.
 */
module KeySort {

  /** `a` sorts no later than `b`. */
  predicate Le(a: string, b: string)
    decreases |a|
  {
    a == [] || (b != [] && (a[0] < b[0] || (a[0] == b[0] && Le(a[1..], b[1..]))))
  }

  lemma {:induction false} LeReflexive(a: string)
    ensures Le(a, a)
    decreases |a|
  {
    if a != [] {
      LeReflexive(a[1..]);
    }
  }

  lemma {:induction false} LeTotal(a: string, b: string)
    ensures Le(a, b) || Le(b, a)
    decreases |a|
  {
    if a != [] && b != [] && a[0] == b[0] {
      LeTotal(a[1..], b[1..]);
    }
  }

  lemma {:induction false} LeAntisymmetric(a: string, b: string)
    requires Le(a, b) && Le(b, a)
    ensures a == b
    decreases |a|
  {
    if a != [] {
      LeAntisymmetric(a[1..], b[1..]);
      assert a == [a[0]] + a[1..] && b == [b[0]] + b[1..];
    }
  }

  lemma {:induction false} LeTransitive(a: string, b: string, c: string)
    requires Le(a, b) && Le(b, c)
    ensures Le(a, c)
    decreases |a|
  {
    if a != [] && a[0] == b[0] && b[0] == c[0] {
      LeTransitive(a[1..], b[1..], c[1..]);
    }
  }

  predicate Sorted(s: seq<string>) {
    forall i, j :: 0 <= i < j < |s| ==> Le(s[i], s[j])
  }

  /** Places `x` into the sorted `s` before the first element it does not follow. */
  function Insert(x: string, s: seq<string>): (r: seq<string>)
    ensures multiset(r) == multiset(s) + multiset{x}
  {
    if s == [] || Le(x, s[0]) then [x] + s
    else
      assert s == [s[0]] + s[1..];
      [s[0]] + Insert(x, s[1..])
  }

  /** The sort the source applies to `Object.keys(block)`. */
  function Sort(s: seq<string>): (r: seq<string>)
    ensures multiset(r) == multiset(s)
  {
    if s == [] then []
    else
      assert s == [s[0]] + s[1..];
      Insert(s[0], Sort(s[1..]))
  }

  lemma {:induction false} InsertSorted(x: string, s: seq<string>)
    requires Sorted(s)
    ensures Sorted(Insert(x, s))
  {
    if s == [] || Le(x, s[0]) {
      forall j | 0 <= j < |s| ensures Le(x, s[j]) {
        if j > 0 { LeTransitive(x, s[0], s[j]); }
      }
      ConsSorted(x, s);
    } else {
      LeTotal(x, s[0]);
      InsertSorted(x, s[1..]);
      var t := Insert(x, s[1..]);
      AllFollowHead(s, x, t);
      ConsSorted(s[0], t);
    }
  }

  /** A sorted list stays sorted with an element in front that sorts before all of it. */
  lemma ConsSorted(h: string, t: seq<string>)
    requires Sorted(t)
    requires forall j :: 0 <= j < |t| ==> Le(h, t[j])
    ensures Sorted([h] + t)
  {
    var r := [h] + t;
    forall p, q | 0 <= p < q < |r| ensures Le(r[p], r[q]) {
      if p > 0 {
        assert r[p] == t[p - 1] && r[q] == t[q - 1];
      } else {
        assert r[q] == t[q - 1];
      }
    }
  }

  /** The tail of a sorted list, with `x` added, still follows the head, if `x` does. */
  lemma AllFollowHead(s: seq<string>, x: string, t: seq<string>)
    requires Sorted(s) && s != [] && Le(s[0], x)
    requires multiset(t) == multiset(s[1..]) + multiset{x}
    ensures forall j :: 0 <= j < |t| ==> Le(s[0], t[j])
  {
    forall j | 0 <= j < |t| ensures Le(s[0], t[j]) {
      assert t[j] in multiset(t);
      if t[j] != x {
        assert t[j] in multiset(s[1..]);
        var k :| 0 <= k < |s[1..]| && s[1..][k] == t[j];
        assert s[k + 1] == t[j];
      }
    }
  }

  lemma {:induction false} SortSorted(s: seq<string>)
    ensures Sorted(Sort(s))
  {
    if s != [] {
      SortSorted(s[1..]);
      InsertSorted(s[0], Sort(s[1..]));
    }
  }

  /** The head of a sorted list sorts no later than any of its elements. */
  lemma HeadIsLeast(a: seq<string>, x: string)
    requires Sorted(a) && x in a
    ensures Le(a[0], x)
  {
    var i :| 0 <= i < |a| && a[i] == x;
    if i == 0 { LeReflexive(x); }
  }

  lemma TailOfSorted(a: seq<string>)
    requires Sorted(a) && a != []
    ensures Sorted(a[1..])
  {
  }

  lemma SameHeadSameTail(a: seq<string>, b: seq<string>)
    requires a != [] && b != [] && a[0] == b[0] && multiset(a) == multiset(b)
    ensures multiset(a[1..]) == multiset(b[1..])
  {
    assert a == [a[0]] + a[1..] && b == [b[0]] + b[1..];
    assert multiset(a[1..]) == multiset(a) - multiset{a[0]};
    assert multiset(b[1..]) == multiset(b) - multiset{b[0]};
  }

  /** A sorted list is determined by the multiset of its elements. */
  lemma {:induction false} SortedUnique(a: seq<string>, b: seq<string>)
    requires Sorted(a) && Sorted(b) && multiset(a) == multiset(b)
    ensures a == b
  {
    if a != [] {
      assert a[0] in multiset(b);
      assert b[0] in multiset(a);
      HeadIsLeast(a, b[0]);
      HeadIsLeast(b, a[0]);
      LeAntisymmetric(a[0], b[0]);
      SameHeadSameTail(a, b);
      TailOfSorted(a);
      TailOfSorted(b);
      SortedUnique(a[1..], b[1..]);
      assert a == [a[0]] + a[1..] && b == [b[0]] + b[1..];
    }
  }

  /** Sorting ignores the order of its input: the key order an object was built in does not
      reach the sorted key list. */
  lemma SortIgnoresOrder(a: seq<string>, b: seq<string>)
    requires multiset(a) == multiset(b)
    ensures Sort(a) == Sort(b)
  {
    SortSorted(a);
    SortSorted(b);
    SortedUnique(Sort(a), Sort(b));
  }

  /** `s` with every occurrence of `k` removed. */
  function Without(s: seq<string>, k: string): (r: seq<string>)
    ensures multiset(r) == multiset(s)[k := 0]
  {
    if s == [] then []
    else
      assert s == [s[0]] + s[1..];
      (if s[0] == k then [] else [s[0]]) + Without(s[1..], k)
  }

  lemma {:induction false} WithoutSorted(s: seq<string>, k: string)
    requires Sorted(s)
    ensures Sorted(Without(s, k))
  {
    if s != [] {
      WithoutSorted(s[1..], k);
      var t := Without(s[1..], k);
      forall j | 0 <= j < |t| ensures Le(s[0], t[j]) {
        assert t[j] in multiset(t);
        assert t[j] in multiset(s[1..]);
        var m :| 0 <= m < |s[1..]| && s[1..][m] == t[j];
      }
    }
  }

  /** Sorting a key list with an extra key and then removing that key gives the sorted key
      list without it. */
  lemma SortThenDrop(s: seq<string>, extra: seq<string>, k: string)
    requires k !in s
    requires multiset(extra) == multiset(s) + multiset{k}
    ensures Without(Sort(extra), k) == Sort(s)
  {
    SortSorted(extra);
    WithoutSorted(Sort(extra), k);
    SortSorted(s);
    assert multiset(s)[k] == 0;
    assert multiset(Without(Sort(extra), k)) == multiset(s);
    SortedUnique(Without(Sort(extra), k), Sort(s));
  }

  /** Taking one element out of a sorted list leaves it sorted. */
  lemma SortedDropAt(s: seq<string>, j: nat)
    requires Sorted(s) && j < |s|
    ensures Sorted(s[..j] + s[j + 1..])
  {
    var t := s[..j] + s[j + 1..];
    forall p, q | 0 <= p < q < |t| ensures Le(t[p], t[q]) {
      assert t[p] == s[if p < j then p else p + 1];
      assert t[q] == s[if q < j then q else q + 1];
    }
  }

  /** Sorting a list with one more element `k` and then taking `k` out gives the sorted list. */
  lemma SortDropInserted(s: seq<string>, k: string, before: seq<string>, after: seq<string>)
    requires Sort(s + [k]) == before + [k] + after
    ensures Sort(s) == before + after
  {
    DropInsertedSameElements(s, k, before, after);
    DropInsertedSorted(s, k, before, after);
    SortSorted(s);
    SortedUnique(before + after, Sort(s));
  }

  lemma DropInsertedSameElements(s: seq<string>, k: string, before: seq<string>, after: seq<string>)
    requires multiset(before + [k] + after) == multiset(s + [k])
    ensures multiset(before + after) == multiset(s)
  {
    var m1, m2 := multiset(before + after), multiset(s);
    assert multiset(before + [k] + after) == m1 + multiset{k};
    assert multiset(s + [k]) == m2 + multiset{k};
    assert m1 == (m1 + multiset{k}) - multiset{k};
    assert m2 == (m2 + multiset{k}) - multiset{k};
  }

  lemma DropInsertedSorted(s: seq<string>, k: string, before: seq<string>, after: seq<string>)
    requires Sort(s + [k]) == before + [k] + after
    ensures Sorted(before + after)
  {
    SortSorted(s + [k]);
    SortedDropOne(before, k, after);
  }

  lemma SortedDropOne(before: seq<string>, k: string, after: seq<string>)
    requires Sorted(before + [k] + after)
    ensures Sorted(before + after)
  {
    var u := before + [k] + after;
    SortedDropAt(u, |before|);
    assert u[..|before|] + u[|before| + 1..] == before + after;
  }
}

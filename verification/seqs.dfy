/** Sequence operations the task lists are built from: JavaScript's
    `Array.prototype.filter` and `Array.prototype.splice`, as pure functions
    over `seq`, with the facts the stores rely on. */
module Seqs {

  function Min(a: int, b: int): int { if a <= b then a else b }

  /** `a` is obtained from `b` by deleting elements: `a` keeps `b`'s relative order. */
  ghost predicate IsSubsequence<T>(a: seq<T>, b: seq<T>)
    decreases |b|
  {
    a == [] ||
    (b != [] && ((a[0] == b[0] && IsSubsequence(a[1..], b[1..])) || IsSubsequence(a, b[1..])))
  }

  /** `s.filter(p)`: the elements of `s` that satisfy `p`, in their order in `s`. */
  function Filter<T>(s: seq<T>, p: T -> bool): (r: seq<T>)
    ensures |r| <= |s|
    ensures forall x | x in r :: x in s && p(x)
    ensures forall i | 0 <= i < |s| :: p(s[i]) ==> s[i] in r
    ensures multiset(r) <= multiset(s)
  {
    if s == [] then []
    else
      assert s == [s[0]] + s[1..];
      if p(s[0]) then [s[0]] + Filter(s[1..], p) else Filter(s[1..], p)
  }

  lemma {:induction false} FilterIsSubsequence<T>(s: seq<T>, p: T -> bool)
    ensures IsSubsequence(Filter(s, p), s)
  {
    if s != [] {
      FilterIsSubsequence(s[1..], p);
      if p(s[0]) {
        var r := Filter(s, p);
        assert r[0] == s[0] && r[1..] == Filter(s[1..], p);
      } else {
        var r := Filter(s[1..], p);
        assert r == [] || IsSubsequence(r, s[1..]);
      }
    }
  }

  /** `filter` keeps every copy of each element that passes and no copy of any other:
      an element occurs in the result as often as in the input when it passes, else never. */
  lemma {:induction false} FilterCounts<T>(s: seq<T>, p: T -> bool)
    ensures forall y :: multiset(Filter(s, p))[y] == if p(y) then multiset(s)[y] else 0
  {
    if s != [] {
      FilterCounts(s[1..], p);
      assert s == [s[0]] + s[1..];
    }
  }

  /** A filter that every element passes returns its input. */
  lemma {:induction false} FilterKeepsAll<T>(s: seq<T>, p: T -> bool)
    requires forall x :: x in s ==> p(x)
    ensures Filter(s, p) == s
  {
    if s != [] {
      assert s[0] in s;
      FilterKeepsAll(s[1..], p);
      assert [s[0]] + s[1..] == s;
    }
  }

  /** A filter that no element passes returns the empty list. */
  lemma FilterKeepsNone<T>(s: seq<T>, p: T -> bool)
    requires forall x :: x in s ==> !p(x)
    ensures Filter(s, p) == []
  {
  }

  /** Filters by predicates that agree on every element give the same list. */
  lemma {:induction false} FilterSamePredicate<T>(s: seq<T>, p: T -> bool, q: T -> bool)
    requires forall x | x in s :: p(x) == q(x)
    ensures Filter(s, p) == Filter(s, q)
  {
    if s != [] {
      assert s[0] in s;
      FilterSamePredicate(s[1..], p, q);
    }
  }

  /** Filtering a concatenation filters each part. */
  lemma {:induction false} FilterAppend<T>(a: seq<T>, b: seq<T>, p: T -> bool)
    ensures Filter(a + b, p) == Filter(a, p) + Filter(b, p)
  {
    if a == [] {
      assert a + b == b;
    } else {
      var ab := a + b;
      assert ab[0] == a[0] && ab[1..] == a[1..] + b;
      FilterAppend(a[1..], b, p);
      if p(a[0]) {
        assert Filter(ab, p) == [a[0]] + Filter(a[1..] + b, p);
        assert Filter(a, p) == [a[0]] + Filter(a[1..], p);
      } else {
        assert Filter(ab, p) == Filter(a[1..] + b, p);
        assert Filter(a, p) == Filter(a[1..], p);
      }
    }
  }

  /** A filter and its complement split the input: their lengths add up to the input's. */
  lemma {:induction false} FilterSplitsLength<T>(s: seq<T>, p: T -> bool, q: T -> bool)
    requires forall x :: q(x) == !p(x)
    ensures |Filter(s, p)| + |Filter(s, q)| == |s|
  {
    if s != [] {
      FilterSplitsLength(s[1..], p, q);
    }
  }

  /** What `s.splice(...)` returns (the removed elements) and what it leaves in `s`. */
  datatype Spliced<T> = Spliced(removed: seq<T>, rest: seq<T>)

  /** `s.splice(start, deleteCount, ...items)` for non-negative arguments: a start beyond
      the end is clamped to the end, and no more elements are removed than exist. */
  function Splice<T>(s: seq<T>, start: nat, deleteCount: nat, items: seq<T>): (r: Spliced<T>)
    ensures |r.removed| == Min(deleteCount, |s| - Min(start, |s|))
    ensures |r.rest| == |s| - |r.removed| + |items|
    ensures multiset(r.rest) + multiset(r.removed) == multiset(s) + multiset(items)
  {
    var at := Min(start, |s|);
    var end := at + Min(deleteCount, |s| - at);
    assert s == s[..at] + s[at..end] + s[end..];
    Spliced(s[at..end], s[..at] + items + s[end..])
  }

  /** Splicing the removed elements back where they came from restores the array
      (for a start inside the array: beyond the end the inserted items shift the end). */
  lemma SpliceUndo<T>(s: seq<T>, start: nat, deleteCount: nat, items: seq<T>)
    requires start <= |s|
    ensures var r := Splice(s, start, deleteCount, items);
            Splice(r.rest, start, |items|, r.removed).rest == s
  {
    var end := start + Min(deleteCount, |s| - start);
    var r := Splice(s, start, deleteCount, items);
    assert r.rest[..start] == s[..start] && r.rest[start + |items|..] == s[end..];
    assert s[..start] + s[start..end] + s[end..] == s;
  }
}

/**
 Generic sequence helpers shared by the model: order-preserving filter,
 flattening, first-occurrence de-duplication and duplicate-freedom.
 These are the list operations the source performs with `Array.filter`,
 `Array.flatMap` and `new Set([...])`.
 */
module Seqs {

  /** Keeps, in order, the elements satisfying `p` (`Array.prototype.filter`). */
  function Filter<T(==,!new)>(s: seq<T>, p: T -> bool): (r: seq<T>)
    ensures |r| <= |s|
    ensures forall x :: x in r <==> x in s && p(x)
    ensures forall i :: 0 <= i < |r| ==> p(r[i])
  {
    if |s| == 0 then []
    else if p(s[0]) then [s[0]] + Filter(s[1..], p)
    else Filter(s[1..], p)
  }

  /** A filter keeps elements in their original order. */
  lemma {:induction false} FilterIsSubseq<T(!new)>(s: seq<T>, p: T -> bool)
    ensures IsSubseq(Filter(s, p), s)
  {
    if |s| > 0 {
      FilterIsSubseq(s[1..], p);
    }
  }

  /** `a` is obtained from `b` by deleting elements: `a`'s elements appear in `b` in the same order. */
  predicate IsSubseq<T(==)>(a: seq<T>, b: seq<T>)
    decreases |b|
  {
    |a| == 0 || (|b| > 0 && ((a[0] == b[0] && IsSubseq(a[1..], b[1..])) || IsSubseq(a, b[1..])))
  }

  /** Every element of a subsequence is an element of the sequence. */
  lemma {:induction false} SubseqMembers<T>(a: seq<T>, b: seq<T>)
    requires IsSubseq(a, b)
    ensures forall x :: x in a ==> x in b
    decreases |b|
  {
    if |a| > 0 {
      if a[0] == b[0] && IsSubseq(a[1..], b[1..]) {
        SubseqMembers(a[1..], b[1..]);
        assert forall x :: x in a ==> x == a[0] || x in a[1..];
      } else {
        SubseqMembers(a, b[1..]);
      }
    }
  }

  /** Filtering a sequence with a known first element. */
  lemma FilterCons<T(!new)>(x: T, s: seq<T>, p: T -> bool)
    ensures Filter([x] + s, p) == (if p(x) then [x] else []) + Filter(s, p)
  {
    var xs := [x] + s;
    assert xs[0] == x && xs[1..] == s;
    if !p(x) {
      assert Filter(xs, p) == Filter(s, p);
    }
  }

  /** Filtering a sequence that starts with two known elements. */
  lemma FilterTwoThen<T(!new)>(x: T, y: T, d: seq<T>, p: T -> bool)
    ensures Filter([x, y] + d, p) == (if p(x) then [x] else []) + (if p(y) then [y] else []) + Filter(d, p)
  {
    FilterAppend([x, y], d, p);
    FilterTwo(x, y, p);
  }

  lemma FilterTwo<T(!new)>(x: T, y: T, p: T -> bool)
    ensures Filter([x, y], p) == (if p(x) then [x] else []) + (if p(y) then [y] else [])
  {
    assert [x, y][1..] == [y];
    FilterOne(y, p);
  }

  lemma FilterOne<T(!new)>(z: T, p: T -> bool)
    ensures Filter([z], p) == if p(z) then [z] else []
  {
    assert [z][1..] == [];
  }

  /** Of three known elements and a block that fails `p`, only the second element passes. */
  lemma FilterOnlySecond<T(!new)>(a: T, t: T, c: T, body: seq<T>, rest: seq<T>, p: T -> bool)
    requires !p(a) && p(t) && !p(c)
    requires forall i :: 0 <= i < |body| ==> !p(body[i])
    ensures Filter([a, t, c] + body + rest, p) == [t] + Filter(rest, p)
  {
    FilterAppend([a, t, c] + body, rest, p);
    FilterAppend([a, t, c], body, p);
    FilterNone(body, p);
    FilterThree(a, t, c, p);
    assert [t] + [] == [t];
  }

  lemma FilterThree<T(!new)>(a: T, t: T, c: T, p: T -> bool)
    ensures Filter([a, t, c], p) == (if p(a) then [a] else []) + (if p(t) then [t] else []) + (if p(c) then [c] else [])
  {
    assert [a, t, c] == [a, t] + [c];
    FilterTwoThen(a, t, [c], p);
    FilterOne(c, p);
  }

  lemma {:induction false} FilterAppend<T(!new)>(a: seq<T>, b: seq<T>, p: T -> bool)
    ensures Filter(a + b, p) == Filter(a, p) + Filter(b, p)
  {
    if |a| == 0 {
      assert a + b == b;
    } else {
      assert (a + b)[1..] == a[1..] + b;
      FilterAppend(a[1..], b, p);
    }
  }

  /** Filtering out one failing element between two passing blocks joins the blocks. */
  lemma FilterDropOne<T(!new)>(a: seq<T>, x: T, b: seq<T>, p: T -> bool)
    requires !p(x)
    requires forall j :: 0 <= j < |a| ==> p(a[j])
    requires forall j :: 0 <= j < |b| ==> p(b[j])
    ensures Filter(a + [x] + b, p) == a + b
  {
    assert Filter(a + [x], p) == a by {
      FilterAppend(a, [x], p);
      FilterOne(x, p);
      FilterAll(a, p);
    }
    FilterAppend(a + [x], b, p);
    FilterAll(b, p);
  }

  /** Filtering twice with the same predicate changes nothing the second time. */
  lemma {:induction false} FilterIdempotent<T(!new)>(s: seq<T>, p: T -> bool)
    ensures Filter(Filter(s, p), p) == Filter(s, p)
  {
    if |s| > 0 {
      FilterIdempotent(s[1..], p);
    }
  }

  /** A filter keeps exactly the elements of `s` when all of them pass. */
  lemma {:induction false} FilterAll<T(!new)>(s: seq<T>, p: T -> bool)
    requires forall i :: 0 <= i < |s| ==> p(s[i])
    ensures Filter(s, p) == s
  {
    if |s| > 0 {
      FilterAll(s[1..], p);
    }
  }

  /** Filtering by a predicate no element satisfies leaves nothing. */
  lemma {:induction false} FilterNone<T(!new)>(s: seq<T>, p: T -> bool)
    requires forall i :: 0 <= i < |s| ==> !p(s[i])
    ensures Filter(s, p) == []
  {
    if |s| > 0 {
      FilterNone(s[1..], p);
    }
  }

  /** Number of elements satisfying `p`; equals the length of the filter. */
  function CountIf<T(==,!new)>(s: seq<T>, p: T -> bool): (n: nat)
    ensures n == |Filter(s, p)|
    ensures n <= |s|
  {
    if |s| == 0 then 0 else (if p(s[0]) then 1 else 0) + CountIf(s[1..], p)
  }

  /** Concatenation of a sequence of sequences (`Array.prototype.flat`). */
  function Flatten<T>(ss: seq<seq<T>>): seq<T>
  {
    if |ss| == 0 then [] else ss[0] + Flatten(ss[1..])
  }

  function SumLengths<T>(ss: seq<seq<T>>): nat
  {
    if |ss| == 0 then 0 else |ss[0]| + SumLengths(ss[1..])
  }

  lemma {:induction false} FlattenLength<T>(ss: seq<seq<T>>)
    ensures |Flatten(ss)| == SumLengths(ss)
  {
    if |ss| > 0 {
      FlattenLength(ss[1..]);
    }
  }

  lemma {:induction false} FlattenAppend<T>(a: seq<seq<T>>, b: seq<seq<T>>)
    ensures Flatten(a + b) == Flatten(a) + Flatten(b)
  {
    if |a| == 0 {
      assert a + b == b;
    } else {
      assert (a + b)[1..] == a[1..] + b;
      FlattenAppend(a[1..], b);
    }
  }

  /** Flatten of a prefix followed by the element at `i` is a prefix of Flatten. */
  lemma {:induction false} FlattenPrefix<T>(ss: seq<seq<T>>, i: nat)
    requires i < |ss|
    ensures Flatten(ss) == Flatten(ss[..i]) + ss[i] + Flatten(ss[i + 1..])
  {
    assert ss == ss[..i] + [ss[i]] + ss[i + 1..];
    FlattenAppend(ss[..i] + [ss[i]], ss[i + 1..]);
    FlattenAppend(ss[..i], [ss[i]]);
    assert Flatten([ss[i]]) == ss[i] + Flatten([ss[i]][1..]);
    assert [ss[i]][1..] == [];
  }

  predicate NoDuplicates<T(==)>(s: seq<T>)
  {
    forall i, j :: 0 <= i < j < |s| ==> s[i] != s[j]
  }

  /** The position of the first occurrence of `x` in `s`. */
  function FirstIndex<T(==)>(s: seq<T>, x: T): (i: nat)
    requires x in s
    ensures i < |s| && s[i] == x
    ensures forall j :: 0 <= j < i ==> s[j] != x
  {
    if s[0] == x then 0
    else
      assert x in s[1..];
      1 + FirstIndex(s[1..], x)
  }

  /** The elements of `r`, all taken from `s`, come in the order of their first occurrences in `s`. */
  predicate FirstOccurrenceOrder<T(==)>(r: seq<T>, s: seq<T>)
  {
    forall i, j :: 0 <= i < j < |r| && r[i] in s && r[j] in s ==> FirstIndex(s, r[i]) < FirstIndex(s, r[j])
  }

  /** The elements of `s` in first-occurrence order, each once (`new Set(s)` iteration order). */
  function Dedup<T(==,!new)>(s: seq<T>): (r: seq<T>)
    ensures NoDuplicates(r)
    ensures forall x :: x in r <==> x in s
    ensures |r| <= |s|
    ensures IsSubseq(r, s)
    ensures FirstOccurrenceOrder(r, s)
  {
    var r := DedupFrom(s, []);
    assert [] + r == r;
    DedupFromOrder(s, []);
    r
  }

  /** De-duplication continuing after the already-kept elements `seen`. */
  function DedupFrom<T(==,!new)>(s: seq<T>, seen: seq<T>): (r: seq<T>)
    requires NoDuplicates(seen)
    ensures NoDuplicates(seen + r)
    ensures forall x :: x in r <==> x in s && x !in seen
    ensures |r| <= |s|
    decreases |s|
  {
    if |s| == 0 then []
    else if s[0] in seen then DedupFrom(s[1..], seen)
    else
      var rest := DedupFrom(s[1..], seen + [s[0]]);
      assert seen + [s[0]] + rest == seen + ([s[0]] + rest);
      [s[0]] + rest
  }

  /** What de-duplication keeps is a subsequence of `s` in first-occurrence order. */
  lemma {:induction false} DedupFromOrder<T(!new)>(s: seq<T>, seen: seq<T>)
    requires NoDuplicates(seen)
    ensures IsSubseq(DedupFrom(s, seen), s)
    ensures FirstOccurrenceOrder(DedupFrom(s, seen), s)
    decreases |s|
  {
    if |s| > 0 {
      if s[0] in seen {
        DedupFromOrder(s[1..], seen);
        FirstIndexShift(s, DedupFrom(s[1..], seen));
      } else {
        var seen' := seen + [s[0]];
        DedupFromOrder(s[1..], seen');
        var rest := DedupFrom(s[1..], seen');
        FirstIndexShift(s, rest);
        ConsOrder(s, rest);
      }
    }
  }

  /**
   Dropping the head of `s` keeps the first-occurrence order of elements
   other than that head, and places them all after it.
   */
  lemma FirstIndexShift<T>(s: seq<T>, rest: seq<T>)
    requires |s| > 0
    requires forall x :: x in rest ==> x in s[1..] && x != s[0]
    requires FirstOccurrenceOrder(rest, s[1..])
    ensures FirstOccurrenceOrder(rest, s)
    ensures forall x :: x in rest ==> FirstIndex(s, x) == 1 + FirstIndex(s[1..], x)
    ensures IsSubseq(rest, s[1..]) ==> IsSubseq(rest, s)
  {
    forall i, j | 0 <= i < j < |rest| && rest[i] in s && rest[j] in s
      ensures FirstIndex(s, rest[i]) < FirstIndex(s, rest[j])
    {
      assert rest[i] in rest && rest[j] in rest;
    }
  }

  /** The head of `s` followed by later elements in first-occurrence order is again in that order. */
  lemma ConsOrder<T>(s: seq<T>, rest: seq<T>)
    requires |s| > 0
    requires forall x :: x in rest ==> x in s[1..] && x != s[0]
    requires FirstOccurrenceOrder(rest, s) && IsSubseq(rest, s[1..])
    ensures FirstOccurrenceOrder([s[0]] + rest, s) && IsSubseq([s[0]] + rest, s)
  {
    var r := [s[0]] + rest;
    assert r[1..] == rest;
    forall i, j | 0 <= i < j < |r| && r[i] in s && r[j] in s
      ensures FirstIndex(s, r[i]) < FirstIndex(s, r[j])
    {
      assert r[j] == rest[j - 1] && r[j] in rest;
      if i > 0 {
        assert r[i] == rest[i - 1];
      }
    }
  }

}

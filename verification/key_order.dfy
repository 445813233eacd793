/**
 Sorting an object's members by key, as the scaffolder does before it
 writes `package.json`. Keys are compared character by character, a
 proper prefix first: the order `Array.prototype.sort` uses by default.
 */
module KeyOrder {

  import opened OrderedMap

  /** `a` sorts strictly before `b`. */
  predicate Less(a: string, b: string)
  {
    if |a| == 0 then |b| > 0
    else if |b| == 0 then false
    else if a[0] != b[0] then a[0] < b[0]
    else Less(a[1..], b[1..])
  }

  lemma {:induction false} LessIrreflexive(a: string)
    ensures !Less(a, a)
  {
    if |a| > 0 {
      LessIrreflexive(a[1..]);
    }
  }

  lemma {:induction false} LessTotal(a: string, b: string)
    ensures a == b || Less(a, b) || Less(b, a)
  {
    if |a| > 0 && |b| > 0 && a[0] == b[0] {
      LessTotal(a[1..], b[1..]);
      if a[1..] == b[1..] {
        assert a == [a[0]] + a[1..] && b == [b[0]] + b[1..];
      }
    }
  }

  lemma {:induction false} LessTransitive(a: string, b: string, c: string)
    requires Less(a, b) && Less(b, c)
    ensures Less(a, c)
  {
    if |a| > 0 && a[0] == b[0] && b[0] == c[0] {
      LessTransitive(a[1..], b[1..], c[1..]);
    }
  }

  /** Keys strictly increase along the sequence. */
  predicate Sorted<V>(m: Entries<V>)
  {
    forall i, j :: 0 <= i < j < |m| ==> Less(m[i].0, m[j].0)
  }

  lemma SortedUnique<V>(m: Entries<V>)
    requires Sorted(m)
    ensures UniqueKeys(m)
  {
    forall i, j | 0 <= i < j < |m| ensures m[i].0 != m[j].0 {
      LessIrreflexive(m[i].0);
    }
  }

  /** A member below every key of a sorted sequence can go in front of it. */
  lemma SortedCons<V>(x: (string, V), m: Entries<V>)
    requires Sorted(m) && forall i :: 0 <= i < |m| ==> Less(x.0, m[i].0)
    ensures Sorted([x] + m)
  {
    var r := [x] + m;
    forall i, j | 0 <= i < j < |r| ensures Less(r[i].0, r[j].0) {
      if i > 0 {
        assert r[i] == m[i - 1] && r[j] == m[j - 1];
      } else {
        assert r[j] == m[j - 1];
      }
    }
  }

  /** Inserts a member whose key is new at its place in a sorted sequence. */
  function Insert<V>(e: (string, V), m: Entries<V>): (r: Entries<V>)
    requires Sorted(m) && !HasKey(m, e.0)
    ensures Sorted(r)
    ensures multiset(r) == multiset(m) + multiset{e}
  {
    if |m| == 0 then [e]
    else if Less(e.0, m[0].0) then
      InsertFront(e, m);
      [e] + m
    else
      SortedTail(m);
      var rest := Insert(e, m[1..]);
      InsertAfterHead(e, m, rest);
      [m[0]] + rest
  }

  /** A key below the head of a sorted sequence is below all of it. */
  lemma InsertFront<V>(e: (string, V), m: Entries<V>)
    requires Sorted(m) && |m| > 0 && Less(e.0, m[0].0)
    ensures Sorted([e] + m)
  {
    forall j | 0 < j < |m| ensures Less(e.0, m[j].0) {
      LessTransitive(e.0, m[0].0, m[j].0);
    }
    SortedCons(e, m);
  }

  /** The step of `Insert` that passes the head by, given the insertion into the tail. */
  lemma InsertAfterHead<V>(e: (string, V), m: Entries<V>, rest: Entries<V>)
    requires Sorted(m) && !HasKey(m, e.0) && |m| > 0 && !Less(e.0, m[0].0)
    requires Sorted(rest) && multiset(rest) == multiset(m[1..]) + multiset{e}
    ensures Sorted([m[0]] + rest)
    ensures multiset([m[0]] + rest) == multiset(m) + multiset{e}
  {
    LessTotal(e.0, m[0].0);
    forall i | 0 <= i < |rest| ensures Less(m[0].0, rest[i].0) {
      assert rest[i] in multiset(rest);
      if rest[i] != e {
        assert rest[i] in multiset(m[1..]);
        var j :| 0 <= j < |m[1..]| && m[1..][j] == rest[i];
        assert m[j + 1] == rest[i];
      }
    }
    SortedCons(m[0], rest);
    assert m == [m[0]] + m[1..];
  }

  /** `sortObjectKeys`: the same members, ordered by key. */
  function Sort<V>(m: Entries<V>): (r: Entries<V>)
    requires UniqueKeys(m)
    ensures Sorted(r)
    ensures multiset(r) == multiset(m)
  {
    if |m| == 0 then []
    else
      TailUnique(m);
      var rest := Sort(m[1..]);
      TailFresh(m, rest);
      Insert(m[0], rest)
  }

  lemma TailUnique<V>(m: Entries<V>)
    requires UniqueKeys(m) && |m| > 0
    ensures UniqueKeys(m[1..])
  {
    assert forall i :: 0 <= i < |m| - 1 ==> m[1..][i] == m[i + 1];
  }

  /** The tail of a unique-keyed sequence, in any arrangement, lacks the head's key. */
  lemma TailFresh<V>(m: Entries<V>, rest: Entries<V>)
    requires UniqueKeys(m) && |m| > 0 && multiset(rest) == multiset(m[1..])
    ensures !HasKey(rest, m[0].0)
    ensures multiset(m) == multiset(rest) + multiset{m[0]}
  {
    forall i | 0 <= i < |rest| ensures rest[i].0 != m[0].0 {
      assert rest[i] in multiset(m[1..]);
      var j :| 0 <= j < |m[1..]| && m[1..][j] == rest[i];
      assert m[j + 1] == rest[i];
    }
    assert m == [m[0]] + m[1..];
  }

  lemma SortedTail<V>(m: Entries<V>)
    requires Sorted(m) && |m| > 0
    ensures Sorted(m[1..])
  {
    assert forall i :: 0 <= i < |m| - 1 ==> m[1..][i] == m[i + 1];
  }

  /** Two objects with the same members answer every lookup alike. */
  lemma SameMembersGet<V>(a: Entries<V>, b: Entries<V>, k: string)
    requires UniqueKeys(a) && UniqueKeys(b) && multiset(a) == multiset(b)
    ensures Get(a, k) == Get(b, k)
  {
    if Get(a, k).Some? {
      var i :| 0 <= i < |a| && a[i] == (k, Get(a, k).value);
      assert a[i] in multiset(b);
    } else {
      forall i | 0 <= i < |b| ensures b[i].0 != k {
        assert b[i] in multiset(a);
      }
    }
  }

  /**
   Sorting keeps every key's value: the sorted object answers every lookup
   as the original does and has the same number of members.
   */
  lemma SortKeepsValues<V>(m: Entries<V>, k: string)
    requires UniqueKeys(m)
    ensures UniqueKeys(Sort(m)) && |Sort(m)| == |m|
    ensures Get(Sort(m), k) == Get(m, k)
  {
    SortedUnique(Sort(m));
    assert |multiset(Sort(m))| == |multiset(m)|;
    SameMembersGet(Sort(m), m, k);
  }

  /**
   A sorted arrangement of given members is unique: two sorted sequences
   with the same members are equal.
   */
  lemma {:induction false} SortedDetermined<V>(a: Entries<V>, b: Entries<V>)
    requires Sorted(a) && Sorted(b) && multiset(a) == multiset(b)
    ensures a == b
  {
    if |a| == 0 {
      assert |multiset(b)| == 0;
    } else {
      assert |b| > 0 by {
        assert a[0] in multiset(b);
      }
      if a[0] != b[0] {
        assert a[0] in multiset(b) && b[0] in multiset(a);
        var i :| 0 <= i < |b| && b[i] == a[0];
        var j :| 0 <= j < |a| && a[j] == b[0];
        assert i != 0 && j != 0;
        LessTransitive(a[0].0, a[j].0, a[0].0);
        LessIrreflexive(a[0].0);
        assert false;
      }
      assert a == [a[0]] + a[1..] && b == [b[0]] + b[1..];
      assert multiset(a[1..]) == multiset(a) - multiset{a[0]};
      assert multiset(b[1..]) == multiset(b) - multiset{b[0]};
      SortedTail(a);
      SortedTail(b);
      assert multiset(a[1..]) == multiset(b[1..]);
      SortedDetermined(a[1..], b[1..]);
    }
  }

  /**
   The sorted object depends only on the members, not on the order they
   were inserted in; sorting a sorted object changes nothing.
   */
  lemma SortCanonical<V>(m: Entries<V>, n: Entries<V>)
    requires UniqueKeys(m) && UniqueKeys(n) && multiset(m) == multiset(n)
    ensures Sort(m) == Sort(n)
    ensures Sorted(m) ==> Sort(m) == m
  {
    SortedDetermined(Sort(m), Sort(n));
    if Sorted(m) {
      SortedDetermined(Sort(m), m);
    }
  }
}

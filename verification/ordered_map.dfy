/**
 Insertion-ordered maps: the semantics of a JavaScript plain object with
 string keys and of a `Map`. Assigning an existing key overwrites its value
 in place; a new key goes to the end. Iteration (`Object.keys`,
 `map.values()`) follows the entry order.
 */
module OrderedMap {

  import opened Wrappers

  type Entries<V> = seq<(string, V)>

  function Keys<V>(m: Entries<V>): (ks: seq<string>)
    ensures |ks| == |m|
    ensures forall i :: 0 <= i < |m| ==> ks[i] == m[i].0
  {
    if |m| == 0 then [] else [m[0].0] + Keys(m[1..])
  }

  function Values<V>(m: Entries<V>): (vs: seq<V>)
    ensures |vs| == |m|
    ensures forall i :: 0 <= i < |m| ==> vs[i] == m[i].1
  {
    if |m| == 0 then [] else [m[0].1] + Values(m[1..])
  }

  predicate UniqueKeys<V>(m: Entries<V>)
  {
    forall i, j :: 0 <= i < j < |m| ==> m[i].0 != m[j].0
  }

  predicate HasKey<V>(m: Entries<V>, k: string)
  {
    exists i :: 0 <= i < |m| && m[i].0 == k
  }

  /** Index of the first entry with key `k`. */
  function KeyIndex<V>(m: Entries<V>, k: string): (r: Option<nat>)
    ensures r.Some? ==> r.value < |m| && m[r.value].0 == k
    ensures r.Some? ==> forall j :: 0 <= j < r.value ==> m[j].0 != k
    ensures r.None? ==> forall j :: 0 <= j < |m| ==> m[j].0 != k
  {
    KeyIndexFrom(m, k, 0)
  }

  function KeyIndexFrom<V>(m: Entries<V>, k: string, from: nat): (r: Option<nat>)
    ensures r.Some? ==> from <= r.value < |m| && m[r.value].0 == k
    ensures r.Some? ==> forall j :: from <= j < r.value ==> m[j].0 != k
    ensures r.None? ==> forall j :: from <= j < |m| ==> m[j].0 != k
    decreases |m| - from
  {
    if from >= |m| then None
    else if m[from].0 == k then Some(from)
    else KeyIndexFrom(m, k, from + 1)
  }

  /** The keys of two concatenated entry lists, in order. */
  lemma KeysAppend<V>(a: Entries<V>, b: Entries<V>)
    ensures Keys(a + b) == Keys(a) + Keys(b)
  {
    var ab := a + b;
    assert forall j :: 0 <= j < |ab| ==> Keys(ab)[j] == ab[j].0;
  }

  /** The keys of a prefix are a prefix of the keys. */
  lemma KeysPrefix<V>(m: Entries<V>, i: nat)
    requires i <= |m|
    ensures Keys(m[..i]) == Keys(m)[..i]
  {
    assert forall j :: 0 <= j < i ==> Keys(m[..i])[j] == m[j].0;
  }

  /** The keys of a suffix are a suffix of the keys. */
  lemma KeysSuffix<V>(m: Entries<V>, i: nat)
    requires i <= |m|
    ensures Keys(m[i..]) == Keys(m)[i..]
  {
    assert forall j :: 0 <= j < |m| - i ==> Keys(m[i..])[j] == m[i + j].0;
  }

  /** The keys before entry `i`, its own key, then the keys after it. */
  lemma KeysAround<V>(m: Entries<V>, i: nat)
    requires i < |m|
    ensures Keys(m) == Keys(m[..i]) + [m[i].0] + Keys(m[i + 1..])
  {
    KeysPrefix(m, i);
    KeysSuffix(m, i + 1);
    SplitAround(Keys(m), i);
  }

  lemma SplitAround(ks: seq<string>, i: nat)
    requires i < |ks|
    ensures ks == ks[..i] + [ks[i]] + ks[i + 1..]
  {
  }

  /** KeyIndex looks at keys only. */
  lemma KeyIndexSameKeys<V>(m: Entries<V>, n: Entries<V>, k: string)
    requires |m| == |n| && forall i :: 0 <= i < |m| ==> m[i].0 == n[i].0
    ensures KeyIndex(m, k) == KeyIndex(n, k)
  {
    var a, b := KeyIndex(m, k), KeyIndex(n, k);
    if a.Some? && b.Some? {
      assert !(a.value < b.value) && !(b.value < a.value);
    }
  }

  /** `m[k]` / `m.get(k)`: the value of the first entry with key `k`. */
  function Get<V>(m: Entries<V>, k: string): (r: Option<V>)
    ensures r.Some? <==> HasKey(m, k)
    ensures r.Some? ==> exists i :: 0 <= i < |m| && m[i] == (k, r.value)
    ensures UniqueKeys(m) ==> forall i :: 0 <= i < |m| && m[i].0 == k ==> r == Some(m[i].1)
  {
    match KeyIndex(m, k)
    case Some(i) => Some(m[i].1)
    case None => None
  }

  /** `m[k] = v` / `m.set(k, v)`. */
  function Put<V>(m: Entries<V>, k: string, v: V): (r: Entries<V>)
    ensures Get(r, k) == Some(v)
    ensures forall k' :: k' != k ==> Get(r, k') == Get(m, k')
    ensures UniqueKeys(m) ==> UniqueKeys(r)
    ensures HasKey(m, k) ==> Keys(r) == Keys(m)
    ensures !HasKey(m, k) ==> Keys(r) == Keys(m) + [k]
  {
    match KeyIndex(m, k)
    case Some(i) =>
      PutInPlace(m, k, v, i);
      m[i := (k, v)]
    case None =>
      PutAppends(m, k, v);
      m + [(k, v)]
  }

  /** Assigning a present key overwrites its entry in place. */
  lemma PutInPlace<V>(m: Entries<V>, k: string, v: V, i: nat)
    requires KeyIndex(m, k) == Some(i)
    ensures Get(m[i := (k, v)], k) == Some(v)
    ensures forall k' :: k' != k ==> Get(m[i := (k, v)], k') == Get(m, k')
    ensures UniqueKeys(m) ==> UniqueKeys(m[i := (k, v)])
    ensures Keys(m[i := (k, v)]) == Keys(m)
  {
    var r := m[i := (k, v)];
    forall k' ensures KeyIndex(r, k') == KeyIndex(m, k') {
      KeyIndexSameKeys(m, r, k');
    }
  }

  /** Assigning a missing key appends an entry. */
  lemma PutAppends<V>(m: Entries<V>, k: string, v: V)
    requires KeyIndex(m, k).None?
    ensures Get(m + [(k, v)], k) == Some(v)
    ensures forall k' :: k' != k ==> Get(m + [(k, v)], k') == Get(m, k')
    ensures UniqueKeys(m) ==> UniqueKeys(m + [(k, v)])
    ensures Keys(m + [(k, v)]) == Keys(m) + [k]
  {
    var r := m + [(k, v)];
    assert forall j :: 0 <= j < |m| ==> r[j] == m[j];
    assert r[|m|].0 == k;
    forall k' | k' != k ensures KeyIndex(r, k') == KeyIndex(m, k') {
      var a, b := KeyIndex(r, k'), KeyIndex(m, k');
      if a.Some? {
        assert a.value < |m|;
      }
      if a.Some? && b.Some? {
        assert !(a.value < b.value) && !(b.value < a.value);
      }
    }
    assert KeyIndex(r, k).value == |m|;
  }

  /** Builds a map by assigning the pairs in order; the last assignment to a key wins. */
  function FromPairs<V>(ps: seq<(string, V)>): (r: Entries<V>)
    ensures UniqueKeys(r)
    ensures forall k :: Get(r, k) == LastValue(ps, k)
    decreases |ps|
  {
    PutAll([], ps)
  }

  /** Assigns the pairs `ps` in order on top of `m`. */
  function PutAll<V>(m: Entries<V>, ps: seq<(string, V)>): (r: Entries<V>)
    requires UniqueKeys(m)
    ensures UniqueKeys(r)
    ensures forall k :: Get(r, k) == (if LastValue(ps, k).Some? then LastValue(ps, k) else Get(m, k))
    decreases |ps|
  {
    if |ps| == 0 then m
    else
      var m1 := Put(m, ps[0].0, ps[0].1);
      var r := PutAll(m1, ps[1..]);
      forall k ensures Get(r, k) == (if LastValue(ps, k).Some? then LastValue(ps, k) else Get(m, k)) {
        LastValueCons(ps, k);
        if k != ps[0].0 {
          assert Get(m1, k) == Get(m, k);
        }
      }
      r
  }

  lemma LastValueCons<V>(ps: seq<(string, V)>, k: string)
    requires |ps| > 0
    ensures LastValue(ps, k) == (if LastValue(ps[1..], k).Some? then LastValue(ps[1..], k)
                                 else if ps[0].0 == k then Some(ps[0].1) else None)
  {
  }

  /** The value of the last pair with key `k`, a reference definition independent of Put. */
  function LastValue<V>(ps: seq<(string, V)>, k: string): (r: Option<V>)
    ensures r.Some? <==> exists i :: 0 <= i < |ps| && ps[i].0 == k
    decreases |ps|
  {
    if |ps| == 0 then None
    else
      var rest := LastValue(ps[1..], k);
      assert forall i :: 1 <= i < |ps| ==> ps[i] == ps[1..][i - 1];
      if rest.Some? then rest else if ps[0].0 == k then Some(ps[0].1) else None
  }

  /** Assigning one more pair changes only that pair's key. */
  lemma {:induction false} LastValueAppend<V>(ps: seq<(string, V)>, p: (string, V), k: string)
    ensures LastValue(ps + [p], k) == if p.0 == k then Some(p.1) else LastValue(ps, k)
    decreases |ps|
  {
    if |ps| == 0 {
      assert [p][1..] == [];
    } else {
      assert (ps + [p])[1..] == ps[1..] + [p];
      LastValueAppend(ps[1..], p, k);
    }
  }

  /** When no key repeats, each pair's key maps to that pair's value. */
  lemma {:induction false} LastValueUnique<V>(ps: seq<(string, V)>, i: nat)
    requires UniqueKeys(ps) && i < |ps|
    ensures LastValue(ps, ps[i].0) == Some(ps[i].1)
    decreases |ps|
  {
    assert forall j :: 1 <= j < |ps| ==> ps[j] == ps[1..][j - 1];
    if i == 0 {
      assert LastValue(ps[1..], ps[0].0).None?;
    } else {
      LastValueUnique(ps[1..], i - 1);
    }
  }

  /** A pair whose key does not come again later is the value its key ends with. */
  lemma {:induction false} LastValueLast<V>(ps: seq<(string, V)>, i: nat)
    requires i < |ps| && forall j :: i < j < |ps| ==> ps[j].0 != ps[i].0
    ensures LastValue(ps, ps[i].0) == Some(ps[i].1)
    decreases |ps|
  {
    assert forall j :: 1 <= j < |ps| ==> ps[j] == ps[1..][j - 1];
    if i == 0 {
      assert LastValue(ps[1..], ps[0].0).None?;
    } else {
      LastValueLast(ps[1..], i - 1);
    }
  }

  /** The position of the pair `LastValue` reports: the last pair with key `k`. */
  function LastValueIndex<V>(ps: seq<(string, V)>, k: string): (j: nat)
    requires LastValue(ps, k).Some?
    ensures j < |ps| && ps[j].0 == k && LastValue(ps, k) == Some(ps[j].1)
    ensures forall i :: j < i < |ps| ==> ps[i].0 != k
    decreases |ps|
  {
    assert forall i :: 1 <= i < |ps| ==> ps[i] == ps[1..][i - 1];
    if LastValue(ps[1..], k).Some? then 1 + LastValueIndex(ps[1..], k) else 0
  }

  /** The same entries as an unordered Dafny map. */
  function ToMap<V>(m: Entries<V>): (r: map<string, V>)
    requires UniqueKeys(m)
    ensures forall k :: k in r <==> HasKey(m, k)
    ensures forall k :: k in r ==> Get(m, k) == Some(r[k])
  {
    map k | k in Keys(m) :: Get(m, k).value
  }
}

/**
 * Python's insertion-ordered dictionaries (`dict`, `OrderedDict`) as the
 * sequence of their entries in insertion order. Assigning to a key that is
 * present replaces its value in place; assigning to a new key appends it.
 */
module OrderedDicts {
  import opened Wrappers
  import opened Sequences

  type Entries<V> = seq<(string, V)>

  /** `d.keys()`, in insertion order. */
  function Keys<V>(e: Entries<V>): (ks: seq<string>)
    ensures |ks| == |e|
    ensures forall i :: 0 <= i < |e| ==> ks[i] == e[i].0
  {
    if e == [] then [] else [e[0].0] + Keys(e[1..])
  }

  ghost predicate Distinct<T>(s: seq<T>) {
    forall i, j :: 0 <= i < j < |s| ==> s[i] != s[j]
  }

  /** A Python dictionary never holds a key twice. */
  ghost predicate DistinctKeys<V>(e: Entries<V>) {
    Distinct(Keys(e))
  }

  /** `d.get(k)`: the value stored under `k`, if any. */
  function Lookup<V>(e: Entries<V>, k: string): Option<V> {
    if e == [] then None
    else if e[0].0 == k then Some(e[0].1)
    else Lookup(e[1..], k)
  }

  /** `d.get(k)` finds a value exactly when `k` is a key, and that value is
      one stored under `k`. */
  lemma {:induction false} LookupSome<V>(e: Entries<V>, k: string)
    ensures Lookup(e, k).Some? <==> k in Keys(e)
    ensures Lookup(e, k).Some? ==> (k, Lookup(e, k).value) in e
  {
    if e != [] {
      LookupSome(e[1..], k);
      assert Keys(e) == [e[0].0] + Keys(e[1..]);
    }
  }

  /** In a dictionary without repeated keys, the value under a key is the one
      of the entry that carries it. */
  lemma {:induction false} LookupAt<V>(e: Entries<V>, i: nat)
    requires DistinctKeys(e) && i < |e|
    ensures Lookup(e, e[i].0) == Some(e[i].1)
  {
    LookupSome(e, e[i].0);
    assert e[i].0 in Keys(e);
    var r := Lookup(e, e[i].0);
    var j :| 0 <= j < |e| && e[j] == (e[i].0, r.value);
    assert j == i;
  }

  /** In a dictionary without repeated keys, an entry's value is the one
      looked up under its key. */
  lemma {:induction false} LookupOf<V>(e: Entries<V>, k: string, v: V)
    requires DistinctKeys(e) && (k, v) in e
    ensures Lookup(e, k) == Some(v)
  {
    var i :| 0 <= i < |e| && e[i] == (k, v);
    LookupAt(e, i);
  }

  /** In a dictionary without repeated keys, no entry's key occurs before it. */
  lemma {:induction false} KeyNotBefore<V>(e: Entries<V>, i: nat)
    requires DistinctKeys(e) && i < |e|
    ensures e[i].0 !in Keys(e[..i])
  {
    forall j | 0 <= j < i ensures Keys(e[..i])[j] != e[i].0 {
      assert Keys(e)[j] != Keys(e)[i];
    }
  }

  lemma {:induction false} KeysAppend<V>(e: Entries<V>, p: (string, V))
    ensures Keys(e + [p]) == Keys(e) + [p.0]
  {
    assert |Keys(e + [p])| == |Keys(e) + [p.0]|;
    forall i | 0 <= i < |e| + 1 ensures Keys(e + [p])[i] == (Keys(e) + [p.0])[i] {
    }
  }

  /** `d[k] = v`: a present key keeps its position and takes the new value,
      a new key is appended. What it guarantees is stated by `PutLookup`,
      `PutKeys` and `PutOther`, lemmas rather than postconditions, so that
      proofs about the many dictionaries built with it only see these facts
      where they ask for them. */
  function Put<V>(e: Entries<V>, k: string, v: V): Entries<V> {
    if e == [] then [(k, v)]
    else if e[0].0 == k then [(k, v)] + e[1..]
    else [e[0]] + Put(e[1..], k, v)
  }

  /** After `d[k] = v`, `d.get(k)` is `v`. */
  lemma {:induction false} PutLookup<V>(e: Entries<V>, k: string, v: V)
    ensures Lookup(Put(e, k, v), k) == Some(v)
  {
    if e != [] && e[0].0 != k {
      PutLookup(e[1..], k, v);
      assert Put(e, k, v)[1..] == Put(e[1..], k, v);
    }
  }

  /** `d[k] = v` keeps the key order, appending `k` when it is new. */
  lemma {:induction false} PutKeys<V>(e: Entries<V>, k: string, v: V)
    ensures Keys(Put(e, k, v)) == if k in Keys(e) then Keys(e) else Keys(e) + [k]
  {
    if e == [] {
    } else if e[0].0 == k {
      assert Put(e, k, v)[1..] == e[1..];
    } else {
      PutKeys(e[1..], k, v);
      assert Put(e, k, v)[1..] == Put(e[1..], k, v);
      assert Keys(e) == [e[0].0] + Keys(e[1..]);
    }
  }

  /** Assigning to one key leaves every other key's value as it was. */
  lemma {:induction false} PutOther<V>(e: Entries<V>, k: string, v: V, k': string)
    requires k' != k
    ensures Lookup(Put(e, k, v), k') == Lookup(e, k')
  {
    if e != [] && e[0].0 != k {
      PutOther(e[1..], k, v, k');
      assert Put(e, k, v)[1..] == Put(e[1..], k, v);
    } else if e != [] {
      assert Put(e, k, v)[1..] == e[1..];
    }
  }

  lemma {:induction false} PutKeepsDistinct<V>(e: Entries<V>, k: string, v: V)
    requires DistinctKeys(e)
    ensures DistinctKeys(Put(e, k, v))
  {
    PutKeys(e, k, v);
    var ks := Keys(e);
    if k !in ks {
      forall i, j | 0 <= i < j < |ks| + 1 ensures (ks + [k])[i] != (ks + [k])[j] {
        if j == |ks| { assert ks[i] in ks; }
      }
    }
  }

  /** Assigning to a key the dictionary does not hold appends the entry. */
  lemma {:induction false} PutNew<V>(e: Entries<V>, k: string, v: V)
    requires k !in Keys(e)
    ensures Put(e, k, v) == e + [(k, v)]
  {
    if e != [] {
      assert Keys(e) == [e[0].0] + Keys(e[1..]);
      PutNew(e[1..], k, v);
      assert e == [e[0]] + e[1..];
    }
  }

  /** `d[k] = v` for each entry of `kw` in order (a `for` loop of assignments). */
  function PutAll<V>(e: Entries<V>, kw: Entries<V>): Entries<V> {
    if kw == [] then e
    else
      var last := kw[|kw| - 1];
      Put(PutAll(e, kw[..|kw| - 1]), last.0, last.1)
  }

  /** `d.get(k)` finds the first entry under `k`: an entry appended at the
      end is found only when no earlier entry carries its key. */
  lemma {:induction false} LookupAppend<V>(e: Entries<V>, p: (string, V), k: string)
    ensures Lookup(e + [p], k) ==
      if Lookup(e, k).Some? then Lookup(e, k) else if k == p.0 then Some(p.1) else None
  {
    if e != [] {
      assert (e + [p])[1..] == e[1..] + [p];
      LookupAppend(e[1..], p, k);
    }
  }

  /** After assigning every entry of `kw`, the keys of `kw` hold their new
      values and every other key is untouched. */
  lemma {:induction false} PutAllLookup<V>(e: Entries<V>, kw: Entries<V>, k: string)
    requires DistinctKeys(kw)
    ensures Lookup(PutAll(e, kw), k) == if k in Keys(kw) then Lookup(kw, k) else Lookup(e, k)
  {
    if kw != [] {
      var n := |kw| - 1;
      var init, last := kw[..n], kw[n];
      LastSplit(kw);
      KeysAppend(init, last);
      assert DistinctKeys(init) by {
        assert Keys(init) == Keys(kw)[..n];
      }
      PutAllLookup(e, init, k);
      LookupAppend(init, last, k);
      LookupSome(init, k);
      if k == last.0 {
        PutLookup(PutAll(e, init), last.0, last.1);
        assert Keys(kw)[n] == k;
      } else {
        PutOther(PutAll(e, init), last.0, last.1, k);
      }
    }
  }

  lemma {:induction false} PutAllKeepsDistinct<V>(e: Entries<V>, kw: Entries<V>)
    requires DistinctKeys(e)
    ensures DistinctKeys(PutAll(e, kw))
  {
    if kw != [] {
      var last := kw[|kw| - 1];
      PutAllKeepsDistinct(e, kw[..|kw| - 1]);
      PutKeepsDistinct(PutAll(e, kw[..|kw| - 1]), last.0, last.1);
    }
  }
}

/**
 * `sdictm`, an insertion-ordered dictionary whose entries can also be read
 * and written as attributes, and `sdict`, its immutable variant. The entries
 * live in `_data`; dictionaries given to the constructor are converted to
 * nested instances of the same class, and `todict` converts them back.
 */
module SDicts {
  import opened Wrappers
  import opened OrderedDicts
  import opened Values
  import opened Sequences

  // ---------------------------------------------------------------------
  // The conversions, on values

  /** What the constructor stores for a value `v` given under some key, in
      an instance that is an `sdict` when `frozen`: a dictionary becomes a
      nested instance of the same class, a list has its dictionary items
      converted that way and keeps its other items, and anything else is
      stored as it is. */
  function Wrap(v: Value, frozen: bool): Value
    decreases v
  {
    match v
    case Dict(es) => Box(frozen, seq(|es|, i requires 0 <= i < |es| => (es[i].0, Wrap(es[i].1, frozen))))
    case List(xs) => List(seq(|xs|, i requires 0 <= i < |xs| => if xs[i].Dict? then Wrap(xs[i], frozen) else xs[i]))
    case _ => v
  }

  /** The entries the constructor stores for the dictionary `es`. */
  function WrapEntries(es: Entries<Value>, frozen: bool): (r: Entries<Value>)
    ensures |r| == |es|
    ensures forall i :: 0 <= i < |es| ==> r[i] == (es[i].0, Wrap(es[i].1, frozen))
  {
    Wrap(Dict(es), frozen).fields
  }

  /** What `todict` returns for a stored value: a nested instance becomes a
      plain dictionary, a list has its nested instances converted and keeps
      its other items, and anything else is returned as it is. */
  function Plain(v: Value): Value
    decreases v
  {
    match v
    case Box(_, fs) => Dict(seq(|fs|, i requires 0 <= i < |fs| => (fs[i].0, Plain(fs[i].1))))
    case List(xs) => List(seq(|xs|, i requires 0 <= i < |xs| => if xs[i].Box? then Plain(xs[i]) else xs[i]))
    case _ => v
  }

  /** The entries `todict` returns for the stored entries `fs`. */
  function PlainEntries(fs: Entries<Value>): (r: Entries<Value>)
    ensures |r| == |fs|
    ensures forall i :: 0 <= i < |fs| ==> r[i] == (fs[i].0, Plain(fs[i].1))
  {
    Plain(Box(false, fs)).entries
  }

  lemma WrapEntriesAppend(es: Entries<Value>, p: (string, Value), frozen: bool)
    ensures WrapEntries(es + [p], frozen) == WrapEntries(es, frozen) + [(p.0, Wrap(p.1, frozen))]
  {
    assert |WrapEntries(es + [p], frozen)| == |es| + 1;
  }

  lemma PlainEntriesAppend(fs: Entries<Value>, p: (string, Value))
    ensures PlainEntries(fs + [p]) == PlainEntries(fs) + [(p.0, Plain(p.1))]
  {
    assert |PlainEntries(fs + [p])| == |fs| + 1;
  }

  /** One more entry of a dictionary with distinct keys, converted by the
      constructor: a new key, appended. */
  lemma WrapNext(es: Entries<Value>, i: nat, d: Entries<Value>, frozen: bool)
    requires DistinctKeys(es) && i < |es|
    requires d == WrapEntries(es[..i], frozen) && Keys(d) == Keys(es[..i])
    ensures Put(d, es[i].0, Wrap(es[i].1, frozen)) == WrapEntries(es[..i + 1], frozen)
    ensures Keys(Put(d, es[i].0, Wrap(es[i].1, frozen))) == Keys(es[..i + 1])
  {
    KeyNotBefore(es, i);
    PutNew(d, es[i].0, Wrap(es[i].1, frozen));
    PrefixOfPrefix(es, i + 1, i);
    LastSplit(es[..i + 1]);
    KeysAppend(es[..i], es[i]);
    KeysAppend(d, (es[i].0, Wrap(es[i].1, frozen)));
    WrapEntriesAppend(es[..i], es[i], frozen);
  }

  /** One more stored entry with a distinct key, converted by `todict`: a
      new key, appended. */
  lemma PlainNext(fs: Entries<Value>, i: nat, r: Entries<Value>)
    requires DistinctKeys(fs) && i < |fs|
    requires r == PlainEntries(fs[..i]) && Keys(r) == Keys(fs[..i])
    ensures Put(r, fs[i].0, Plain(fs[i].1)) == PlainEntries(fs[..i + 1])
    ensures Keys(Put(r, fs[i].0, Plain(fs[i].1))) == Keys(fs[..i + 1])
  {
    KeyNotBefore(fs, i);
    PutNew(r, fs[i].0, Plain(fs[i].1));
    PrefixOfPrefix(fs, i + 1, i);
    LastSplit(fs[..i + 1]);
    KeysAppend(fs[..i], fs[i]);
    KeysAppend(r, (fs[i].0, Plain(fs[i].1)));
    PlainEntriesAppend(fs[..i], fs[i]);
  }

  /** Plain Python data: no nested instance anywhere. */
  ghost predicate Raw(v: Value)
    decreases v
  {
    match v
    case Dict(es) => forall i :: 0 <= i < |es| ==> Raw(es[i].1)
    case List(xs) => forall i :: 0 <= i < |xs| ==> Raw(xs[i])
    case Box(_, _) => false
    case _ => true
  }

  /** A stored value of the form the constructor of an instance (an `sdict`
      when `frozen`) produces: no plain dictionary where the constructor would
      have converted one, and every nested instance of the same class and
      itself of that form. */
  ghost predicate Normal(v: Value, frozen: bool)
    decreases v
  {
    match v
    case Dict(_) => false
    case Box(fz, fs) => fz == frozen && forall i :: 0 <= i < |fs| ==> Normal(fs[i].1, frozen)
    case List(xs) => forall i :: 0 <= i < |xs| ==> !xs[i].Dict? && (xs[i].Box? ==> Normal(xs[i], frozen))
    case _ => true
  }

  /** `todict` after the constructor gives back the plain data it was given. */
  lemma {:induction false} PlainWrap(v: Value, frozen: bool)
    requires Raw(v)
    ensures Plain(Wrap(v, frozen)) == v
    decreases v
  {
    match v
    case Dict(es) =>
      var w := Wrap(v, frozen).fields;
      forall i | 0 <= i < |es| ensures Plain(w[i].1) == es[i].1 {
        PlainWrap(es[i].1, frozen);
      }
      assert Plain(Wrap(v, frozen)).entries == es;
    case List(xs) =>
      var w := Wrap(v, frozen).items;
      forall i | 0 <= i < |xs| ensures (if w[i].Box? then Plain(w[i]) else w[i]) == xs[i] {
        if xs[i].Dict? {
          PlainWrap(xs[i], frozen);
        }
      }
      assert Plain(Wrap(v, frozen)).items == xs;
    case _ =>
  }

  /** The constructor of an instance (an `sdict` when `frozen`) applied to what
      `todict` returns rebuilds a stored value of the form that constructor
      produces: the deep copy made by `copy` and `frozen` is exact. */
  lemma {:induction false} WrapPlain(v: Value, frozen: bool)
    requires Normal(v, frozen)
    ensures Wrap(Plain(v), frozen) == v
    decreases v
  {
    match v
    case Box(_, fs) =>
      var p := Plain(v).entries;
      forall i | 0 <= i < |fs| ensures Wrap(p[i].1, frozen) == fs[i].1 {
        WrapPlain(fs[i].1, frozen);
      }
      assert Wrap(Plain(v), frozen).fields == fs;
    case List(xs) =>
      var p := Plain(v).items;
      forall i | 0 <= i < |xs| ensures (if p[i].Dict? then Wrap(p[i], frozen) else p[i]) == xs[i] {
        if xs[i].Box? {
          WrapPlain(xs[i], frozen);
        }
      }
      assert Wrap(Plain(v), frozen).items == xs;
    case _ =>
  }

  /** The constructor produces stored values of its own form. */
  lemma {:induction false} WrapNormal(v: Value, frozen: bool)
    requires Raw(v)
    ensures Normal(Wrap(v, frozen), frozen)
    decreases v
  {
    match v
    case Dict(es) =>
      forall i | 0 <= i < |es| ensures Normal(Wrap(es[i].1, frozen), frozen) {
        WrapNormal(es[i].1, frozen);
      }
    case List(xs) =>
      forall i | 0 <= i < |xs| && xs[i].Dict? ensures Normal(Wrap(xs[i], frozen), frozen) {
        WrapNormal(xs[i], frozen);
      }
    case _ =>
  }

  // ---------------------------------------------------------------------
  // The constructor's list branch as written

  /** The first item of `xs` that is not a dictionary. */
  function FirstNonDict(xs: seq<Value>): (j: nat)
    requires exists i :: 0 <= i < |xs| && !xs[i].Dict?
    ensures j < |xs| && !xs[j].Dict?
    ensures forall i :: 0 <= i < j ==> xs[i].Dict?
  {
    if !xs[0].Dict? then 0
    else
      assert exists i :: 0 <= i < |xs[1..]| && !xs[1..][i].Dict? by {
        var i :| 0 <= i < |xs| && !xs[i].Dict?;
        assert xs[1..][i - 1] == xs[i];
      }
      1 + FirstNonDict(xs[1..])
  }

  /** What the constructor stores for `v` as its list branch is written: the
      list under construction is replaced by the given list itself as soon as
      an item is not a dictionary, and every dictionary item after that point
      is converted and appended to the given list, which keeps its original
      items. A list of dictionaries only is converted item by item. */
  function WrapAsWritten(v: Value, frozen: bool): Value
    decreases v, 1
  {
    match v
    case Dict(es) => Box(frozen, seq(|es|, i requires 0 <= i < |es| => (es[i].0, WrapAsWritten(es[i].1, frozen))))
    case List(xs) =>
      if forall i :: 0 <= i < |xs| ==> xs[i].Dict? then
        List(seq(|xs|, i requires 0 <= i < |xs| => WrapAsWritten(xs[i], frozen)))
      else
        List(xs + AppendedAsWritten(v, frozen, FirstNonDict(xs) + 1))
    case _ => v
  }

  /** The converted dictionary items of the list `v` from index `k` on. */
  function AppendedAsWritten(v: Value, frozen: bool, k: nat): seq<Value>
    requires v.List? && k <= |v.items|
    decreases v, 0, |v.items| - k
  {
    if k == |v.items| then []
    else
      var x := v.items[k];
      (if x.Dict? then [WrapAsWritten(x, frozen)] else []) + AppendedAsWritten(v, frozen, k + 1)
  }

  /** As written, the list `[0, {}]` keeps its raw dictionary and gains a
      converted copy of it. */
  lemma AsWrittenOnQuirk()
    ensures WrapAsWritten(List([Atom(0), Dict([])]), false) == List([Atom(0), Dict([]), Box(false, [])])
  {
    var xs := [Atom(0), Dict([])];
    var given := List(xs);
    assert !xs[0].Dict?;
    assert FirstNonDict(xs) == 0;
    var e: Entries<Value> := [];
    assert WrapAsWritten(Dict([]), false) == Box(false, e);
    assert AppendedAsWritten(given, false, 2) == [];
    assert AppendedAsWritten(given, false, 1) == [Box(false, e)];
    assert WrapAsWritten(given, false) == List(xs + AppendedAsWritten(given, false, 1));
    assert xs + [Box(false, e)] == [Atom(0), Dict([]), Box(false, [])];
  }

  /** `todict` on that stored list gives two empty dictionaries. */
  lemma PlainOnQuirk()
    ensures Plain(List([Atom(0), Dict([]), Box(false, [])])) == List([Atom(0), Dict([]), Dict([])])
  {
    var e: Entries<Value> := [];
    assert Plain(Box(false, e)) == Dict([]);
    assert Plain(List([Atom(0), Dict([]), Box(false, [])])).items == [Atom(0), Dict([]), Dict([])];
  }

  /** The intended conversion converts the dictionary in place. */
  lemma WrapOnQuirk()
    ensures Wrap(List([Atom(0), Dict([])]), false) == List([Atom(0), Box(false, [])])
  {
    var e: Entries<Value> := [];
    assert Wrap(Dict([]), false) == Box(false, e);
    assert Wrap(List([Atom(0), Dict([])]), false).items == [Atom(0), Box(false, [])];
  }

  /** As written, the constructor applied to `[0, {}, {}]` (what `todict`
      gives for the stored list of `ListQuirk`) appends a converted copy of
      each dictionary, so `copy` grows the list instead of copying it. */
  lemma CopyAsWrittenOnQuirk()
    ensures WrapAsWritten(Plain(List([Atom(0), Dict([]), Box(false, [])])), false)
         == List([Atom(0), Dict([]), Dict([]), Box(false, []), Box(false, [])])
  {
    PlainOnQuirk();
    var xs := [Atom(0), Dict([]), Dict([])];
    var given := List(xs);
    assert !xs[0].Dict?;
    assert FirstNonDict(xs) == 0;
    var e: Entries<Value> := [];
    assert WrapAsWritten(Dict([]), false) == Box(false, e);
    assert AppendedAsWritten(given, false, 3) == [];
    assert AppendedAsWritten(given, false, 2) == [Box(false, e)];
    assert AppendedAsWritten(given, false, 1) == [Box(false, e), Box(false, e)];
    assert WrapAsWritten(given, false) == List(xs + AppendedAsWritten(given, false, 1));
    assert xs + [Box(false, e), Box(false, e)] == [Atom(0), Dict([]), Dict([]), Box(false, []), Box(false, [])];
  }

  /** A list holding a number and then an empty dictionary: as written, the
      stored list keeps the raw dictionary and gains a converted copy of it,
      so `todict` (and with it `copy`) no longer gives back the given data;
      the intended conversion converts the dictionary in place. */
  lemma ListQuirk()
    ensures var given := List([Atom(0), Dict([])]);
      && Raw(given)
      && WrapAsWritten(given, false) == List([Atom(0), Dict([]), Box(false, [])])
      && Plain(WrapAsWritten(given, false)) == List([Atom(0), Dict([]), Dict([])])
      && Plain(WrapAsWritten(given, false)) != given
      && Wrap(given, false) == List([Atom(0), Box(false, [])])
      && Plain(Wrap(given, false)) == given
  {
    var given := List([Atom(0), Dict([])]);
    AsWrittenOnQuirk();
    PlainOnQuirk();
    WrapOnQuirk();
    assert |List([Atom(0), Dict([]), Dict([])]).items| != |given.items|;
    PlainWrap(given, false);
  }

  // ---------------------------------------------------------------------
  // The class

  /** What the constructor and the mutators raise. */
  datatype DictError =
    | NoneGiven   // AssertionError: the constructor was given None
    | NotADict    // RuntimeError: the constructor was given something other than a dictionary
    | Immutable   // RuntimeError("Immutable dictionary"): a mutator of an sdict

  /** An `sdictm`, or an `sdict` when `frozen`. */
  class SDict {
    var data: Entries<Value>
    const frozen: bool

    ghost predicate Valid()
      reads this
    {
      DistinctKeys(data)
    }

    /** The constructor given a dictionary with the entries `es`: each value
        is stored as `Wrap` converts it, in the dictionary's order. */
    constructor(es: Entries<Value>, frozen: bool)
      requires DistinctKeys(es)
      ensures Valid()
      ensures this.frozen == frozen && data == WrapEntries(es, frozen)
    {
      var d: Entries<Value> := [];
      var i := 0;
      while i < |es|
        invariant 0 <= i <= |es|
        invariant d == WrapEntries(es[..i], frozen)
        invariant Keys(d) == Keys(es[..i])
      {
        WrapNext(es, i, d, frozen);
        d := Put(d, es[i].0, Wrap(es[i].1, frozen));
        i := i + 1;
      }
      WholePrefix(es);
      this.frozen := frozen;
      data := d;
    }

    /** `sdictm(obj)` / `sdict(obj)`: None fails the assertion, anything but
        a dictionary raises, and a dictionary is converted. */
    static method Create(obj: Value, frozen: bool) returns (r: Result<SDict, DictError>)
      requires obj.Dict? ==> DistinctKeys(obj.entries)
      ensures obj.Null? ==> r == Err(NoneGiven)
      ensures !obj.Null? && !obj.Dict? ==> r == Err(NotADict)
      ensures obj.Dict? ==> r.Ok? && fresh(r.value) && r.value.Valid()
      ensures obj.Dict? ==> r.value.frozen == frozen && r.value.data == WrapEntries(obj.entries, frozen)
    {
      if obj.Null? {
        return Err(NoneGiven);
      }
      if !obj.Dict? {
        return Err(NotADict);
      }
      var s := new SDict(obj.entries, frozen);
      return Ok(s);
    }

    /** `d[key]` and `d.key`: the stored value, or None for a missing key. */
    function Item(key: string): (r: Value)
      reads this
      ensures key in Keys(data) ==> (key, r) in data
      ensures key !in Keys(data) ==> r == Null
    {
      LookupSome(data, key);
      match Lookup(data, key)
      case Some(v) => v
      case None => Null
    }

    /** `d.get(key, default)`: the default exactly when the key is missing or
        holds None, the stored value otherwise. */
    function Get(key: string, default: Value): (r: Value)
      reads this
      ensures key !in Keys(data) ==> r == default
      ensures Valid() && (key, Null) in data ==> r == default
      ensures key in Keys(data) && (key, Null) !in data ==> r != Null && (key, r) in data
    {
      var v := Item(key);
      assert Valid() && (key, Null) in data ==> v == Null by {
        if Valid() && (key, Null) in data {
          LookupOf(data, key, Null);
        }
      }
      if v == Null then default else v
    }

    /** `d.keys()`, in insertion order and without repetition. */
    function OrderedKeys(): (ks: seq<string>)
      reads this
      ensures |ks| == |data| && forall i :: 0 <= i < |data| ==> ks[i] == data[i].0
      ensures Valid() ==> Distinct(ks)
    {
      Keys(data)
    }

    /** `d[key] = value` and `d.key = value`: an sdictm assigns (replacing in
        place or appending), an sdict raises and keeps its entries. */
    method SetItem(key: string, value: Value) returns (r: Result<(), DictError>)
      requires Valid()
      modifies this
      ensures Valid()
      ensures frozen ==> r == Err(Immutable) && data == old(data)
      ensures !frozen ==> r == Ok(()) && data == Put(old(data), key, value)
      ensures !frozen ==> Item(key) == value
      ensures forall k :: k != key ==> Item(k) == old(Item(k))
    {
      if frozen {
        return Err(Immutable);
      }
      forall k | k != key ensures Lookup(Put(data, key, value), k) == Lookup(data, k) {
        PutOther(data, key, value, k);
      }
      PutKeepsDistinct(data, key, value);
      PutLookup(data, key, value);
      data := Put(data, key, value);
      return Ok(());
    }

    /** `d.update(**kw)`: an sdictm assigns every keyword in order, so the
        given keys hold their new values and every other key keeps its own;
        an sdict raises and keeps its entries. */
    method Update(kw: Entries<Value>) returns (r: Result<(), DictError>)
      requires Valid() && DistinctKeys(kw)
      modifies this
      ensures Valid()
      ensures frozen ==> r == Err(Immutable) && data == old(data)
      ensures !frozen ==> r == Ok(()) && data == PutAll(old(data), kw)
      ensures !frozen ==> forall k :: k in Keys(kw) ==> Lookup(kw, k) == Some(Item(k))
      ensures !frozen ==> forall k :: k !in Keys(kw) ==> Item(k) == old(Item(k))
    {
      if frozen {
        return Err(Immutable);
      }
      var i := 0;
      while i < |kw|
        invariant 0 <= i <= |kw|
        invariant data == PutAll(old(data), kw[..i])
      {
        PrefixOfPrefix(kw, i + 1, i);
        data := Put(data, kw[i].0, kw[i].1);
        i := i + 1;
      }
      WholePrefix(kw);
      forall k
        ensures k in Keys(kw) ==> Lookup(kw, k) == Some(Item(k))
        ensures k !in Keys(kw) ==> Item(k) == old(Item(k))
      {
        PutAllLookup(old(data), kw, k);
        LookupSome(kw, k);
      }
      PutAllKeepsDistinct(old(data), kw);
      return Ok(());
    }

    /** The value `todict` returns for one stored value: a nested instance is
        converted, a list is converted item by item. */
    static method PlainValue(v: Value) returns (w: Value)
      ensures w == Plain(v)
    {
      if v.Box? {
        return Plain(v);
      }
      if !v.List? {
        return v;
      }
      var xs, ys := v.items, [];
      var j := 0;
      while j < |xs|
        invariant 0 <= j <= |xs|
        invariant |ys| == j
        invariant forall k :: 0 <= k < j ==> ys[k] == if xs[k].Box? then Plain(xs[k]) else xs[k]
      {
        if xs[j].Box? {
          ys := ys + [Plain(xs[j])];
        } else {
          ys := ys + [xs[j]];
        }
        j := j + 1;
      }
      return List(ys);
    }

    /** `d.todict()`: the entries with every nested instance, directly or as
        an item of a list, converted back to a plain dictionary. */
    method ToDict() returns (r: Entries<Value>)
      requires Valid()
      ensures r == PlainEntries(data)
      ensures DistinctKeys(r)
    {
      r := [];
      var i := 0;
      while i < |data|
        invariant 0 <= i <= |data|
        invariant r == PlainEntries(data[..i])
        invariant Keys(r) == Keys(data[..i])
      {
        var w := PlainValue(data[i].1);
        PlainNext(data, i, r);
        r := Put(r, data[i].0, w);
        i := i + 1;
      }
      WholePrefix(data);
    }

    /** `d.copy()`: a new instance of the same class built from `todict`; for
        entries of the form the constructor produces it is an exact copy. */
    method Copy() returns (c: SDict)
      requires Valid()
      ensures fresh(c) && c.Valid()
      ensures c.frozen == frozen && c.data == WrapEntries(PlainEntries(data), frozen)
      ensures (forall i :: 0 <= i < |data| ==> Normal(data[i].1, frozen)) ==> c.data == data
    {
      var plain := ToDict();
      c := new SDict(plain, frozen);
      if forall i :: 0 <= i < |data| ==> Normal(data[i].1, frozen) {
        forall i | 0 <= i < |data| ensures c.data[i] == data[i] {
          WrapPlain(data[i].1, frozen);
        }
      }
    }

    /** `d.frozen()`: an sdict built from `todict`. */
    method Frozen() returns (c: SDict)
      requires Valid()
      ensures fresh(c) && c.Valid() && c.frozen
      ensures c.data == WrapEntries(PlainEntries(data), true)
      ensures c.OrderedKeys() == OrderedKeys()
    {
      var plain := ToDict();
      c := new SDict(plain, true);
    }
  }
}

/**
 * `IndivParamSpec`: a translator between a parameter dictionary and a flat
 * list, built from `(name, 'scalar'|'seq', [len])` tuples, and the registry
 * that hands out one translator per name (the class-level
 * `existing_translators` dictionary, here an explicit object).
 */
module ParamTranslator {
  import opened Wrappers
  import opened OrderedDicts
  import opened Values
  import opened Sequences
  import opened ParamLayout

  class IndivParamSpec {
    const name: string
    const layout: seq<Field>   // params_spec

    constructor(name: string, layout: seq<Field>)
      ensures this.name == name && this.layout == layout
    {
      this.name := name;
      this.layout := layout;
    }

    /** The loop of the constructor: one field per tuple, in order. */
    static method BuildLayout(ts: seq<SpecTuple>) returns (r: Result<seq<Field>, Error>)
      ensures r == ParseLayout(ts)
    {
      var fs: seq<Field> := [];
      var i := 0;
      while i < |ts|
        invariant 0 <= i <= |ts|
        invariant ParseLayout(ts[..i]) == Ok(fs)
      {
        var t := ts[i];
        ParseLayoutNext(ts, i, fs);
        if t.tag != "seq" && t.tag != "scalar" {
          ParseLayoutErrorStays(ts, i + 1);
          return Err(InvalidKind(t.tag));
        }
        var len: nat;
        if t.tag == "seq" {
          if t.len.None? {
            ParseLayoutErrorStays(ts, i + 1);
            return Err(MissingLength(t.name));
          }
          len := t.len.value;
        } else {
          len := 1;
        }
        fs := fs + [Field(t.name, if t.tag == "seq" then Seq else Scalar, len)];
        i := i + 1;
      }
      WholePrefix(ts);
      return Ok(fs);
    }

    /** `params_to_list`. */
    method ParamsToList(d: Entries<Value>) returns (r: Result<seq<Value>, Error>)
      ensures r == ToList(layout, d)
    {
      var out: seq<Value> := [];
      var i := 0;
      while i < |layout|
        invariant 0 <= i <= |layout|
        invariant ToList(layout[..i], d) == Ok(out)
      {
        var f := layout[i];
        ToListNext(layout, d, i, out);
        var found := Lookup(d, f.name);
        if found.None? {
          ToListErrorStays(layout, d, i + 1);
          return Err(MissingField(f.name));
        }
        var v := found.value;
        if f.kind == Seq {
          if !v.List? {
            ToListErrorStays(layout, d, i + 1);
            return Err(NotAList(f.name));
          }
          out := out + v.items;
        } else {
          out := out + [v];
        }
        i := i + 1;
      }
      WholePrefix(layout);
      return Ok(out);
    }

    /** One pass of the loop of `list_to_params`: a sequence field takes the
        slice of its length at the cursor, a scalar the item at the cursor
        (an IndexError past the end); the value is stored under the field's
        name and the cursor moves past it. */
    static method StoreField(out: Entries<Value>, cursor: nat, f: Field, l: seq<Value>)
      returns (r: Result<(Entries<Value>, nat), Error>)
      ensures r == Step(out, cursor, f, l)
    {
      if f.kind == Seq {
        return Ok((Put(out, f.name, List(Slice(l, cursor, cursor + f.len))), cursor + f.len));
      }
      if cursor >= |l| {
        return Err(IndexOutOfRange(cursor));
      }
      return Ok((Put(out, f.name, l[cursor]), cursor + 1));
    }

    /** `list_to_params`: a cursor moves over the list field by field. */
    method ListToParams(l: seq<Value>) returns (r: Result<Entries<Value>, Error>)
      ensures r == FromList(layout, l)
    {
      var cursor: nat := 0;
      var out: Entries<Value> := [];
      var i := 0;
      assert layout[..0] == [];
      while i < |layout|
        invariant 0 <= i <= |layout|
        invariant Walk(layout[..i], l) == Ok((out, cursor))
      {
        var next := StoreField(out, cursor, layout[i], l);
        WalkNext(layout, l, i, out, cursor);
        if next.Err? {
          WalkErrorStays(layout, l, i + 1);
          return Err(next.error);
        }
        out, cursor := next.value.0, next.value.1;
        i := i + 1;
      }
      WholePrefix(layout);
      if cursor != |l| {
        return Err(LengthMismatch(cursor, |l|));
      }
      return Ok(out);
    }

    /** `get_param_names`: one name per field, in declared order. */
    function GetParamNames(): (names: seq<string>)
      ensures |names| == |layout|
      ensures forall i :: 0 <= i < |layout| ==> names[i] == layout[i].name
    {
      FieldNames(layout)
    }

    /** The inner loop of `get_grouped_param_dict` for one input dictionary
        `d`: `d[name]` appended to the list of every field, in declared order. */
    method AppendRow(acc: Entries<Value>, d: Entries<Value>) returns (r: Result<Entries<Value>, Error>)
      ensures r == AddRow(layout, acc, d)
    {
      var row := acc;
      var j := 0;
      while j < |layout|
        invariant 0 <= j <= |layout|
        invariant AddRow(layout[..j], acc, d) == Ok(row)
      {
        var f := layout[j];
        AddRowNext(layout, acc, d, j, row);
        var found := Lookup(d, f.name);
        if found.None? {
          AddRowErrorStays(layout, acc, d, j + 1);
          return Err(MissingField(f.name));
        }
        row := Append(row, f.name, found.value);
        j := j + 1;
      }
      WholePrefix(layout);
      return Ok(row);
    }

    /** `get_grouped_param_dict`: an empty list per field, then one value per
        field from each input dictionary. */
    method GetGroupedParamDict(ds: seq<Entries<Value>>) returns (r: Result<Entries<Value>, Error>)
      ensures r == Grouped(layout, ds)
    {
      var acc: Entries<Value> := [];
      var j := 0;
      while j < |layout|
        invariant 0 <= j <= |layout|
        invariant InitGroups(layout[..j]) == acc
      {
        InitGroupsNext(layout, j);
        acc := Put(acc, layout[j].name, List([]));
        j := j + 1;
      }
      WholePrefix(layout);
      var k := 0;
      while k < |ds|
        invariant 0 <= k <= |ds|
        invariant Grouped(layout, ds[..k]) == Ok(acc)
      {
        GroupedNext(layout, ds, k, acc);
        var row := AppendRow(acc, ds[k]);
        if row.Err? {
          GroupedErrorStays(layout, ds, k + 1);
          return Err(row.error);
        }
        acc := row.value;
        k := k + 1;
      }
      WholePrefix(ds);
      return Ok(acc);
    }
  }

  /** The translators built so far, by name. */
  class Registry {
    var translators: map<string, IndivParamSpec>

    /** Every translator is registered under its own name. */
    ghost predicate Valid()
      reads this
    {
      forall n :: n in translators ==> translators[n].name == n
    }

    constructor()
      ensures Valid() && translators == map[]
    {
      translators := map[];
    }

    /** `IndivParamSpec(name, spec_tuple_list)`: the translator registered
        under `name` if there is one, whatever `ts` says; otherwise a new
        translator for `ts`, registered under `name`, unless a tuple is
        refused, in which case nothing is registered. */
    method New(name: string, ts: seq<SpecTuple>) returns (r: Result<IndivParamSpec, Error>)
      requires Valid()
      modifies this
      ensures Valid()
      ensures name in old(translators) ==> r == Ok(old(translators)[name]) && translators == old(translators)
      ensures name !in old(translators) && ParseLayout(ts).Err? ==>
                r == Err(ParseLayout(ts).error) && translators == old(translators)
      ensures name !in old(translators) && ParseLayout(ts).Ok? ==>
                && r.Ok? && fresh(r.value)
                && r.value.name == name && r.value.layout == ParseLayout(ts).value
                && translators == old(translators)[name := r.value]
    {
      if name in translators {
        return Ok(translators[name]);
      }
      var layout := IndivParamSpec.BuildLayout(ts);
      if layout.Err? {
        return Err(layout.error);
      }
      var spec := new IndivParamSpec(name, layout.value);
      translators := translators[name := spec];
      return Ok(spec);
    }
  }
}

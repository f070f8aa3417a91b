/**
 * The parameter layout of an `IndivParamSpec`: an ordered list of named
 * fields, each a scalar (one position of the flat list) or a sequence of a
 * declared length (that many contiguous positions), and the conversions
 * between a parameter dictionary and the flat list, as functions. The
 * methods of `ParamTranslator` compute these with the Python code's loops.
 */
module ParamLayout {
  import opened Wrappers
  import opened OrderedDicts
  import opened Values
  import opened Sequences

  datatype Kind = Scalar | Seq

  /** One entry of `params_spec`: `(par_name, par_type, par_len)`. */
  datatype Field = Field(name: string, kind: Kind, len: nat)

  /** One `(name, tag[, len])` tuple handed to the constructor; `len` is the
      optional third component. */
  datatype SpecTuple = SpecTuple(name: string, tag: string, len: Option<nat>)

  /** What the Python code raises. */
  datatype Error =
    | InvalidKind(tag: string)                  // AssertionError: tag is neither 'seq' nor 'scalar'
    | MissingLength(field: string)              // IndexError: a 'seq' tuple without its length
    | MissingField(field: string)               // KeyError: the dictionary lacks a declared field
    | NotAList(field: string)                   // TypeError: a 'seq' field's value cannot be extended from
    | IndexOutOfRange(index: nat)               // IndexError: a scalar read past the end of the list
    | LengthMismatch(cursor: nat, length: nat)  // AssertionError: the final cursor check

  // ---------------------------------------------------------------------
  // Construction: parsing the spec tuples

  predicate Accepted(t: SpecTuple) {
    t.tag == "scalar" || (t.tag == "seq" && t.len.Some?)
  }

  /** The field a tuple declares: scalars get length 1, sequences their given length. */
  predicate Declares(t: SpecTuple, f: Field) {
    && f.name == t.name
    && (t.tag == "scalar" ==> f.kind == Scalar && f.len == 1)
    && (t.tag == "seq" ==> f.kind == Seq && t.len == Some(f.len))
  }

  /** The body of the constructor's loop for one tuple. */
  function ParseField(t: SpecTuple): (r: Result<Field, Error>)
    ensures r.Ok? <==> Accepted(t)
    ensures r.Ok? ==> Declares(t, r.value)
    ensures t.tag != "seq" && t.tag != "scalar" ==> r == Err(InvalidKind(t.tag))
  {
    if t.tag != "seq" && t.tag != "scalar" then Err(InvalidKind(t.tag))
    else if t.tag == "seq" then
      if t.len.None? then Err(MissingLength(t.name)) else Ok(Field(t.name, Seq, t.len.value))
    else Ok(Field(t.name, Scalar, 1))
  }

  /** `params_spec` as built by the constructor, or the error raised by the
      first tuple it refuses (see `ParseLayoutOk` and `ParseLayoutRefusal`). */
  function ParseLayout(ts: seq<SpecTuple>): Result<seq<Field>, Error> {
    if ts == [] then Ok([])
    else
      var n := |ts| - 1;
      match ParseLayout(ts[..n])
      case Err(e) => Err(e)
      case Ok(fs) =>
        match ParseField(ts[n])
        case Err(e) => Err(e)
        case Ok(f) => Ok(fs + [f])
  }

  /** Construction succeeds exactly when every tuple is accepted, and then
      declares one field per tuple, in order. */
  lemma {:induction false} ParseLayoutOk(ts: seq<SpecTuple>)
    ensures ParseLayout(ts).Ok? <==> forall i :: 0 <= i < |ts| ==> Accepted(ts[i])
    ensures ParseLayout(ts).Ok? ==>
      |ParseLayout(ts).value| == |ts| && forall i :: 0 <= i < |ts| ==> Declares(ts[i], ParseLayout(ts).value[i])
  {
    if ts != [] {
      var n := |ts| - 1;
      ParseLayoutOk(ts[..n]);
      assert forall j :: 0 <= j < n ==> ts[..n][j] == ts[j];
    }
  }

  /** A failed construction reports the error of the first refused tuple. */
  lemma {:induction false} ParseLayoutRefusal(ts: seq<SpecTuple>)
    requires ParseLayout(ts).Err?
    ensures exists i :: 0 <= i < |ts| && ParseField(ts[i]) == Err(ParseLayout(ts).error)
                        && forall j :: 0 <= j < i ==> Accepted(ts[j])
  {
    var n := |ts| - 1;
    if ParseLayout(ts[..n]).Err? {
      ParseLayoutRefusal(ts[..n]);
      var i :| 0 <= i < n && ParseField(ts[..n][i]) == Err(ParseLayout(ts[..n]).error)
               && forall j :: 0 <= j < i ==> Accepted(ts[..n][j]);
      assert forall j :: 0 <= j < i ==> ts[..n][j] == ts[j];
      assert ParseField(ts[i]) == Err(ParseLayout(ts).error);
    } else {
      ParseLayoutOk(ts[..n]);
      assert forall j :: 0 <= j < n ==> ts[..n][j] == ts[j];
      assert ParseField(ts[n]) == Err(ParseLayout(ts).error);
    }
  }

  lemma {:induction false} ParseLayoutErrorStays(ts: seq<SpecTuple>, i: nat)
    requires i <= |ts| && ParseLayout(ts[..i]).Err?
    ensures ParseLayout(ts) == ParseLayout(ts[..i])
    decreases |ts|
  {
    if i < |ts| {
      var n := |ts| - 1;
      PrefixOfPrefix(ts, n, i);
      ParseLayoutErrorStays(ts[..n], i);
      ParseLayoutErrorLast(ts);
    } else {
      WholePrefix(ts);
    }
  }

  /** The constructor's loop one tuple further. */
  lemma {:induction false} ParseLayoutNext(ts: seq<SpecTuple>, i: nat, fs: seq<Field>)
    requires i < |ts| && ParseLayout(ts[..i]) == Ok(fs)
    ensures ParseLayout(ts[..i + 1]) ==
      match ParseField(ts[i])
      case Err(e) => Err(e)
      case Ok(f) => Ok(fs + [f])
  {
    PrefixOfPrefix(ts, i + 1, i);
  }

  lemma {:induction false} ParseLayoutErrorLast(ts: seq<SpecTuple>)
    requires ts != [] && ParseLayout(ts[..|ts| - 1]).Err?
    ensures ParseLayout(ts) == ParseLayout(ts[..|ts| - 1])
  {
  }

  // ---------------------------------------------------------------------
  // Widths and offsets

  /** The positions a field occupies in the flat list. */
  function Width(f: Field): nat {
    if f.kind == Scalar then 1 else f.len
  }

  /** The length every flat list of this layout must have. */
  function TotalLen(fs: seq<Field>): nat {
    if fs == [] then 0 else TotalLen(fs[..|fs| - 1]) + Width(fs[|fs| - 1])
  }

  lemma {:induction false} PrefixLen(fs: seq<Field>, i: nat)
    requires i <= |fs|
    ensures TotalLen(fs[..i]) <= TotalLen(fs)
    ensures i < |fs| ==> TotalLen(fs[..i]) + Width(fs[i]) == TotalLen(fs[..i + 1])
    decreases |fs|
  {
    if i < |fs| {
      var n := |fs| - 1;
      PrefixOfPrefix(fs, i + 1, i);
      PrefixOfPrefix(fs, n, i);
      PrefixLen(fs[..n], i);
    } else {
      WholePrefix(fs);
    }
  }

  /** Where field `i` starts in the flat list. */
  function Offset(fs: seq<Field>, i: nat): (o: nat)
    requires i <= |fs|
    ensures o <= TotalLen(fs)
    ensures i < |fs| ==> o + Width(fs[i]) <= TotalLen(fs)
  {
    PrefixLen(fs, i);
    if i < |fs| then PrefixLen(fs, i + 1); TotalLen(fs[..i]) else TotalLen(fs[..i])
  }

  /** Dropping fields at the end moves no field that remains. */
  lemma {:induction false} OffsetOfPrefix(fs: seq<Field>, n: nat, i: nat)
    requires i <= n <= |fs|
    ensures Offset(fs[..n], i) == Offset(fs, i)
  {
    PrefixOfPrefix(fs, n, i);
  }

  /** `get_param_names`. */
  function FieldNames(fs: seq<Field>): seq<string> {
    seq(|fs|, i requires 0 <= i < |fs| => fs[i].name)
  }

  /** The value field `i` takes from a flat list long enough to hold it. */
  function Piece(fs: seq<Field>, l: seq<Value>, i: nat): Value
    requires i < |fs| && TotalLen(fs) <= |l|
  {
    var o := Offset(fs, i);
    if fs[i].kind == Seq then List(l[o..o + fs[i].len]) else l[o]
  }

  lemma {:induction false} PieceOfPrefix(fs: seq<Field>, n: nat, l: seq<Value>, i: nat)
    requires i < n <= |fs| && TotalLen(fs) <= |l|
    ensures TotalLen(fs[..n]) <= |l| && Piece(fs[..n], l, i) == Piece(fs, l, i)
  {
    PrefixLen(fs, n);
    OffsetOfPrefix(fs, n, i);
  }

  // ---------------------------------------------------------------------
  // params_to_list

  /** The dictionary holds field `f` in a form `params_to_list` accepts. */
  predicate Present(d: Entries<Value>, f: Field) {
    Lookup(d, f.name).Some? && (f.kind == Seq ==> Lookup(d, f.name).value.List?)
  }

  /** What `params_to_list` raises for a field that is not `Present`. */
  function Refusal(d: Entries<Value>, f: Field): Error {
    if Lookup(d, f.name).None? then MissingField(f.name) else NotAList(f.name)
  }

  /** `params_to_list(d)`: the fields' values laid out in declared order;
      a sequence field contributes all its elements, a scalar its value (see
      `ToListOk` and `ToListRefusal`). */
  function ToList(fs: seq<Field>, d: Entries<Value>): Result<seq<Value>, Error> {
    if fs == [] then Ok([])
    else
      var n := |fs| - 1;
      var f := fs[n];
      match ToList(fs[..n], d)
      case Err(e) => Err(e)
      case Ok(xs) =>
        match Lookup(d, f.name)
        case None => Err(MissingField(f.name))
        case Some(v) =>
          if f.kind == Seq then
            if v.List? then Ok(xs + v.items) else Err(NotAList(f.name))
          else Ok(xs + [v])
  }

  /** `params_to_list` succeeds exactly when every field is present (and a
      list where the layout wants a sequence). */
  lemma {:induction false} ToListOk(fs: seq<Field>, d: Entries<Value>)
    ensures ToList(fs, d).Ok? <==> forall i :: 0 <= i < |fs| ==> Present(d, fs[i])
  {
    if fs != [] {
      var n := |fs| - 1;
      ToListOk(fs[..n], d);
      assert forall j :: 0 <= j < n ==> fs[..n][j] == fs[j];
    }
  }

  /** A failed `params_to_list` raises for the first field that is not present. */
  lemma {:induction false} ToListRefusal(fs: seq<Field>, d: Entries<Value>)
    requires ToList(fs, d).Err?
    ensures exists i :: 0 <= i < |fs| && !Present(d, fs[i]) && ToList(fs, d).error == Refusal(d, fs[i])
                        && forall j :: 0 <= j < i ==> Present(d, fs[j])
  {
    var n := |fs| - 1;
    if ToList(fs[..n], d).Err? {
      ToListRefusal(fs[..n], d);
      var i :| 0 <= i < n && !Present(d, fs[..n][i]) && ToList(fs[..n], d).error == Refusal(d, fs[..n][i])
               && forall j :: 0 <= j < i ==> Present(d, fs[..n][j]);
      assert forall j :: 0 <= j < i ==> fs[..n][j] == fs[j];
      assert ToList(fs, d).error == Refusal(d, fs[i]);
    } else {
      ToListOk(fs[..n], d);
      assert forall j :: 0 <= j < n ==> fs[..n][j] == fs[j];
      assert ToList(fs, d).error == Refusal(d, fs[n]);
    }
  }

  lemma {:induction false} ToListErrorStays(fs: seq<Field>, d: Entries<Value>, i: nat)
    requires i <= |fs| && ToList(fs[..i], d).Err?
    ensures ToList(fs, d) == ToList(fs[..i], d)
    decreases |fs|
  {
    if i < |fs| {
      var n := |fs| - 1;
      PrefixOfPrefix(fs, n, i);
      ToListErrorStays(fs[..n], d, i);
      ToListErrorLast(fs, d);
    } else {
      WholePrefix(fs);
    }
  }

  lemma {:induction false} ToListErrorLast(fs: seq<Field>, d: Entries<Value>)
    requires fs != [] && ToList(fs[..|fs| - 1], d).Err?
    ensures ToList(fs, d) == ToList(fs[..|fs| - 1], d)
  {
  }

  /** The loop of `params_to_list` one field further. */
  lemma {:induction false} ToListNext(fs: seq<Field>, d: Entries<Value>, i: nat, xs: seq<Value>)
    requires i < |fs| && ToList(fs[..i], d) == Ok(xs)
    ensures ToList(fs[..i + 1], d) ==
      match Lookup(d, fs[i].name)
      case None => Err(MissingField(fs[i].name))
      case Some(v) =>
        if fs[i].kind == Seq then
          if v.List? then Ok(xs + v.items) else Err(NotAList(fs[i].name))
        else Ok(xs + [v])
  {
    PrefixOfPrefix(fs, i + 1, i);
  }

  // ---------------------------------------------------------------------
  // list_to_params

  /** Python's `l[lo:hi]` for `0 <= lo <= hi`: bounds past the end are clamped. */
  function Slice<T>(s: seq<T>, lo: nat, hi: nat): (r: seq<T>)
    requires lo <= hi
    ensures hi <= |s| ==> r == s[lo..hi]
  {
    var a := if lo <= |s| then lo else |s|;
    var b := if hi <= |s| then hi else |s|;
    s[a..b]
  }

  /** One field of `list_to_params`: the value read at the cursor (a slice of
      `len` items for a sequence field, one item for a scalar), stored under
      the field's name, and the cursor moved past it. */
  function Step(e: Entries<Value>, c: nat, f: Field, l: seq<Value>): (r: Result<(Entries<Value>, nat), Error>)
    ensures r.Ok? ==> r.value.1 == c + Width(f)
    ensures r.Err? <==> (f.kind == Scalar && c >= |l|)
  {
    if f.kind == Seq then
      Ok((Put(e, f.name, List(Slice(l, c, c + f.len))), c + f.len))
    else if c < |l| then
      Ok((Put(e, f.name, l[c]), c + 1))
    else
      Err(IndexOutOfRange(c))
  }

  /** The loop of `list_to_params` over the given fields: the dictionary built
      and the final cursor, or the IndexError of a scalar read past the end. */
  function Walk(fs: seq<Field>, l: seq<Value>): Result<(Entries<Value>, nat), Error> {
    if fs == [] then Ok(([], 0))
    else
      var w := Walk(fs[..|fs| - 1], l);
      if w.Err? then w else Step(w.value.0, w.value.1, fs[|fs| - 1], l)
  }

  /** The loop ends with the cursor at the layout's total length, or with an
      IndexError on a list shorter than that. */
  lemma {:induction false} WalkOutcome(fs: seq<Field>, l: seq<Value>)
    ensures Walk(fs, l).Ok? ==> Walk(fs, l).value.1 == TotalLen(fs)
    ensures Walk(fs, l).Err? ==> Walk(fs, l).error.IndexOutOfRange? && |l| < TotalLen(fs)
  {
    if fs != [] {
      var n := |fs| - 1;
      PrefixLen(fs, n);
      WholePrefix(fs);
      WalkOutcome(fs[..n], l);
    }
  }

  /** The loop of `list_to_params` one field further. */
  lemma {:induction false} WalkNext(fs: seq<Field>, l: seq<Value>, i: nat, e: Entries<Value>, c: nat)
    requires i < |fs| && Walk(fs[..i], l) == Ok((e, c))
    ensures Walk(fs[..i + 1], l) == Step(e, c, fs[i], l)
  {
    PrefixOfPrefix(fs, i + 1, i);
  }

  /** An IndexError ends the loop: later fields change nothing. */
  lemma {:induction false} WalkErrorStays(fs: seq<Field>, l: seq<Value>, i: nat)
    requires i <= |fs| && Walk(fs[..i], l).Err?
    ensures Walk(fs, l) == Walk(fs[..i], l)
    decreases |fs|
  {
    if i < |fs| {
      var n := |fs| - 1;
      assert Walk(fs[..n], l) == Walk(fs[..i], l) by {
        PrefixOfPrefix(fs, n, i);
        WalkErrorStays(fs[..n], l, i);
      }
      WalkErrorLast(fs, l);
    } else {
      WholePrefix(fs);
    }
  }

  lemma {:induction false} WalkErrorLast(fs: seq<Field>, l: seq<Value>)
    requires fs != [] && Walk(fs[..|fs| - 1], l).Err?
    ensures Walk(fs, l) == Walk(fs[..|fs| - 1], l)
  {
  }

  /** `list_to_params(l)`: it succeeds exactly when the list has the layout's
      total length; a longer list trips the final cursor assertion, a shorter
      one either that assertion or a scalar read past the end. */
  function FromList(fs: seq<Field>, l: seq<Value>): Result<Entries<Value>, Error> {
    match Walk(fs, l)
    case Err(e) => Err(e)
    case Ok((e, cursor)) => if cursor == |l| then Ok(e) else Err(LengthMismatch(cursor, |l|))
  }

  /** `list_to_params(l)` succeeds exactly when `l` has the layout's total
      length; a longer list fails the final cursor check, a shorter one that
      check or a scalar read past the end. */
  lemma FromListOutcome(fs: seq<Field>, l: seq<Value>)
    ensures FromList(fs, l).Ok? <==> |l| == TotalLen(fs)
    ensures |l| > TotalLen(fs) ==> FromList(fs, l) == Err(LengthMismatch(TotalLen(fs), |l|))
    ensures |l| < TotalLen(fs) ==>
      FromList(fs, l).error.IndexOutOfRange? || FromList(fs, l).error == LengthMismatch(TotalLen(fs), |l|)
  {
    WalkOutcome(fs, l);
  }


  /** The last field's name is new to the fields before it. */
  lemma {:induction false} LastNameIsNew(fs: seq<Field>)
    requires fs != [] && Distinct(FieldNames(fs))
    ensures FieldNames(fs) == FieldNames(fs[..|fs| - 1]) + [fs[|fs| - 1].name]
    ensures Distinct(FieldNames(fs[..|fs| - 1]))
    ensures fs[|fs| - 1].name !in FieldNames(fs[..|fs| - 1])
    ensures forall i :: 0 <= i < |fs| - 1 ==> fs[i].name != fs[|fs| - 1].name
  {
    var n := |fs| - 1;
    assert FieldNames(fs[..n]) == FieldNames(fs)[..n];
    forall i | 0 <= i < n ensures fs[i].name != fs[n].name {
      assert FieldNames(fs)[i] != FieldNames(fs)[n];
    }
  }

  /** One more step of the loop of `list_to_params`, over a list long enough. */
  lemma {:induction false} WalkLast(fs: seq<Field>, l: seq<Value>)
    requires fs != [] && TotalLen(fs) <= |l| && Walk(fs[..|fs| - 1], l).Ok?
    ensures Walk(fs, l) == Ok((Put(Walk(fs[..|fs| - 1], l).value.0, fs[|fs| - 1].name, Piece(fs, l, |fs| - 1)), TotalLen(fs)))
  {
    var n := |fs| - 1;
    PrefixLen(fs, n);
    WalkOutcome(fs[..n], l);
  }

  /** Over a list long enough, the loop of `list_to_params` puts every field
      under its own name, in declared order, holding its piece of the list. */
  lemma {:induction false} WalkShape(fs: seq<Field>, l: seq<Value>)
    requires Distinct(FieldNames(fs)) && TotalLen(fs) <= |l|
    ensures Walk(fs, l).Ok?
    ensures Keys(Walk(fs, l).value.0) == FieldNames(fs)
    ensures forall i :: 0 <= i < |fs| ==> Lookup(Walk(fs, l).value.0, fs[i].name) == Some(Piece(fs, l, i))
  {
    if fs != [] {
      var n := |fs| - 1;
      var init, f := fs[..n], fs[n];
      LastNameIsNew(fs);
      PrefixLen(fs, n);
      WalkShape(init, l);
      WalkLast(fs, l);
      var e := Walk(init, l).value.0;
      PutKeys(e, f.name, Piece(fs, l, n));
      PutLookup(e, f.name, Piece(fs, l, n));
      forall i | 0 <= i < n
        ensures Lookup(Walk(fs, l).value.0, fs[i].name) == Some(Piece(fs, l, i))
      {
        PutOther(e, f.name, Piece(fs, l, n), fs[i].name);
        PieceOfPrefix(fs, n, l, i);
      }
    }
  }

  /** `list_to_params` on a list of the right length: the keys are the field
      names in declared order; a sequence field holds the slice of its declared
      length starting at its offset, a scalar the single element there. */
  lemma {:induction false} FromListShape(fs: seq<Field>, l: seq<Value>)
    requires Distinct(FieldNames(fs)) && |l| == TotalLen(fs)
    ensures FromList(fs, l).Ok?
    ensures Keys(FromList(fs, l).value) == FieldNames(fs)
    ensures forall i :: 0 <= i < |fs| ==>
      var o := Offset(fs, i);
      Lookup(FromList(fs, l).value, fs[i].name) ==
        Some(if fs[i].kind == Seq then List(l[o..o + fs[i].len]) else l[o])
  {
    FromListOutcome(fs, l);
    WalkShape(fs, l);
  }

  /** One more step of the loop of `params_to_list`, for a field that is present. */
  lemma {:induction false} ToListLast(fs: seq<Field>, d: Entries<Value>)
    requires fs != [] && ToList(fs[..|fs| - 1], d).Ok? && Present(d, fs[|fs| - 1])
    ensures var f, v := fs[|fs| - 1], Lookup(d, fs[|fs| - 1].name).value;
            ToList(fs, d) == Ok(ToList(fs[..|fs| - 1], d).value + if f.kind == Seq then v.items else [v])
  {
  }

  /** `params_to_list` on a dictionary whose every field holds its piece of `l`
      rebuilds the first `TotalLen(fs)` elements of `l`. */
  lemma {:induction false} ToListOfPieces(fs: seq<Field>, d: Entries<Value>, l: seq<Value>)
    requires TotalLen(fs) <= |l|
    requires forall i :: 0 <= i < |fs| ==> Lookup(d, fs[i].name) == Some(Piece(fs, l, i))
    ensures ToList(fs, d) == Ok(l[..TotalLen(fs)])
  {
    if fs != [] {
      var n := |fs| - 1;
      PrefixLen(fs, n);
      forall i | 0 <= i < n ensures Lookup(d, fs[..n][i].name) == Some(Piece(fs[..n], l, i)) {
        PieceOfPrefix(fs, n, l, i);
      }
      ToListOfPieces(fs[..n], d, l);
      ToListPieceLast(fs, d, l);
    }
  }

  /** The last step of `ToListOfPieces`: the last field's piece extends the
      prefix of `l` rebuilt for the fields before it. */
  lemma ToListPieceLast(fs: seq<Field>, d: Entries<Value>, l: seq<Value>)
    requires fs != [] && TotalLen(fs) <= |l|
    requires ToList(fs[..|fs| - 1], d) == Ok(l[..TotalLen(fs[..|fs| - 1])])
    requires Lookup(d, fs[|fs| - 1].name) == Some(Piece(fs, l, |fs| - 1))
    ensures ToList(fs, d) == Ok(l[..TotalLen(fs)])
  {
    var n := |fs| - 1;
    var init, f := fs[..n], fs[n];
    PrefixLen(fs, n);
    var c, t := TotalLen(init), TotalLen(fs);
    assert Offset(fs, n) == c;
    var v := Piece(fs, l, n);
    ToListLast(fs, d);
    assert t == c + Width(f);
    if f.kind == Seq {
      assert v.items == l[c..t];
    } else {
      assert [v] == l[c..t];
    }
    SplitAt(l, c, t);
  }

  lemma {:induction false} SplitAt<T>(s: seq<T>, i: nat, j: nat)
    requires i <= j <= |s|
    ensures s[..i] + s[i..j] == s[..j]
  {
  }

  /** Round trip list -> dict -> list (fields with distinct names). */
  lemma {:induction false} RoundTripList(fs: seq<Field>, l: seq<Value>)
    requires Distinct(FieldNames(fs)) && |l| == TotalLen(fs)
    ensures FromList(fs, l).Ok? && ToList(fs, FromList(fs, l).value) == Ok(l)
  {
    FromListOutcome(fs, l);
    WalkShape(fs, l);
    ToListOfPieces(fs, FromList(fs, l).value, l);
    WholePrefix(l);
  }

  /** The dictionary holds every field, each sequence field a list of exactly
      its declared length. */
  ghost predicate Fits(fs: seq<Field>, d: Entries<Value>) {
    forall i :: 0 <= i < |fs| ==>
      Present(d, fs[i]) && (fs[i].kind == Seq ==> |Lookup(d, fs[i].name).value.items| == fs[i].len)
  }

  /** `params_to_list` on a fitting dictionary: the list has the layout's total
      length and each field's piece of it is the field's value. */
  lemma {:induction false} ToListFits(fs: seq<Field>, d: Entries<Value>)
    requires Fits(fs, d)
    ensures ToList(fs, d).Ok? && |ToList(fs, d).value| == TotalLen(fs)
    ensures forall i :: 0 <= i < |fs| ==> Piece(fs, ToList(fs, d).value, i) == Lookup(d, fs[i].name).value
  {
    if fs != [] {
      var n := |fs| - 1;
      var init, f := fs[..n], fs[n];
      assert Fits(init, d);
      ToListFits(init, d);
      ToListLast(fs, d);
      var flat' := ToList(init, d).value;
      var v := Lookup(d, f.name).value;
      var seg := if f.kind == Seq then v.items else [v];
      forall i | 0 <= i < |fs| ensures Piece(fs, flat' + seg, i) == Lookup(d, fs[i].name).value {
        PieceOfExtension(fs, flat', seg, i);
      }
    }
  }

  /** Appending the last field's elements to a list laid out for the fields
      before it moves none of their pieces. */
  lemma {:induction false} PieceOfExtension(fs: seq<Field>, flat: seq<Value>, seg: seq<Value>, i: nat)
    requires fs != [] && i < |fs|
    requires |flat| == TotalLen(fs[..|fs| - 1]) && |seg| == Width(fs[|fs| - 1])
    ensures TotalLen(fs) <= |flat + seg|
    ensures i < |fs| - 1 ==> Piece(fs, flat + seg, i) == Piece(fs[..|fs| - 1], flat, i)
    ensures i == |fs| - 1 ==> Piece(fs, flat + seg, i) == if fs[i].kind == Seq then List(seg) else seg[0]
  {
    var n := |fs| - 1;
    PrefixLen(fs, n);
    if i < n {
      PieceOfPrefix(fs, n, flat + seg, i);
      PieceOfLonger(fs[..n], flat, seg, i);
    } else {
      SliceOfConcat(flat, seg, 0, 0);
    }
  }

  /** Appending to a list long enough for the layout moves no piece. */
  lemma PieceOfLonger(fs: seq<Field>, l: seq<Value>, more: seq<Value>, i: nat)
    requires i < |fs| && TotalLen(fs) <= |l|
    ensures Piece(fs, l + more, i) == Piece(fs, l, i)
  {
    var o, w := Offset(fs, i), Width(fs[i]);
    if fs[i].kind == Seq {
      SliceOfConcat(l, more, o, w);
    }
  }

  lemma {:induction false} SliceOfConcat<T>(a: seq<T>, b: seq<T>, o: nat, w: nat)
    requires o + w <= |a|
    ensures (a + b)[o..o + w] == a[o..o + w]
    ensures (a + b)[|a|..|a| + |b|] == b
  {
  }

  /** Round trip dict -> list -> dict: the rebuilt dictionary holds exactly the
      declared fields, in declared order, each with the original value. */
  lemma {:induction false} RoundTripDict(fs: seq<Field>, d: Entries<Value>)
    requires Distinct(FieldNames(fs)) && Fits(fs, d)
    ensures ToList(fs, d).Ok? && FromList(fs, ToList(fs, d).value).Ok?
    ensures Keys(FromList(fs, ToList(fs, d).value).value) == FieldNames(fs)
    ensures forall i :: 0 <= i < |fs| ==>
      Lookup(FromList(fs, ToList(fs, d).value).value, fs[i].name) == Lookup(d, fs[i].name)
  {
    ToListFits(fs, d);
    FromListOutcome(fs, ToList(fs, d).value);
    WalkShape(fs, ToList(fs, d).value);
  }

  /** The layout must not repeat a name, which the constructor does not check:
      with a repeated name the later field overwrites the earlier one and the
      list does not survive the round trip. */
  lemma {:induction false} RepeatedNameBreaksRoundTrip()
    ensures var fs := [Field("a", Scalar, 1), Field("a", Scalar, 1)];
            var l := [Atom(1), Atom(2)];
            FromList(fs, l) == Ok([("a", Atom(2))]) && ToList(fs, FromList(fs, l).value) == Ok([Atom(2), Atom(2)])
  {
    var f := Field("a", Scalar, 1);
    var fs, one := [f, f], [f];
    var l := [Atom(1), Atom(2)];
    assert fs[..1] == one && one[..0] == [];
    assert Walk(one, l) == Ok(([("a", Atom(1))], 1));
    assert Put([("a", Atom(1))], "a", Atom(2)) == [("a", Atom(2))];
    assert Walk(fs, l) == Ok(([("a", Atom(2))], 2));
    var e := [("a", Atom(2))];
    assert Lookup(e, "a") == Some(Atom(2));
    assert ToList([], e) == Ok([]);
    ToListLast(one, e);
    assert [] + [Atom(2)] == [Atom(2)];
    ToListLast(fs, e);
    assert [Atom(2)] + [Atom(2)] == [Atom(2), Atom(2)];
  }


  // ---------------------------------------------------------------------
  // get_grouped_param_dict

  /** The first loop: an empty list under every field name. */
  function InitGroups(fs: seq<Field>): Entries<Value> {
    if fs == [] then [] else Put(InitGroups(fs[..|fs| - 1]), fs[|fs| - 1].name, List([]))
  }

  /** `acc[k].append(v)`; the accumulator always holds a list under `k`, so
      the last case is never taken. */
  function Append(acc: Entries<Value>, k: string, v: Value): Entries<Value> {
    var cur := Lookup(acc, k);
    if cur.Some? && cur.value.List? then Put(acc, k, List(cur.value.items + [v])) else acc
  }

  /** The inner loop for one input dictionary `d`: append `d[name]` to the
      list of every field, in declared order. */
  function AddRow(fs: seq<Field>, acc: Entries<Value>, d: Entries<Value>): Result<Entries<Value>, Error> {
    if fs == [] then Ok(acc)
    else
      var f := fs[|fs| - 1];
      match AddRow(fs[..|fs| - 1], acc, d)
      case Err(e) => Err(e)
      case Ok(a) =>
        match Lookup(d, f.name)
        case None => Err(MissingField(f.name))
        case Some(v) => Ok(Append(a, f.name, v))
  }

  /** `get_grouped_param_dict(ds)`: the outer loop over the input dictionaries. */
  function Grouped(fs: seq<Field>, ds: seq<Entries<Value>>): Result<Entries<Value>, Error> {
    if ds == [] then Ok(InitGroups(fs))
    else
      match Grouped(fs, ds[..|ds| - 1])
      case Err(e) => Err(e)
      case Ok(acc) => AddRow(fs, acc, ds[|ds| - 1])
  }

  /** The first loop one field further. */
  lemma {:induction false} InitGroupsNext(fs: seq<Field>, j: nat)
    requires j < |fs|
    ensures InitGroups(fs[..j + 1]) == Put(InitGroups(fs[..j]), fs[j].name, List([]))
  {
    PrefixOfPrefix(fs, j + 1, j);
  }

  /** The inner loop one field further: `d[name]` is appended to the field's
      list, or the missing field raises KeyError. */
  lemma {:induction false} AddRowNext(fs: seq<Field>, acc: Entries<Value>, d: Entries<Value>, j: nat, row: Entries<Value>)
    requires j < |fs| && AddRow(fs[..j], acc, d) == Ok(row)
    ensures Lookup(d, fs[j].name).None? ==> AddRow(fs[..j + 1], acc, d) == Err(MissingField(fs[j].name))
    ensures Lookup(d, fs[j].name).Some? ==>
      AddRow(fs[..j + 1], acc, d) == Ok(Append(row, fs[j].name, Lookup(d, fs[j].name).value))
  {
    PrefixOfPrefix(fs, j + 1, j);
  }

  /** The outer loop one input further. */
  lemma {:induction false} GroupedNext(fs: seq<Field>, ds: seq<Entries<Value>>, k: nat, acc: Entries<Value>)
    requires k < |ds| && Grouped(fs, ds[..k]) == Ok(acc)
    ensures Grouped(fs, ds[..k + 1]) == AddRow(fs, acc, ds[k])
  {
    PrefixOfPrefix(ds, k + 1, k);
  }

  /** A missing field ends the inner loop: later fields change nothing. */
  lemma {:induction false} AddRowErrorStays(fs: seq<Field>, acc: Entries<Value>, d: Entries<Value>, i: nat)
    requires i <= |fs| && AddRow(fs[..i], acc, d).Err?
    ensures AddRow(fs, acc, d) == AddRow(fs[..i], acc, d)
    decreases |fs|
  {
    if i < |fs| {
      var n := |fs| - 1;
      PrefixOfPrefix(fs, n, i);
      AddRowErrorStays(fs[..n], acc, d, i);
      AddRowErrorLast(fs, acc, d);
    } else {
      WholePrefix(fs);
    }
  }

  lemma {:induction false} AddRowErrorLast(fs: seq<Field>, acc: Entries<Value>, d: Entries<Value>)
    requires fs != [] && AddRow(fs[..|fs| - 1], acc, d).Err?
    ensures AddRow(fs, acc, d) == AddRow(fs[..|fs| - 1], acc, d)
  {
  }

  /** A failed row ends the outer loop: later rows change nothing. */
  lemma {:induction false} GroupedErrorStays(fs: seq<Field>, ds: seq<Entries<Value>>, k: nat)
    requires k <= |ds| && Grouped(fs, ds[..k]).Err?
    ensures Grouped(fs, ds) == Grouped(fs, ds[..k])
    decreases |ds|
  {
    if k < |ds| {
      var n := |ds| - 1;
      PrefixOfPrefix(ds, n, k);
      GroupedErrorStays(fs, ds[..n], k);
      GroupedErrorLast(fs, ds);
    } else {
      WholePrefix(ds);
    }
  }

  lemma {:induction false} GroupedErrorLast(fs: seq<Field>, ds: seq<Entries<Value>>)
    requires ds != [] && Grouped(fs, ds[..|ds| - 1]).Err?
    ensures Grouped(fs, ds) == Grouped(fs, ds[..|ds| - 1])
  {
  }

  /** Under field name `name`, `acc` holds the list of `name`'s values in `ds`, in order. */
  ghost predicate IsColumn(acc: Entries<Value>, name: string, ds: seq<Entries<Value>>) {
    && Lookup(acc, name).Some? && Lookup(acc, name).value.List?
    && var xs := Lookup(acc, name).value.items;
       |xs| == |ds| && forall k :: 0 <= k < |ds| ==> Lookup(ds[k], name) == Some(xs[k])
  }

  /** Every input dictionary holds every declared field. */
  ghost predicate AllPresent(fs: seq<Field>, ds: seq<Entries<Value>>) {
    forall k, i :: 0 <= k < |ds| && 0 <= i < |fs| ==> Lookup(ds[k], fs[i].name).Some?
  }

  lemma {:induction false} InitGroupsShape(fs: seq<Field>)
    requires Distinct(FieldNames(fs))
    ensures Keys(InitGroups(fs)) == FieldNames(fs)
    ensures forall i :: 0 <= i < |fs| ==> Lookup(InitGroups(fs), fs[i].name) == Some(List([]))
  {
    if fs != [] {
      var n := |fs| - 1;
      LastNameIsNew(fs);
      InitGroupsShape(fs[..n]);
      PutKeys(InitGroups(fs[..n]), fs[n].name, List([]));
      PutLookup(InitGroups(fs[..n]), fs[n].name, List([]));
      forall i | 0 <= i < n ensures Lookup(InitGroups(fs), fs[i].name) == Some(List([])) {
        PutOther(InitGroups(fs[..n]), fs[n].name, List([]), fs[i].name);
      }
    }
  }

  /** The inner loop fails exactly when `d` lacks a field. */
  lemma {:induction false} AddRowOk(fs: seq<Field>, acc: Entries<Value>, d: Entries<Value>)
    ensures AddRow(fs, acc, d).Ok? <==> forall i :: 0 <= i < |fs| ==> Lookup(d, fs[i].name).Some?
  {
    if fs != [] {
      var n := |fs| - 1;
      AddRowOk(fs[..n], acc, d);
      assert forall i :: 0 <= i < n ==> fs[..n][i] == fs[i];
    }
  }

  /** A list under every field name. */
  ghost predicate HoldsLists(fs: seq<Field>, acc: Entries<Value>) {
    forall i :: 0 <= i < |fs| ==> Lookup(acc, fs[i].name).Some? && Lookup(acc, fs[i].name).value.List?
  }

  /** One pass of the inner loop keeps the accumulator's keys. */
  lemma {:induction false} AddRowKeys(fs: seq<Field>, acc: Entries<Value>, d: Entries<Value>)
    requires Distinct(FieldNames(fs)) && HoldsLists(fs, acc) && AddRow(fs, acc, d).Ok?
    ensures Keys(AddRow(fs, acc, d).value) == Keys(acc)
  {
    if fs != [] {
      var n := |fs| - 1;
      var init, f := fs[..n], fs[n];
      LastNameIsNew(fs);
      assert HoldsLists(init, acc) by {
        forall i | 0 <= i < n ensures init[i] == fs[i] { }
      }
      AddRowKeys(init, acc, d);
      AddRowAt(init, acc, d, f.name);
      assert Lookup(acc, f.name).Some?;
      var a := AddRow(init, acc, d).value;
      var xs := Lookup(a, f.name).value.items;
      LookupSome(a, f.name);
      PutKeys(a, f.name, List(xs + [Lookup(d, f.name).value]));
    }
  }

  /** One pass of the inner loop appends `d[name]` to the list under each
      field name and leaves every other key alone. */
  lemma {:induction false} AddRowAt(fs: seq<Field>, acc: Entries<Value>, d: Entries<Value>, name: string)
    requires Distinct(FieldNames(fs)) && HoldsLists(fs, acc) && AddRow(fs, acc, d).Ok?
    ensures name !in FieldNames(fs) ==> Lookup(AddRow(fs, acc, d).value, name) == Lookup(acc, name)
    ensures name in FieldNames(fs) ==>
      && Lookup(d, name).Some?
      && Lookup(AddRow(fs, acc, d).value, name) == Some(List(Lookup(acc, name).value.items + [Lookup(d, name).value]))
  {
    if fs != [] {
      var n := |fs| - 1;
      var init, f := fs[..n], fs[n];
      LastNameIsNew(fs);
      assert HoldsLists(init, acc) by {
        forall i | 0 <= i < n ensures init[i] == fs[i] { }
      }
      AddRowAt(init, acc, d, name);
      AddRowAt(init, acc, d, f.name);
      var a := AddRow(init, acc, d).value;
      var v := Lookup(d, f.name).value;
      assert Lookup(acc, f.name).Some?;
      var xs := Lookup(a, f.name).value.items;
      assert AddRow(fs, acc, d).value == Put(a, f.name, List(xs + [v]));
      if name != f.name {
        PutOther(a, f.name, List(xs + [v]), name);
      } else {
        PutLookup(a, f.name, List(xs + [v]));
      }
    }
  }

  /** `get_grouped_param_dict` fails exactly when some input lacks a field,
      whatever the layout, repeated names included. */
  lemma {:induction false} GroupedOk(fs: seq<Field>, ds: seq<Entries<Value>>)
    ensures Grouped(fs, ds).Ok? <==> AllPresent(fs, ds)
  {
    if ds != [] {
      var n := |ds| - 1;
      GroupedOk(fs, ds[..n]);
      AddRowPresence(fs, ds);
      if Grouped(fs, ds[..n]).Ok? {
        AddRowOk(fs, Grouped(fs, ds[..n]).value, ds[n]);
      }
    }
  }

  /** With a name repeated in the layout, each input's value is appended
      twice to that name's list. */
  lemma RepeatedNameGroupsTwice()
    ensures var f := Field("a", Scalar, 1);
            Grouped([f, f], [[("a", Atom(7))]]) == Ok([("a", List([Atom(7), Atom(7)]))])
  {
    var f := Field("a", Scalar, 1);
    var fs, one := [f, f], [f];
    var d := [("a", Atom(7))];
    var ds := [d];
    assert fs[..1] == one && one[..0] == [] && ds[..0] == [];
    var init := [("a", List([]))];
    assert InitGroups(one) == init;
    assert InitGroups(fs) == init;
    assert Grouped(fs, []) == Ok(init);
    assert Lookup(d, "a") == Some(Atom(7));
    var once := [("a", List([Atom(7)]))];
    var empty: seq<Value> := [];
    assert Lookup(init, "a") == Some(List(empty));
    assert empty + [Atom(7)] == [Atom(7)];
    assert Put(init, "a", List([Atom(7)])) == once;
    assert Append(init, "a", Atom(7)) == once;
    assert AddRow(one, init, d) == Ok(once);
    assert Lookup(once, "a") == Some(List([Atom(7)]));
    assert [Atom(7)] + [Atom(7)] == [Atom(7), Atom(7)];
    assert Put(once, "a", List([Atom(7), Atom(7)])) == [("a", List([Atom(7), Atom(7)]))];
    assert Append(once, "a", Atom(7)) == [("a", List([Atom(7), Atom(7)]))];
    assert AddRow(fs, init, d) == Ok([("a", List([Atom(7), Atom(7)]))]);
  }

  /** `get_grouped_param_dict` transposes a sequence of dictionaries into a
      dictionary of lists: it succeeds exactly when every input holds every
      field; then its keys are the field names in declared order and each
      field's list holds that field's value from each input, in input order. */
  lemma {:induction false} GroupedShape(fs: seq<Field>, ds: seq<Entries<Value>>)
    requires Distinct(FieldNames(fs))
    ensures Grouped(fs, ds).Ok? <==> AllPresent(fs, ds)
    ensures Grouped(fs, ds).Ok? ==>
      && Keys(Grouped(fs, ds).value) == FieldNames(fs)
      && forall i :: 0 <= i < |fs| ==> IsColumn(Grouped(fs, ds).value, fs[i].name, ds)
  {
    if ds == [] {
      InitGroupsShape(fs);
    } else {
      var n := |ds| - 1;
      var init, d := ds[..n], ds[n];
      GroupedShape(fs, init);
      AddRowPresence(fs, ds);
      if Grouped(fs, init).Ok? {
        var acc := Grouped(fs, init).value;
        AddRowOk(fs, acc, d);
        if AddRow(fs, acc, d).Ok? {
          AddRowKeys(fs, acc, d);
          forall i | 0 <= i < |fs| ensures IsColumn(Grouped(fs, ds).value, fs[i].name, ds) {
            assert FieldNames(fs)[i] == fs[i].name;
            ColumnStep(fs, acc, ds, fs[i].name);
          }
        }
      }
    }
  }

  /** One pass of the inner loop over the last input extends every column. */
  lemma {:induction false} ColumnStep(fs: seq<Field>, acc: Entries<Value>, ds: seq<Entries<Value>>, name: string)
    requires ds != [] && Distinct(FieldNames(fs)) && HoldsLists(fs, acc)
    requires AddRow(fs, acc, ds[|ds| - 1]).Ok?
    requires name in FieldNames(fs) && IsColumn(acc, name, ds[..|ds| - 1])
    ensures IsColumn(AddRow(fs, acc, ds[|ds| - 1]).value, name, ds)
  {
    var n := |ds| - 1;
    var d := ds[n];
    AddRowAt(fs, acc, d, name);
    var ys := Lookup(acc, name).value.items + [Lookup(d, name).value];
    forall k | 0 <= k < |ds| ensures Lookup(ds[k], name) == Some(ys[k]) {
      if k < n { assert ds[k] == ds[..n][k]; }
    }
  }

  /** Every input holds every field exactly when the inputs before the last
      do and the last one does. */
  lemma {:induction false} AddRowPresence(fs: seq<Field>, ds: seq<Entries<Value>>)
    requires ds != []
    ensures AllPresent(fs, ds) <==>
      AllPresent(fs, ds[..|ds| - 1]) && forall i :: 0 <= i < |fs| ==> Lookup(ds[|ds| - 1], fs[i].name).Some?
  {
    var n := |ds| - 1;
    assert forall k :: 0 <= k < n ==> ds[..n][k] == ds[k];
  }
}

# ltl: parameter translator and dot-addressable dictionaries, in Dafny

This project models the core of the `ltl` package (`ltl/__init__.py`), in two parts.

The first part is `IndivParamSpec`. It translates between an individual's parameter
dictionary and the flat list an optimizer works on. A translator is built from
`(name, 'scalar'|'seq', [len])` tuples. A scalar field takes one position of the flat
list. A sequence field takes as many contiguous positions as its declared length.
Translators are kept in a registry keyed by name: asking again for a name returns the
translator already built, whatever tuples come with the request.

The second part is `sdictm`, an insertion-ordered dictionary whose entries can also be
read and written as attributes, and `sdict`, its immutable variant. The constructor
turns nested dictionaries into nested instances of the same class. `todict` turns them
back, and `copy` and `frozen` are built from `todict`.

Layout of the project:

- `wrappers.dfy`: `Option` and `Result`.
- `sequences.dfy`: three facts about prefixes of sequences.
- `ordered_dicts.dfy`: Python's insertion-ordered `dict`/`OrderedDict`, modelled as the
  sequence of its entries. Covers `d[k] = v`, `d.get(k)`, `d.keys()` and a loop of
  assignments.
- `values.dfy`: the Python objects the code passes around.
  - `None`, lists and dictionaries are their own cases.
  - A nested `sdictm`/`sdict` is `Box`.
  - Any other object the code never looks into is `Atom`.
- `param_layout.dfy`: the translator's layout and the conversions, as recursive
  functions that follow the source loops one field at a time. It holds the lemmas that
  state what the conversions guarantee: when they succeed, which error they raise, the
  shape of the result, and both round trips.
- `param_translator.dfy`: the class `IndivParamSpec`, whose methods run the source
  loops and are proved equal to those functions. Also the class `Registry`, which is
  the class-level `existing_translators` dictionary.
- `sdicts.dfy`: the conversions the constructor and `todict` apply, as functions on
  values, with their round-trip lemmas. Also the class `SDict`, which is `sdictm`, or
  `sdict` when its `frozen` field is set. Its `data` field is `_data`. Its methods
  update it in place or raise `Immutable`.

Errors the source raises are values of an `Error` or `DictError` datatype returned in a
`Result`:

- an `AssertionError` from a bad tag or a bad final cursor;
- an `IndexError` from a missing length or a read past the end of the list;
- a `KeyError` from a missing field;
- a `TypeError` from extending with something that is not a list;
- a `RuntimeError` from `sdict` mutators and from a constructor given something that
  is not a dictionary.

## Model

| member | source | states |
|---|---|---|
| `OrderedDicts.Keys` | ltl/__init__.py:81-82 | `keys()` has one key per entry, in insertion order |
| `OrderedDicts.LookupSome` | ltl/__init__.py:54 | `_data.get(k)` finds a value exactly when `k` is a key, and the value found is one stored under `k` |
| `OrderedDicts.LookupAt` | ltl/__init__.py:54 | in a dictionary without repeated keys, looking up an entry's key gives that entry's value |
| `OrderedDicts.LookupOf` | ltl/__init__.py:54 | in a dictionary without repeated keys, a stored pair `(k, v)` is what `get(k)` returns |
| `OrderedDicts.KeyNotBefore` | ltl/__init__.py:33 | in a dictionary without repeated keys, no entry's key occurs among the entries before it |
| `OrderedDicts.KeysAppend` | ltl/__init__.py:33 | appending an entry appends its key to the key order |
| `OrderedDicts.LookupAppend` | ltl/__init__.py:54 | an entry appended at the end is found only when no earlier entry carries its key |
| `OrderedDicts.PutLookup` | ltl/__init__.py:72 | after `d[k] = v`, `d.get(k)` is `v` |
| `OrderedDicts.PutKeys` | ltl/__init__.py:72 | `d[k] = v` keeps the key order; a new key is appended at the end |
| `OrderedDicts.PutOther` | ltl/__init__.py:72 | `d[k] = v` leaves the value of every other key as it was |
| `OrderedDicts.PutKeepsDistinct` | ltl/__init__.py:72 | assignment never creates a repeated key |
| `OrderedDicts.PutNew` | ltl/__init__.py:72 | assigning to a missing key appends exactly that entry |
| `OrderedDicts.PutAllLookup` | ltl/__init__.py:116-121 | after assigning every keyword in order, each keyword's key holds the keyword's value and every other key keeps its own |
| `OrderedDicts.PutAllKeepsDistinct` | ltl/__init__.py:116-121 | a loop of assignments never creates a repeated key |
| `ParamLayout.ParseField` | ltl/__init__.py:185-192 | a tuple is accepted exactly when its tag is `'scalar'`, or `'seq'` with a length. It then declares a field of that name: a scalar of length 1 or a sequence of the given length. Any other tag fails the type assertion |
| `ParamLayout.ParseLayoutOk` | ltl/__init__.py:183-192 | construction succeeds exactly when every tuple is accepted, and then declares one field per tuple, in order |
| `ParamLayout.ParseLayoutRefusal` | ltl/__init__.py:183-192 | a failed construction raises the error of the first refused tuple, and every tuple before it is accepted |
| `ParamLayout.ParseLayoutErrorStays` | ltl/__init__.py:187 | once a tuple is refused, the later tuples do not change the outcome |
| `ParamLayout.PrefixLen` | ltl/__init__.py:218-224 | the flat length of the first fields never exceeds the whole layout's; one more field adds its width |
| `ParamLayout.Offset` | ltl/__init__.py:216-224 | a field's starting cursor plus its width stays within the layout's total length |
| `ParamLayout.OffsetOfPrefix` | ltl/__init__.py:216-224 | dropping fields at the end moves no remaining field |
| `ParamLayout.PieceOfPrefix` | ltl/__init__.py:216-224 | a field's piece of the list is the same in the whole layout as in any prefix that contains it |
| `ParamLayout.ToListOk` | ltl/__init__.py:206-213 | `params_to_list` succeeds exactly when every field is in the dictionary and every sequence field holds a list |
| `ParamLayout.ToListRefusal` | ltl/__init__.py:206-213 | a failed `params_to_list` raises the KeyError or TypeError of the first field that is missing or not a list; every field before it is present |
| `ParamLayout.ToListErrorStays` | ltl/__init__.py:210 | once a field raises, the later fields do not change the outcome |
| `ParamLayout.Slice` | ltl/__init__.py:220 | within bounds, Python's `l[lo:hi]` is the sub-list from `lo` to `hi` |
| `ParamLayout.Step` | ltl/__init__.py:219-224 | one field of `list_to_params` moves the cursor by the field's width. It fails exactly when a scalar is read at or past the end of the list |
| `ParamLayout.WalkOutcome` | ltl/__init__.py:216-224 | the loop of `list_to_params` ends with the cursor at the layout's total length, or raises an IndexError on a list shorter than that |
| `ParamLayout.WalkErrorStays` | ltl/__init__.py:223 | once a read past the end raises, the later fields do not change the outcome |
| `ParamLayout.FromListOutcome` | ltl/__init__.py:215-226 | `list_to_params` succeeds exactly when the list has the layout's total length. A longer list fails the final cursor assertion; a shorter one fails that assertion or a scalar read |
| `ParamLayout.WalkLast` | ltl/__init__.py:218-224 | over a list long enough, the last field stores its piece under its name and the cursor ends at the total length |
| `ParamLayout.WalkShape` | ltl/__init__.py:216-224 | over a list long enough, with distinct field names, the loop builds a dictionary whose keys are the field names in declared order, each holding its piece of the list |
| `ParamLayout.FromListShape` | ltl/__init__.py:215-226 | on a list of the right length, `list_to_params` puts each field under its own name, in declared order: a sequence field holds the slice of its length at its offset, a scalar the item at its offset |
| `ParamLayout.ToListOfPieces` | ltl/__init__.py:206-213 | `params_to_list` on a dictionary holding each field's piece of `l` gives back the first `TotalLen` items of `l` |
| `ParamLayout.ToListPieceLast` | ltl/__init__.py:208-212 | the last field's piece extends the prefix of `l` rebuilt for the fields before it |
| `ParamLayout.RoundTripList` | ltl/__init__.py:206-226 | list, then `list_to_params`, then `params_to_list` gives the list back, when the field names are distinct |
| `ParamLayout.ToListFits` | ltl/__init__.py:206-213 | on a dictionary with every field, where each sequence field is a list of its declared length, the flat list has the total length and each field's piece of it is the field's value |
| `ParamLayout.PieceOfExtension` | ltl/__init__.py:209-212 | appending the last field's items to a list laid out for the fields before it moves none of their pieces, and the last piece is the appended items |
| `ParamLayout.PieceOfLonger` | ltl/__init__.py:220-223 | appending to a list long enough for the layout moves no field's piece |
| `ParamLayout.RoundTripDict` | ltl/__init__.py:206-226 | dictionary, then `params_to_list`, then `list_to_params` rebuilds exactly the declared fields, in declared order, each with its original value |
| `ParamLayout.RepeatedNameBreaksRoundTrip` | ltl/__init__.py:215-226 | with a name repeated in the layout, the later field overwrites the earlier one and the list does not come back |
| `ParamLayout.LastNameIsNew` | ltl/__init__.py:218 | with distinct names, the last field's name is new to the fields before it |
| `ParamLayout.InitGroupsShape` | ltl/__init__.py:234-236 | after the first loop, the keys are the field names in declared order, each holding an empty list |
| `ParamLayout.AddRowErrorStays` | ltl/__init__.py:240 | once the inner loop raises, the later fields do not change the outcome |
| `ParamLayout.GroupedErrorStays` | ltl/__init__.py:238-240 | once an input raises, the later inputs do not change the outcome |
| `ParamLayout.AddRowOk` | ltl/__init__.py:239-240 | the inner loop succeeds exactly when the input dictionary holds every field |
| `ParamLayout.AddRowKeys` | ltl/__init__.py:239-240 | one pass of the inner loop keeps the result's keys |
| `ParamLayout.AddRowAt` | ltl/__init__.py:239-240 | one pass of the inner loop appends the input's value to the list of each field and leaves every other key alone |
| `ParamLayout.ColumnStep` | ltl/__init__.py:238-240 | one pass over the last input extends each field's list by that input's value |
| `ParamLayout.AddRowPresence` | ltl/__init__.py:238-240 | every input holds every field exactly when the earlier inputs do and the last one does |
| `ParamLayout.GroupedOk` | ltl/__init__.py:231-242 | for every layout, repeated names included, `get_grouped_param_dict` succeeds exactly when every input holds every field |
| `ParamLayout.GroupedShape` | ltl/__init__.py:231-242 | `get_grouped_param_dict` succeeds exactly when every input holds every field. Its keys are then the field names in declared order, and each field's list holds that field's value from each input, in input order |
| `ParamLayout.RepeatedNameGroupsTwice` | ltl/__init__.py:231-242 | with the layout `[a, a]` and the single input `{a: 7}`, the result is `{a: [7, 7]}`: each input's value is appended once per occurrence of the name |
| `ParamTranslator.IndivParamSpec.constructor` | ltl/__init__.py:194-196 | a new translator carries the given name and layout |
| `ParamTranslator.IndivParamSpec.BuildLayout` | ltl/__init__.py:183-192 | the constructor's loop over the tuples computes `ParseLayout`: the fields in order, or the first refusal |
| `ParamTranslator.IndivParamSpec.ParamsToList` | ltl/__init__.py:206-213 | the loop of `params_to_list` computes `ToList`, whose outcome `ToListOk`, `ToListRefusal` and the round trips describe |
| `ParamTranslator.IndivParamSpec.StoreField` | ltl/__init__.py:219-224 | one pass of the loop of `list_to_params` is `Step`: a slice or one item stored under the field's name, with the cursor moved past it |
| `ParamTranslator.IndivParamSpec.ListToParams` | ltl/__init__.py:215-226 | the cursor loop and the final length assertion compute `FromList`, whose outcome `FromListOutcome`, `FromListShape` and the round trips describe |
| `ParamTranslator.IndivParamSpec.GetParamNames` | ltl/__init__.py:228-229 | one name per field, in declared order |
| `ParamTranslator.IndivParamSpec.AppendRow` | ltl/__init__.py:239-240 | the inner loop for one input computes `AddRow` |
| `ParamTranslator.IndivParamSpec.GetGroupedParamDict` | ltl/__init__.py:231-242 | both loops compute `Grouped`, whose outcome `GroupedShape` describes |
| `ParamTranslator.Registry.constructor` | ltl/__init__.py:178 | the registry starts empty |
| `ParamTranslator.Registry.New` | ltl/__init__.py:180-201 | a name already registered returns its translator and changes nothing, whatever the tuples say. A new name whose tuples are refused raises and registers nothing. Otherwise a fresh translator with the parsed layout is registered under the name, and every other entry is unchanged |
| `SDicts.WrapEntries` | ltl/__init__.py:33-44 | the constructor keeps the dictionary's keys in order and converts each value |
| `SDicts.PlainEntries` | ltl/__init__.py:86-97 | `todict` keeps the keys in order and converts each value back |
| `SDicts.WrapEntriesAppend` | ltl/__init__.py:33-44 | the constructor converts a dictionary entry by entry |
| `SDicts.PlainEntriesAppend` | ltl/__init__.py:86-97 | `todict` converts entry by entry |
| `SDicts.WrapNext` | ltl/__init__.py:33-44 | one more entry of a dictionary without repeated keys is appended, converted, and its key is new |
| `SDicts.PlainNext` | ltl/__init__.py:86-97 | one more stored entry is appended, converted back, and its key is new |
| `SDicts.PlainWrap` | ltl/__init__.py:84-98 | `todict` after the constructor gives back the plain data the constructor was given |
| `SDicts.WrapPlain` | ltl/__init__.py:100-105 | the intended conversion applied to what `todict` returns rebuilds every value of the form that conversion produces, so `copy` is exact under it. The constructor as written is not: see `CopyAsWrittenOnQuirk` |
| `SDicts.WrapNormal` | ltl/__init__.py:29-44 | the constructor produces values of its own form: no plain dictionary left in place, and every nested instance of the same class |
| `SDicts.FirstNonDict` | ltl/__init__.py:38-42 | the first list item that is not a dictionary; every item before it is one |
| `SDicts.AsWrittenOnQuirk` | ltl/__init__.py:36-42 | as written, `[0, {}]` is stored as the given list, which keeps its raw dictionary and gains a converted copy of it |
| `SDicts.PlainOnQuirk` | ltl/__init__.py:89-95 | `todict` on that stored list gives two empty dictionaries |
| `SDicts.WrapOnQuirk` | ltl/__init__.py:36-42 | the intended conversion turns `[0, {}]` into `[0, <empty instance>]` |
| `SDicts.ListQuirk` | ltl/__init__.py:36-42 | as written, `todict` after the constructor does not give back `[0, {}]`; under the intended conversion it does |
| `SDicts.CopyAsWrittenOnQuirk` | ltl/__init__.py:100-105 | as written, `copy` of an instance storing `[0, {}, sdictm({})]` stores `[0, {}, {}, sdictm({}), sdictm({})]`: the constructor runs the list branch again on `todict`'s `[0, {}, {}]` |
| `SDicts.SDict.constructor` | ltl/__init__.py:29-47 | the instance stores every entry of the given dictionary, in order, converted, with no repeated key |
| `SDicts.SDict.Create` | ltl/__init__.py:29-47 | `None` fails the assertion, anything other than a dictionary raises RuntimeError, and a dictionary is stored converted |
| `SDicts.SDict.Item` | ltl/__init__.py:49-60 | `d[key]` and `d.key` give a value stored under the key, or `None` when the key is missing |
| `SDicts.SDict.Get` | ltl/__init__.py:74-79 | `get(key, default)` is the default exactly when the key is missing or holds `None`, and otherwise the stored value |
| `SDicts.SDict.OrderedKeys` | ltl/__init__.py:81-82 | the keys, one per entry, in insertion order, without repetition |
| `SDicts.SDict.SetItem` | ltl/__init__.py:62-72 | an `sdictm` assigns, so the key then holds the value and every other key keeps its own. An `sdict` (lines 153-160) raises `Immutable` and keeps its entries |
| `SDicts.SDict.Update` | ltl/__init__.py:107-123 | an `sdictm` assigns each keyword in order: each given key holds its keyword's value and every other key keeps its own. An `sdict` (lines 162-163) raises `Immutable` and keeps its entries |
| `SDicts.SDict.PlainValue` | ltl/__init__.py:87-97 | the value `todict` returns for one stored value |
| `SDicts.SDict.ToDict` | ltl/__init__.py:84-98 | `todict` returns the entries, in order, converted back, with no repeated key |
| `SDicts.SDict.Copy` | ltl/__init__.py:100-105 | `copy` is a fresh instance of the same class, built by the intended conversion from `todict`. For entries of the form that conversion produces, its entries equal the original's |
| `SDicts.SDict.Frozen` | ltl/__init__.py:145-146 | `frozen` is a fresh `sdict` built from `todict`, with the same keys in the same order |

## Left out

- Names repeated in the layout: the constructor does not reject them. The lemmas that
  need distinct names say so in their `requires`: `WalkShape`, `FromListShape`,
  `RoundTripList`, `RoundTripDict`, `InitGroupsShape`, `AddRowKeys`, `AddRowAt`,
  `ColumnStep` and `GroupedShape`. With a repeated name, `list_to_params` keeps only
  the later field's value (`RepeatedNameBreaksRoundTrip`). `get_grouped_param_dict`
  appends each input's value to that name's list once per occurrence
  (`RepeatedNameGroupsTwice`). Whether it fails does not depend on distinct names
  (`GroupedOk`).
- SDicts.SDict.constructor, SDicts.SDict.Create, SDicts.SDict.Copy and
  SDicts.SDict.Frozen store values through `Wrap`, the intended conversion of the
  Findings row, not the list branch of lines 36-42 as written (`WrapAsWritten`). On a
  list that mixes dictionaries and other items, they disagree with the code. For
  `[{}, 0]` the code stores the given list with its raw dictionary, while the class
  stores a converted instance and `0`. Their exactness results, including "`copy` is
  exact", hold for the intended conversion only. As written, `copy` is not exact on
  such lists (`CopyAsWrittenOnQuirk`).
- SDicts.SDict.Create: stores a given dictionary through `Wrap`, as the constructor above does.
- SDicts.SDict.Copy: its exact-copy clause holds for the intended conversion; the code's `copy` grows mixed lists (`CopyAsWrittenOnQuirk`).
- SDicts.SDict.Frozen: converts `todict`'s result through `Wrap`, not the list branch as written.
- `params_to_list` extends the list from any iterable. The model accepts only a list
  and raises `NotAList` for anything else. `get_grouped_param_dict` takes any iterable
  of dictionaries; the model takes a sequence of them.
- The length in a `'seq'` tuple is a natural number in the model. A negative or
  non-integer length, and the negative slice bounds it would produce, are not modelled.
- `__getattr__` for `'__getstate__'` and for `_data`, and `__setattr__` for `_data`:
  these serve pickling and the instance's own field. `d.name` for a name that is also a
  method or attribute of the class finds the attribute; the model treats every name as
  a key.
- The warning issued when a missing key reads as `None`, the progress messages of
  `update`, and its `quiet` keyword: these are output only. `update` also returns
  `self`, which the model leaves implicit.
- `apply`: it calls an arbitrary user function on the leaves.
- `static_vars`, `static_var`, `printq`, `__getnewargs__` and everything outside
  `ltl/__init__.py`: these are not part of this model.
- Object identity and aliasing: nested instances and lists are values in the model.
  Mutating a nested instance through another reference is not modelled. Neither is
  the mutation of the caller's own list by the constructor as written (see Findings).
- SDicts.SDict.constructor: requires the given entries to have distinct keys. A
  Python dictionary always has them.
- SDicts.SDict.Update: requires distinct keyword names, which Python guarantees for
  `**kwargs`.
- ParamTranslator.IndivParamSpec.GetParamNames: returns a sequence where the source
  returns a tuple.
- ParamLayout.Slice: the contract states only the in-bounds case. The clamping of bounds past the end, which a sequence field at the end of a short list meets, is in its body, and `Step` and `FromListOutcome` account for it.
- The registry is an explicit object passed to `Registry.New` rather than a class
  attribute shared by the whole process.

## Findings

| source | as written | input that shows it | evidently intended | confidence | as-written member | corrected member |
|---|---|---|---|---|---|---|
| ltl/__init__.py:36-42 | For a list value, the stored list is replaced by the given list itself as soon as an item is not a dictionary. Every later dictionary item is converted and appended to that given list, so the raw dictionary stays and the caller's list changes. Dictionary items before the first non-dictionary item are converted into a list that is then discarded | `sdictm({'a': [0, {}]})` stores `[0, {}, sdictm({})]`, so `todict()` gives `[0, {}, {}]`, and `todict()` of its `copy()` gives `[0, {}, {}, {}, {}]` | convert each dictionary item in place and keep every other item, giving `[0, sdictm({})]`; `todict` then gives back the data the constructor was given | not executed | `SDicts.WrapAsWritten`, `SDicts.ListQuirk`, `SDicts.CopyAsWrittenOnQuirk` | `SDicts.Wrap`, `SDicts.PlainWrap` |

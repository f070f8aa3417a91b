/**
 * The Python objects the parameter translator and the dot-addressable
 * dictionaries pass around, as values.
 */
module Values {

  datatype Value =
    | Null                                   // None
    | Atom(id: int)                          // any other object the code never looks into: numbers, strings, ...
    | List(items: seq<Value>)                // list
    | Dict(entries: seq<(string, Value)>)    // dict / OrderedDict, entries in insertion order
    | Box(frozen: bool, fields: seq<(string, Value)>)
                                             // an sdictm (frozen: an sdict) nested as a value, its `_data` entries
}

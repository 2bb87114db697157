/** Ruby values as they reach `has_ancestry`: option keys, option values and
    the values held in a record's columns, with Ruby's notion of truthiness
    and hash lookup. */
module RubyValues {

  /** A Ruby value. A Hash keeps its entries in insertion order, which is the
      order `Hash#each` visits them in. */
  datatype Value =
    | Nil
    | Bool(b: bool)
    | Int(i: int)
    | Str(s: string)
    | Sym(name: string)
    | HashVal(entries: seq<(Value, Value)>)

  datatype Option<T> = None | Some(value: T)

  /** The outcome of an operation that may raise. */
  datatype Result<T, E> = Ok(value: T) | Err(error: E)

  /** Everything except `nil` and `false` is true in a Ruby condition. */
  predicate Truthy(v: Value) {
    !v.Nil? && v != Bool(false)
  }

  /** `a || b`: the left operand when it is truthy, otherwise the right one. */
  function Or(a: Value, b: Value): Value {
    if Truthy(a) then a else b
  }

  /** No key occurs twice, as in every Ruby Hash. */
  predicate UniqueKeys(entries: seq<(Value, Value)>) {
    forall i, j :: 0 <= i < j < |entries| ==> entries[i].0 != entries[j].0
  }

  /** `hash[key]`: the value stored under `key`, or `nil` when the key is absent. */
  function Lookup(entries: seq<(Value, Value)>, key: Value): (r: Value)
    ensures (forall i :: 0 <= i < |entries| ==> entries[i].0 != key) ==> r == Nil
    ensures r != Nil ==> (key, r) in entries
    ensures forall i :: 0 <= i < |entries| && entries[i].0 == key && UniqueKeys(entries) ==> r == entries[i].1
  {
    if entries == [] then Nil
    else if entries[0].0 == key then entries[0].1
    else Lookup(entries[1..], key)
  }
}

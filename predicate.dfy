/**
 * The predicate that filters the walker's decisions (predicate.go). `Funcs`
 * holds three optional functions; an unset one accepts everything. An answer
 * of true lets the operation through and false drops it; for Replace, false
 * also stops the walk below a struct or slice.
 */
module Predicates {

  import opened Wrappers
  import opened Values
  import opened Pointer

  datatype Funcs = Funcs(
    addFunc: Option<(JSONPointer, Value) -> bool>,
    removeFunc: Option<(JSONPointer, Value) -> bool>,
    replaceFunc: Option<(JSONPointer, Value, Value) -> bool>)
  {
    function Add(pointer: JSONPointer, modified: Value): (r: bool)
      ensures addFunc.None? ==> r
      ensures addFunc.Some? ==> r == addFunc.value(pointer, modified)
    {
      if addFunc.Some? then addFunc.value(pointer, modified) else true
    }

    function Remove(pointer: JSONPointer, current: Value): (r: bool)
      ensures removeFunc.None? ==> r
      ensures removeFunc.Some? ==> r == removeFunc.value(pointer, current)
    {
      if removeFunc.Some? then removeFunc.value(pointer, current) else true
    }

    function Replace(pointer: JSONPointer, modified: Value, current: Value): (r: bool)
      ensures replaceFunc.None? ==> r
      ensures replaceFunc.Some? ==> r == replaceFunc.value(pointer, modified, current)
    {
      if replaceFunc.Some? then replaceFunc.value(pointer, modified, current) else true
    }
  }

  /** The zero value `Funcs{}`. */
  const AcceptAll: Funcs := Funcs(None, None, None)

  /** The zero `Funcs{}` lets every decision through. */
  lemma AcceptAllAccepts(pointer: JSONPointer, modified: Value, current: Value)
    ensures AcceptAll.Add(pointer, modified)
    ensures AcceptAll.Remove(pointer, current)
    ensures AcceptAll.Replace(pointer, modified, current)
  {
  }
}

/**
 * Patch operations and the handlers that create them (handler.go, and the
 * JSONPatch record of patch.go). A handler turns one decision of the walker
 * (add, remove or replace at a pointer) into the operations appended to the
 * patch list. The default handler gives exactly one RFC 6902 operation per
 * decision; a custom handler is any three functions of the same shape.
 */
module Handlers {

  import opened Values
  import opened Pointer

  const OpAdd: string := "add"
  const OpRemove: string := "remove"
  const OpReplace: string := "replace"

  /**
   * One operation of RFC 6902: its `op`, its `path` (the rendering of a JSON
   * Pointer) and its `value`. `VInvalid` stands for Go's nil interface, the
   * value a remove carries.
   */
  datatype JSONPatch = JSONPatch(operation: string, path: string, value: Value)

  datatype Handler =
    | DefaultHandler
    | CustomHandler(
        addFn: (JSONPointer, Value) -> seq<JSONPatch>,
        removeFn: (JSONPointer, Value) -> seq<JSONPatch>,
        replaceFn: (JSONPointer, Value, Value) -> seq<JSONPatch>)
  {
    /** The operations for adding `value` at `path`. */
    function Add(path: JSONPointer, value: Value): (r: seq<JSONPatch>)
      ensures DefaultHandler? ==> |r| == 1 && r[0].operation == OpAdd
      ensures DefaultHandler? ==> r[0].path == path.String() && r[0].value == value
    {
      match this
      case DefaultHandler => [JSONPatch(OpAdd, path.String(), value)]
      case CustomHandler(add, _, _) => add(path, value)
    }

    /** The operations for removing the value at `path`; the default ignores `current`. */
    function Remove(path: JSONPointer, current: Value): (r: seq<JSONPatch>)
      ensures DefaultHandler? ==> r == [JSONPatch(OpRemove, path.String(), VInvalid)]
    {
      match this
      case DefaultHandler => [JSONPatch(OpRemove, path.String(), VInvalid)]
      case CustomHandler(_, remove, _) => remove(path, current)
    }

    /** The operations for replacing `current` by `modified` at `path`; the default ignores `current`. */
    function Replace(path: JSONPointer, modified: Value, current: Value): (r: seq<JSONPatch>)
      ensures DefaultHandler? ==> |r| == 1 && r[0].operation == OpReplace
      ensures DefaultHandler? ==> r[0].path == path.String() && r[0].value == modified
    {
      match this
      case DefaultHandler => [JSONPatch(OpReplace, path.String(), modified)]
      case CustomHandler(_, _, replace) => replace(path, modified, current)
    }
  }

  /** The default handler's remove does not look at the removed value, nor its replace at the replaced one. */
  lemma DefaultIgnoresCurrent(path: JSONPointer, modified: Value, c1: Value, c2: Value)
    ensures DefaultHandler.Remove(path, c1) == DefaultHandler.Remove(path, c2)
    ensures DefaultHandler.Replace(path, modified, c1) == DefaultHandler.Replace(path, modified, c2)
  {
  }
}

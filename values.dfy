/**
 * The values the walker compares, standing in for Go's reflect.Value.
 * A value is tagged by its reflect kind; struct fields carry the name of the
 * Go field, the name part of its `json` tag (the text before the first comma)
 * and whether it is exported; maps carry the kind of their key type and their
 * entries in one fixed iteration order; slices carry the type of their
 * elements, which the order-insensitive comparison inspects even when the
 * slice is empty. `VInvalid` is the zero reflect.Value, which is what Go gives
 * for a nil interface.
 */
module Values {

  import opened Wrappers

  datatype IntSize = Int | Int8 | Int16 | Int32 | Int64
  datatype UintSize = Uint | Uintptr | Uint8 | Uint16 | Uint32 | Uint64
  datatype FloatSize = Float32 | Float64
  /** The kinds the walker has no case for. */
  datatype OtherKind = Array | Chan | Func | UnsafePointer | Complex64 | Complex128

  datatype Kind =
    | KInvalid
    | KBool
    | KInt(isize: IntSize)
    | KUint(usize: UintSize)
    | KFloat(fsize: FloatSize)
    | KString
    | KStruct
    | KPtr
    | KSlice
    | KMap
    | KInterface
    | KOther(other: OtherKind)

  /** The static type of a slice's elements, as far as jsonFieldNameToFieldName looks into it. */
  datatype Type =
    | TStruct(decls: seq<FieldDecl>)
    | TPtr(elem: Type)
    | TOther

  /** A struct field's Go name and the name part of its `json` tag. */
  datatype FieldDecl = FieldDecl(name: string, tagName: string)

  datatype Value =
    | VInvalid
    | VBool(b: bool)
    | VInt(isize: IntSize, i: int)
    | VUint(usize: UintSize, u: nat)
    | VFloat(fsize: FloatSize, f: real)
    | VString(s: string)
    | VStruct(fields: seq<Field>)
    | VPtr(target: Option<Value>)
    | VSlice(elemType: Type, items: seq<Value>)
    | VMap(keyKind: Kind, entries: seq<Entry>)
    | VIface(inner: Value)
    | VOther(other: OtherKind)

  datatype Field = Field(name: string, tagName: string, exported: bool, value: Value)

  /** A map entry; `key` is the key's text (the key itself when the key kind is string). */
  datatype Entry = Entry(key: string, value: Value)

  function KindOf(v: Value): Kind
  {
    match v
    case VInvalid => KInvalid
    case VBool(_) => KBool
    case VInt(size, _) => KInt(size)
    case VUint(size, _) => KUint(size)
    case VFloat(size, _) => KFloat(size)
    case VString(_) => KString
    case VStruct(_) => KStruct
    case VPtr(_) => KPtr
    case VSlice(_, _) => KSlice
    case VMap(_, _) => KMap
    case VIface(_) => KInterface
    case VOther(k) => KOther(k)
  }

  /**
   * reflect.Value.Interface(): the value as an `interface{}`. For an
   * interface-kind value that is the value held inside it; every other value
   * is itself.
   */
  function Interface(v: Value): Value
  {
    if v.VIface? then v.inner else v
  }

  /** The entry `key` selects in a map, if any (reflect.Value.MapIndex). */
  function Lookup(entries: seq<Entry>, key: string): (r: Option<Value>)
    ensures r.None? <==> forall i :: 0 <= i < |entries| ==> entries[i].key != key
  {
    if |entries| == 0 then None
    else if entries[0].key == key then Some(entries[0].value)
    else Lookup(entries[1..], key)
  }

  predicate DistinctKeys(entries: seq<Entry>)
  {
    forall i, j :: 0 <= i < j < |entries| ==> entries[i].key != entries[j].key
  }

  /** In a map with distinct keys, each key selects its own entry. */
  lemma {:induction false} LookupDistinct(entries: seq<Entry>, i: nat)
    requires DistinctKeys(entries) && i < |entries|
    ensures Lookup(entries, entries[i].key) == Some(entries[i].value)
  {
    if i > 0 {
      assert entries[0].key != entries[i].key;
      assert DistinctKeys(entries[1..]) by {
        forall a, b | 0 <= a < b < |entries[1..]| ensures entries[1..][a].key != entries[1..][b].key {
          assert entries[1..][a] == entries[a + 1] && entries[1..][b] == entries[b + 1];
        }
      }
      LookupDistinct(entries[1..], i - 1);
      assert entries[1..][i - 1] == entries[i];
    }
  }

  /**
   * Every Go map has distinct keys; the model's maps, at every depth of a
   * value, must have them too.
   */
  predicate WellFormed(v: Value)
    decreases v
  {
    match v
    case VStruct(fields) => forall i :: 0 <= i < |fields| ==> WellFormed(fields[i].value)
    case VPtr(target) => target.Some? ==> WellFormed(target.value)
    case VSlice(_, items) => forall i :: 0 <= i < |items| ==> WellFormed(items[i])
    case VMap(_, entries) =>
      DistinctKeys(entries) && forall i :: 0 <= i < |entries| ==> WellFormed(entries[i].value)
    case VIface(inner) => WellFormed(inner)
    case _ => true
  }
}

/**
 * What one walk of walker.go emits, as pure functions: the specification the
 * imperative Walker class is proved against, and the subject of the lemmas in
 * WalkProps.
 *
 * A walk yields an Outcome: the operations appended to the patch list, in
 * order, and the error that stopped the walk, if any. Operations appended
 * before an error stay in the walker's list, as they do in Go.
 *
 * Go iterates maps in no fixed order. Here a map's entries are visited in the
 * order the value lists them, the order-insensitive comparison visits the
 * modified slice's keys in index order, and it collects the leftover current
 * indices in index order.
 */
module WalkSpec {

  import opened Wrappers
  import opened Strconv
  import opened Pointer
  import opened Values
  import opened Handlers
  import opened Predicates

  /** A rule that makes matching slices order-insensitive, keyed by `jsonField`. */
  datatype IgnorePattern = IgnorePattern(pattern: string, jsonField: string)

  /** The walker's configuration: every field but the patch list. */
  datatype Config = Config(
    pred: Funcs,
    handler: Handler,
    prefix: seq<string>,
    ignoredSlices: seq<IgnorePattern>)

  /** The configuration CreateJSONPatch starts from: `Funcs{}`, the default handler, prefix [""], no rules. */
  const Defaults: Config := Config(AcceptAll, DefaultHandler, [""], [])

  /**
   * Why a walk stops. `at` is the rendering of the pointer where it stopped.
   * MissingField and MapKeyTypeMismatch are Go runtime panics (a struct field
   * index out of range, a map key not assignable to the other map's key type),
   * reported here as errors.
   */
  datatype Error =
    | KindMismatch(at: string, modified: Kind, current: Kind)
    | UnsupportedKind(kind: Kind, at: string)
    | UnsupportedKeyKind(kind: Kind, at: string)
    | DuplicateMatchValue(at: string, value: string)
    | MissingField(at: string, index: nat)
    | MapKeyTypeMismatch(at: string)

  datatype Outcome = Outcome(ops: seq<JSONPatch>, err: Option<Error>)

  function Done(ops: seq<JSONPatch>): Outcome
  {
    Outcome(ops, None)
  }

  function Fail(e: Error): Outcome
  {
    Outcome([], Some(e))
  }

  /** `o` after `ops` were already emitted. */
  function Prepend(ops: seq<JSONPatch>, o: Outcome): Outcome
  {
    Outcome(ops + o.ops, o.err)
  }

  /** Run `o`, then `next` only if `o` did not fail. */
  function Then(o: Outcome, next: Outcome): Outcome
  {
    if o.err.Some? then o else Prepend(o.ops, next)
  }

  /** Emitting `ops`, then running Then(o, next), is running `o` after `ops`, then `next` after that. */
  lemma PrependThen(ops: seq<JSONPatch>, o: Outcome, next: Outcome)
    ensures Prepend(ops, Then(o, next))
         == if o.err.Some? then Prepend(ops, o) else Prepend(ops + o.ops, next)
  {
    if o.err.None? {
      assert ops + (o.ops + next.ops) == ops + o.ops + next.ops;
    }
  }

  lemma PrependPrepend(ops: seq<JSONPatch>, more: seq<JSONPatch>, o: Outcome)
    ensures Prepend(ops, Prepend(more, o)) == Prepend(ops + more, o)
  {
    assert ops + (more + o.ops) == ops + more + o.ops;
  }

  lemma AppendAssoc<T>(a: seq<T>, b: seq<T>, c: seq<T>)
    ensures a + (b + c) == a + b + c
  {
  }

  // ---------------------------------------------------------------------------
  // The predicate-gated emitters: walker.add, walker.replace, walker.remove

  function AddOps(cfg: Config, p: JSONPointer, modified: Value): seq<JSONPatch>
  {
    if cfg.pred.Add(p, modified) then cfg.handler.Add(p, modified) else []
  }

  function ReplaceOps(cfg: Config, p: JSONPointer, modified: Value, current: Value): seq<JSONPatch>
  {
    if cfg.pred.Replace(p, modified, current) then cfg.handler.Replace(p, modified, current) else []
  }

  function RemoveOps(cfg: Config, p: JSONPointer, current: Value): seq<JSONPatch>
  {
    if cfg.pred.Remove(p, current) then cfg.handler.Remove(p, current) else []
  }

  // ---------------------------------------------------------------------------
  // walk and the process* functions

  function Walk(cfg: Config, m: Value, c: Value, p: JSONPointer): Outcome
    decreases m, 3
  {
    if KindOf(m) != KindOf(c) then Fail(KindMismatch(p.String(), KindOf(m), KindOf(c)))
    else
      match m
      case VStruct(_) => ProcessStruct(cfg, m, c, p)
      case VPtr(_) => ProcessPtr(cfg, m, c, p)
      case VSlice(_, _) => ProcessSlice(cfg, m, c, p)
      case VMap(_, _) => ProcessMap(cfg, m, c, p)
      case VIface(_) => ProcessInterface(cfg, m, c, p)
      case VString(s) =>
        if s == c.s then Done([])
        else if s == "" then Done(RemoveOps(cfg, p, VString(c.s)))
        else if c.s == "" then Done(AddOps(cfg, p, VString(s)))
        else Done(ReplaceOps(cfg, p, VString(s), VString(c.s)))
      case VInt(_, i) =>
        if i == c.i then Done([]) else Done(ReplaceOps(cfg, p, VInt(Int64, i), VInt(Int64, c.i)))
      case VUint(_, u) =>
        if u == c.u then Done([]) else Done(ReplaceOps(cfg, p, VUint(Uint64, u), VUint(Uint64, c.u)))
      case VBool(b) =>
        if b == c.b then Done([]) else Done(ReplaceOps(cfg, p, VBool(b), VBool(c.b)))
      case VFloat(_, f) =>
        if f == c.f then Done([]) else Done(ReplaceOps(cfg, p, VFloat(Float64, f), VFloat(Float64, c.f)))
      case VInvalid => Done([])
      case VOther(_) => Fail(UnsupportedKind(KindOf(m), p.String()))
  }

  function ProcessInterface(cfg: Config, m: Value, c: Value, p: JSONPointer): Outcome
    requires m.VIface? && c.VIface?
    decreases m, 2
  {
    Walk(cfg, m.inner, c.inner, p)
  }

  function ProcessPtr(cfg: Config, m: Value, c: Value, p: JSONPointer): Outcome
    requires m.VPtr? && c.VPtr?
    decreases m, 2
  {
    if m.target.Some? && c.target.Some? then Walk(cfg, m.target.value, c.target.value, p)
    else if m.target.Some? then Done(AddOps(cfg, p, Interface(m.target.value)))
    else if c.target.Some? then Done(RemoveOps(cfg, p, Interface(c.target.value)))
    else Done([])
  }

  /** A struct field the walker descends into: exported, with a tag name other than "" and "_". */
  predicate Walked(f: Field)
  {
    f.tagName != "" && f.tagName != "_" && f.exported
  }

  function ProcessStruct(cfg: Config, m: Value, c: Value, p: JSONPointer): Outcome
    requires m.VStruct? && c.VStruct?
    decreases m, 2
  {
    if !cfg.pred.Replace(p, m, c) then Done([])
    else FieldsFrom(cfg, m, c, p, 0)
  }

  /** The struct loop from field `j` on; fields are paired by position. */
  function FieldsFrom(cfg: Config, m: Value, c: Value, p: JSONPointer, j: nat): Outcome
    requires m.VStruct? && c.VStruct? && j <= |m.fields|
    decreases m, 1, |m.fields| - j
  {
    if j == |m.fields| then Done([])
    else if !Walked(m.fields[j]) then FieldsFrom(cfg, m, c, p, j + 1)
    else if j >= |c.fields| then Fail(MissingField(p.String(), j))
    else
      Then(Walk(cfg, m.fields[j].value, c.fields[j].value, p.Add(m.fields[j].tagName)),
           FieldsFrom(cfg, m, c, p, j + 1))
  }

  function ProcessMap(cfg: Config, m: Value, c: Value, p: JSONPointer): Outcome
    requires m.VMap? && c.VMap?
    decreases m, 2
  {
    if |m.entries| > 0 && |c.entries| == 0 then Done(AddOps(cfg, p, m))
    else Then(ModifiedEntriesFrom(cfg, m, c, p, 0), CurrentEntriesFrom(cfg, m, c, p, 0))
  }

  /** The loop over the modified map from entry `j` on: add what is new, walk what is shared. */
  function ModifiedEntriesFrom(cfg: Config, m: Value, c: Value, p: JSONPointer, j: nat): Outcome
    requires m.VMap? && c.VMap? && j <= |m.entries|
    decreases m, 1, |m.entries| - j
  {
    if j == |m.entries| then Done([])
    else if m.keyKind != KString then Fail(UnsupportedKeyKind(m.keyKind, p.String()))
    else if c.keyKind != KString then Fail(MapKeyTypeMismatch(p.String()))
    else
      var e := m.entries[j];
      match Lookup(c.entries, e.key)
      case None => Prepend(AddOps(cfg, p.Add(e.key), Interface(e.value)), ModifiedEntriesFrom(cfg, m, c, p, j + 1))
      case Some(cv) => Then(Walk(cfg, e.value, cv, p.Add(e.key)), ModifiedEntriesFrom(cfg, m, c, p, j + 1))
  }

  /** The loop over the current map from entry `j` on: remove what modified lacks. */
  function CurrentEntriesFrom(cfg: Config, m: Value, c: Value, p: JSONPointer, j: nat): Outcome
    requires m.VMap? && c.VMap? && j <= |c.entries|
    decreases |c.entries| - j
  {
    if j == |c.entries| then Done([])
    else if c.keyKind != KString then Fail(UnsupportedKeyKind(c.keyKind, p.String()))
    else if m.keyKind != KString then Fail(MapKeyTypeMismatch(p.String()))
    else
      var e := c.entries[j];
      if Lookup(m.entries, e.key).None? then
        Prepend(RemoveOps(cfg, p.Add(e.key), Interface(e.value)), CurrentEntriesFrom(cfg, m, c, p, j + 1))
      else CurrentEntriesFrom(cfg, m, c, p, j + 1)
  }

  function ProcessSlice(cfg: Config, m: Value, c: Value, p: JSONPointer): Outcome
    requires m.VSlice? && c.VSlice?
    decreases m, 2
  {
    if !cfg.pred.Replace(p, m, c) then Done([])
    else if |m.items| > 0 && |c.items| == 0 then Done(AddOps(cfg, p, m))
    else
      match FirstMatch(cfg.ignoredSlices, p)
      case Some(k) => Unordered(cfg, m, c, p, JsonFieldNameToFieldName(m.elemType, cfg.ignoredSlices[k].jsonField))
      case None => Positional(cfg, m, c, p)
  }

  /** The index of the first rule whose pattern matches `p`. */
  function FirstMatch(rules: seq<IgnorePattern>, p: JSONPointer): (r: Option<nat>)
    ensures r.Some? ==> r.value < |rules|
  {
    FirstWhere(rules, (rule: IgnorePattern) => p.Match(rule.pattern))
  }

  /** The index of the first element of `s` that passes `test`, scanning from the front. */
  function FirstWhere<T>(s: seq<T>, test: T -> bool): (r: Option<nat>)
    ensures r.Some? ==> r.value < |s|
  {
    if |s| == 0 then None
    else if test(s[0]) then Some(0)
    else
      match FirstWhere(s[1..], test)
      case None => None
      case Some(k) => Some(k + 1)
  }

  /** FirstWhere finds nothing exactly when no element passes, and otherwise the first one that does. */
  lemma {:induction false} FirstWhereSpec<T>(s: seq<T>, test: T -> bool)
    ensures FirstWhere(s, test).None? <==> forall k :: 0 <= k < |s| ==> !test(s[k])
    ensures FirstWhere(s, test).Some? ==>
      && FirstWhere(s, test).value < |s|
      && test(s[FirstWhere(s, test).value])
      && forall k :: 0 <= k < FirstWhere(s, test).value ==> !test(s[k])
  {
    if |s| > 0 && !test(s[0]) {
      FirstWhereSpec(s[1..], test);
      assert forall k :: 1 <= k < |s| ==> s[k] == s[1..][k - 1];
    }
  }

  /** The rule FirstMatch picks is the first whose pattern matches; none when no pattern does. */
  lemma FirstMatchSpec(rules: seq<IgnorePattern>, p: JSONPointer)
    ensures FirstMatch(rules, p).None? <==> forall k :: 0 <= k < |rules| ==> !p.Match(rules[k].pattern)
    ensures FirstMatch(rules, p).Some? ==>
      && FirstMatch(rules, p).value < |rules|
      && p.Match(rules[FirstMatch(rules, p).value].pattern)
      && forall k :: 0 <= k < FirstMatch(rules, p).value ==> !p.Match(rules[k].pattern)
  {
    FirstWhereSpec(rules, (rule: IgnorePattern) => p.Match(rule.pattern));
  }

  // ---------------------------------------------------------------------------
  // Positional slices

  function Positional(cfg: Config, m: Value, c: Value, p: JSONPointer): Outcome
    requires m.VSlice? && c.VSlice?
    decreases m, 1
  {
    Then(PairsFrom(cfg, m, c, p, 0),
         Done(if |m.items| > |c.items| then AppendFrom(cfg, m, p, |c.items|, |c.items|)
              else if |m.items| < |c.items| then RemoveDown(cfg, c, p, |m.items|, |c.items|)
              else []))
  }

  /** Walk the pairs at indices j, j+1, ... below both lengths. */
  function PairsFrom(cfg: Config, m: Value, c: Value, p: JSONPointer, j: nat): Outcome
    requires m.VSlice? && c.VSlice?
    decreases m, 0, |m.items| - j
  {
    if j >= |m.items| || j >= |c.items| then Done([])
    else Then(Walk(cfg, m.items[j], c.items[j], p.Add(Itoa(j))), PairsFrom(cfg, m, c, p, j + 1))
  }

  /**
   * Add the modified elements from index `j` on; `idx` is the index the next
   * accepted add goes to, and it advances only on an accepted add.
   */
  function AppendFrom(cfg: Config, m: Value, p: JSONPointer, j: nat, idx: nat): seq<JSONPatch>
    requires m.VSlice? && j <= |m.items|
    decreases |m.items| - j
  {
    if j == |m.items| then []
    else
      var q := p.Add(Itoa(idx));
      var v := Interface(m.items[j]);
      if cfg.pred.Add(q, v) then cfg.handler.Add(q, v) + AppendFrom(cfg, m, p, j + 1, idx + 1)
      else AppendFrom(cfg, m, p, j + 1, idx)
  }

  /** Remove the current elements at indices hi-1, hi-2, ..., lo, in that order. */
  function RemoveDown(cfg: Config, c: Value, p: JSONPointer, lo: nat, hi: nat): seq<JSONPatch>
    requires c.VSlice? && lo <= hi <= |c.items|
    decreases hi
  {
    if hi == lo then []
    else RemoveOps(cfg, p.Add(Itoa(hi - 1)), Interface(c.items[hi - 1])) + RemoveDown(cfg, c, p, lo, hi - 1)
  }

  // ---------------------------------------------------------------------------
  // Order-insensitive slices

  /**
   * The Go field name behind a JSON field name in an element type
   * (jsonFieldNameToFieldName): in a struct type, the name of the first
   * declaration tagged with it, or "" when none is; through a pointer type,
   * the answer for the pointed-to type; for any other type, "".
   */
  function JsonFieldNameToFieldName(t: Type, jsonFieldName: string): (r: string)
    ensures t.TStruct? ==> (r != "" ==> exists i :: 0 <= i < |t.decls| && t.decls[i].name == r && t.decls[i].tagName == jsonFieldName)
    ensures t.TStruct? && (exists i :: 0 <= i < |t.decls| && t.decls[i].tagName == jsonFieldName) ==>
      exists i :: 0 <= i < |t.decls| && t.decls[i].tagName == jsonFieldName && r == t.decls[i].name &&
        forall k :: 0 <= k < i ==> t.decls[k].tagName != jsonFieldName
    ensures t.TStruct? && (forall i :: 0 <= i < |t.decls| ==> t.decls[i].tagName != jsonFieldName) ==> r == ""
    ensures t.TPtr? ==> r == JsonFieldNameToFieldName(t.elem, jsonFieldName)
    ensures t.TOther? ==> r == ""
  {
    match t
    case TStruct(decls) =>
      (match FirstTagged(decls, jsonFieldName)
       case Some(i) => decls[i].name
       case None => "")
    case TPtr(elem) => JsonFieldNameToFieldName(elem, jsonFieldName)
    case TOther => ""
  }

  /** The index of the first declaration whose tag name is `tagName`. */
  function FirstTagged(decls: seq<FieldDecl>, tagName: string): (r: Option<nat>)
    ensures r.None? <==> forall i :: 0 <= i < |decls| ==> decls[i].tagName != tagName
    ensures r.Some? ==> r.value < |decls| && decls[r.value].tagName == tagName
    ensures r.Some? ==> forall i :: 0 <= i < r.value ==> decls[i].tagName != tagName
  {
    if |decls| == 0 then None
    else if decls[0].tagName == tagName then Some(0)
    else
      match FirstTagged(decls[1..], tagName)
      case None => None
      case Some(i) => Some(i + 1)
  }

  /** The index of the field named `name` (reflect.Value.FieldByName). */
  function FieldByName(fields: seq<Field>, name: string): (r: Option<nat>)
    ensures r.None? <==> forall i :: 0 <= i < |fields| ==> fields[i].name != name
    ensures r.Some? ==> r.value < |fields| && fields[r.value].name == name
  {
    if |fields| == 0 then None
    else if fields[0].name == name then Some(0)
    else
      match FieldByName(fields[1..], name)
      case None => None
      case Some(i) => Some(i + 1)
  }

  /**
   * The identity key of a slice element (extractIgnoreSliceOrderMatchValue):
   * a struct is keyed by its field `fieldName`, a pointer by its target, a
   * scalar by its decimal or literal text, and everything else, including a
   * nil pointer and a missing field, by "".
   */
  function Extract(v: Value, fieldName: string): string
    decreases v
  {
    match v
    case VStruct(fields) =>
      (match FieldByName(fields, fieldName)
       case Some(i) => Extract(fields[i].value, "")
       case None => "")
    case VPtr(target) => if target.Some? then Extract(target.value, fieldName) else ""
    case VString(s) => s
    case VInt(_, i) => FormatInt(i)
    case VUint(_, u) => FormatUint(u)
    case VBool(b) => FormatBool(b)
    case _ => ""
  }

  function Keys(items: seq<Value>, fieldName: string): (r: seq<string>)
    ensures |r| == |items|
    ensures forall i :: 0 <= i < |items| ==> r[i] == Extract(items[i], fieldName)
  {
    seq(|items|, i requires 0 <= i < |items| => Extract(items[i], fieldName))
  }

  predicate Distinct(keys: seq<string>)
  {
    forall i, j :: 0 <= i < j < |keys| ==> keys[i] != keys[j]
  }

  /** The map from key to index that the idxMap loops build, or the first repeated key. */
  datatype Indexing = Indexed(index: map<string, nat>) | Duplicate(key: string)

  /** The idxMap1/idxMap2 loop over `keys`, one key after the other. */
  function IndexMap(keys: seq<string>): Indexing
  {
    if |keys| == 0 then Indexed(map[])
    else
      var init := keys[..|keys| - 1];
      var k := keys[|keys| - 1];
      match IndexMap(init)
      case Duplicate(d) => Duplicate(d)
      case Indexed(index) => if k in index then Duplicate(k) else Indexed(index[k := |keys| - 1])
  }

  /**
   * The idxMap loop succeeds exactly when the keys are distinct; it then maps
   * every key to its own index and nothing else, and otherwise reports a key
   * that occurs twice.
   */
  lemma {:induction false} IndexMapCorrect(keys: seq<string>)
    ensures IndexMap(keys).Indexed? <==> Distinct(keys)
    ensures IndexMap(keys).Indexed? ==>
      forall i :: 0 <= i < |keys| ==> keys[i] in IndexMap(keys).index && IndexMap(keys).index[keys[i]] == i
    ensures IndexMap(keys).Indexed? ==>
      forall k :: k in IndexMap(keys).index ==> IndexMap(keys).index[k] < |keys| && keys[IndexMap(keys).index[k]] == k
    ensures IndexMap(keys).Duplicate? ==>
      exists i, j :: 0 <= i < j < |keys| && keys[i] == IndexMap(keys).key && keys[j] == IndexMap(keys).key
  {
    if |keys| > 0 {
      var init := keys[..|keys| - 1];
      IndexMapCorrect(init);
      var k := keys[|keys| - 1];
      match IndexMap(init)
      case Duplicate(d) =>
        var i, j :| 0 <= i < j < |init| && init[i] == d && init[j] == d;
        assert keys[i] == d && keys[j] == d;
      case Indexed(index) =>
        if k in index {
          var i := index[k];
          assert keys[i] == k && i < |keys| - 1;
        } else {
          assert forall i :: 0 <= i < |init| ==> keys[i] == init[i];
        }
    }
  }

  /** Once the idxMap loop has met a repeated key, the keys after it do not change the verdict. */
  lemma {:induction false} IndexMapDuplicateStays(keys: seq<string>, n: nat)
    requires n <= |keys| && IndexMap(keys[..n]).Duplicate?
    ensures IndexMap(keys) == IndexMap(keys[..n])
    decreases |keys| - n
  {
    if n < |keys| {
      assert keys[..n + 1][..n] == keys[..n];
      IndexMapDuplicateStays(keys, n + 1);
    } else {
      assert keys[..n] == keys;
    }
  }

  function Unordered(cfg: Config, m: Value, c: Value, p: JSONPointer, fieldName: string): Outcome
    requires m.VSlice? && c.VSlice?
    decreases m, 1
  {
    match IndexMap(Keys(m.items, fieldName))
    case Duplicate(k) => Fail(DuplicateMatchValue(p.String(), k))
    case Indexed(index1) =>
      match IndexMap(Keys(c.items, fieldName))
      case Duplicate(k) => Fail(DuplicateMatchValue(p.String(), k))
      case Indexed(index2) =>
        IndexMapCorrect(Keys(c.items, fieldName));
        LeftoversCorrect(Keys(c.items, fieldName), index1, 0);
        Then(MatchFrom(cfg, m, c, p, fieldName, index2, 0, |c.items|),
             Done(RemoveDescending(cfg, c, p, Leftovers(Keys(c.items, fieldName), index1, 0))))
  }

  /**
   * The loop over the modified elements from index `j` on: a key the current
   * slice has is walked at the current element's index; a new key is added at
   * `idxMax`, which advances only on an accepted add.
   */
  function MatchFrom(cfg: Config, m: Value, c: Value, p: JSONPointer, fieldName: string,
                     index2: map<string, nat>, j: nat, idxMax: nat): Outcome
    requires m.VSlice? && c.VSlice? && j <= |m.items|
    requires forall k :: k in index2 ==> index2[k] < |c.items|
    decreases m, 0, |m.items| - j
  {
    if j == |m.items| then Done([])
    else
      var k := Extract(m.items[j], fieldName);
      if k in index2 then
        var i2 := index2[k];
        Then(Walk(cfg, m.items[j], c.items[i2], p.Add(Itoa(i2))),
             MatchFrom(cfg, m, c, p, fieldName, index2, j + 1, idxMax))
      else
        var q := p.Add(Itoa(idxMax));
        var v := Interface(m.items[j]);
        if cfg.pred.Add(q, v) then
          Prepend(cfg.handler.Add(q, v), MatchFrom(cfg, m, c, p, fieldName, index2, j + 1, idxMax + 1))
        else MatchFrom(cfg, m, c, p, fieldName, index2, j + 1, idxMax)
  }

  /** The `deleted` list: the current indices from `j` on whose key the modified slice lacks, ascending. */
  function Leftovers(keys2: seq<string>, index1: map<string, nat>, j: nat): seq<nat>
    requires j <= |keys2|
    decreases |keys2| - j
  {
    if j == |keys2| then []
    else if keys2[j] !in index1 then [j] + Leftovers(keys2, index1, j + 1)
    else Leftovers(keys2, index1, j + 1)
  }

  /**
   * `deleted` holds exactly the indices from `j` on whose key the modified
   * slice lacks, each once, in ascending order.
   */
  lemma {:induction false} LeftoversCorrect(keys2: seq<string>, index1: map<string, nat>, j: nat)
    requires j <= |keys2|
    ensures forall i :: 0 <= i < |Leftovers(keys2, index1, j)| ==>
      j <= Leftovers(keys2, index1, j)[i] < |keys2| && keys2[Leftovers(keys2, index1, j)[i]] !in index1
    ensures forall i :: j <= i < |keys2| && keys2[i] !in index1 ==> i in Leftovers(keys2, index1, j)
    ensures forall a, b :: 0 <= a < b < |Leftovers(keys2, index1, j)| ==>
      Leftovers(keys2, index1, j)[a] < Leftovers(keys2, index1, j)[b]
    decreases |keys2| - j
  {
    if j < |keys2| {
      LeftoversCorrect(keys2, index1, j + 1);
    }
  }

  /** Remove the current elements at the listed indices, last one first. */
  function RemoveDescending(cfg: Config, c: Value, p: JSONPointer, deleted: seq<nat>): seq<JSONPatch>
    requires c.VSlice? && forall i :: 0 <= i < |deleted| ==> deleted[i] < |c.items|
  {
    if |deleted| == 0 then []
    else
      var idx2 := deleted[|deleted| - 1];
      RemoveOps(cfg, p.Add(Itoa(idx2)), Interface(c.items[idx2])) + RemoveDescending(cfg, c, p, deleted[..|deleted| - 1])
  }
}

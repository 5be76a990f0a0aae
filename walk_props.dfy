/**
 * Properties of one walk (WalkSpec.Walk and the functions beside it): what
 * comparing a value with itself yields, where the emitted operations are
 * addressed, the index arithmetic of slice additions and removals, what the
 * order-insensitive comparison does with a reordered slice, and which keys a
 * map comparison adds and removes.
 */
module WalkProps {

  import opened Wrappers
  import opened Strconv
  import opened Pointer
  import opened Values
  import opened Handlers
  import opened Predicates
  import opened WalkSpec

  // ---------------------------------------------------------------------------
  // A value compared with itself

  /**
   * Comparing a well-formed value with itself emits no operation, whatever
   * the predicate and the handler. (The walk may still stop with an error:
   * on an unsupported kind, or on duplicate keys in an order-insensitive
   * slice.)
   */
  lemma {:induction false} WalkSelf(cfg: Config, v: Value, p: JSONPointer)
    requires WellFormed(v)
    ensures Walk(cfg, v, v, p).ops == []
    decreases v, 3
  {
    match v
    case VStruct(_) => StructSelf(cfg, v, p);
    case VPtr(t) =>
      if t.Some? {
        WalkSelf(cfg, t.value, p);
      }
    case VSlice(_, _) => SliceSelf(cfg, v, p);
    case VMap(_, _) => MapSelf(cfg, v, p);
    case VIface(inner) => WalkSelf(cfg, inner, p);
    case _ =>
  }

  lemma {:induction false} StructSelf(cfg: Config, v: Value, p: JSONPointer)
    requires v.VStruct? && WellFormed(v)
    ensures ProcessStruct(cfg, v, v, p).ops == []
    decreases v, 2
  {
    if cfg.pred.Replace(p, v, v) {
      FieldsSelf(cfg, v, p, 0);
    }
  }

  lemma {:induction false} FieldsSelf(cfg: Config, v: Value, p: JSONPointer, j: nat)
    requires v.VStruct? && WellFormed(v) && j <= |v.fields|
    ensures FieldsFrom(cfg, v, v, p, j).ops == []
    decreases v, 1, |v.fields| - j
  {
    if j < |v.fields| {
      if Walked(v.fields[j]) {
        WalkSelf(cfg, v.fields[j].value, p.Add(v.fields[j].tagName));
      }
      FieldsSelf(cfg, v, p, j + 1);
    }
  }

  lemma {:induction false} MapSelf(cfg: Config, v: Value, p: JSONPointer)
    requires v.VMap? && WellFormed(v)
    ensures ProcessMap(cfg, v, v, p).ops == []
    decreases v, 2
  {
    ModifiedSelf(cfg, v, p, 0);
    CurrentSelf(cfg, v, p, 0);
  }

  lemma {:induction false} ModifiedSelf(cfg: Config, v: Value, p: JSONPointer, j: nat)
    requires v.VMap? && WellFormed(v) && j <= |v.entries|
    ensures ModifiedEntriesFrom(cfg, v, v, p, j).ops == []
    decreases v, 1, |v.entries| - j
  {
    if j < |v.entries| && v.keyKind == KString {
      LookupDistinct(v.entries, j);
      WalkSelf(cfg, v.entries[j].value, p.Add(v.entries[j].key));
      ModifiedSelf(cfg, v, p, j + 1);
    }
  }

  lemma {:induction false} CurrentSelf(cfg: Config, v: Value, p: JSONPointer, j: nat)
    requires v.VMap? && j <= |v.entries|
    ensures CurrentEntriesFrom(cfg, v, v, p, j).ops == []
    decreases |v.entries| - j
  {
    if j < |v.entries| && v.keyKind == KString {
      assert Lookup(v.entries, v.entries[j].key).Some?;
      CurrentSelf(cfg, v, p, j + 1);
    }
  }

  lemma {:induction false} SliceSelf(cfg: Config, v: Value, p: JSONPointer)
    requires v.VSlice? && WellFormed(v)
    ensures ProcessSlice(cfg, v, v, p).ops == []
    decreases v, 2
  {
    if cfg.pred.Replace(p, v, v) {
      match FirstMatch(cfg.ignoredSlices, p)
      case Some(k) =>
        UnorderedSelf(cfg, v, p, JsonFieldNameToFieldName(v.elemType, cfg.ignoredSlices[k].jsonField));
      case None =>
        PairsSelf(cfg, v, p, 0);
    }
  }

  lemma {:induction false} PairsSelf(cfg: Config, v: Value, p: JSONPointer, j: nat)
    requires v.VSlice? && WellFormed(v)
    ensures PairsFrom(cfg, v, v, p, j).ops == []
    decreases v, 0, |v.items| - j
  {
    if j < |v.items| {
      WalkSelf(cfg, v.items[j], p.Add(Itoa(j)));
      PairsSelf(cfg, v, p, j + 1);
    }
  }

  lemma {:induction false} UnorderedSelf(cfg: Config, v: Value, p: JSONPointer, fieldName: string)
    requires v.VSlice? && WellFormed(v)
    ensures Unordered(cfg, v, v, p, fieldName).ops == []
    decreases v, 1
  {
    var keys := Keys(v.items, fieldName);
    IndexMapCorrect(keys);
    match IndexMap(keys)
    case Duplicate(_) =>
    case Indexed(index) =>
      MatchSelf(cfg, v, p, fieldName, index, 0, |v.items|);
      LeftoversCorrect(keys, index, 0);
  }

  lemma {:induction false} MatchSelf(cfg: Config, v: Value, p: JSONPointer, fieldName: string,
                                     index: map<string, nat>, j: nat, idxMax: nat)
    requires v.VSlice? && WellFormed(v) && j <= |v.items|
    requires forall k :: k in index ==> index[k] < |v.items|
    requires forall i :: 0 <= i < |v.items| ==>
      Keys(v.items, fieldName)[i] in index && index[Keys(v.items, fieldName)[i]] == i
    ensures MatchFrom(cfg, v, v, p, fieldName, index, j, idxMax).ops == []
    decreases v, 0, |v.items| - j
  {
    if j < |v.items| {
      assert Keys(v.items, fieldName)[j] == Extract(v.items[j], fieldName);
      WalkSelf(cfg, v.items[j], p.Add(Itoa(j)));
      MatchSelf(cfg, v, p, fieldName, index, j + 1, idxMax);
    }
  }

  // ---------------------------------------------------------------------------
  // Kinds, leaves and pointers

  /**
   * The only shape check is kind equality, and it fails naming the pointer;
   * two nil interfaces are silently equal; a kind the walker has no case for
   * fails with an unsupported-kind error. None of them emits anything.
   */
  lemma KindChecks(cfg: Config, m: Value, c: Value, p: JSONPointer)
    ensures KindOf(m) != KindOf(c) ==> Walk(cfg, m, c, p) == Fail(KindMismatch(p.String(), KindOf(m), KindOf(c)))
    ensures m.VInvalid? && c.VInvalid? ==> Walk(cfg, m, c, p) == Done([])
    ensures m.VOther? && KindOf(m) == KindOf(c) ==> Walk(cfg, m, c, p) == Fail(UnsupportedKind(KindOf(m), p.String()))
  {
  }

  /** A scalar: a string, an integer of any width, a boolean or a float. */
  predicate Scalar(v: Value)
  {
    v.VString? || v.VInt? || v.VUint? || v.VBool? || v.VFloat?
  }

  /**
   * Two scalars of one kind under the defaults: nothing when they are equal,
   * otherwise exactly one operation at the pointer. For strings it is a
   * remove when the modified text is empty, an add when the current text is
   * empty, and a replace otherwise; every other kind emits a replace.
   */
  lemma LeafDecisions(cfg: Config, m: Value, c: Value, p: JSONPointer)
    requires cfg.pred == AcceptAll && cfg.handler.DefaultHandler?
    requires Scalar(m) && KindOf(m) == KindOf(c)
    ensures Walk(cfg, m, c, p).err.None?
    ensures |Walk(cfg, m, c, p).ops| == if m == c then 0 else 1
    ensures m != c ==> Walk(cfg, m, c, p).ops[0].path == p.String()
    ensures m != c ==> (Walk(cfg, m, c, p).ops[0].operation == OpRemove <==> m.VString? && m.s == "")
    ensures m != c ==> (Walk(cfg, m, c, p).ops[0].operation == OpAdd <==> m.VString? && m.s != "" && c.s == "")
    ensures m != c ==> (Walk(cfg, m, c, p).ops[0].operation == OpReplace <==> !(m.VString? && (m.s == "" || c.s == "")))
  {
  }

  /**
   * A pointer pair under the defaults: two nils emit nothing; a new pointee
   * is added and a dropped one removed, at the pointer itself; two pointees
   * are compared at the same pointer, with no segment added.
   */
  lemma PtrDecisions(cfg: Config, m: Value, c: Value, p: JSONPointer)
    requires cfg.pred == AcceptAll && cfg.handler.DefaultHandler? && m.VPtr? && c.VPtr?
    ensures m.target.None? && c.target.None? ==> Walk(cfg, m, c, p) == Done([])
    ensures m.target.Some? && c.target.None? ==>
      Walk(cfg, m, c, p) == Done([JSONPatch(OpAdd, p.String(), Interface(m.target.value))])
    ensures m.target.None? && c.target.Some? ==>
      Walk(cfg, m, c, p) == Done([JSONPatch(OpRemove, p.String(), VInvalid)])
    ensures m.target.Some? && c.target.Some? ==>
      Walk(cfg, m, c, p) == Walk(cfg, m.target.value, c.target.value, p)
  {
  }

  // ---------------------------------------------------------------------------
  // Where the default handler's operations are addressed

  /**
   * An add, remove or replace addressed at the pointer text `root` itself or
   * at a pointer that extends it by whole segments ("/a/b" is below "/a",
   * "/ab" is not).
   */
  predicate Below(op: JSONPatch, root: string)
  {
    (op.operation == OpAdd || op.operation == OpRemove || op.operation == OpReplace) &&
    (op.path == root || root + "/" <= op.path)
  }

  predicate AllBelow(ops: seq<JSONPatch>, root: string)
  {
    forall i :: 0 <= i < |ops| ==> Below(ops[i], root)
  }

  /** Every operation is an add, a remove or a replace addressed at exactly `path`. */
  predicate AllAt(ops: seq<JSONPatch>, path: string)
  {
    forall i :: 0 <= i < |ops| ==>
      (ops[i].operation == OpAdd || ops[i].operation == OpRemove || ops[i].operation == OpReplace) && ops[i].path == path
  }

  /** An add, remove or replace addressed strictly below `root`: at a pointer extending it by at least one segment. */
  predicate StrictlyBelow(op: JSONPatch, root: string)
  {
    (op.operation == OpAdd || op.operation == OpRemove || op.operation == OpReplace) && root + "/" <= op.path
  }

  predicate AllStrictlyBelow(ops: seq<JSONPatch>, root: string)
  {
    forall i :: 0 <= i < |ops| ==> StrictlyBelow(ops[i], root)
  }

  lemma AllStrictlyBelowIsBelow(ops: seq<JSONPatch>, root: string)
    requires AllStrictlyBelow(ops, root)
    ensures AllBelow(ops, root)
  {
    forall i | 0 <= i < |ops| ensures Below(ops[i], root) {
      assert StrictlyBelow(ops[i], root);
    }
  }

  lemma AllStrictlyBelowAppend(a: seq<JSONPatch>, b: seq<JSONPatch>, root: string)
    requires AllStrictlyBelow(a, root) && AllStrictlyBelow(b, root)
    ensures AllStrictlyBelow(a + b, root)
  {
    forall i | 0 <= i < |a + b| ensures StrictlyBelow((a + b)[i], root) {
      if i >= |a| {
        assert (a + b)[i] == b[i - |a|];
      }
    }
  }

  lemma AllStrictlyBelowThen(o: Outcome, next: Outcome, root: string)
    requires AllStrictlyBelow(o.ops, root) && AllStrictlyBelow(next.ops, root)
    ensures AllStrictlyBelow(Then(o, next).ops, root)
  {
    if o.err.None? {
      AllStrictlyBelowAppend(o.ops, next.ops, root);
    }
  }

  lemma AllBelowAppend(a: seq<JSONPatch>, b: seq<JSONPatch>, root: string)
    requires AllBelow(a, root) && AllBelow(b, root)
    ensures AllBelow(a + b, root)
  {
    forall i | 0 <= i < |a + b| ensures Below((a + b)[i], root) {
      if i >= |a| {
        assert (a + b)[i] == b[i - |a|];
      }
    }
  }

  /**
   * What is addressed at or below a child pointer is addressed strictly
   * below its parent, provided the parent has a segment (a walk's root always
   * has one: the walker's prefix starts as [""]).
   */
  lemma AllBelowChild(ops: seq<JSONPatch>, p: JSONPointer, elem: string)
    requires |p.path| > 0
    requires AllBelow(ops, p.Add(elem).String())
    ensures AllStrictlyBelow(ops, p.String())
  {
    var s := p.String() + "/";
    var t := p.Add(elem).String();
    AddSegment(p, elem);
    assert t == s + Escape(elem);
    assert t[..|s|] == s;
    forall i | 0 <= i < |ops| ensures StrictlyBelow(ops[i], p.String()) {
      var x := ops[i].path;
      if x != t {
        assert t + "/" <= x;
        assert x[..|t|] == t;
      }
      assert x[..|s|] == t[..|s|];
    }
  }

  /** Under the default handler the gated emitters address exactly their pointer. */
  lemma EmittersBelow(cfg: Config, q: JSONPointer)
    requires cfg.handler.DefaultHandler?
    ensures forall v :: AllAt(AddOps(cfg, q, v), q.String())
    ensures forall v :: AllAt(RemoveOps(cfg, q, v), q.String())
    ensures forall v, w :: AllAt(ReplaceOps(cfg, q, v, w), q.String())
    ensures forall v :: AllBelow(AddOps(cfg, q, v), q.String())
    ensures forall v :: AllBelow(RemoveOps(cfg, q, v), q.String())
    ensures forall v, w :: AllBelow(ReplaceOps(cfg, q, v, w), q.String())
  {
  }

  /**
   * Under the default handler every operation a walk emits is an add, a
   * remove or a replace addressed at the starting pointer or at a pointer
   * that extends it by whole segments: a prefix given to the walker heads
   * every emitted path.
   */
  lemma {:induction false} WalkBelow(cfg: Config, m: Value, c: Value, p: JSONPointer)
    requires cfg.handler.DefaultHandler? && |p.path| > 0
    ensures AllBelow(Walk(cfg, m, c, p).ops, p.String())
    decreases m, 3
  {
    EmittersBelow(cfg, p);
    if KindOf(m) == KindOf(c) {
      match m
      case VStruct(_) => StructBelow(cfg, m, c, p);
      case VPtr(_) =>
        if m.target.Some? && c.target.Some? {
          WalkBelow(cfg, m.target.value, c.target.value, p);
        }
      case VSlice(_, _) => SliceBelow(cfg, m, c, p);
      case VMap(_, _) => MapBelow(cfg, m, c, p);
      case VIface(_) => WalkBelow(cfg, m.inner, c.inner, p);
      case _ =>
    }
  }

  lemma {:induction false} StructBelow(cfg: Config, m: Value, c: Value, p: JSONPointer)
    requires cfg.handler.DefaultHandler? && |p.path| > 0 && m.VStruct? && c.VStruct?
    ensures AllBelow(ProcessStruct(cfg, m, c, p).ops, p.String())
    decreases m, 2
  {
    if cfg.pred.Replace(p, m, c) {
      FieldsBelow(cfg, m, c, p, 0);
      AllStrictlyBelowIsBelow(FieldsFrom(cfg, m, c, p, 0).ops, p.String());
    }
  }

  lemma {:induction false} FieldsBelow(cfg: Config, m: Value, c: Value, p: JSONPointer, j: nat)
    requires cfg.handler.DefaultHandler? && |p.path| > 0 && m.VStruct? && c.VStruct? && j <= |m.fields|
    ensures AllStrictlyBelow(FieldsFrom(cfg, m, c, p, j).ops, p.String())
    decreases m, 1, |m.fields| - j
  {
    if j < |m.fields| {
      FieldsBelow(cfg, m, c, p, j + 1);
      if Walked(m.fields[j]) && j < |c.fields| {
        var tag := m.fields[j].tagName;
        WalkBelow(cfg, m.fields[j].value, c.fields[j].value, p.Add(tag));
        AllBelowChild(Walk(cfg, m.fields[j].value, c.fields[j].value, p.Add(tag)).ops, p, tag);
        AllStrictlyBelowThen(Walk(cfg, m.fields[j].value, c.fields[j].value, p.Add(tag)), FieldsFrom(cfg, m, c, p, j + 1), p.String());
      }
    }
  }

  lemma {:induction false} MapBelow(cfg: Config, m: Value, c: Value, p: JSONPointer)
    requires cfg.handler.DefaultHandler? && |p.path| > 0 && m.VMap? && c.VMap?
    ensures AllBelow(ProcessMap(cfg, m, c, p).ops, p.String())
    decreases m, 2
  {
    EmittersBelow(cfg, p);
    ModifiedBelow(cfg, m, c, p, 0);
    CurrentBelow(cfg, m, c, p, 0);
    AllStrictlyBelowThen(ModifiedEntriesFrom(cfg, m, c, p, 0), CurrentEntriesFrom(cfg, m, c, p, 0), p.String());
    AllStrictlyBelowIsBelow(Then(ModifiedEntriesFrom(cfg, m, c, p, 0), CurrentEntriesFrom(cfg, m, c, p, 0)).ops, p.String());
  }

  lemma {:induction false} ModifiedBelow(cfg: Config, m: Value, c: Value, p: JSONPointer, j: nat)
    requires cfg.handler.DefaultHandler? && |p.path| > 0 && m.VMap? && c.VMap? && j <= |m.entries|
    ensures AllStrictlyBelow(ModifiedEntriesFrom(cfg, m, c, p, j).ops, p.String())
    decreases m, 1, |m.entries| - j
  {
    if j < |m.entries| && m.keyKind == KString && c.keyKind == KString {
      var e := m.entries[j];
      var q := p.Add(e.key);
      ModifiedBelow(cfg, m, c, p, j + 1);
      match Lookup(c.entries, e.key)
      case None =>
        EmittersBelow(cfg, q);
        AllBelowChild(AddOps(cfg, q, Interface(e.value)), p, e.key);
        AllStrictlyBelowAppend(AddOps(cfg, q, Interface(e.value)), ModifiedEntriesFrom(cfg, m, c, p, j + 1).ops, p.String());
      case Some(cv) =>
        WalkBelow(cfg, e.value, cv, q);
        AllBelowChild(Walk(cfg, e.value, cv, q).ops, p, e.key);
        AllStrictlyBelowThen(Walk(cfg, e.value, cv, q), ModifiedEntriesFrom(cfg, m, c, p, j + 1), p.String());
    }
  }

  lemma {:induction false} CurrentBelow(cfg: Config, m: Value, c: Value, p: JSONPointer, j: nat)
    requires cfg.handler.DefaultHandler? && |p.path| > 0 && m.VMap? && c.VMap? && j <= |c.entries|
    ensures AllStrictlyBelow(CurrentEntriesFrom(cfg, m, c, p, j).ops, p.String())
    decreases |c.entries| - j
  {
    if j < |c.entries| && c.keyKind == KString && m.keyKind == KString {
      var e := c.entries[j];
      var q := p.Add(e.key);
      CurrentBelow(cfg, m, c, p, j + 1);
      if Lookup(m.entries, e.key).None? {
        EmittersBelow(cfg, q);
        AllBelowChild(RemoveOps(cfg, q, Interface(e.value)), p, e.key);
        AllStrictlyBelowAppend(RemoveOps(cfg, q, Interface(e.value)), CurrentEntriesFrom(cfg, m, c, p, j + 1).ops, p.String());
      }
    }
  }

  lemma {:induction false} SliceBelow(cfg: Config, m: Value, c: Value, p: JSONPointer)
    requires cfg.handler.DefaultHandler? && |p.path| > 0 && m.VSlice? && c.VSlice?
    ensures AllBelow(ProcessSlice(cfg, m, c, p).ops, p.String())
    decreases m, 2
  {
    EmittersBelow(cfg, p);
    if cfg.pred.Replace(p, m, c) && !(|m.items| > 0 && |c.items| == 0) {
      match FirstMatch(cfg.ignoredSlices, p)
      case Some(k) =>
        var fieldName := JsonFieldNameToFieldName(m.elemType, cfg.ignoredSlices[k].jsonField);
        UnorderedBelow(cfg, m, c, p, fieldName);
        AllStrictlyBelowIsBelow(Unordered(cfg, m, c, p, fieldName).ops, p.String());
      case None =>
        PositionalBelow(cfg, m, c, p);
        AllStrictlyBelowIsBelow(Positional(cfg, m, c, p).ops, p.String());
    }
  }

  lemma {:induction false} PositionalBelow(cfg: Config, m: Value, c: Value, p: JSONPointer)
    requires cfg.handler.DefaultHandler? && |p.path| > 0 && m.VSlice? && c.VSlice?
    ensures AllStrictlyBelow(Positional(cfg, m, c, p).ops, p.String())
    decreases m, 1
  {
    PairsBelow(cfg, m, c, p, 0);
    var tail := if |m.items| > |c.items| then AppendFrom(cfg, m, p, |c.items|, |c.items|)
                else if |m.items| < |c.items| then RemoveDown(cfg, c, p, |m.items|, |c.items|)
                else [];
    if |m.items| > |c.items| {
      AppendFromBelow(cfg, m, p, |c.items|, |c.items|);
    } else if |m.items| < |c.items| {
      RemoveDownBelow(cfg, c, p, |m.items|, |c.items|);
    }
    AllStrictlyBelowThen(PairsFrom(cfg, m, c, p, 0), Done(tail), p.String());
  }

  lemma {:induction false} PairsBelow(cfg: Config, m: Value, c: Value, p: JSONPointer, j: nat)
    requires cfg.handler.DefaultHandler? && |p.path| > 0 && m.VSlice? && c.VSlice?
    ensures AllStrictlyBelow(PairsFrom(cfg, m, c, p, j).ops, p.String())
    decreases m, 0, |m.items| - j
  {
    if j < |m.items| && j < |c.items| {
      var q := p.Add(Itoa(j));
      WalkBelow(cfg, m.items[j], c.items[j], q);
      AllBelowChild(Walk(cfg, m.items[j], c.items[j], q).ops, p, Itoa(j));
      PairsBelow(cfg, m, c, p, j + 1);
      AllStrictlyBelowThen(Walk(cfg, m.items[j], c.items[j], q), PairsFrom(cfg, m, c, p, j + 1), p.String());
    }
  }

  lemma {:induction false} AppendFromBelow(cfg: Config, m: Value, p: JSONPointer, j: nat, idx: nat)
    requires cfg.handler.DefaultHandler? && |p.path| > 0 && m.VSlice? && j <= |m.items|
    ensures AllStrictlyBelow(AppendFrom(cfg, m, p, j, idx), p.String())
    decreases |m.items| - j
  {
    if j < |m.items| {
      var q := p.Add(Itoa(idx));
      var v := Interface(m.items[j]);
      EmittersBelow(cfg, q);
      AllBelowChild(AddOps(cfg, q, v), p, Itoa(idx));
      AppendFromBelow(cfg, m, p, j + 1, idx + 1);
      AppendFromBelow(cfg, m, p, j + 1, idx);
      AllStrictlyBelowAppend(AddOps(cfg, q, v), AppendFrom(cfg, m, p, j + 1, idx + 1), p.String());
    }
  }

  lemma {:induction false} RemoveDownBelow(cfg: Config, c: Value, p: JSONPointer, lo: nat, hi: nat)
    requires cfg.handler.DefaultHandler? && |p.path| > 0 && c.VSlice? && lo <= hi <= |c.items|
    ensures AllStrictlyBelow(RemoveDown(cfg, c, p, lo, hi), p.String())
    decreases hi
  {
    if lo < hi {
      var q := p.Add(Itoa(hi - 1));
      EmittersBelow(cfg, q);
      AllBelowChild(RemoveOps(cfg, q, Interface(c.items[hi - 1])), p, Itoa(hi - 1));
      RemoveDownBelow(cfg, c, p, lo, hi - 1);
      AllStrictlyBelowAppend(RemoveOps(cfg, q, Interface(c.items[hi - 1])), RemoveDown(cfg, c, p, lo, hi - 1), p.String());
    }
  }

  lemma {:induction false} UnorderedBelow(cfg: Config, m: Value, c: Value, p: JSONPointer, fieldName: string)
    requires cfg.handler.DefaultHandler? && |p.path| > 0 && m.VSlice? && c.VSlice?
    ensures AllStrictlyBelow(Unordered(cfg, m, c, p, fieldName).ops, p.String())
    decreases m, 1
  {
    var keys2 := Keys(c.items, fieldName);
    match IndexMap(Keys(m.items, fieldName))
    case Duplicate(_) =>
    case Indexed(index1) =>
      match IndexMap(keys2)
      case Duplicate(_) =>
      case Indexed(index2) =>
        IndexMapCorrect(keys2);
        LeftoversCorrect(keys2, index1, 0);
        var deleted := Leftovers(keys2, index1, 0);
        MatchBelow(cfg, m, c, p, fieldName, index2, 0, |c.items|);
        RemoveDescendingBelow(cfg, c, p, deleted);
        AllStrictlyBelowThen(MatchFrom(cfg, m, c, p, fieldName, index2, 0, |c.items|),
                     Done(RemoveDescending(cfg, c, p, deleted)), p.String());
  }

  lemma {:induction false} MatchBelow(cfg: Config, m: Value, c: Value, p: JSONPointer, fieldName: string,
                                      index2: map<string, nat>, j: nat, idxMax: nat)
    requires cfg.handler.DefaultHandler? && |p.path| > 0 && m.VSlice? && c.VSlice? && j <= |m.items|
    requires forall k :: k in index2 ==> index2[k] < |c.items|
    ensures AllStrictlyBelow(MatchFrom(cfg, m, c, p, fieldName, index2, j, idxMax).ops, p.String())
    decreases m, 0, |m.items| - j
  {
    if j < |m.items| {
      var k := Extract(m.items[j], fieldName);
      MatchBelow(cfg, m, c, p, fieldName, index2, j + 1, idxMax);
      MatchBelow(cfg, m, c, p, fieldName, index2, j + 1, idxMax + 1);
      if k in index2 {
        var i2 := index2[k];
        var q := p.Add(Itoa(i2));
        WalkBelow(cfg, m.items[j], c.items[i2], q);
        AllBelowChild(Walk(cfg, m.items[j], c.items[i2], q).ops, p, Itoa(i2));
        AllStrictlyBelowThen(Walk(cfg, m.items[j], c.items[i2], q),
                     MatchFrom(cfg, m, c, p, fieldName, index2, j + 1, idxMax), p.String());
      } else {
        var q := p.Add(Itoa(idxMax));
        var v := Interface(m.items[j]);
        EmittersBelow(cfg, q);
        AllBelowChild(AddOps(cfg, q, v), p, Itoa(idxMax));
        AllStrictlyBelowAppend(AddOps(cfg, q, v), MatchFrom(cfg, m, c, p, fieldName, index2, j + 1, idxMax + 1).ops, p.String());
      }
    }
  }

  lemma {:induction false} RemoveDescendingBelow(cfg: Config, c: Value, p: JSONPointer, deleted: seq<nat>)
    requires cfg.handler.DefaultHandler? && |p.path| > 0 && c.VSlice?
    requires forall i :: 0 <= i < |deleted| ==> deleted[i] < |c.items|
    ensures AllStrictlyBelow(RemoveDescending(cfg, c, p, deleted), p.String())
    decreases |deleted|
  {
    if |deleted| > 0 {
      var idx2 := deleted[|deleted| - 1];
      var q := p.Add(Itoa(idx2));
      EmittersBelow(cfg, q);
      AllBelowChild(RemoveOps(cfg, q, Interface(c.items[idx2])), p, Itoa(idx2));
      RemoveDescendingBelow(cfg, c, p, deleted[..|deleted| - 1]);
      AllStrictlyBelowAppend(RemoveOps(cfg, q, Interface(c.items[idx2])),
                     RemoveDescending(cfg, c, p, deleted[..|deleted| - 1]), p.String());
    }
  }

  // ---------------------------------------------------------------------------
  // Slice index arithmetic (sections 4.1 and 4.2 of RFC 6902: an add at an
  // index shifts the elements after it up, a remove shifts them down)

  /** The default handler's add of `v` at index `i` below `p`. */
  function AddAt(p: JSONPointer, i: nat, v: Value): JSONPatch
  {
    JSONPatch(OpAdd, p.Add(Itoa(i)).String(), v)
  }

  /** The default handler's remove of the element at index `i` below `p`. */
  function RemoveAt(p: JSONPointer, i: nat): JSONPatch
  {
    JSONPatch(OpRemove, p.Add(Itoa(i)).String(), VInvalid)
  }

  /**
   * Under the default handler, whatever the predicate accepts, the trailing
   * additions land at consecutive indices: the n-th emitted add goes to
   * idx + n, because a rejected add does not advance the index.
   */
  lemma {:induction false} AppendFromIndices(cfg: Config, m: Value, p: JSONPointer, j: nat, idx: nat)
    requires cfg.handler.DefaultHandler? && m.VSlice? && j <= |m.items|
    ensures |AppendFrom(cfg, m, p, j, idx)| <= |m.items| - j
    ensures forall i :: 0 <= i < |AppendFrom(cfg, m, p, j, idx)| ==>
      AppendFrom(cfg, m, p, j, idx)[i].operation == OpAdd &&
      AppendFrom(cfg, m, p, j, idx)[i].path == p.Add(Itoa(idx + i)).String()
    decreases |m.items| - j
  {
    if j < |m.items| {
      var q := p.Add(Itoa(idx));
      var v := Interface(m.items[j]);
      if cfg.pred.Add(q, v) {
        AppendFromIndices(cfg, m, p, j + 1, idx + 1);
        var rest := AppendFrom(cfg, m, p, j + 1, idx + 1);
        var r := AppendFrom(cfg, m, p, j, idx);
        assert r == [AddAt(p, idx, v)] + rest;
        forall i | 1 <= i < |r| ensures r[i].path == p.Add(Itoa(idx + i)).String() {
          assert r[i] == rest[i - 1];
        }
      } else {
        AppendFromIndices(cfg, m, p, j + 1, idx);
      }
    }
  }

  /**
   * With every add accepted, each extra modified element is added, in order,
   * the one at j + n at index idx + n.
   */
  lemma {:induction false} AppendFromAll(cfg: Config, m: Value, p: JSONPointer, j: nat, idx: nat)
    requires cfg.pred == AcceptAll && cfg.handler.DefaultHandler? && m.VSlice? && j <= |m.items|
    ensures |AppendFrom(cfg, m, p, j, idx)| == |m.items| - j
    ensures forall i :: 0 <= i < |m.items| - j ==>
      AppendFrom(cfg, m, p, j, idx)[i] == AddAt(p, idx + i, Interface(m.items[j + i]))
    decreases |m.items| - j
  {
    if j < |m.items| {
      AppendFromAll(cfg, m, p, j + 1, idx + 1);
      var q := p.Add(Itoa(idx));
      var v := Interface(m.items[j]);
      assert cfg.pred.Add(q, v) && cfg.handler.Add(q, v) == [AddAt(p, idx, v)];
      AddsShift(AppendFrom(cfg, m, p, j, idx), AppendFrom(cfg, m, p, j + 1, idx + 1), p, m.items, j, idx);
    }
  }

  /** An add at idx in front of adds at idx + 1, idx + 2, ... gives adds at idx, idx + 1, ... */
  lemma AddsShift(r: seq<JSONPatch>, rest: seq<JSONPatch>, p: JSONPointer, items: seq<Value>, j: nat, idx: nat)
    requires j < |items| && r == [AddAt(p, idx, Interface(items[j]))] + rest && |rest| == |items| - (j + 1)
    requires forall i :: 0 <= i < |items| - (j + 1) ==> rest[i] == AddAt(p, idx + 1 + i, Interface(items[j + 1 + i]))
    ensures |r| == |items| - j
    ensures forall i :: 0 <= i < |items| - j ==> r[i] == AddAt(p, idx + i, Interface(items[j + i]))
  {
    forall i | 1 <= i < |items| - j ensures r[i] == AddAt(p, idx + i, Interface(items[j + i])) {
      var n := i - 1;
      assert r[i] == rest[n];
      assert idx + 1 + n == idx + i && j + 1 + n == j + i;
    }
  }

  /**
   * With every remove accepted, the surplus current elements are removed
   * from the highest index down: the n-th operation removes index hi-1-n.
   */
  lemma {:induction false} RemoveDownAll(cfg: Config, c: Value, p: JSONPointer, lo: nat, hi: nat)
    requires cfg.pred == AcceptAll && cfg.handler.DefaultHandler? && c.VSlice? && lo <= hi <= |c.items|
    ensures |RemoveDown(cfg, c, p, lo, hi)| == hi - lo
    ensures forall i :: 0 <= i < hi - lo ==> RemoveDown(cfg, c, p, lo, hi)[i] == RemoveAt(p, hi - 1 - i)
    decreases hi
  {
    if lo < hi {
      RemoveDownAll(cfg, c, p, lo, hi - 1);
      var rest := RemoveDown(cfg, c, p, lo, hi - 1);
      var r := RemoveDown(cfg, c, p, lo, hi);
      var q := p.Add(Itoa(hi - 1));
      var v := Interface(c.items[hi - 1]);
      assert cfg.pred.Remove(q, v) && cfg.handler.Remove(q, v) == [RemoveAt(p, hi - 1)];
      assert r == RemoveOps(cfg, q, v) + rest;
      RemovesShift(r, rest, p, hi - 1, hi - 1 - lo);
    }
  }

  /** A remove of index top in front of removes of top - 1, top - 2, ... gives removes of top, top - 1, ... */
  lemma RemovesShift(r: seq<JSONPatch>, rest: seq<JSONPatch>, p: JSONPointer, top: nat, n: nat)
    requires n <= top && r == [RemoveAt(p, top)] + rest && |rest| == n
    requires forall i :: 0 <= i < n ==> rest[i] == RemoveAt(p, top - 1 - i)
    ensures |r| == n + 1
    ensures forall i :: 0 <= i < n + 1 ==> r[i] == RemoveAt(p, top - i)
  {
    forall i | 1 <= i < n + 1 ensures r[i] == RemoveAt(p, top - i) {
      assert r[i] == rest[i - 1];
    }
  }

  /** With every remove accepted, the listed indices are removed last one first. */
  lemma {:induction false} RemoveDescendingAll(cfg: Config, c: Value, p: JSONPointer, deleted: seq<nat>)
    requires cfg.pred == AcceptAll && cfg.handler.DefaultHandler? && c.VSlice?
    requires forall i :: 0 <= i < |deleted| ==> deleted[i] < |c.items|
    ensures |RemoveDescending(cfg, c, p, deleted)| == |deleted|
    ensures forall i :: 0 <= i < |deleted| ==>
      RemoveDescending(cfg, c, p, deleted)[i] == RemoveAt(p, deleted[|deleted| - 1 - i])
    decreases |deleted|
  {
    if |deleted| > 0 {
      var init := deleted[..|deleted| - 1];
      RemoveDescendingAll(cfg, c, p, init);
      var rest := RemoveDescending(cfg, c, p, init);
      var r := RemoveDescending(cfg, c, p, deleted);
      assert r == [RemoveAt(p, deleted[|deleted| - 1])] + rest;
      forall i | 1 <= i < |deleted| ensures r[i] == RemoveAt(p, deleted[|deleted| - 1 - i]) {
        assert r[i] == rest[i - 1];
        assert init[|init| - 1 - (i - 1)] == deleted[|deleted| - 1 - i];
      }
    }
  }

  /**
   * The order-insensitive comparison's removals, with every remove accepted:
   * one per leftover index (LeftoversCorrect says which indices those are),
   * the n-th removal taking the n-th largest, so they come in strictly
   * descending order and no removal shifts an element that a later removal
   * addresses.
   */
  lemma UnorderedRemovalsDescending(cfg: Config, c: Value, p: JSONPointer,
                                    keys2: seq<string>, index1: map<string, nat>)
    requires cfg.pred == AcceptAll && cfg.handler.DefaultHandler? && c.VSlice? && |keys2| == |c.items|
    ensures var d := Leftovers(keys2, index1, 0);
      forall i :: 0 <= i < |d| ==> d[i] < |c.items|
    ensures var d := Leftovers(keys2, index1, 0);
      |RemoveDescending(cfg, c, p, d)| == |d|
    ensures var d := Leftovers(keys2, index1, 0);
      forall i :: 0 <= i < |d| ==> RemoveDescending(cfg, c, p, d)[i] == RemoveAt(p, d[|d| - 1 - i])
    ensures var d := Leftovers(keys2, index1, 0);
      forall a, b :: 0 <= a < b < |d| ==> d[a] < d[b]
  {
    var d := Leftovers(keys2, index1, 0);
    assert forall i :: 0 <= i < |d| ==> d[i] < |c.items| by {
      LeftoversCorrect(keys2, index1, 0);
    }
    assert forall a, b :: 0 <= a < b < |d| ==> d[a] < d[b] by {
      LeftoversCorrect(keys2, index1, 0);
    }
    RemoveDescendingAll(cfg, c, p, d);
  }

  // ---------------------------------------------------------------------------
  // Pruning, ignored struct fields and duplicate keys

  /**
   * A struct or slice pair the replace predicate rejects emits nothing and is
   * not descended into; under the defaults a non-empty slice against an
   * empty one is a single add of the whole slice at the pointer.
   */
  lemma PrunedByReplace(cfg: Config, m: Value, c: Value, p: JSONPointer)
    requires (m.VStruct? && c.VStruct?) || (m.VSlice? && c.VSlice?)
    ensures !cfg.pred.Replace(p, m, c) ==> Walk(cfg, m, c, p) == Done([])
    ensures m.VSlice? && cfg.pred == AcceptAll && cfg.handler.DefaultHandler? && |m.items| > 0 && |c.items| == 0 ==>
      Walk(cfg, m, c, p) == Done([JSONPatch(OpAdd, p.String(), m)])
  {
  }

  /**
   * Struct fields the walker skips (unexported, or tagged "" or "_") never
   * matter: two struct pairs that agree on which fields are walked and on
   * the walked fields' values give the same outcome.
   */
  lemma {:induction false} SkippedFieldsIgnored(cfg: Config, m: Value, c: Value, m2: Value, c2: Value,
                                                p: JSONPointer, j: nat)
    requires m.VStruct? && c.VStruct? && m2.VStruct? && c2.VStruct? && j <= |m.fields|
    requires |m2.fields| == |m.fields| && |c2.fields| == |c.fields|
    requires forall i :: j <= i < |m.fields| ==> Walked(m2.fields[i]) == Walked(m.fields[i])
    requires forall i :: j <= i < |m.fields| && Walked(m.fields[i]) ==> m2.fields[i] == m.fields[i]
    requires forall i :: j <= i < |m.fields| && i < |c.fields| && Walked(m.fields[i]) ==> c2.fields[i] == c.fields[i]
    ensures FieldsFrom(cfg, m2, c2, p, j) == FieldsFrom(cfg, m, c, p, j)
    decreases |m.fields| - j
  {
    if j < |m.fields| {
      SkippedFieldsIgnored(cfg, m, c, m2, c2, p, j + 1);
    }
  }

  /** `k` occurs at two different indices of `keys`. */
  predicate Twice(keys: seq<string>, k: string)
  {
    exists i, j :: 0 <= i < j < |keys| && keys[i] == k && keys[j] == k
  }

  /**
   * A repeated key in either slice fails the order-insensitive comparison
   * before anything is emitted, with an error naming the pointer and a key
   * that occurs twice; with distinct keys on both sides both index maps are
   * built, and the comparison fails only where the key-matching loop does.
   */
  lemma UnorderedDuplicateKeys(cfg: Config, m: Value, c: Value, p: JSONPointer, fieldName: string)
    requires m.VSlice? && c.VSlice?
    ensures var o := Unordered(cfg, m, c, p, fieldName);
      !Distinct(Keys(m.items, fieldName)) || !Distinct(Keys(c.items, fieldName)) ==>
        o.ops == [] && o.err.Some? && o.err.value.DuplicateMatchValue? && o.err.value.at == p.String()
        && (Twice(Keys(m.items, fieldName), o.err.value.value) || Twice(Keys(c.items, fieldName), o.err.value.value))
    ensures var o := Unordered(cfg, m, c, p, fieldName);
      var ix := IndexMap(Keys(c.items, fieldName));
      Distinct(Keys(m.items, fieldName)) && Distinct(Keys(c.items, fieldName)) ==>
        IndexMap(Keys(m.items, fieldName)).Indexed? && ix.Indexed?
        && (forall k :: k in ix.index ==> ix.index[k] < |c.items|)
        && o.err == MatchFrom(cfg, m, c, p, fieldName, ix.index, 0, |c.items|).err
  {
    IndexMapCorrect(Keys(m.items, fieldName));
    IndexMapCorrect(Keys(c.items, fieldName));
  }

  /**
   * The identity keys of scalar elements: two ints, two uints, two bools or
   * two strings key alike exactly when they are equal, an int's key reads
   * back as the int, and an int and a uint of the same value key alike.
   */
  lemma ExtractScalars(a: Value, b: Value, fieldName: string)
    ensures a.VInt? && b.VInt? ==> (Extract(a, fieldName) == Extract(b, fieldName) <==> a.i == b.i)
    ensures a.VUint? && b.VUint? ==> (Extract(a, fieldName) == Extract(b, fieldName) <==> a.u == b.u)
    ensures a.VBool? && b.VBool? ==> (Extract(a, fieldName) == Extract(b, fieldName) <==> a.b == b.b)
    ensures a.VString? && b.VString? ==> (Extract(a, fieldName) == Extract(b, fieldName) <==> a.s == b.s)
    ensures a.VInt? ==> ParseInt(Extract(a, fieldName)) == a.i
    ensures a.VInt? && b.VUint? && a.i == b.u ==> Extract(a, fieldName) == Extract(b, fieldName)
  {
    if a.VInt? {
      ParseFormatInt(a.i);
      if b.VInt? {
        FormatIntInjective(a.i, b.i);
      }
    }
    if a.VUint? && b.VUint? {
      ItoaInjective(a.u, b.u);
    }
  }

  /**
   * Elements that carry no key: a nil pointer, a float, a slice, a map, an
   * interface, an invalid or other value, and a struct without the field
   * all key to "".
   */
  lemma ExtractBlank(v: Value, fieldName: string)
    ensures (v.VPtr? && v.target.None?) || v.VFloat? || v.VSlice? || v.VMap? || v.VIface? || v.VOther? || v.VInvalid?
      ==> Extract(v, fieldName) == ""
    ensures v.VStruct? && (forall i :: 0 <= i < |v.fields| ==> v.fields[i].name != fieldName) ==> Extract(v, fieldName) == ""
  {
  }

  /** Two modified elements that carry no key make the order-insensitive comparison fail at the slice. */
  lemma BlankKeysCollide(cfg: Config, m: Value, c: Value, p: JSONPointer, fieldName: string, i: nat, j: nat)
    requires m.VSlice? && c.VSlice? && i < j < |m.items|
    requires Extract(m.items[i], fieldName) == "" && Extract(m.items[j], fieldName) == ""
    ensures var o := Unordered(cfg, m, c, p, fieldName);
      o.ops == [] && o.err.Some? && o.err.value.DuplicateMatchValue? && o.err.value.at == p.String()
  {
    var keys := Keys(m.items, fieldName);
    assert keys[i] == keys[j];
    UnorderedDuplicateKeys(cfg, m, c, p, fieldName);
  }

  /** Pairwise distinct ints key distinctly, so such a slice passes the duplicate check. */
  lemma {:induction false} DistinctIntKeys(items: seq<Value>, fieldName: string)
    requires forall k :: 0 <= k < |items| ==> items[k].VInt?
    requires forall a, b :: 0 <= a < b < |items| ==> items[a].i != items[b].i
    ensures Distinct(Keys(items, fieldName))
    ensures IndexMap(Keys(items, fieldName)).Indexed?
  {
    var keys := Keys(items, fieldName);
    forall a, b | 0 <= a < b < |keys| ensures keys[a] != keys[b] {
      FormatIntInjective(items[a].i, items[b].i);
    }
    IndexMapCorrect(keys);
  }

  /**
   * When the order-insensitive comparison succeeds under the defaults, its
   * last operations are the removals of the leftover current elements,
   * highest index first: nothing it emits for the slice comes after them.
   */
  lemma UnorderedRemovalsLast(cfg: Config, m: Value, c: Value, p: JSONPointer, fieldName: string)
    requires cfg.pred == AcceptAll && cfg.handler.DefaultHandler? && m.VSlice? && c.VSlice?
    requires IndexMap(Keys(m.items, fieldName)).Indexed?
    ensures var o := Unordered(cfg, m, c, p, fieldName);
      var d := Leftovers(Keys(c.items, fieldName), IndexMap(Keys(m.items, fieldName)).index, 0);
      o.err.None? ==> (
        && |d| <= |o.ops|
        && var tail := o.ops[|o.ops| - |d|..];
           forall i :: 0 <= i < |d| ==> tail[i] == RemoveAt(p, d[|d| - 1 - i]))
  {
    var keys2 := Keys(c.items, fieldName);
    var index1 := IndexMap(Keys(m.items, fieldName)).index;
    var o := Unordered(cfg, m, c, p, fieldName);
    match IndexMap(keys2)
    case Duplicate(k) =>
      assert o == Fail(DuplicateMatchValue(p.String(), k));
    case Indexed(index2) =>
      IndexMapCorrect(keys2);
      LeftoversCorrect(keys2, index1, 0);
      var d := Leftovers(keys2, index1, 0);
      var mf := MatchFrom(cfg, m, c, p, fieldName, index2, 0, |c.items|);
      var rd := RemoveDescending(cfg, c, p, d);
      assert o == Then(mf, Done(rd));
      if o.err.None? {
        RemoveDescendingAll(cfg, c, p, d);
        assert o.ops == mf.ops + rd;
        RemovalsAtEnd(o.ops, mf.ops, rd, p, d);
      }
  }

  /** Operations that end with the removals of `d`, last index first. */
  lemma RemovalsAtEnd(ops: seq<JSONPatch>, front: seq<JSONPatch>, rd: seq<JSONPatch>, p: JSONPointer, d: seq<nat>)
    requires ops == front + rd && |rd| == |d|
    requires forall i :: 0 <= i < |d| ==> rd[i] == RemoveAt(p, d[|d| - 1 - i])
    ensures |d| <= |ops|
    ensures var tail := ops[|ops| - |d|..]; forall i :: 0 <= i < |d| ==> tail[i] == RemoveAt(p, d[|d| - 1 - i])
  {
    assert ops[|ops| - |d|..] == rd;
  }

  // ---------------------------------------------------------------------------
  // Order-insensitive comparison of a reordered slice

  /**
   * What the order-insensitive mode is for: when the current slice holds the
   * same elements as the modified one in some other order, no operation is
   * emitted (and when keys repeat, the comparison fails without emitting).
   */
  lemma UnorderedPermutation(cfg: Config, m: Value, c: Value, p: JSONPointer, fieldName: string)
    requires m.VSlice? && c.VSlice? && WellFormed(m)
    requires multiset(m.items) == multiset(c.items)
    ensures Unordered(cfg, m, c, p, fieldName).ops == []
  {
    var keys1 := Keys(m.items, fieldName);
    var keys2 := Keys(c.items, fieldName);
    match IndexMap(keys1)
    case Duplicate(_) =>
    case Indexed(index1) =>
      match IndexMap(keys2)
      case Duplicate(_) =>
      case Indexed(index2) =>
        IndexMapCorrect(keys1);
        IndexMapCorrect(keys2);
        MatchPermutation(cfg, m, c, p, fieldName, index2, 0, |c.items|);
        forall i | 0 <= i < |keys2| ensures keys2[i] in index1 {
          assert c.items[i] in multiset(m.items);
          var j :| 0 <= j < |m.items| && m.items[j] == c.items[i];
          assert keys1[j] == keys2[i];
        }
        LeftoversCorrect(keys2, index1, 0);
  }

  lemma {:induction false} MatchPermutation(cfg: Config, m: Value, c: Value, p: JSONPointer, fieldName: string,
                                            index2: map<string, nat>, j: nat, idxMax: nat)
    requires m.VSlice? && c.VSlice? && WellFormed(m) && j <= |m.items|
    requires multiset(m.items) == multiset(c.items)
    requires forall k :: k in index2 ==> index2[k] < |c.items|
    requires forall i :: 0 <= i < |c.items| ==>
      Keys(c.items, fieldName)[i] in index2 && index2[Keys(c.items, fieldName)[i]] == i
    ensures MatchFrom(cfg, m, c, p, fieldName, index2, j, idxMax).ops == []
    decreases |m.items| - j
  {
    if j < |m.items| {
      assert m.items[j] in multiset(c.items);
      var i :| 0 <= i < |c.items| && c.items[i] == m.items[j];
      assert Keys(c.items, fieldName)[i] == Extract(m.items[j], fieldName);
      WalkSelf(cfg, m.items[j], p.Add(Itoa(i)));
      MatchPermutation(cfg, m, c, p, fieldName, index2, j + 1, idxMax);
    }
  }

  /** How many of the elements at indices j .. i-1 have a key the current slice lacks. */
  function NewBefore(items: seq<Value>, fieldName: string, index2: map<string, nat>, j: nat, i: nat): nat
    requires i <= |items|
    decreases i - j
  {
    if i <= j then 0
    else (if Extract(items[j], fieldName) in index2 then 0 else 1) + NewBefore(items, fieldName, index2, j + 1, i)
  }

  /** Every element from j on whose key the current slice lacks has its add, at idxMax plus the new ones before it, in ops. */
  predicate AddsIn(ops: seq<JSONPatch>, p: JSONPointer, items: seq<Value>, fieldName: string,
                   index2: map<string, nat>, j: nat, idxMax: nat)
  {
    forall i :: j <= i < |items| && Extract(items[i], fieldName) !in index2 ==>
      AddAt(p, idxMax + NewBefore(items, fieldName, index2, j, i), Interface(items[i])) in ops
  }

  /** An element whose key the current slice has adds nothing and shifts no index. */
  lemma AddsInMatched(ops: seq<JSONPatch>, front: seq<JSONPatch>, rest: seq<JSONPatch>, p: JSONPointer,
                      items: seq<Value>, fieldName: string, index2: map<string, nat>, j: nat, idxMax: nat)
    requires j < |items| && Extract(items[j], fieldName) in index2
    requires ops == front + rest && AddsIn(rest, p, items, fieldName, index2, j + 1, idxMax)
    ensures AddsIn(ops, p, items, fieldName, index2, j, idxMax)
  {
    forall i | j <= i < |items| && Extract(items[i], fieldName) !in index2
      ensures AddAt(p, idxMax + NewBefore(items, fieldName, index2, j, i), Interface(items[i])) in ops
    {
      assert NewBefore(items, fieldName, index2, j, i) == NewBefore(items, fieldName, index2, j + 1, i);
    }
  }

  /** An element whose key the current slice lacks is added at idxMax and shifts the later ones by one. */
  lemma AddsInNew(ops: seq<JSONPatch>, rest: seq<JSONPatch>, p: JSONPointer,
                  items: seq<Value>, fieldName: string, index2: map<string, nat>, j: nat, idxMax: nat)
    requires j < |items| && Extract(items[j], fieldName) !in index2
    requires ops == [AddAt(p, idxMax, Interface(items[j]))] + rest
    requires AddsIn(rest, p, items, fieldName, index2, j + 1, idxMax + 1)
    ensures AddsIn(ops, p, items, fieldName, index2, j, idxMax)
  {
    forall i | j <= i < |items| && Extract(items[i], fieldName) !in index2
      ensures AddAt(p, idxMax + NewBefore(items, fieldName, index2, j, i), Interface(items[i])) in ops
    {
      if i == j {
        assert NewBefore(items, fieldName, index2, j, i) == 0;
        assert ops[0] == AddAt(p, idxMax, Interface(items[j]));
      } else {
        assert NewBefore(items, fieldName, index2, j, i) == 1 + NewBefore(items, fieldName, index2, j + 1, i);
        assert AddAt(p, idxMax + 1 + NewBefore(items, fieldName, index2, j + 1, i), Interface(items[i])) in rest;
      }
    }
  }

  /**
   * In a successful order-insensitive comparison under the defaults, every
   * modified element whose key the current slice lacks is added, and the
   * new elements go to consecutive indices from `idxMax` (the current
   * length at the start), in the order they appear in the modified slice.
   */
  lemma {:induction false} MatchAdds(cfg: Config, m: Value, c: Value, p: JSONPointer, fieldName: string,
                                     index2: map<string, nat>, j: nat, idxMax: nat)
    requires cfg.pred == AcceptAll && cfg.handler.DefaultHandler? && m.VSlice? && c.VSlice? && j <= |m.items|
    requires forall k :: k in index2 ==> index2[k] < |c.items|
    requires MatchFrom(cfg, m, c, p, fieldName, index2, j, idxMax).err.None?
    ensures AddsIn(MatchFrom(cfg, m, c, p, fieldName, index2, j, idxMax).ops, p, m.items, fieldName, index2, j, idxMax)
    decreases |m.items| - j
  {
    if j < |m.items| {
      var k := Extract(m.items[j], fieldName);
      var r := MatchFrom(cfg, m, c, p, fieldName, index2, j, idxMax);
      if k in index2 {
        var rest := MatchFrom(cfg, m, c, p, fieldName, index2, j + 1, idxMax);
        var here := Walk(cfg, m.items[j], c.items[index2[k]], p.Add(Itoa(index2[k])));
        assert r == Then(here, rest);
        MatchAdds(cfg, m, c, p, fieldName, index2, j + 1, idxMax);
        AddsInMatched(r.ops, here.ops, rest.ops, p, m.items, fieldName, index2, j, idxMax);
      } else {
        var v := Interface(m.items[j]);
        var rest := MatchFrom(cfg, m, c, p, fieldName, index2, j + 1, idxMax + 1);
        assert cfg.pred.Add(p.Add(Itoa(idxMax)), v);
        assert r == Prepend([AddAt(p, idxMax, v)], rest);
        MatchAdds(cfg, m, c, p, fieldName, index2, j + 1, idxMax + 1);
        AddsInNew(r.ops, rest.ops, p, m.items, fieldName, index2, j, idxMax);
      }
    }
  }

  // ---------------------------------------------------------------------------
  // Map keys added and removed

  /**
   * When a map comparison that does not add the whole map succeeds, with
   * every operation accepted and the default handler, each modified key the
   * current map lacks is added at its own child pointer.
   */
  lemma {:induction false} ModifiedAdds(cfg: Config, m: Value, c: Value, p: JSONPointer, j: nat)
    requires cfg.pred == AcceptAll && cfg.handler.DefaultHandler? && m.VMap? && c.VMap? && j <= |m.entries|
    requires ModifiedEntriesFrom(cfg, m, c, p, j).err.None?
    ensures forall i :: j <= i < |m.entries| && Lookup(c.entries, m.entries[i].key).None? ==>
      JSONPatch(OpAdd, p.Add(m.entries[i].key).String(), Interface(m.entries[i].value))
        in ModifiedEntriesFrom(cfg, m, c, p, j).ops
    decreases |m.entries| - j
  {
    if j < |m.entries| {
      ModifiedAdds(cfg, m, c, p, j + 1);
      var r := ModifiedEntriesFrom(cfg, m, c, p, j);
      var rest := ModifiedEntriesFrom(cfg, m, c, p, j + 1);
      var e := m.entries[j];
      assert m.keyKind == KString && c.keyKind == KString;
      if Lookup(c.entries, e.key).None? {
        var v := Interface(e.value);
        assert AddOps(cfg, p.Add(e.key), v) == [JSONPatch(OpAdd, p.Add(e.key).String(), v)];
        assert r.ops == [JSONPatch(OpAdd, p.Add(e.key).String(), v)] + rest.ops;
      } else {
        var here := Walk(cfg, e.value, Lookup(c.entries, e.key).value, p.Add(e.key));
        assert r == Then(here, rest);
        assert r.ops == here.ops + rest.ops;
      }
    }
  }

  /** Likewise each current key the modified map lacks is removed at its own child pointer. */
  lemma {:induction false} CurrentRemoves(cfg: Config, m: Value, c: Value, p: JSONPointer, j: nat)
    requires cfg.pred == AcceptAll && cfg.handler.DefaultHandler? && m.VMap? && c.VMap? && j <= |c.entries|
    requires CurrentEntriesFrom(cfg, m, c, p, j).err.None?
    ensures forall i :: j <= i < |c.entries| && Lookup(m.entries, c.entries[i].key).None? ==>
      JSONPatch(OpRemove, p.Add(c.entries[i].key).String(), VInvalid) in CurrentEntriesFrom(cfg, m, c, p, j).ops
    decreases |c.entries| - j
  {
    if j < |c.entries| {
      CurrentRemoves(cfg, m, c, p, j + 1);
      var r := CurrentEntriesFrom(cfg, m, c, p, j);
      var rest := CurrentEntriesFrom(cfg, m, c, p, j + 1);
      var e := c.entries[j];
      assert m.keyKind == KString && c.keyKind == KString;
      if Lookup(m.entries, e.key).None? {
        var v := Interface(e.value);
        assert RemoveOps(cfg, p.Add(e.key), v) == [JSONPatch(OpRemove, p.Add(e.key).String(), VInvalid)];
        assert r.ops == [JSONPatch(OpRemove, p.Add(e.key).String(), VInvalid)] + rest.ops;
      } else {
        assert r == rest;
      }
    }
  }

  /**
   * A successful map comparison under the defaults: a non-empty modified map
   * against an empty current one is one add of the whole map; otherwise
   * every missing key is added and every dropped key removed.
   */
  lemma MapKeys(cfg: Config, m: Value, c: Value, p: JSONPointer)
    requires cfg.pred == AcceptAll && cfg.handler.DefaultHandler? && m.VMap? && c.VMap?
    requires ProcessMap(cfg, m, c, p).err.None?
    ensures |m.entries| > 0 && |c.entries| == 0 ==> ProcessMap(cfg, m, c, p).ops == [JSONPatch(OpAdd, p.String(), m)]
    ensures !(|m.entries| > 0 && |c.entries| == 0) ==>
      (forall i :: 0 <= i < |m.entries| && Lookup(c.entries, m.entries[i].key).None? ==>
         JSONPatch(OpAdd, p.Add(m.entries[i].key).String(), Interface(m.entries[i].value)) in ProcessMap(cfg, m, c, p).ops)
      && (forall i :: 0 <= i < |c.entries| && Lookup(m.entries, c.entries[i].key).None? ==>
         JSONPatch(OpRemove, p.Add(c.entries[i].key).String(), VInvalid) in ProcessMap(cfg, m, c, p).ops)
  {
    if !(|m.entries| > 0 && |c.entries| == 0) {
      ModifiedAdds(cfg, m, c, p, 0);
      CurrentRemoves(cfg, m, c, p, 0);
    }
  }

  /**
   * The key-kind checks of a map comparison: a non-empty modified map
   * against an empty current one is added whole whatever its key kind; any
   * other pair with a non-string key fails at the first entry the loops
   * reach, naming the offending kind and the map's pointer.
   */
  lemma MapKeyKindErrors(cfg: Config, m: Value, c: Value, p: JSONPointer)
    requires m.VMap? && c.VMap?
    ensures |m.entries| > 0 && |c.entries| == 0 ==> ProcessMap(cfg, m, c, p) == Done(AddOps(cfg, p, m))
    ensures |m.entries| > 0 && |c.entries| > 0 && m.keyKind != KString ==>
      ProcessMap(cfg, m, c, p) == Fail(UnsupportedKeyKind(m.keyKind, p.String()))
    ensures |m.entries| > 0 && |c.entries| > 0 && m.keyKind == KString && c.keyKind != KString ==>
      ProcessMap(cfg, m, c, p) == Fail(MapKeyTypeMismatch(p.String()))
    ensures |m.entries| == 0 && |c.entries| > 0 && c.keyKind != KString ==>
      ProcessMap(cfg, m, c, p) == Fail(UnsupportedKeyKind(c.keyKind, p.String()))
    ensures |m.entries| == 0 && |c.entries| > 0 && c.keyKind == KString && m.keyKind != KString ==>
      ProcessMap(cfg, m, c, p) == Fail(MapKeyTypeMismatch(p.String()))
  {
    if |m.entries| == 0 {
      assert ModifiedEntriesFrom(cfg, m, c, p, 0) == Done([]);
    }
  }

  /**
   * A key the two maps share is walked at the pointer extended by that key:
   * when the modified-entries loop from entry `j` succeeds, the walk of the
   * shared entry succeeded and its operations appear, in order and
   * contiguously, among the loop's operations.
   */
  lemma ModifiedWalksShared(cfg: Config, m: Value, c: Value, p: JSONPointer, j: nat, i: nat)
    requires m.VMap? && c.VMap? && j <= i < |m.entries| && Lookup(c.entries, m.entries[i].key).Some?
    ensures var w := Walk(cfg, m.entries[i].value, Lookup(c.entries, m.entries[i].key).value, p.Add(m.entries[i].key));
            ModifiedEntriesFrom(cfg, m, c, p, j).err.None? ==>
              w.err.None? && exists a, b :: ModifiedEntriesFrom(cfg, m, c, p, j).ops == a + w.ops + b
  {
    var w := Walk(cfg, m.entries[i].value, Lookup(c.entries, m.entries[i].key).value, p.Add(m.entries[i].key));
    var r := ModifiedEntriesFrom(cfg, m, c, p, j).ops;
    if ModifiedEntriesFrom(cfg, m, c, p, j).err.None? {
      ModifiedSuffix(cfg, m, c, p, j, i);
      ModifiedSharedHere(cfg, m, c, p, i);
      var here := ModifiedEntriesFrom(cfg, m, c, p, i).ops;
      var a, b := r[..|r| - |here|], ModifiedEntriesFrom(cfg, m, c, p, i + 1).ops;
      assert r == a + here;
      AppendAssoc(a, w.ops, b);
      assert r == a + w.ops + b;
    }
  }

  /** A successful modified-entries loop from `j` ends with the loop's operations from any later `i`, which succeeds too. */
  lemma ModifiedSuffix(cfg: Config, m: Value, c: Value, p: JSONPointer, j: nat, i: nat)
    requires m.VMap? && c.VMap? && j <= i <= |m.entries| && ModifiedEntriesFrom(cfg, m, c, p, j).err.None?
    ensures ModifiedEntriesFrom(cfg, m, c, p, i).err.None?
    ensures EndsWith(ModifiedEntriesFrom(cfg, m, c, p, j).ops, ModifiedEntriesFrom(cfg, m, c, p, i).ops)
  {
    var f := (k: nat) => if k <= |m.entries| then ModifiedEntriesFrom(cfg, m, c, p, k) else Done([]);
    forall k: nat | j <= k < i && f(k).err.None?
      ensures f(k + 1).err.None? && EndsWith(f(k).ops, f(k + 1).ops)
    {
      ModifiedStep(cfg, m, c, p, k);
    }
    SuffixChain(f, j, i);
  }

  /**
   * A chain of outcomes in which each success is followed by a success whose
   * operations end its own: every later outcome succeeds and ends the first.
   */
  lemma {:induction false} SuffixChain(f: nat -> Outcome, j: nat, i: nat)
    requires j <= i && f(j).err.None?
    requires forall k: nat :: j <= k < i && f(k).err.None? ==> f(k + 1).err.None? && EndsWith(f(k).ops, f(k + 1).ops)
    ensures f(i).err.None? && EndsWith(f(j).ops, f(i).ops)
    decreases i - j
  {
    if j < i {
      SuffixChain(f, j + 1, i);
      SuffixTrans(f(j).ops, f(j + 1).ops, f(i).ops);
    } else {
      EndsWithSelf(f(j).ops);
    }
  }

  lemma EndsWithSelf(s: seq<JSONPatch>)
    ensures EndsWith(s, s)
  {
    assert s[|s| - |s|..] == s;
  }

  /** `s` ends with `tail`. */
  predicate EndsWith(s: seq<JSONPatch>, tail: seq<JSONPatch>)
  {
    |tail| <= |s| && s[|s| - |tail|..] == tail
  }

  lemma SuffixTrans(s: seq<JSONPatch>, t: seq<JSONPatch>, u: seq<JSONPatch>)
    requires EndsWith(s, t) && EndsWith(t, u)
    ensures EndsWith(s, u)
  {
    forall k | 0 <= k < |u| ensures s[|s| - |u|..][k] == u[k] {
      assert s[|s| - |t|..][|t| - |u| + k] == t[|t| - |u| + k];
      assert t[|t| - |u|..][k] == t[|t| - |u| + k];
    }
  }

  /** A successful step of the modified-entries loop at a shared key walks it first. */
  lemma ModifiedSharedHere(cfg: Config, m: Value, c: Value, p: JSONPointer, i: nat)
    requires m.VMap? && c.VMap? && i < |m.entries| && Lookup(c.entries, m.entries[i].key).Some?
    requires ModifiedEntriesFrom(cfg, m, c, p, i).err.None?
    ensures var w := Walk(cfg, m.entries[i].value, Lookup(c.entries, m.entries[i].key).value, p.Add(m.entries[i].key));
      w.err.None? && ModifiedEntriesFrom(cfg, m, c, p, i).ops == w.ops + ModifiedEntriesFrom(cfg, m, c, p, i + 1).ops
  {
    assert m.keyKind == KString && c.keyKind == KString;
  }

  /** One successful step of the modified-entries loop emits some operations and leaves a successful rest. */
  lemma ModifiedStep(cfg: Config, m: Value, c: Value, p: JSONPointer, j: nat)
    requires m.VMap? && c.VMap? && j < |m.entries| && ModifiedEntriesFrom(cfg, m, c, p, j).err.None?
    ensures ModifiedEntriesFrom(cfg, m, c, p, j + 1).err.None?
    ensures EndsWith(ModifiedEntriesFrom(cfg, m, c, p, j).ops, ModifiedEntriesFrom(cfg, m, c, p, j + 1).ops)
  {
    var r := ModifiedEntriesFrom(cfg, m, c, p, j);
    var rest := ModifiedEntriesFrom(cfg, m, c, p, j + 1);
    var e := m.entries[j];
    assert m.keyKind == KString && c.keyKind == KString;
    if Lookup(c.entries, e.key).None? {
      var front := AddOps(cfg, p.Add(e.key), Interface(e.value));
      assert r == Prepend(front, rest);
      assert r.ops[|front|..] == rest.ops;
    } else {
      var here := Walk(cfg, e.value, Lookup(c.entries, e.key).value, p.Add(e.key));
      assert r == Then(here, rest);
      assert r.ops == here.ops + rest.ops;
      assert r.ops[|here.ops|..] == rest.ops;
    }
  }

  /**
   * A successful map comparison walks every shared key at the pointer
   * extended by that key, and that walk's operations appear contiguously in
   * the map's operations.
   */
  lemma MapWalksShared(cfg: Config, m: Value, c: Value, p: JSONPointer, i: nat)
    requires m.VMap? && c.VMap? && i < |m.entries| && Lookup(c.entries, m.entries[i].key).Some?
    ensures var w := Walk(cfg, m.entries[i].value, Lookup(c.entries, m.entries[i].key).value, p.Add(m.entries[i].key));
            ProcessMap(cfg, m, c, p).err.None? ==>
              w.err.None? && exists a, b :: ProcessMap(cfg, m, c, p).ops == a + w.ops + b
  {
    var w := Walk(cfg, m.entries[i].value, Lookup(c.entries, m.entries[i].key).value, p.Add(m.entries[i].key));
    var mod := ModifiedEntriesFrom(cfg, m, c, p, 0);
    var cur := CurrentEntriesFrom(cfg, m, c, p, 0);
    assert |c.entries| > 0;
    assert ProcessMap(cfg, m, c, p) == Then(mod, cur);
    if ProcessMap(cfg, m, c, p).err.None? {
      ModifiedWalksShared(cfg, m, c, p, 0, i);
      var a, b :| mod.ops == a + w.ops + b;
      assert ProcessMap(cfg, m, c, p).ops == mod.ops + cur.ops;
      AppendAssoc(a + w.ops, b, cur.ops);
    }
  }
}

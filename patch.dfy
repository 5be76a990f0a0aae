/**
 * The entry points of patch.go and the list they return. CreateJSONPatch
 * builds a walker with the default configuration, applies the options, walks
 * the modified value against the current one from the walker's prefix, and
 * wraps the emitted operations with their JSON encoding.
 * CreateThreeWayJSONPatch walks twice with the same walker: the modified
 * value against the current one, keeping everything but removals, then
 * against the original one, keeping only removals.
 *
 * The JSON encoding (encoding/json's Marshal) is a parameter: the model
 * shows when it is called and what becomes of its result, not what it
 * writes.
 */
module Patch {

  import opened Wrappers
  import opened Pointer
  import opened Values
  import opened Handlers
  import opened WalkSpec
  import opened Walking
  import Options
  import WalkProps

  newtype byte = b: int | 0 <= b < 256

  /** What json.Marshal gives back: the encoding, and an error message when it fails. */
  datatype Marshalled = Marshalled(raw: seq<byte>, err: Option<string>)

  type Marshal = seq<JSONPatch> -> Marshalled

  /** The list of operations an entry point returns, with its JSON encoding. */
  datatype JSONPatchList = JSONPatchList(list: seq<JSONPatch>, raw: seq<byte>)
  {
    /** Whether the list holds no operation. */
    function Empty(): (r: bool)
      ensures r <==> list == []
    {
      Len() == 0
    }

    function Len(): nat
    {
      |list|
    }

    /** The encoding as a Go string: one character per byte. */
    function String(): string
    {
      Text(raw)
    }

    function Raw(): seq<byte>
    {
      raw
    }

    /** A fresh array holding the operations, in order. */
    method List() returns (ret: array<JSONPatch>)
      ensures fresh(ret) && ret.Length == Len() && ret[..] == list
    {
      ret := new JSONPatch[Len()];
      var i := 0;
      while i < |list|
        invariant 0 <= i <= |list|
        invariant ret[..i] == list[..i]
      {
        ret[i] := list[i];
        i := i + 1;
      }
    }
  }

  /** The zero JSONPatchList: no operation, no encoding. */
  const EmptyList := JSONPatchList([], [])

  function Text(raw: seq<byte>): string
  {
    if |raw| == 0 then "" else Text(raw[..|raw| - 1]) + [(raw[|raw| - 1] as int) as char]
  }

  /** The bytes of a string whose characters are all bytes; any other character gives 0. */
  function Bytes(s: string): seq<byte>
  {
    if |s| == 0 then [] else
      var c := s[|s| - 1] as int;
      Bytes(s[..|s| - 1]) + [if c < 256 then c as byte else 0]
  }

  /** String keeps every byte of Raw: reading the bytes back gives Raw. */
  lemma {:induction false} StringRaw(l: JSONPatchList)
    ensures |l.String()| == |l.Raw()| && Bytes(l.String()) == l.Raw()
  {
    TextBytes(l.raw);
  }

  lemma {:induction false} TextBytes(raw: seq<byte>)
    ensures |Text(raw)| == |raw| && Bytes(Text(raw)) == raw
  {
    if |raw| > 0 {
      var init := raw[..|raw| - 1];
      TextBytes(init);
      var t := Text(raw);
      assert t[..|t| - 1] == Text(init);
      assert raw == init + [raw[|raw| - 1]];
    }
  }

  /** Why an entry point fails: its walk stopped, or the encoding failed. */
  datatype PatchError = WalkFailed(e: Error) | MarshalFailed(msg: string)

  /** What an entry point returns. */
  datatype Created = Created(patch: JSONPatchList, err: Option<PatchError>)

  /** The configuration a walker has once `opts` are applied to the defaults. */
  function Configured(opts: seq<Options.Option>): Config
  {
    Options.ConfigureAll(Defaults, opts)
  }

  /** The pointer every walk of an entry point starts from: the walker's prefix. */
  function Root(cfg: Config): JSONPointer
  {
    NewWithPrefix(cfg.prefix)
  }

  /** The end of both entry points: no operation gives the zero list, otherwise the encoded list. */
  function Finish(list: seq<JSONPatch>, marshal: Marshal): Created
  {
    if |list| == 0 then Created(EmptyList, None)
    else
      var out := marshal(list);
      Created(JSONPatchList(list, out.raw), if out.err.Some? then Some(MarshalFailed(out.err.value)) else None)
  }

  /** What CreateJSONPatch returns after its walk gave `o`. */
  function FromWalk(o: Outcome, marshal: Marshal): Created
  {
    if o.err.Some? then Created(EmptyList, Some(WalkFailed(o.err.value)))
    else Finish(o.ops, marshal)
  }

  /** CreateJSONPatch as a function of its inputs. */
  function Create(m: Value, c: Value, opts: seq<Options.Option>, marshal: Marshal): Created
  {
    var cfg := Configured(opts);
    FromWalk(Walk(cfg, m, c, Root(cfg)), marshal)
  }

  /**
   * The operations of `ops` that are removals (`removes`) or that are not
   * (`!removes`), in their order.
   */
  function Select(ops: seq<JSONPatch>, removes: bool): seq<JSONPatch>
  {
    if |ops| == 0 then []
    else
      var last := ops[|ops| - 1];
      Select(ops[..|ops| - 1], removes) + (if (last.operation == OpRemove) == removes then [last] else [])
  }

  /**
   * What CreateThreeWayJSONPatch returns after its walks gave `o1` (against
   * the current value) and `o2` (against the original); `o2` only counts
   * when `o1` did not fail, as the second walk only runs then.
   */
  function FromWalks(o1: Outcome, o2: Outcome, marshal: Marshal): Created
  {
    if o1.err.Some? then Created(EmptyList, Some(WalkFailed(o1.err.value)))
    else if o2.err.Some? then Created(EmptyList, Some(WalkFailed(o2.err.value)))
    else Finish(Select(o1.ops, false) + Select(o2.ops, true), marshal)
  }

  /** CreateThreeWayJSONPatch as a function of its inputs. */
  function CreateThreeWay(m: Value, c: Value, orig: Value, opts: seq<Options.Option>, marshal: Marshal): Created
  {
    var cfg := Configured(opts);
    FromWalks(Walk(cfg, m, c, Root(cfg)), Walk(cfg, m, orig, Root(cfg)), marshal)
  }

  // ---------------------------------------------------------------------------
  // The entry points

  method CreateJSONPatch(m: Value, c: Value, opts: seq<Options.Option>, marshal: Marshal)
    returns (l: JSONPatchList, err: Option<PatchError>)
    ensures Created(l, err) == Create(m, c, opts, marshal)
  {
    var w := new Walker();
    Options.ApplyAll(w, opts);
    ghost var cfg := w.Cfg();
    assert cfg == Configured(opts);
    ghost var o := Walk(cfg, m, c, Root(cfg));
    assert Create(m, c, opts, marshal) == FromWalk(o, marshal);
    var walkErr := w.Walk(m, c, NewWithPrefix(w.prefix));
    assert w.patchList == o.ops && walkErr == o.err;
    if walkErr.Some? {
      return EmptyList, Some(WalkFailed(walkErr.value));
    }
    var list := w.patchList;
    if |list| == 0 {
      return EmptyList, None;
    }
    var out := marshal(list);
    l := JSONPatchList(list, out.raw);
    err := if out.err.Some? then Some(MarshalFailed(out.err.value)) else None;
  }

  method CreateThreeWayJSONPatch(m: Value, c: Value, orig: Value, opts: seq<Options.Option>, marshal: Marshal)
    returns (l: JSONPatchList, err: Option<PatchError>)
    ensures Created(l, err) == CreateThreeWay(m, c, orig, opts, marshal)
  {
    var list: seq<JSONPatch> := [];
    var w := new Walker();
    Options.ApplyAll(w, opts);
    ghost var cfg := w.Cfg();
    assert cfg == Configured(opts);
    // compare modified with current and only keep additions and changes
    ghost var o1 := Walk(cfg, m, c, Root(cfg));
    ghost var o2 := Walk(cfg, m, orig, Root(cfg));
    var walkErr;
    walkErr, list := WalkAndSelect(w, m, c, false, list);
    if walkErr.Some? {
      return EmptyList, Some(WalkFailed(walkErr.value));
    }
    assert list == Select(o1.ops, false);
    w.patchList := [];
    // compare modified with original and only keep removals
    walkErr, list := WalkAndSelect(w, m, orig, true, list);
    if walkErr.Some? {
      return EmptyList, Some(WalkFailed(walkErr.value));
    }
    assert CreateThreeWay(m, c, orig, opts, marshal) == Finish(list, marshal);
    if |list| == 0 {
      return EmptyList, None;
    }
    var out := marshal(list);
    l := JSONPatchList(list, out.raw);
    err := if out.err.Some? then Some(MarshalFailed(out.err.value)) else None;
  }

  /**
   * One half of CreateThreeWayJSONPatch: walk `m` against `other` from the
   * walker's prefix and, unless the walk fails, append to `list` the
   * operations Select keeps.
   */
  method WalkAndSelect(w: Walker, m: Value, other: Value, removes: bool, list: seq<JSONPatch>)
    returns (err: Option<Error>, list': seq<JSONPatch>)
    requires w.patchList == []
    modifies w`patchList
    ensures var o := Walk(w.Cfg(), m, other, Root(w.Cfg()));
      && err == o.err && w.patchList == o.ops
      && list' == if o.err.Some? then list else list + Select(o.ops, removes)
  {
    err := w.Walk(m, other, NewWithPrefix(w.prefix));
    if err.Some? {
      return err, list;
    }
    list' := AppendSelected(list, w.patchList, removes);
  }

  /** The filtering loops of CreateThreeWayJSONPatch: append to `list` the operations of `ops` Select keeps. */
  method AppendSelected(list: seq<JSONPatch>, ops: seq<JSONPatch>, removes: bool) returns (r: seq<JSONPatch>)
    ensures r == list + Select(ops, removes)
  {
    r := list;
    var i := 0;
    while i < |ops|
      invariant 0 <= i <= |ops|
      invariant r == list + Select(ops[..i], removes)
    {
      assert ops[..i + 1][..i] == ops[..i];
      if (ops[i].operation == OpRemove) == removes {
        r := r + [ops[i]];
      }
      i := i + 1;
    }
    assert ops[..i] == ops;
  }

  // ---------------------------------------------------------------------------
  // What the entry points return

  /**
   * The list CreateJSONPatch returns is what the walk emitted: the zero list
   * when the walk stops with an error or emits nothing, and otherwise every
   * emitted operation, in order, with the encoder's output as its encoding.
   * The encoder runs only on a non-empty list, and its error is the only
   * other error. An empty list is always the zero list, whose String is "",
   * and a walk that succeeds without emitting anything reports no error.
   */
  lemma FromWalkList(o: Outcome, marshal: Marshal)
    ensures var r := FromWalk(o, marshal);
      && (r.err.Some? && r.err.value.WalkFailed? <==> o.err.Some?)
      && (o.err.Some? ==> r.patch == EmptyList && r.err == Some(WalkFailed(o.err.value)))
      && (o.err.None? ==> r.patch.list == o.ops)
      && (o.err.None? && o.ops != [] ==> r.patch.raw == marshal(o.ops).raw)
      && (r.patch.Empty() <==> o.err.Some? || o.ops == [])
      && (r.patch.Empty() ==> r.patch == EmptyList && r.patch.String() == "")
      && (o.err.None? && o.ops == [] ==> r.err.None?)
      && (r.err.Some? && r.err.value.MarshalFailed? <==> o.err.None? && o.ops != [] && marshal(o.ops).err.Some?)
  {
  }

  /** A well-formed value compared with itself gives the zero list, and the encoder is never called. */
  lemma CreateSelf(v: Value, opts: seq<Options.Option>, marshal: Marshal)
    requires WellFormed(v)
    ensures Create(v, v, opts, marshal).patch == EmptyList
    ensures Create(v, v, opts, marshal).err.None? || Create(v, v, opts, marshal).err.value.WalkFailed?
  {
    WalkProps.WalkSelf(Configured(opts), v, Root(Configured(opts)));
  }

  /**
   * Under options that set no handler, every operation in the list is an
   * add, a remove or a replace addressed at the walker's prefix rendered as
   * a pointer or at a pointer extending it by whole segments.
   */
  lemma CreateUnderPrefix(m: Value, c: Value, opts: seq<Options.Option>, marshal: Marshal)
    requires forall i :: 0 <= i < |opts| ==> !opts[i].WithHandler?
    ensures WalkProps.AllBelow(Create(m, c, opts, marshal).patch.list, Join(Configured(opts).prefix))
  {
    var cfg := Configured(opts);
    Options.KeepsPredicateAndHandler(Defaults, opts);
    Options.PrefixAccumulates(Defaults, opts);
    WalkProps.WalkBelow(cfg, m, c, Root(cfg));
  }

  // ---------------------------------------------------------------------------
  // Selecting removals

  /** Select keeps exactly the operations of its kind, each as often as it occurs. */
  lemma {:induction false} SelectMembers(ops: seq<JSONPatch>, removes: bool)
    ensures forall x :: x in Select(ops, removes) <==> x in ops && (x.operation == OpRemove) == removes
    ensures forall x :: multiset(Select(ops, removes))[x] == if (x.operation == OpRemove) == removes then multiset(ops)[x] else 0
  {
    if |ops| > 0 {
      var init := ops[..|ops| - 1];
      SelectMembers(init, removes);
      assert ops == init + [ops[|ops| - 1]];
    }
  }

  /** The removals and the other operations together are the operations, counted with repetition. */
  lemma SelectPartition(ops: seq<JSONPatch>)
    ensures multiset(Select(ops, false)) + multiset(Select(ops, true)) == multiset(ops)
  {
    SelectMembers(ops, false);
    SelectMembers(ops, true);
  }

  /** Removals are never followed by anything but removals. */
  predicate RemovalsLast(list: seq<JSONPatch>)
  {
    forall i, j :: 0 <= i < j < |list| && list[i].operation == OpRemove ==> list[j].operation == OpRemove
  }

  /**
   * The three-way list is the first walk's additions and replacements, then
   * the second walk's removals, so every removal comes after every other
   * operation; either walk's error gives the zero list, the first walk's
   * error taking precedence. As for CreateJSONPatch, an empty selection is
   * the zero list with no error, and only a non-empty one is encoded.
   */
  lemma FromWalksList(o1: Outcome, o2: Outcome, marshal: Marshal)
    ensures var r, sel := FromWalks(o1, o2, marshal), Select(o1.ops, false) + Select(o2.ops, true);
      && (r.err.Some? && r.err.value.WalkFailed? <==> o1.err.Some? || o2.err.Some?)
      && (o1.err.Some? || o2.err.Some? ==> r.patch == EmptyList)
      && (o1.err.Some? ==> r.err == Some(WalkFailed(o1.err.value)))
      && (o1.err.None? && o2.err.Some? ==> r.err == Some(WalkFailed(o2.err.value)))
      && (o1.err.None? && o2.err.None? ==> r.patch.list == sel)
      && (o1.err.None? && o2.err.None? && sel != [] ==> r.patch.raw == marshal(sel).raw)
      && (r.patch.Empty() <==> o1.err.Some? || o2.err.Some? || sel == [])
      && (r.patch.Empty() ==> r.patch == EmptyList && r.patch.String() == "")
      && (o1.err.None? && o2.err.None? && sel == [] ==> r.err.None?)
      && (r.err.Some? && r.err.value.MarshalFailed? <==> o1.err.None? && o2.err.None? && sel != [] && marshal(sel).err.Some?)
      && RemovalsLast(r.patch.list)
  {
    SelectedRemovalsLast(o1.ops, o2.ops);
  }

  lemma SelectedRemovalsLast(ops1: seq<JSONPatch>, ops2: seq<JSONPatch>)
    ensures RemovalsLast(Select(ops1, false) + Select(ops2, true))
  {
    var a: seq<JSONPatch>, b: seq<JSONPatch> := Select(ops1, false), Select(ops2, true);
    SelectKind(ops1, false);
    SelectKind(ops2, true);
    forall i, j | 0 <= i < j < |a + b| && (a + b)[i].operation == OpRemove
      ensures (a + b)[j].operation == OpRemove
    {
      assert (a + b)[j] == b[j - |a|];
    }
  }

  /** Every operation Select keeps is of the kind asked for. */
  lemma {:induction false} SelectKind(ops: seq<JSONPatch>, removes: bool)
    ensures forall k :: 0 <= k < |Select(ops, removes)| ==> (Select(ops, removes)[k].operation == OpRemove) == removes
  {
    if |ops| > 0 {
      SelectKind(ops[..|ops| - 1], removes);
    }
  }

  /**
   * When the original is the current value, the three-way list holds the
   * same operations as the two-way one, counted with repetition; only the
   * removals move to the end.
   */
  lemma ThreeWayAgainstCurrent(m: Value, c: Value, opts: seq<Options.Option>, marshal: Marshal)
    ensures multiset(CreateThreeWay(m, c, c, opts, marshal).patch.list) == multiset(Create(m, c, opts, marshal).patch.list)
    ensures CreateThreeWay(m, c, c, opts, marshal).patch.Empty() <==> Create(m, c, opts, marshal).patch.Empty()
  {
    var cfg := Configured(opts);
    SameWalkTwice(Walk(cfg, m, c, Root(cfg)), marshal);
  }

  lemma SameWalkTwice(o: Outcome, marshal: Marshal)
    ensures multiset(FromWalks(o, o, marshal).patch.list) == multiset(FromWalk(o, marshal).patch.list)
    ensures FromWalks(o, o, marshal).patch.Empty() <==> FromWalk(o, marshal).patch.Empty()
  {
    SelectPartition(o.ops);
    if o.err.None? && Select(o.ops, false) + Select(o.ops, true) == [] {
      assert multiset(o.ops) == multiset([]);
    }
  }

  /** A well-formed value against itself as both current and original gives the zero list. */
  lemma ThreeWaySelf(v: Value, opts: seq<Options.Option>, marshal: Marshal)
    requires WellFormed(v)
    ensures CreateThreeWay(v, v, v, opts, marshal).patch == EmptyList
  {
    var cfg := Configured(opts);
    WalkProps.WalkSelf(cfg, v, Root(cfg));
    SelectNone(Walk(cfg, v, v, Root(cfg)).ops);
  }

  lemma SelectNone(ops: seq<JSONPatch>)
    requires ops == []
    ensures Select(ops, false) + Select(ops, true) == []
  {
  }

  /** Under options that set no handler, the three-way list too stays under the walker's prefix. */
  lemma ThreeWayUnderPrefix(m: Value, c: Value, orig: Value, opts: seq<Options.Option>, marshal: Marshal)
    requires forall i :: 0 <= i < |opts| ==> !opts[i].WithHandler?
    ensures WalkProps.AllBelow(CreateThreeWay(m, c, orig, opts, marshal).patch.list, Join(Configured(opts).prefix))
  {
    var cfg := Configured(opts);
    Options.KeepsPredicateAndHandler(Defaults, opts);
    Options.PrefixAccumulates(Defaults, opts);
    WalkProps.WalkBelow(cfg, m, c, Root(cfg));
    WalkProps.WalkBelow(cfg, m, orig, Root(cfg));
    FromWalksBelow(Walk(cfg, m, c, Root(cfg)), Walk(cfg, m, orig, Root(cfg)), marshal, Join(cfg.prefix));
  }

  lemma FromWalksBelow(o1: Outcome, o2: Outcome, marshal: Marshal, root: string)
    requires WalkProps.AllBelow(o1.ops, root) && WalkProps.AllBelow(o2.ops, root)
    ensures WalkProps.AllBelow(FromWalks(o1, o2, marshal).patch.list, root)
  {
    SelectMembers(o1.ops, false);
    SelectMembers(o2.ops, true);
    var a: seq<JSONPatch>, b: seq<JSONPatch> := Select(o1.ops, false), Select(o2.ops, true);
    forall i | 0 <= i < |a| ensures WalkProps.Below(a[i], root) {
      assert a[i] in o1.ops;
    }
    forall i | 0 <= i < |b| ensures WalkProps.Below(b[i], root) {
      assert b[i] in o2.ops;
    }
    WalkProps.AllBelowAppend(a, b, root);
  }
}

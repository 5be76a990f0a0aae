/**
 * The options of options.go. Each option is a change to a walker's
 * configuration, applied in place before the walk starts; none of them
 * touches the patch list. `Configure` says what one option does to a
 * configuration, and the lemmas below say how a sequence of options
 * composes: the last predicate and the last handler win, prefixes
 * accumulate, and pattern rules take precedence over the rules already
 * present.
 */
module Options {

  import Wrappers
  import opened Pointer
  import opened Handlers
  import opened Predicates
  import opened WalkSpec
  import opened Walking

  datatype Option =
    | WithPredicate(pred: Funcs)
    | WithHandler(handler: Handler)
    | WithPrefix(prefix: seq<string>)
    | IgnoreSliceOrder
    | IgnoreSliceOrderWithPattern(slices: seq<IgnorePattern>)

  /** The segments WithPrefix appends: its argument without a leading "". */
  function PrefixTail(prefix: seq<string>): seq<string>
  {
    if |prefix| > 0 && prefix[0] == "" then prefix[1..] else prefix
  }

  /** The rule IgnoreSliceOrder adds: every slice, keyed by its elements themselves. */
  const AnySlice: IgnorePattern := IgnorePattern(Wildcard, "")

  /** What applying `o` does to a walker's configuration. */
  function Configure(cfg: Config, o: Option): Config
  {
    match o
    case WithPredicate(pr) => cfg.(pred := pr)
    case WithHandler(h) => cfg.(handler := h)
    case WithPrefix(prefix) => cfg.(prefix := cfg.prefix + PrefixTail(prefix))
    case IgnoreSliceOrder => cfg.(ignoredSlices := cfg.ignoredSlices + [AnySlice])
    case IgnoreSliceOrderWithPattern(slices) => cfg.(ignoredSlices := slices + cfg.ignoredSlices)
  }

  /** The options applied one after the other, first to last. */
  function ConfigureAll(cfg: Config, opts: seq<Option>): Config
    decreases |opts|
  {
    if |opts| == 0 then cfg else ConfigureAll(Configure(cfg, opts[0]), opts[1..])
  }

  /** Apply one option to the walker (calling the closure an Option is in Go). */
  method Apply(w: Walker, o: Option)
    modifies w`pred, w`handler, w`prefix, w`ignoredSlices
    ensures w.Cfg() == Configure(old(w.Cfg()), o)
  {
    match o {
      case WithPredicate(pr) =>
        w.pred := pr;
      case WithHandler(h) =>
        w.handler := h;
      case WithPrefix(prefix) =>
        if |prefix| > 0 && prefix[0] == "" {
          w.prefix := w.prefix + prefix[1..];
        } else {
          w.prefix := w.prefix + prefix;
        }
      case IgnoreSliceOrder =>
        w.ignoredSlices := w.ignoredSlices + [AnySlice];
      case IgnoreSliceOrderWithPattern(slices) =>
        w.ignoredSlices := slices + w.ignoredSlices;
    }
  }

  /** The loop of the entry points that applies the options in order. */
  method ApplyAll(w: Walker, opts: seq<Option>)
    modifies w`pred, w`handler, w`prefix, w`ignoredSlices
    ensures w.Cfg() == ConfigureAll(old(w.Cfg()), opts)
  {
    var i := 0;
    while i < |opts|
      invariant 0 <= i <= |opts|
      invariant ConfigureAll(w.Cfg(), opts[i..]) == ConfigureAll(old(w.Cfg()), opts)
    {
      assert opts[i..][1..] == opts[i + 1..];
      Apply(w, opts[i]);
      i := i + 1;
    }
  }

  // ---------------------------------------------------------------------------
  // How options compose

  /** Applying a + b is applying a, then b. */
  lemma {:induction false} ConfigureAllAppend(cfg: Config, a: seq<Option>, b: seq<Option>)
    ensures ConfigureAll(cfg, a + b) == ConfigureAll(ConfigureAll(cfg, a), b)
    decreases |a|
  {
    if |a| > 0 {
      assert (a + b)[0] == a[0] && (a + b)[1..] == a[1..] + b;
      ConfigureAllAppend(Configure(cfg, a[0]), a[1..], b);
    } else {
      assert a + b == b;
    }
  }

  /** Each option changes only its own field of the configuration. */
  lemma OnlyOwnField(cfg: Config, o: Option)
    ensures !o.WithPredicate? ==> Configure(cfg, o).pred == cfg.pred
    ensures !o.WithHandler? ==> Configure(cfg, o).handler == cfg.handler
    ensures !o.WithPrefix? ==> Configure(cfg, o).prefix == cfg.prefix
    ensures !(o.IgnoreSliceOrder? || o.IgnoreSliceOrderWithPattern?) ==>
      Configure(cfg, o).ignoredSlices == cfg.ignoredSlices
  {
  }

  /** Options that set neither the predicate nor the handler leave both as they were. */
  lemma {:induction false} KeepsPredicateAndHandler(cfg: Config, opts: seq<Option>)
    ensures (forall i :: 0 <= i < |opts| ==> !opts[i].WithPredicate?) ==> ConfigureAll(cfg, opts).pred == cfg.pred
    ensures (forall i :: 0 <= i < |opts| ==> !opts[i].WithHandler?) ==> ConfigureAll(cfg, opts).handler == cfg.handler
    decreases |opts|
  {
    if |opts| > 0 {
      KeepsPredicateAndHandler(Configure(cfg, opts[0]), opts[1..]);
      assert forall i :: 0 <= i < |opts[1..]| ==> opts[1..][i] == opts[i + 1];
    }
  }

  /** The last WithPredicate and the last WithHandler applied win. */
  lemma LastWins(cfg: Config, before: seq<Option>, o: Option, after: seq<Option>)
    ensures o.WithPredicate? && (forall i :: 0 <= i < |after| ==> !after[i].WithPredicate?) ==>
      ConfigureAll(cfg, before + [o] + after).pred == o.pred
    ensures o.WithHandler? && (forall i :: 0 <= i < |after| ==> !after[i].WithHandler?) ==>
      ConfigureAll(cfg, before + [o] + after).handler == o.handler
  {
    ConfigureAllAppend(cfg, before + [o], after);
    ConfigureAllAppend(cfg, before, [o]);
    KeepsPredicateAndHandler(ConfigureAll(cfg, before + [o]), after);
  }

  /** The segments a sequence of options appends to the prefix, in the order applied. */
  function PrefixSegments(opts: seq<Option>): seq<string>
    decreases |opts|
  {
    if |opts| == 0 then []
    else (if opts[0].WithPrefix? then PrefixTail(opts[0].prefix) else []) + PrefixSegments(opts[1..])
  }

  /** Repeated WithPrefix options accumulate their segments after the existing prefix. */
  lemma {:induction false} PrefixAccumulates(cfg: Config, opts: seq<Option>)
    ensures ConfigureAll(cfg, opts).prefix == cfg.prefix + PrefixSegments(opts)
    decreases |opts|
  {
    if |opts| > 0 {
      var next := Configure(cfg, opts[0]);
      var t := if opts[0].WithPrefix? then PrefixTail(opts[0].prefix) else [];
      assert next.prefix == cfg.prefix + t;
      PrefixAccumulates(next, opts[1..]);
      assert PrefixSegments(opts) == t + PrefixSegments(opts[1..]);
      AppendAssoc(cfg.prefix, t, PrefixSegments(opts[1..]));
    }
  }

  /** From the default prefix [""], a leading "" is dropped: [""] stays [""], and ["b"] or ["", "b"] give ["", "b"]. */
  lemma PrefixExamples()
    ensures Configure(Defaults, WithPrefix([""])).prefix == [""]
    ensures Configure(Defaults, WithPrefix(["b"])).prefix == ["", "b"]
    ensures Configure(Defaults, WithPrefix(["", "b"])).prefix == ["", "b"]
  {
    assert [""][1..] == [];
    assert ["", "b"][1..] == ["b"];
  }

  /** The first rule of a + b that matches: one of a's, or else one of b's shifted past a. */
  lemma FirstMatchAppend(a: seq<IgnorePattern>, b: seq<IgnorePattern>, p: JSONPointer)
    ensures FirstMatch(a, p).Some? ==> FirstMatch(a + b, p) == FirstMatch(a, p)
    ensures FirstMatch(a, p).None? && FirstMatch(b, p).Some? ==>
      FirstMatch(a + b, p) == Wrappers.Some(|a| + FirstMatch(b, p).value)
    ensures FirstMatch(a, p).None? && FirstMatch(b, p).None? ==> FirstMatch(a + b, p).None?
  {
    FirstWhereAppend(a, b, (rule: IgnorePattern) => p.Match(rule.pattern));
  }

  /** FirstWhere on a concatenation, for any test. */
  lemma {:induction false} FirstWhereAppend<T>(a: seq<T>, b: seq<T>, test: T -> bool)
    ensures FirstWhere(a, test).Some? ==> FirstWhere(a + b, test) == FirstWhere(a, test)
    ensures FirstWhere(a, test).None? && FirstWhere(b, test).Some? ==>
      FirstWhere(a + b, test) == Wrappers.Some(|a| + FirstWhere(b, test).value)
    ensures FirstWhere(a, test).None? && FirstWhere(b, test).None? ==> FirstWhere(a + b, test).None?
    decreases |a|
  {
    if |a| == 0 {
      assert a + b == b;
    } else {
      assert (a + b)[0] == a[0] && (a + b)[1..] == a[1..] + b;
      FirstWhereAppend(a[1..], b, test);
    }
  }

  /**
   * IgnoreSliceOrderWithPattern puts its rules in front: when one of them
   * matches a pointer, the first such rule decides, whatever rules were
   * there before; otherwise the earlier rules decide as before.
   */
  lemma PatternPrecedence(cfg: Config, slices: seq<IgnorePattern>, p: JSONPointer)
    ensures FirstMatch(slices, p).Some? ==>
      FirstMatch(Configure(cfg, IgnoreSliceOrderWithPattern(slices)).ignoredSlices, p) == FirstMatch(slices, p)
    ensures FirstMatch(slices, p).None? && FirstMatch(cfg.ignoredSlices, p).Some? ==>
      FirstMatch(Configure(cfg, IgnoreSliceOrderWithPattern(slices)).ignoredSlices, p)
        == Wrappers.Some(|slices| + FirstMatch(cfg.ignoredSlices, p).value)
  {
    FirstMatchAppend(slices, cfg.ignoredSlices, p);
  }

  /**
   * IgnoreSliceOrder makes every slice order-insensitive: its rule "*" goes
   * last and matches every pointer, so it decides only where no earlier rule
   * matches, and then with an empty JSON field.
   */
  lemma IgnoreSliceOrderFallback(cfg: Config, p: JSONPointer)
    ensures FirstMatch(cfg.ignoredSlices, p).Some? ==>
      FirstMatch(Configure(cfg, IgnoreSliceOrder).ignoredSlices, p) == FirstMatch(cfg.ignoredSlices, p)
    ensures FirstMatch(cfg.ignoredSlices, p).None? ==>
      FirstMatch(Configure(cfg, IgnoreSliceOrder).ignoredSlices, p) == Wrappers.Some(|cfg.ignoredSlices|)
  {
    MatchAll(p);
    assert FirstMatch([AnySlice], p) == Wrappers.Some(0);
    FirstMatchAppend(cfg.ignoredSlices, [AnySlice], p);
  }
}

/**
 * The walker of walker.go: an object whose patch list grows as it walks two
 * values side by side. Every method is proved to leave the list as it found
 * it followed by exactly what WalkSpec says that step emits, and to return
 * the error WalkSpec says it stops with.
 */
module Walking {

  import opened Wrappers
  import opened Strconv
  import opened Pointer
  import opened Values
  import opened Handlers
  import opened Predicates
  import opened WalkSpec

  class Walker {
    var pred: Funcs
    var handler: Handler
    var prefix: seq<string>
    var patchList: seq<JSONPatch>
    var ignoredSlices: seq<IgnorePattern>

    /** Everything but the patch list, which no walk changes. */
    function Cfg(): Config
      reads this`pred, this`handler, this`prefix, this`ignoredSlices
    {
      Config(pred, handler, prefix, ignoredSlices)
    }

    /** The walker CreateJSONPatch starts from: default handler, `Funcs{}`, prefix [""]. */
    constructor ()
      ensures Cfg() == Defaults && patchList == []
    {
      pred := AcceptAll;
      handler := DefaultHandler;
      prefix := [""];
      patchList := [];
      ignoredSlices := [];
    }

    // -------------------------------------------------------------------------
    // add, replace, remove

    method Add(p: JSONPointer, modified: Value) returns (ok: bool)
      modifies this`patchList
      ensures ok == pred.Add(p, modified)
      ensures patchList == old(patchList) + (if ok then handler.Add(p, modified) else [])
    {
      if !pred.Add(p, modified) {
        return false;
      }
      patchList := patchList + handler.Add(p, modified);
      return true;
    }

    method Replace(p: JSONPointer, modified: Value, current: Value) returns (ok: bool)
      modifies this`patchList
      ensures ok == pred.Replace(p, modified, current)
      ensures patchList == old(patchList) + (if ok then handler.Replace(p, modified, current) else [])
    {
      if !pred.Replace(p, modified, current) {
        return false;
      }
      patchList := patchList + handler.Replace(p, modified, current);
      return true;
    }

    method Remove(p: JSONPointer, current: Value) returns (ok: bool)
      modifies this`patchList
      ensures ok == pred.Remove(p, current)
      ensures patchList == old(patchList) + (if ok then handler.Remove(p, current) else [])
    {
      if !pred.Remove(p, current) {
        return false;
      }
      patchList := patchList + handler.Remove(p, current);
      return true;
    }

    // -------------------------------------------------------------------------
    // walk

    method Walk(m: Value, c: Value, p: JSONPointer) returns (err: Option<Error>)
      modifies this`patchList
      ensures Outcome(patchList, err) == Prepend(old(patchList), WalkSpec.Walk(Cfg(), m, c, p))
      decreases m, 3
    {
      if KindOf(m) != KindOf(c) {
        return Some(KindMismatch(p.String(), KindOf(m), KindOf(c)));
      }
      match m {
        case VStruct(_) =>
          err := ProcessStruct(m, c, p);
        case VPtr(_) =>
          err := ProcessPtr(m, c, p);
        case VSlice(_, _) =>
          err := ProcessSlice(m, c, p);
        case VMap(_, _) =>
          err := ProcessMap(m, c, p);
        case VIface(_) =>
          err := ProcessInterface(m, c, p);
        case VString(s) =>
          if s != c.s {
            if s == "" {
              var _ := Remove(p, VString(c.s));
            } else if c.s == "" {
              var _ := Add(p, VString(s));
            } else {
              var _ := Replace(p, VString(s), VString(c.s));
            }
          }
          return None;
        case VInt(_, i) =>
          if i != c.i {
            var _ := Replace(p, VInt(Int64, i), VInt(Int64, c.i));
          }
          return None;
        case VUint(_, u) =>
          if u != c.u {
            var _ := Replace(p, VUint(Uint64, u), VUint(Uint64, c.u));
          }
          return None;
        case VBool(b) =>
          if b != c.b {
            var _ := Replace(p, VBool(b), VBool(c.b));
          }
          return None;
        case VFloat(_, f) =>
          if f != c.f {
            var _ := Replace(p, VFloat(Float64, f), VFloat(Float64, c.f));
          }
          return None;
        case VInvalid =>
          return None;
        case VOther(_) =>
          return Some(UnsupportedKind(KindOf(m), p.String()));
      }
    }

    method ProcessInterface(m: Value, c: Value, p: JSONPointer) returns (err: Option<Error>)
      requires m.VIface? && c.VIface?
      modifies this`patchList
      ensures Outcome(patchList, err) == Prepend(old(patchList), WalkSpec.ProcessInterface(Cfg(), m, c, p))
      decreases m, 2
    {
      err := Walk(m.inner, c.inner, p);
    }

    method ProcessPtr(m: Value, c: Value, p: JSONPointer) returns (err: Option<Error>)
      requires m.VPtr? && c.VPtr?
      modifies this`patchList
      ensures Outcome(patchList, err) == Prepend(old(patchList), WalkSpec.ProcessPtr(Cfg(), m, c, p))
      decreases m, 2
    {
      if m.target.Some? && c.target.Some? {
        err := Walk(m.target.value, c.target.value, p);
        return;
      } else if m.target.Some? {
        var _ := Add(p, Interface(m.target.value));
      } else if c.target.Some? {
        var _ := Remove(p, Interface(c.target.value));
      }
      return None;
    }

    method ProcessStruct(m: Value, c: Value, p: JSONPointer) returns (err: Option<Error>)
      requires m.VStruct? && c.VStruct?
      modifies this`patchList
      ensures Outcome(patchList, err) == Prepend(old(patchList), WalkSpec.ProcessStruct(Cfg(), m, c, p))
      decreases m, 2
    {
      if !pred.Replace(p, m, c) {
        return None;
      }
      var j := 0;
      while j < |m.fields|
        invariant 0 <= j <= |m.fields|
        invariant Prepend(patchList, FieldsFrom(Cfg(), m, c, p, j)) == Prepend(old(patchList), FieldsFrom(Cfg(), m, c, p, 0))
        decreases |m.fields| - j
      {
        var field := m.fields[j];
        if !Walked(field) {
          j := j + 1;
          continue;
        }
        if j >= |c.fields| {
          return Some(MissingField(p.String(), j));
        }
        ghost var cfg := Cfg();
        PrependThen(patchList, WalkSpec.Walk(cfg, field.value, c.fields[j].value, p.Add(field.tagName)),
                    FieldsFrom(cfg, m, c, p, j + 1));
        err := Walk(field.value, c.fields[j].value, p.Add(field.tagName));
        if err.Some? {
          return;
        }
        j := j + 1;
      }
      return None;
    }

    method ProcessMap(m: Value, c: Value, p: JSONPointer) returns (err: Option<Error>)
      requires m.VMap? && c.VMap?
      modifies this`patchList
      ensures Outcome(patchList, err) == Prepend(old(patchList), WalkSpec.ProcessMap(Cfg(), m, c, p))
      decreases m, 2
    {
      if |m.entries| > 0 && |c.entries| == 0 {
        var _ := Add(p, m);
        return None;
      }
      ghost var cfg := Cfg();
      PrependThen(patchList, ModifiedEntriesFrom(cfg, m, c, p, 0), CurrentEntriesFrom(cfg, m, c, p, 0));
      err := WalkModifiedEntries(m, c, p);
      if err.Some? {
        return;
      }
      err := RemoveMissingEntries(m, c, p);
    }

    /** processMap's loop over the modified map. */
    method WalkModifiedEntries(m: Value, c: Value, p: JSONPointer) returns (err: Option<Error>)
      requires m.VMap? && c.VMap?
      modifies this`patchList
      ensures Outcome(patchList, err) == Prepend(old(patchList), ModifiedEntriesFrom(Cfg(), m, c, p, 0))
      decreases m, 1
    {
      var j := 0;
      while j < |m.entries|
        invariant 0 <= j <= |m.entries|
        invariant Prepend(patchList, ModifiedEntriesFrom(Cfg(), m, c, p, j))
               == Prepend(old(patchList), ModifiedEntriesFrom(Cfg(), m, c, p, 0))
        decreases |m.entries| - j
      {
        if m.keyKind != KString {
          return Some(UnsupportedKeyKind(m.keyKind, p.String()));
        }
        if c.keyKind != KString {
          return Some(MapKeyTypeMismatch(p.String()));
        }
        ghost var cfg := Cfg();
        var key := m.entries[j].key;
        var val2 := Lookup(c.entries, key);
        if val2.None? {
          assert ModifiedEntriesFrom(cfg, m, c, p, j)
              == Prepend(AddOps(cfg, p.Add(key), Interface(m.entries[j].value)), ModifiedEntriesFrom(cfg, m, c, p, j + 1));
          PrependPrepend(patchList, AddOps(cfg, p.Add(key), Interface(m.entries[j].value)), ModifiedEntriesFrom(cfg, m, c, p, j + 1));
          var _ := Add(p.Add(key), Interface(m.entries[j].value));
        } else {
          assert ModifiedEntriesFrom(cfg, m, c, p, j)
              == Then(WalkSpec.Walk(cfg, m.entries[j].value, val2.value, p.Add(key)), ModifiedEntriesFrom(cfg, m, c, p, j + 1));
          PrependThen(patchList, WalkSpec.Walk(cfg, m.entries[j].value, val2.value, p.Add(key)), ModifiedEntriesFrom(cfg, m, c, p, j + 1));
          err := Walk(m.entries[j].value, val2.value, p.Add(key));
          if err.Some? {
            return;
          }
        }
        j := j + 1;
      }
      return None;
    }

    /** processMap's loop over the current map. */
    method RemoveMissingEntries(m: Value, c: Value, p: JSONPointer) returns (err: Option<Error>)
      requires m.VMap? && c.VMap?
      modifies this`patchList
      ensures Outcome(patchList, err) == Prepend(old(patchList), CurrentEntriesFrom(Cfg(), m, c, p, 0))
    {
      var j := 0;
      while j < |c.entries|
        invariant 0 <= j <= |c.entries|
        invariant Prepend(patchList, CurrentEntriesFrom(Cfg(), m, c, p, j))
               == Prepend(old(patchList), CurrentEntriesFrom(Cfg(), m, c, p, 0))
        decreases |c.entries| - j
      {
        if c.keyKind != KString {
          return Some(UnsupportedKeyKind(c.keyKind, p.String()));
        }
        if m.keyKind != KString {
          return Some(MapKeyTypeMismatch(p.String()));
        }
        ghost var cfg := Cfg();
        var key := c.entries[j].key;
        if Lookup(m.entries, key).None? {
          assert CurrentEntriesFrom(cfg, m, c, p, j)
              == Prepend(RemoveOps(cfg, p.Add(key), Interface(c.entries[j].value)), CurrentEntriesFrom(cfg, m, c, p, j + 1));
          PrependPrepend(patchList, RemoveOps(cfg, p.Add(key), Interface(c.entries[j].value)), CurrentEntriesFrom(cfg, m, c, p, j + 1));
          var _ := Remove(p.Add(key), Interface(c.entries[j].value));
        } else {
          assert CurrentEntriesFrom(cfg, m, c, p, j) == CurrentEntriesFrom(cfg, m, c, p, j + 1);
        }
        j := j + 1;
      }
      return None;
    }

    method ProcessSlice(m: Value, c: Value, p: JSONPointer) returns (err: Option<Error>)
      requires m.VSlice? && c.VSlice?
      modifies this`patchList
      ensures Outcome(patchList, err) == Prepend(old(patchList), WalkSpec.ProcessSlice(Cfg(), m, c, p))
      decreases m, 2
    {
      if !pred.Replace(p, m, c) {
        return None;
      }
      if |m.items| > 0 && |c.items| == 0 {
        var _ := Add(p, m);
        return None;
      }
      var ignoreSliceOrder := false;
      var patchSliceJSONField := "";
      var k := 0;
      while k < |ignoredSlices|
        invariant 0 <= k <= |ignoredSlices|
        invariant forall i :: 0 <= i < k ==> !p.Match(ignoredSlices[i].pattern)
        invariant !ignoreSliceOrder
        decreases |ignoredSlices| - k
      {
        if p.Match(ignoredSlices[k].pattern) {
          ignoreSliceOrder := true;
          patchSliceJSONField := ignoredSlices[k].jsonField;
          break;
        }
        k := k + 1;
      }
      FirstMatchSpec(ignoredSlices, p);
      if ignoreSliceOrder {
        assert FirstMatch(ignoredSlices, p) == Some(k);
        var fieldName := JsonFieldNameToFieldName(m.elemType, patchSliceJSONField);
        err := CompareUnordered(m, c, p, fieldName);
      } else {
        err := ComparePositional(m, c, p);
      }
    }

    /** The positional branch of processSlice. */
    method ComparePositional(m: Value, c: Value, p: JSONPointer) returns (err: Option<Error>)
      requires m.VSlice? && c.VSlice?
      modifies this`patchList
      ensures Outcome(patchList, err) == Prepend(old(patchList), Positional(Cfg(), m, c, p))
      decreases m, 1
    {
      ghost var cfg := Cfg();
      PrependThen(patchList, PairsFrom(cfg, m, c, p, 0),
                  Done(if |m.items| > |c.items| then AppendFrom(cfg, m, p, |c.items|, |c.items|)
                       else if |m.items| < |c.items| then RemoveDown(cfg, c, p, |m.items|, |c.items|)
                       else []));
      err := WalkPairs(m, c, p);
      if err.Some? {
        return;
      }
      if |m.items| > |c.items| {
        AddTrailing(m, p, |c.items|);
      } else if |m.items| < |c.items| {
        RemoveTrailing(c, p, |m.items|);
      }
    }

    /** Walk the elements both slices have, index by index. */
    method WalkPairs(m: Value, c: Value, p: JSONPointer) returns (err: Option<Error>)
      requires m.VSlice? && c.VSlice?
      modifies this`patchList
      ensures Outcome(patchList, err) == Prepend(old(patchList), PairsFrom(Cfg(), m, c, p, 0))
      decreases m, 0
    {
      var j := 0;
      while j < |m.items| && j < |c.items|
        invariant 0 <= j
        invariant Prepend(patchList, PairsFrom(Cfg(), m, c, p, j)) == Prepend(old(patchList), PairsFrom(Cfg(), m, c, p, 0))
        decreases |m.items| - j
      {
        ghost var cfg := Cfg();
        var q := p.Add(Itoa(j));
        assert PairsFrom(cfg, m, c, p, j) == Then(WalkSpec.Walk(cfg, m.items[j], c.items[j], q), PairsFrom(cfg, m, c, p, j + 1));
        PrependThen(patchList, WalkSpec.Walk(cfg, m.items[j], c.items[j], q), PairsFrom(cfg, m, c, p, j + 1));
        err := Walk(m.items[j], c.items[j], q);
        if err.Some? {
          return;
        }
        j := j + 1;
      }
      return None;
    }

    /** Add the modified elements from index `from` on, at consecutive indices from `from`. */
    method AddTrailing(m: Value, p: JSONPointer, from: nat)
      requires m.VSlice? && from <= |m.items|
      modifies this`patchList
      ensures patchList == old(patchList) + AppendFrom(Cfg(), m, p, from, from)
    {
      var idx: nat := from;
      var j := from;
      while j < |m.items|
        invariant from <= j <= |m.items|
        invariant patchList + AppendFrom(Cfg(), m, p, j, idx) == old(patchList) + AppendFrom(Cfg(), m, p, from, from)
        decreases |m.items| - j
      {
        ghost var cfg := Cfg();
        var q := p.Add(Itoa(idx));
        var v := Interface(m.items[j]);
        assert AppendFrom(cfg, m, p, j, idx)
            == if cfg.pred.Add(q, v) then cfg.handler.Add(q, v) + AppendFrom(cfg, m, p, j + 1, idx + 1)
               else AppendFrom(cfg, m, p, j + 1, idx);
        AppendAssoc(patchList, cfg.handler.Add(q, v), AppendFrom(cfg, m, p, j + 1, idx + 1));
        var ok := Add(q, v);
        if ok {
          idx := idx + 1;
        }
        j := j + 1;
      }
    }

    /** Remove the current elements from the last one down to index `lo`. */
    method RemoveTrailing(c: Value, p: JSONPointer, lo: nat)
      requires c.VSlice? && lo <= |c.items|
      modifies this`patchList
      ensures patchList == old(patchList) + RemoveDown(Cfg(), c, p, lo, |c.items|)
    {
      var i: int := |c.items| - 1;
      while i >= lo
        invariant lo - 1 <= i < |c.items|
        invariant patchList + RemoveDown(Cfg(), c, p, lo, i + 1) == old(patchList) + RemoveDown(Cfg(), c, p, lo, |c.items|)
        decreases i
      {
        ghost var cfg := Cfg();
        var q := p.Add(Itoa(i));
        assert RemoveDown(cfg, c, p, lo, i + 1) == RemoveOps(cfg, q, Interface(c.items[i])) + RemoveDown(cfg, c, p, lo, i);
        AppendAssoc(patchList, RemoveOps(cfg, q, Interface(c.items[i])), RemoveDown(cfg, c, p, lo, i));
        var _ := Remove(q, Interface(c.items[i]));
        i := i - 1;
      }
    }

    /** The order-insensitive branch of processSlice, with elements keyed by the field `fieldName`. */
    method CompareUnordered(m: Value, c: Value, p: JSONPointer, fieldName: string) returns (err: Option<Error>)
      requires m.VSlice? && c.VSlice?
      modifies this`patchList
      ensures Outcome(patchList, err) == Prepend(old(patchList), Unordered(Cfg(), m, c, p, fieldName))
      decreases m, 1
    {
      var idxMap1, dup1 := IndexByKey(m.items, fieldName);
      if dup1.Some? {
        return Some(DuplicateMatchValue(p.String(), dup1.value));
      }
      var idxMap2, dup2 := IndexByKey(c.items, fieldName);
      if dup2.Some? {
        return Some(DuplicateMatchValue(p.String(), dup2.value));
      }
      IndexMapCorrect(Keys(c.items, fieldName));
      LeftoversCorrect(Keys(c.items, fieldName), idxMap1, 0);
      ghost var cfg := Cfg();
      PrependThen(patchList, MatchFrom(cfg, m, c, p, fieldName, idxMap2, 0, |c.items|),
                  Done(RemoveDescending(cfg, c, p, Leftovers(Keys(c.items, fieldName), idxMap1, 0))));
      err := MatchElements(m, c, p, fieldName, idxMap2);
      if err.Some? {
        return;
      }
      var deleted := CollectDeleted(c, fieldName, idxMap1);
      RemoveDeleted(c, p, deleted);
    }

    /**
     * The idxMap loops: key every element and map the key to its index,
     * stopping at the first key seen twice.
     */
    method IndexByKey(items: seq<Value>, fieldName: string) returns (idxMap: map<string, nat>, dup: Option<string>)
      ensures dup.None? ==> IndexMap(Keys(items, fieldName)) == Indexed(idxMap)
      ensures dup.Some? ==> IndexMap(Keys(items, fieldName)) == Duplicate(dup.value)
    {
      ghost var keys := Keys(items, fieldName);
      idxMap := map[];
      var j := 0;
      while j < |items|
        invariant 0 <= j <= |items|
        invariant IndexMap(keys[..j]) == Indexed(idxMap)
        decreases |items| - j
      {
        var fieldValue := Extract(items[j], fieldName);
        assert keys[..j + 1][..j] == keys[..j];
        if fieldValue in idxMap {
          IndexMapDuplicateStays(keys, j + 1);
          return idxMap, Some(fieldValue);
        }
        idxMap := idxMap[fieldValue := j];
        j := j + 1;
      }
      assert keys[..j] == keys;
      return idxMap, None;
    }

    /**
     * The loop over idxMap1, visited in index order: walk an element whose key
     * the current slice has at the current element's index; add a new one at
     * idxMax, which advances only on an accepted add.
     */
    method MatchElements(m: Value, c: Value, p: JSONPointer, fieldName: string, idxMap2: map<string, nat>)
      returns (err: Option<Error>)
      requires m.VSlice? && c.VSlice?
      requires forall k :: k in idxMap2 ==> idxMap2[k] < |c.items|
      modifies this`patchList
      ensures Outcome(patchList, err) == Prepend(old(patchList), MatchFrom(Cfg(), m, c, p, fieldName, idxMap2, 0, |c.items|))
      decreases m, 0
    {
      var idxMax: nat := |c.items|;
      var j := 0;
      while j < |m.items|
        invariant 0 <= j <= |m.items|
        invariant Prepend(patchList, MatchFrom(Cfg(), m, c, p, fieldName, idxMap2, j, idxMax))
               == Prepend(old(patchList), MatchFrom(Cfg(), m, c, p, fieldName, idxMap2, 0, |c.items|))
        decreases |m.items| - j
      {
        ghost var cfg := Cfg();
        var k := Extract(m.items[j], fieldName);
        if k in idxMap2 {
          var idx2 := idxMap2[k];
          var q := p.Add(Itoa(idx2));
          ghost var here := WalkSpec.Walk(cfg, m.items[j], c.items[idx2], q);
          ghost var rest := MatchFrom(cfg, m, c, p, fieldName, idxMap2, j + 1, idxMax);
          assert MatchFrom(cfg, m, c, p, fieldName, idxMap2, j, idxMax) == Then(here, rest);
          PrependThen(patchList, here, rest);
          err := Walk(m.items[j], c.items[idx2], q);
          if err.Some? {
            return;
          }
        } else {
          var q := p.Add(Itoa(idxMax));
          var v := Interface(m.items[j]);
          ghost var added := MatchFrom(cfg, m, c, p, fieldName, idxMap2, j + 1, idxMax + 1);
          ghost var skipped := MatchFrom(cfg, m, c, p, fieldName, idxMap2, j + 1, idxMax);
          assert MatchFrom(cfg, m, c, p, fieldName, idxMap2, j, idxMax)
              == if cfg.pred.Add(q, v) then Prepend(cfg.handler.Add(q, v), added) else skipped;
          PrependPrepend(patchList, cfg.handler.Add(q, v), added);
          var ok := Add(q, v);
          if ok {
            idxMax := idxMax + 1;
          }
        }
        j := j + 1;
      }
      return None;
    }

    /** The `deleted` loop over idxMap2, visited in index order, so the list comes out ascending. */
    method CollectDeleted(c: Value, fieldName: string, idxMap1: map<string, nat>) returns (deleted: seq<nat>)
      requires c.VSlice?
      ensures deleted == Leftovers(Keys(c.items, fieldName), idxMap1, 0)
    {
      ghost var keys2 := Keys(c.items, fieldName);
      deleted := [];
      var j := 0;
      while j < |c.items|
        invariant 0 <= j <= |c.items|
        invariant deleted + Leftovers(keys2, idxMap1, j) == Leftovers(keys2, idxMap1, 0)
        decreases |c.items| - j
      {
        var k := Extract(c.items[j], fieldName);
        assert keys2[j] == k;
        ghost var rest := Leftovers(keys2, idxMap1, j + 1);
        if k !in idxMap1 {
          assert Leftovers(keys2, idxMap1, j) == [j] + rest;
          AppendAssoc(deleted, [j], rest);
          deleted := deleted + [j];
        } else {
          assert Leftovers(keys2, idxMap1, j) == rest;
        }
        j := j + 1;
      }
    }

    /** Remove the elements at the listed indices, from the last listed one back to the first. */
    method RemoveDeleted(c: Value, p: JSONPointer, deleted: seq<nat>)
      requires c.VSlice? && forall i :: 0 <= i < |deleted| ==> deleted[i] < |c.items|
      modifies this`patchList
      ensures patchList == old(patchList) + RemoveDescending(Cfg(), c, p, deleted)
    {
      var n: int := |deleted| - 1;
      assert deleted[..n + 1] == deleted;
      while n >= 0
        invariant -1 <= n < |deleted|
        invariant patchList + RemoveDescending(Cfg(), c, p, deleted[..n + 1])
               == old(patchList) + RemoveDescending(Cfg(), c, p, deleted)
        decreases n
      {
        var idx2 := deleted[n];
        assert deleted[..n + 1][..n] == deleted[..n];
        ghost var cfg := Cfg();
        var q := p.Add(Itoa(idx2));
        assert RemoveDescending(cfg, c, p, deleted[..n + 1])
            == RemoveOps(cfg, q, Interface(c.items[idx2])) + RemoveDescending(cfg, c, p, deleted[..n]);
        AppendAssoc(patchList, RemoveOps(cfg, q, Interface(c.items[idx2])), RemoveDescending(cfg, c, p, deleted[..n]));
        var _ := Remove(q, Interface(c.items[idx2]));
        n := n - 1;
      }
    }
  }
}

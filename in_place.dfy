/** The nullifier as the repository writes it: history entries are objects
    on the heap, the shallow copy `{...state}` shares them, and
    `removeFields` assigns to one of them in place, so the caller's history
    and the forwarded one both show the change. */
module InPlace {
  import opened JsValues
  import opened Extenders

  /** One entry of `past` or `future`: an object whose fields can be
      assigned. */
  class Entry {
    var fields: Object

    constructor (fields: Object)
      ensures this.fields == fields
    {
      this.fields := fields;
    }
  }

  /** `removeFields(target)`: `null` stands for the `undefined` that the
      guard returns early on; otherwise each name in turn is assigned
      `nullValue` on the entry itself. */
  method RemoveFields(target: Entry?, fields: seq<string>, nullValue: Value)
    modifies target
    ensures target != null ==> target.fields == Cleared(old(target.fields), fields, nullValue)
  {
    if target == null {
      return;
    }
    for i := 0 to |fields|
      invariant target.fields == Cleared(old(target.fields), fields[..i], nullValue)
    {
      assert fields[..i + 1][..i] == fields[..i];
      target.fields := target.fields[fields[i] := nullValue];
    }
    assert fields[..|fields|] == fields;
  }

  /** A history whose `past` and `future` hold references to entries; its
      other keys (`present`, `actionType`, ...) are plain values. */
  datatype SharedHistory = SharedHistory(past: seq<Entry>, future: seq<Entry>, others: Object)

  function Entries(h: SharedHistory): set<Entry> {
    set e | e in h.past + h.future
  }

  /** No entry occurs twice in `past` and `future` together. */
  predicate NoSharedEntries(h: SharedHistory) {
    && (forall i, j :: 0 <= i < j < |h.past| ==> h.past[i] != h.past[j])
    && (forall i, j :: 0 <= i < j < |h.future| ==> h.future[i] != h.future[j])
    && (forall i, j :: 0 <= i < |h.past| && 0 <= j < |h.future| ==> h.past[i] != h.future[j])
  }

  /** The entries' current contents, as values. */
  function Values(es: seq<Entry>): (vs: seq<Value>)
    reads set e | e in es
    ensures |vs| == |es|
    ensures forall i :: 0 <= i < |es| ==> vs[i] == Obj(es[i].fields)
    decreases |es|
  {
    if |es| == 0 then []
    else Values(es[..|es| - 1]) + [Obj(es[|es| - 1].fields)]
  }

  /** The history as a plain value, read off the heap now. */
  function Snapshot(h: SharedHistory): Object
    reads Entries(h)
  {
    h.others["past" := Arr(Values(h.past))]["future" := Arr(Values(h.future))]
  }

  /** The history as a value with every entry left out: the keys, and the
      lengths of `past` and `future`, are all the nullifier's choice of
      target reads. */
  function Shape(h: SharedHistory): Object {
    h.others["past" := Arr(seq(|h.past|, i => Undefined))]["future" := Arr(seq(|h.future|, i => Undefined))]
  }

  /** The entry the nullifier passes to `removeFields`, or `null` for
      `undefined`: the element `NullifyTarget` selects. */
  function Target(indexing: PastIndexing, config: Config, h: SharedHistory, a: Action): (t: Entry?)
    ensures t != null ==> t in Entries(h)
    ensures var (key, i) := NullifyTarget(indexing, config, Shape(h), a);
            var es := if key == "future" then h.future else h.past;
            t == if i.At? && 0 <= i.n < |es| then es[i.n] else null
  {
    var target := NullifyTarget(indexing, config, Shape(h), a);
    var es := if target.0 == "future" then h.future else h.past;
    if target.1.At? && 0 <= target.1.n < |es| then es[target.1.n] else null
  }

  /** Where the target sits: at `kp` in `past` and at `kf` in `future`,
      the two indexes the nullifier reads (one of them `NaN`); when no entry
      is shared, it sits nowhere else. */
  lemma TargetPosition(indexing: PastIndexing, config: Config, h: SharedHistory, a: Action, kp: Index, kf: Index)
    requires kp == if a.actionType == config.redoType then NaN else PastIndex(indexing, Shape(h))
    requires kf == if a.actionType == config.redoType then At(0) else NaN
    ensures kp.At? && 0 <= kp.n < |h.past| ==> h.past[kp.n] == Target(indexing, config, h, a)
    ensures kf.At? && 0 <= kf.n < |h.future| ==> h.future[kf.n] == Target(indexing, config, h, a)
    ensures NoSharedEntries(h) ==>
              forall j :: 0 <= j < |h.past| && h.past[j] == Target(indexing, config, h, a) ==> kp == At(j)
    ensures NoSharedEntries(h) ==>
              forall j :: 0 <= j < |h.future| && h.future[j] == Target(indexing, config, h, a) ==> kf == At(j)
  {
  }

  /** A history value whose `past` has as many elements as `h.past` reads
      the same past-side index as `h`'s shape. */
  lemma PastIndexOnArrays(indexing: PastIndexing, h: SharedHistory, vp: seq<Value>, vf: seq<Value>)
    requires |vp| == |h.past|
    ensures PastIndex(indexing, h.others["past" := Arr(vp)]["future" := Arr(vf)]) == PastIndex(indexing, Shape(h))
  {
    var s := h.others["past" := Arr(vp)]["future" := Arr(vf)];
    assert Get(s, "length") == Get(Shape(h), "length");
  }

  /** The value transform on a history whose `past` and `future` are arrays
      of the given values. */
  lemma NullifyOnArrays(fields: seq<string>, nullValue: Value, indexing: PastIndexing, config: Config,
                        h: SharedHistory, vp: seq<Value>, vf: seq<Value>, a: Action)
    requires |vp| == |h.past|
    ensures var s := h.others["past" := Arr(vp)]["future" := Arr(vf)];
            NullifyTransform(fields, nullValue, indexing, config, s, a) ==
              if a.actionType == config.redoType
              then Returned(h.others["past" := Arr(vp)]["future" := Arr(ClearElement(vf, At(0), fields, nullValue))])
              else Returned(h.others["past" := Arr(ClearElement(vp, NullifyTarget(indexing, config, Shape(h), a).1,
                                                                fields, nullValue))]
                                    ["future" := Arr(vf)])
  {
    var s := h.others["past" := Arr(vp)]["future" := Arr(vf)];
    if a.actionType == config.redoType {
      var cf := ClearElement(vf, At(0), fields, nullValue);
      assert Get(s, "future") == Arr(vf);
      assert s["future" := Arr(cf)] == h.others["past" := Arr(vp)]["future" := Arr(cf)];
    } else {
      PastIndexOnArrays(indexing, h, vp, vf);
      var cp := ClearElement(vp, PastIndex(indexing, Shape(h)), fields, nullValue);
      assert Get(s, "past") == Arr(vp);
      assert s["past" := Arr(cp)] == h.others["past" := Arr(cp)]["future" := Arr(vf)];
    }
  }

  /** The entries' values after `removeFields` ran on `target`, which sits
      at index `k` if anywhere. */
  lemma ValuesAfterClear(es: seq<Entry>, vs: seq<Value>, target: Entry?, k: Index,
                         fields: seq<string>, nullValue: Value)
    requires |vs| == |es|
    requires k.At? && 0 <= k.n < |es| ==> es[k.n] == target
    requires forall j :: 0 <= j < |es| && es[j] != target ==> vs[j] == Obj(es[j].fields)
    requires forall j :: 0 <= j < |es| && es[j] == target ==>
               k == At(j) && vs[j].Obj? && es[j].fields == Cleared(vs[j].props, fields, nullValue)
    ensures Values(es) == ClearElement(vs, k, fields, nullValue)
  {
    var ws := ClearElement(vs, k, fields, nullValue);
    forall j | 0 <= j < |es| ensures Values(es)[j] == ws[j] {
      if es[j] == target {
        assert ws[j] == ClearedEntry(vs[j], fields, nullValue);
      }
    }
  }

  /** Stage 3 of `nullifyFields` up to the call of the next reducer: the
      forwarded history is a shallow copy, holding the very entries the
      caller's history holds; the targeted entry is cleared in place and
      every other entry keeps its fields. When no entry is shared, the
      result is what the value model's transform computes. */
  method NullifyInPlace(fields: seq<string>, nullValue: Value, indexing: PastIndexing,
                        config: Config, state: SharedHistory, a: Action)
    returns (forwarded: SharedHistory)
    modifies Entries(state)
    ensures forwarded == state
    ensures forall e :: e in Entries(state) ==>
              e.fields == if e == Target(indexing, config, state, a)
                          then Cleared(old(e.fields), fields, nullValue)
                          else old(e.fields)
    ensures NoSharedEntries(state) ==>
              NullifyTransform(fields, nullValue, indexing, config, old(Snapshot(state)), a)
              == Returned(Snapshot(forwarded))
  {
    ghost var vp := Values(state.past);
    ghost var vf := Values(state.future);
    ghost var redo := a.actionType == config.redoType;
    ghost var kp := if redo then NaN else PastIndex(indexing, Shape(state));
    ghost var kf := if redo then At(0) else NaN;
    forwarded := state;
    var target := Target(indexing, config, state, a);
    TargetPosition(indexing, config, state, a, kp, kf);
    RemoveFields(target, fields, nullValue);

    if NoSharedEntries(state) {
      ValuesAfterClear(state.past, vp, target, kp, fields, nullValue);
      ValuesAfterClear(state.future, vf, target, kf, fields, nullValue);
      NullifyOnArrays(fields, nullValue, indexing, config, state, vp, vf, a);
    }
  }
}

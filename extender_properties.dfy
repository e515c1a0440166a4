/** What each field extender promises about the history it forwards. */
module ExtenderProperties {
  import opened JsValues
  import opened Extenders

  // ---------------------------------------------------------------------
  // Every extender: transform, then forward once with the same action

  /** Only the nullifier can throw before forwarding; every other
      extender always reaches its next reducer. */
  lemma OnlyNullifierThrows(e: Extender, config: Config, h: Object, a: Action)
    ensures !e.Nullify? ==> Transform(e, config, h, a).Returned?
    ensures Transform(e, config, h, a).Threw? ==>
              e.Nullify? && Transform(e, config, h, a).error == TypeError(NullifyTarget(e.pastIndexing, config, h, a).0)
  {
  }

  // ---------------------------------------------------------------------
  // actionTypeField

  /** With no predicate supplied, every action's type is recorded. */
  lemma DefaultActionTypeRecordsEveryAction(config: Config, h: Object, a: Action)
    ensures Transform(ActionTypeField(None), config, h, a).Returned?
    ensures Get(Transform(ActionTypeField(None), config, h, a).history, "actionType") == Str(a.actionType)
  {
  }

  // ---------------------------------------------------------------------
  // flattenState

  /** The `present` field survives flattening unless the present value has
      a `present` property of its own, which then replaces it. */
  lemma FlattenPresentField(h: Object)
    requires "present" in h
    ensures "present" in FlattenTransform(h)
    ensures "present" !in Spread(h["present"]) ==> FlattenTransform(h)["present"] == h["present"]
    ensures "present" in Spread(h["present"]) ==>
              FlattenTransform(h)["present"] == Spread(h["present"])["present"]
  {
  }

  /** Flattening a flattened history changes nothing more, provided the
      present value does not carry its own `present` property. */
  lemma FlattenIdempotent(h: Object)
    requires "present" !in Spread(Get(h, "present"))
    ensures FlattenTransform(FlattenTransform(h)) == FlattenTransform(h)
  {
    var r := FlattenTransform(h);
    assert Get(r, "present") == Get(h, "present");
    var p := Spread(Get(h, "present"));
    assert r + p == r;
  }

  // ---------------------------------------------------------------------
  // nullifyFields

  /** Clearing the same names twice gives the entry clearing them once
      gives. */
  lemma ClearedIdempotent(m: Object, fields: seq<string>, nullValue: Value)
    ensures Cleared(Cleared(m, fields, nullValue), fields, nullValue) == Cleared(m, fields, nullValue)
  {
    var once := Cleared(m, fields, nullValue);
    var twice := Cleared(once, fields, nullValue);
    assert twice.Keys == once.Keys;
    forall k | k in once ensures twice[k] == once[k] {
    }
  }

  /** The nullifier throws exactly when the array it indexes is missing;
      otherwise it changes the targeted element of that array, through
      `removeFields`, and nothing else: no other key of the history, no
      other element of the array. */
  lemma NullifyChangesOnlyTarget(fields: seq<string>, nullValue: Value, indexing: PastIndexing,
                                 config: Config, h: Object, a: Action)
    ensures var c := NullifyTransform(fields, nullValue, indexing, config, h, a);
            var key := NullifyTarget(indexing, config, h, a).0;
            var i := NullifyTarget(indexing, config, h, a).1;
            && (c.Threw? <==> IsNullish(Get(h, key)))
            && (c.Threw? ==> c.error == TypeError(key))
            && (c.Returned? && !Get(h, key).Arr? ==> c.history == h)
            && (c.Returned? && Get(h, key).Arr? ==>
                  && c.history.Keys == h.Keys
                  && (forall k :: k in h && k != key ==> c.history[k] == h[k])
                  && c.history[key].Arr?
                  && |c.history[key].elems| == |h[key].elems|
                  && (forall j :: 0 <= j < |h[key].elems| ==>
                        c.history[key].elems[j] ==
                          if i == At(j) then ClearedEntry(h[key].elems[j], fields, nullValue)
                          else h[key].elems[j]))
  {
  }

  /** On a redo, every configured name is set to `nullValue` on the first
      entry of `future`, created if it was missing; its other fields, the
      rest of `future`, `past`, `present` and every other key keep their
      values. */
  lemma NullifyRedoClearsFirstFuture(fields: seq<string>, nullValue: Value, indexing: PastIndexing,
                                     config: Config, h: Object, a: Action, xs: seq<Value>, m: Object)
    requires a.actionType == config.redoType
    requires Get(h, "future") == Arr(xs) && |xs| > 0 && xs[0] == Obj(m)
    ensures var c := NullifyTransform(fields, nullValue, indexing, config, h, a);
            && c.Returned?
            && c.history.Keys == h.Keys
            && (forall k :: k in h && k != "future" ==> c.history[k] == h[k])
            && c.history["future"] == Arr([Obj(Cleared(m, fields, nullValue))] + xs[1..])
            && (forall f :: f in fields ==> Cleared(m, fields, nullValue)[f] == nullValue)
            && (forall k :: k in m && k !in fields ==> Cleared(m, fields, nullValue)[k] == m[k])
  {
    var c := NullifyTransform(fields, nullValue, indexing, config, h, a);
    assert c.history["future"].elems == [Obj(Cleared(m, fields, nullValue))] + xs[1..];
  }

  /** When the targeted element is not an object (an empty `future`, an
      index out of range or `NaN`), the history is forwarded unchanged. */
  lemma NullifyMissingTargetIsNoOp(fields: seq<string>, nullValue: Value, indexing: PastIndexing,
                                   config: Config, h: Object, a: Action)
    requires !IsNullish(Get(h, NullifyTarget(indexing, config, h, a).0))
    requires !ElementAt(Get(h, NullifyTarget(indexing, config, h, a).0),
                        NullifyTarget(indexing, config, h, a).1).Obj?
    ensures NullifyTransform(fields, nullValue, indexing, config, h, a) == Returned(h)
  {
    var key := NullifyTarget(indexing, config, h, a).0;
    var i := NullifyTarget(indexing, config, h, a).1;
    match Get(h, key)
    case Arr(xs) =>
      assert ClearElement(xs, i, fields, nullValue) == xs;
      assert h[key := Arr(xs)] == h;
    case _ =>
  }

  /** As written, outside a redo the nullifier indexes `past` with
      `state.length - 1`; a history has no `length` key, so the index is
      `NaN` and nothing is cleared. */
  lemma NullifyPastAsWrittenIsNoOp(fields: seq<string>, nullValue: Value, config: Config,
                                   h: Object, a: Action)
    requires a.actionType != config.redoType
    requires !IsNullish(Get(h, "past"))
    requires "length" !in h
    ensures NullifyTransform(fields, nullValue, StateLength, config, h, a) == Returned(h)
  {
    assert PastIndex(StateLength, h) == NaN;
  }

  /** With the corrected index, outside a redo the most recent entry of
      `past` has the configured names cleared and the earlier ones are
      untouched. */
  lemma NullifyCorrectedClearsLastPast(fields: seq<string>, nullValue: Value, config: Config,
                                       h: Object, a: Action, xs: seq<Value>, m: Object)
    requires a.actionType != config.redoType
    requires Get(h, "past") == Arr(xs) && |xs| > 0 && xs[|xs| - 1] == Obj(m)
    ensures NullifyTransform(fields, nullValue, PastLength, config, h, a)
            == Returned(h["past" := Arr(xs[..|xs| - 1] + [Obj(Cleared(m, fields, nullValue))])])
  {
    var n := |xs| - 1;
    assert xs[n := Obj(Cleared(m, fields, nullValue))] == xs[..n] + [Obj(Cleared(m, fields, nullValue))];
  }

  /** `removeFields` applied twice to one value is applied once. */
  lemma ClearedEntryIdempotent(v: Value, fields: seq<string>, nullValue: Value)
    ensures ClearedEntry(ClearedEntry(v, fields, nullValue), fields, nullValue)
            == ClearedEntry(v, fields, nullValue)
  {
    if v.Obj? {
      ClearedIdempotent(v.props, fields, nullValue);
    }
  }

  /** `removeFields` on one array element, applied twice, is applied once. */
  lemma ClearAtIdempotent(h: Object, key: string, i: Index, fields: seq<string>, nullValue: Value)
    ensures ClearAt(ClearAt(h, key, i, fields, nullValue), key, i, fields, nullValue)
            == ClearAt(h, key, i, fields, nullValue)
  {
    match Get(h, key)
    case Arr(xs) =>
      var ys := ClearElement(xs, i, fields, nullValue);
      if i.At? && 0 <= i.n < |xs| {
        ClearedEntryIdempotent(xs[i.n], fields, nullValue);
        assert ys[i.n := ClearedEntry(ys[i.n], fields, nullValue)] == ys;
      }
      assert ClearElement(ys, i, fields, nullValue) == ys;
    case _ =>
  }

  /** Clearing leaves the array it clears in, and the `length` key, as
      they were in shape, so the nullifier selects the same target again. */
  lemma ClearAtKeepsTarget(h: Object, key: string, i: Index, fields: seq<string>, nullValue: Value,
                           indexing: PastIndexing)
    requires key == "past" || key == "future"
    ensures var r := ClearAt(h, key, i, fields, nullValue);
            && IsNullish(Get(r, key)) == IsNullish(Get(h, key))
            && IsNullish(Get(r, "past")) == IsNullish(Get(h, "past"))
            && PastIndex(indexing, r) == PastIndex(indexing, h)
  {
    var r := ClearAt(h, key, i, fields, nullValue);
    assert Get(r, "length") == Get(h, "length");
  }

  /** Clearing is idempotent: nullifying the forwarded history again with
      the same action forwards it unchanged. */
  lemma NullifyIdempotent(fields: seq<string>, nullValue: Value, indexing: PastIndexing,
                          config: Config, h: Object, a: Action)
    requires NullifyTransform(fields, nullValue, indexing, config, h, a).Returned?
    ensures var r := NullifyTransform(fields, nullValue, indexing, config, h, a).history;
            NullifyTransform(fields, nullValue, indexing, config, r, a) == Returned(r)
  {
    if a.actionType == config.redoType {
      ClearAtKeepsTarget(h, "future", At(0), fields, nullValue, indexing);
      ClearAtIdempotent(h, "future", At(0), fields, nullValue);
    } else {
      var i := PastIndex(indexing, h);
      ClearAtKeepsTarget(h, "past", i, fields, nullValue, indexing);
      ClearAtIdempotent(h, "past", i, fields, nullValue);
    }
  }

  /** With the defaults (no names), the nullifier never changes a history. */
  lemma NullifyDefaultChangesNothing(config: Config, h: Object, a: Action)
    ensures var c := Transform(NullifyFields(None, Undefined), config, h, a);
            c.Threw? || c == Returned(h)
  {
    var e := NullifyFields(None, Undefined);
    var key := NullifyTarget(e.pastIndexing, config, h, a).0;
    var i := NullifyTarget(e.pastIndexing, config, h, a).1;
    match Get(h, key)
    case Arr(xs) =>
      if i.At? && 0 <= i.n < |xs| && xs[i.n].Obj? {
        assert Cleared(xs[i.n].props, [], Null) == xs[i.n].props;
      }
      assert ClearElement(xs, i, [], Null) == xs;
      assert h[key := Arr(xs)] == h;
    case _ =>
  }
}

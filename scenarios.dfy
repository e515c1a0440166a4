/** Concrete dispatches through the extenders, on small histories. */
module Scenarios {
  import opened JsValues
  import opened Extenders
  import opened ExtenderProperties
  import opened Pipeline

  const redo := Config("@@redux-undo/REDO")

  /** A terminal reducer that returns the history it is given. */
  function Identity(): Reducer {
    (h: Object, a: Action) => Returned(h)
  }

  /** `[{type: 'INC'}, {type: 'IGNORE_ME'}]` through `actionTypeField` with
      a predicate that ignores 'IGNORE_ME' leaves `actionType` at 'INC'. */
  lemma ActionTypeAfterIgnoredAction(h: Object)
    ensures var c := DispatchAll(Compose([ActionTypeField(Some((a: Action) => a.actionType == "IGNORE_ME"))],
                                         Identity(), redo),
                                 h, [Action("INC"), Action("IGNORE_ME")]);
            c.Returned? && Get(c.history, "actionType") == Str("INC")
  {
    var ignored := (a: Action) => a.actionType == "IGNORE_ME";
    var actions := [Action("INC"), Action("IGNORE_ME")];
    ActionTypeTracksLastRecorded(ignored, Identity(), redo, h, actions);
    assert actions[..1] == [Action("INC")];
    assert LastRecorded(ignored, actions) == Some("INC");
  }

  /** The chain `[actionTypeField(), customFieldExtender()]` in front of a
      reducer that returns its history: after `{type: 'INC'}` the history
      carries `actionType: 'INC'` and `extraField: 'something'`, and its
      other keys are as they were. */
  lemma ActionTypeThenCustom(h: Object)
    ensures var c := Run([ActionTypeField(None), CustomFieldExtender()], Identity(), redo, h, Action("INC"));
            && c.Returned?
            && Get(c.history, "actionType") == Str("INC")
            && Get(c.history, "extraField") == Str("something")
            && (forall k :: k in h && k != "actionType" && k != "extraField" ==> c.history[k] == h[k])
  {
    var units := [ActionTypeField(None), CustomFieldExtender()];
    RunIsTerminalAfterFold(units, Identity(), redo, h, Action("INC"));
    assert units[1..] == [CustomFieldExtender()];
    assert units[1..][1..] == [];
  }

  /** `{present: {count: 5}, foo: 1, count: 0}` flattens to a history
      with `count: 5` (present wins) and `foo: 1`. */
  lemma FlattenPresentWins()
    ensures var r := FlattenTransform(map["present" := Obj(map["count" := Num(5)]),
                                          "foo" := Num(1), "count" := Num(0)]);
            r["count"] == Num(5) && r["foo"] == Num(1)
  {
  }

  const entryA := Obj(map["a" := Num(1), "b" := Num(2)])
  const entryB := Obj(map["a" := Num(3), "b" := Num(4)])
  const history := map["past" := Arr([entryA, entryB]), "present" := Obj(map[]), "future" := Arr([])]

  /** The repository's nullifier on a non-redo action leaves the most
      recent past entry `{a: 3, b: 4}` as it was. */
  lemma NullifyExampleAsWritten()
    ensures Transform(NullifyFields(Some(["b"]), Null), redo, history, Action("INC")) == Returned(history)
  {
    NullifyPastAsWrittenIsNoOp(["b"], Null, redo, history, Action("INC"));
  }

  /** The corrected nullifier on the same action sets `b` to `null` on the
      most recent past entry, keeps its `a`, and leaves the earlier entry
      untouched. */
  lemma NullifyExampleCorrected()
    ensures Transform(NullifyFieldsCorrected(Some(["b"]), Null), redo, history, Action("INC"))
            == Returned(history["past" := Arr([entryA, Obj(map["a" := Num(3), "b" := Null])])])
  {
    NullifyCorrectedClearsLastPast(["b"], Null, redo, history, Action("INC"), [entryA, entryB], entryB.props);
    assert Cleared(entryB.props, ["b"], Null) == map["a" := Num(3), "b" := Null];
    var cleared := Obj(map["a" := Num(3), "b" := Null]);
    assert [entryA, entryB][..1] + [cleared] == [entryA, cleared];
  }

  /** A history with a `length` key of 1 makes the repository's nullifier
      clear `past[0]` outside a redo. */
  lemma LengthKeySteersNullify(h: Object)
    requires Get(h, "past") == Arr([entryA, entryB]) && Get(h, "length") == Num(1)
    ensures NullifyTransform(["b"], Null, StateLength, redo, h, Action("INC"))
            == Returned(h["past" := Arr([Obj(map["a" := Num(1), "b" := Null]), entryB])])
  {
    assert PastIndex(StateLength, h) == At(0);
    assert Cleared(entryA.props, ["b"], Null) == map["a" := Num(1), "b" := Null];
    assert ClearElement([entryA, entryB], At(0), ["b"], Null)
           == [Obj(map["a" := Num(1), "b" := Null]), entryB];
  }

  /** Behind `flattenState`, a present value with a `length` property
      steers the repository's nullifier: `length: 1` makes it clear
      `past[0]`. */
  lemma FlattenedLengthSteersNullify()
    ensures var h := history["present" := Obj(map["length" := Num(1)])];
            var c := Run([FlattenState(), NullifyFields(Some(["b"]), Null)], Identity(), redo, h, Action("INC"));
            c.Returned? && Get(c.history, "past") == Arr([Obj(map["a" := Num(1), "b" := Null]), entryB])
  {
    var h := history["present" := Obj(map["length" := Num(1)])];
    var units := [FlattenState(), NullifyFields(Some(["b"]), Null)];
    RunIsTerminalAfterFold(units, Identity(), redo, h, Action("INC"));
    var f := FlattenTransform(h);
    assert Get(f, "length") == Num(1);
    assert Get(f, "past") == Arr([entryA, entryB]);
    LengthKeySteersNullify(f);
    assert units[1..] == [NullifyFields(Some(["b"]), Null)];
    assert units[1..][1..] == [];
  }
}

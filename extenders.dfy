/** Field extenders: units that rewrite a history record and forward it,
    with the same action, to the next reducer in the chain.

    Each extender has three stages. Stage 1 (the factory, e.g.
    `ActionTypeField`) takes the extender's own configuration and yields an
    `Extender` value. Stage 2 (`Bind`) takes the next reducer and the shared
    undoable configuration. Stage 3 (the `Reducer` that `Bind` returns) runs
    on every dispatch: it computes a new history with `Transform` and
    tail-calls the next reducer on it. */
module Extenders {
  import opened JsValues

  /** The undoable configuration shared by every extender; `redoType` is
      the action type that signals a redo. */
  datatype Config = Config(redoType: string)

  /** Which element of `past` the nullifier targets outside a redo. */
  datatype PastIndexing =
    | StateLength  // `past[state.length - 1]`, as the repository writes it
    | PastLength   // `past[past.length - 1]`, the most recent past entry

  datatype Extender =
    | ActionType(ignored: Action -> bool)
    | Flatten
    | Nullify(fields: seq<string>, nullValue: Value, pastIndexing: PastIndexing)
    | Custom

  /** A transition function `(history, action) => newHistory`. */
  type Reducer = (Object, Action) -> Completion

  // ---------------------------------------------------------------------
  // Stage 1: the factories

  /** `customFieldExtender(extenderConfig)`; its configuration is unused. */
  function CustomFieldExtender(): (e: Extender)
    ensures e.Custom?
  {
    Custom
  }

  /** `actionTypeField(ignoreActions)`: without a predicate, nothing is
      ignored. */
  function ActionTypeField(ignoreActions: Option<Action -> bool>): (e: Extender)
    ensures e.ActionType?
    ensures ignoreActions.None? ==> forall a :: !e.ignored(a)
    ensures ignoreActions.Some? ==> forall a :: e.ignored(a) == ignoreActions.value(a)
  {
    match ignoreActions
    case None => ActionType((a: Action) => false)
    case Some(p) => ActionType(p)
  }

  /** `flattenState()`. */
  function FlattenState(): (e: Extender)
    ensures e.Flatten?
  {
    Flatten
  }

  /** `nullifyFields(fields = [], nullValue = null)`. `None` and `Undefined`
      stand for an omitted argument, which takes the default. */
  function NullifyFields(fields: Option<seq<string>>, nullValue: Value): (e: Extender)
    ensures e.Nullify? && e.pastIndexing == StateLength
    ensures e.fields == (if fields.Some? then fields.value else [])
    ensures e.nullValue != Undefined
    ensures nullValue.Undefined? ==> e.nullValue == Null
    ensures nullValue != Undefined ==> e.nullValue == nullValue
  {
    Nullify(if fields.Some? then fields.value else [],
            if nullValue.Undefined? then Null else nullValue,
            StateLength)
  }

  /** The nullifier with the past-side target corrected to the most recent
      entry of `past`. */
  function NullifyFieldsCorrected(fields: Option<seq<string>>, nullValue: Value): (e: Extender)
    ensures e.Nullify? && e.pastIndexing == PastLength
    ensures e.fields == NullifyFields(fields, nullValue).fields
    ensures e.nullValue == NullifyFields(fields, nullValue).nullValue
  {
    var e := NullifyFields(fields, nullValue);
    e.(pastIndexing := PastLength)
  }

  // ---------------------------------------------------------------------
  // Stage 3 transforms: the history each extender hands on

  /** `{...history, extraField: 'something'}`. */
  function CustomTransform(h: Object): (r: Object)
    ensures Get(r, "extraField") == Str("something")
    ensures r.Keys == h.Keys + {"extraField"}
    ensures forall k :: k in h && k != "extraField" ==> r[k] == h[k]
  {
    h["extraField" := Str("something")]
  }

  /** A copy of the history whose `actionType` is the action's type, unless
      the action is ignored. */
  function ActionTypeTransform(ignored: Action -> bool, h: Object, a: Action): (r: Object)
    ensures !ignored(a) ==> Get(r, "actionType") == Str(a.actionType)
    ensures !ignored(a) ==> r.Keys == h.Keys + {"actionType"}
    ensures !ignored(a) ==> forall k :: k in h && k != "actionType" ==> r[k] == h[k]
    ensures ignored(a) ==> r == h
  {
    if ignored(a) then h else h["actionType" := Str(a.actionType)]
  }

  /** `{...state, ...state.present}`: the present value's fields copied over
      the top-level fields. */
  function FlattenTransform(h: Object): (r: Object)
    ensures r.Keys == h.Keys + Spread(Get(h, "present")).Keys
    ensures forall k :: k in Spread(Get(h, "present")) ==> r[k] == Spread(Get(h, "present"))[k]
    ensures forall k :: k in h && k !in Spread(Get(h, "present")) ==> r[k] == h[k]
  {
    h + Spread(Get(h, "present"))
  }

  /** The entry `m` after `for (f of fields) m[f] = nullValue`, one
      assignment per name, in order. */
  function Cleared(m: Object, fields: seq<string>, nullValue: Value): (r: Object)
    ensures r.Keys == m.Keys + set f | f in fields
    ensures forall f :: f in fields ==> r[f] == nullValue
    ensures forall k :: k in m && k !in fields ==> r[k] == m[k]
    decreases |fields|
  {
    if |fields| == 0 then m
    else Cleared(m, fields[..|fields| - 1], nullValue)[fields[|fields| - 1] := nullValue]
  }

  /** `removeFields(target)` seen as a value: an object entry has the
      fields cleared; any other value (including `undefined`, which the
      guard returns early on) is left as it is. */
  function ClearedEntry(target: Value, fields: seq<string>, nullValue: Value): (r: Value)
    ensures r.Obj? <==> target.Obj?
    ensures target.Obj? ==> r.props.Keys == target.props.Keys + set f | f in fields
    ensures target.Obj? ==> forall f :: f in fields ==> r.props[f] == nullValue
    ensures target.Obj? ==> forall k :: k in target.props && k !in fields ==> r.props[k] == target.props[k]
    ensures !target.Obj? ==> r == target
  {
    match target
    case Obj(m) => Obj(Cleared(m, fields, nullValue))
    case _ => target
  }

  /** The array `xs` with `removeFields` applied to `xs[i]`, when `i` is
      an index of it. */
  function ClearElement(xs: seq<Value>, i: Index, fields: seq<string>, nullValue: Value): (ys: seq<Value>)
    ensures |ys| == |xs|
    ensures forall j :: 0 <= j < |xs| ==>
              ys[j] == if i == At(j) then ClearedEntry(xs[j], fields, nullValue) else xs[j]
  {
    if i.At? && 0 <= i.n < |xs| then xs[i.n := ClearedEntry(xs[i.n], fields, nullValue)] else xs
  }

  /** The history with `removeFields` applied to `h[key][i]`. The element is
      shared with every shallow copy of the history, so every copy shows
      the change; the model replaces the element in the history value. */
  function ClearAt(h: Object, key: string, i: Index, fields: seq<string>, nullValue: Value): (r: Object)
    ensures r.Keys == h.Keys
    ensures forall k :: k in h && k != key ==> r[k] == h[k]
    ensures Get(h, key).Arr? ==> r[key] == Arr(ClearElement(Get(h, key).elems, i, fields, nullValue))
    ensures !Get(h, key).Arr? ==> r == h
  {
    match Get(h, key)
    case Arr(xs) => h[key := Arr(ClearElement(xs, i, fields, nullValue))]
    case _ => h
  }

  /** The index the nullifier reads `past` at outside a redo. */
  function PastIndex(indexing: PastIndexing, h: Object): (i: Index)
    ensures indexing.StateLength? && "length" !in h ==> i == NaN
    ensures indexing.StateLength? && Get(h, "length").Num? ==> i == At(Get(h, "length").n - 1)
    ensures indexing.PastLength? && Get(h, "past").Arr? ==> i == At(|Get(h, "past").elems| - 1)
    ensures indexing.PastLength? && !Get(h, "past").Arr? ==> i == NaN
  {
    match indexing
    case StateLength => MinusOne(Get(h, "length"))
    case PastLength =>
      match Get(h, "past")
      case Arr(xs) => At(|xs| - 1)
      case _ => NaN
  }

  /** The array key and the index the nullifier reads for this action:
      `future[0]` on a redo, otherwise `past` at the index `indexing`
      selects. */
  function NullifyTarget(indexing: PastIndexing, config: Config, h: Object, a: Action): (t: (string, Index))
    ensures a.actionType == config.redoType ==> t == ("future", At(0))
    ensures a.actionType != config.redoType ==> t == ("past", PastIndex(indexing, h))
  {
    if a.actionType == config.redoType then ("future", At(0))
    else ("past", PastIndex(indexing, h))
  }

  /** The nullifier's transform: `removeFields` on the targeted element.
      Reading an index of a missing `future` or `past` throws. */
  function NullifyTransform(fields: seq<string>, nullValue: Value, indexing: PastIndexing,
                            config: Config, h: Object, a: Action): (c: Completion)
    ensures c.Threw? <==> IsNullish(Get(h, NullifyTarget(indexing, config, h, a).0))
    ensures c.Threw? ==> c.error == TypeError(NullifyTarget(indexing, config, h, a).0)
    ensures c.Returned? ==> c.history.Keys == h.Keys
  {
    var target := NullifyTarget(indexing, config, h, a);
    if IsNullish(Get(h, target.0)) then Threw(TypeError(target.0))
    else Returned(ClearAt(h, target.0, target.1, fields, nullValue))
  }

  /** The history one extender forwards, or the error it throws first. */
  function Transform(e: Extender, config: Config, h: Object, a: Action): (c: Completion)
    ensures e.ActionType? ==> c == Returned(ActionTypeTransform(e.ignored, h, a))
    ensures e.Flatten? ==> c == Returned(FlattenTransform(h))
    ensures e.Nullify? ==> c == NullifyTransform(e.fields, e.nullValue, e.pastIndexing, config, h, a)
    ensures e.Custom? ==> c == Returned(CustomTransform(h))
  {
    match e
    case ActionType(ignored) => Returned(ActionTypeTransform(ignored, h, a))
    case Flatten => Returned(FlattenTransform(h))
    case Nullify(fields, nullValue, indexing) =>
      NullifyTransform(fields, nullValue, indexing, config, h, a)
    case Custom => Returned(CustomTransform(h))
  }

  // ---------------------------------------------------------------------
  // Stages 2 and 3

  /** `return nextReducer(newHistory, action)`, unless computing
      `newHistory` threw. */
  function Forward(c: Completion, next: Reducer, a: Action): (r: Completion)
    ensures c.Returned? ==> r == next(c.history, a)
    ensures c.Threw? ==> r == Threw(c.error)
  {
    match c
    case Returned(h) => next(h, a)
    case Threw(err) => Threw(err)
  }

  /** Stage 2: bind the extender to the next reducer and the configuration,
      giving the Stage 3 function run on every dispatch. */
  function Bind(e: Extender, next: Reducer, config: Config): (r: Reducer)
    ensures forall h: Object, a: Action :: Transform(e, config, h, a).Returned? ==>
              r(h, a) == next(Transform(e, config, h, a).history, a)
    ensures forall h: Object, a: Action :: Transform(e, config, h, a).Threw? ==>
              r(h, a) == Threw(Transform(e, config, h, a).error)
  {
    (h: Object, a: Action) => Forward(Transform(e, config, h, a), next, a)
  }
}

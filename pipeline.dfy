/** The chain `undoable(reducer, { fieldExtenders: [a(), b()] })` builds:
    each extender's next reducer is the next extender in the list, and the
    last one's is the wrapped undoable reducer (the terminal). */
module Pipeline {
  import opened JsValues
  import opened Extenders

  /** Bind the list right to left: the last extender wraps the terminal,
      each earlier one wraps the binding of the rest, so the first listed
      is the outermost function a dispatch enters. */
  function Compose(units: seq<Extender>, terminal: Reducer, config: Config): (r: Reducer)
    ensures |units| == 0 ==> forall h: Object, a: Action :: r(h, a) == terminal(h, a)
    ensures |units| > 0 ==> forall h: Object, a: Action :: Transform(units[0], config, h, a).Threw? ==>
              r(h, a) == Threw(Transform(units[0], config, h, a).error)
    ensures |units| > 0 ==> forall h: Object, a: Action :: Transform(units[0], config, h, a).Returned? ==>
              r(h, a) == Compose(units[1..], terminal, config)(Transform(units[0], config, h, a).history, a)
    decreases |units|
  {
    if |units| == 0 then terminal
    else Bind(units[0], Compose(units[1..], terminal, config), config)
  }

  /** One dispatch through the composed chain. */
  function Run(units: seq<Extender>, terminal: Reducer, config: Config, h: Object, a: Action): (c: Completion)
    ensures |units| == 0 ==> c == terminal(h, a)
    ensures |units| > 0 && Transform(units[0], config, h, a).Threw? ==>
              c == Threw(Transform(units[0], config, h, a).error)
  {
    Compose(units, terminal, config)(h, a)
  }

  /** The extenders' transforms applied left to right, stopping at the
      first one that throws. */
  function Fold(units: seq<Extender>, config: Config, h: Object, a: Action): Completion
    decreases |units|
  {
    if |units| == 0 then Returned(h)
    else
      match Transform(units[0], config, h, a)
      case Returned(h1) => Fold(units[1..], config, h1, a)
      case Threw(err) => Threw(err)
  }

  /** A dispatch through the chain is the terminal reducer, called once
      with the original action, on the history every extender has
      transformed in list order; an error thrown by an extender comes back
      without reaching the terminal. */
  lemma {:induction false} RunIsTerminalAfterFold(units: seq<Extender>, terminal: Reducer, config: Config,
                                                  h: Object, a: Action)
    ensures Run(units, terminal, config, h, a) == Forward(Fold(units, config, h, a), terminal, a)
    decreases |units|
  {
    if |units| > 0 {
      match Transform(units[0], config, h, a)
      case Returned(h1) =>
        RunIsTerminalAfterFold(units[1..], terminal, config, h1, a);
      case Threw(_) =>
    }
  }

  /** For `[A, B]` in front of `R`, the first listed extender transforms
      first: the result is `R(tB(tA(h)), action)`. */
  lemma ChainOrderTwo(x: Extender, y: Extender, terminal: Reducer, config: Config, h: Object, a: Action)
    requires Transform(x, config, h, a).Returned?
    requires Transform(y, config, Transform(x, config, h, a).history, a).Returned?
    ensures Run([x, y], terminal, config, h, a)
            == terminal(Transform(y, config, Transform(x, config, h, a).history, a).history, a)
  {
    RunIsTerminalAfterFold([x, y], terminal, config, h, a);
    var h1 := Transform(x, config, h, a).history;
    assert [x, y][1..] == [y];
    assert [y][1..] == [];
    assert Fold([x, y], config, h, a) == Fold([y], config, h1, a);
  }

  /** Splitting the list splits the chain: the front extenders run in
      front of the chain the back extenders build around the terminal. */
  lemma {:induction false} ComposeAppend(us: seq<Extender>, vs: seq<Extender>, terminal: Reducer,
                                         config: Config, h: Object, a: Action)
    ensures Run(us + vs, terminal, config, h, a) == Run(us, Compose(vs, terminal, config), config, h, a)
    decreases |us|
  {
    if |us| == 0 {
      assert us + vs == vs;
    } else {
      assert (us + vs)[0] == us[0];
      assert (us + vs)[1..] == us[1..] + vs;
      match Transform(us[0], config, h, a)
      case Returned(h1) =>
        ComposeAppend(us[1..], vs, terminal, config, h1, a);
      case Threw(_) =>
    }
  }

  // ---------------------------------------------------------------------
  // Successive dispatches, for properties that span several actions

  /** Dispatch the actions one after another, each on the history the
      previous one returned, stopping at the first that throws. */
  function DispatchAll(reducer: Reducer, h: Object, actions: seq<Action>): Completion
    decreases |actions|
  {
    if |actions| == 0 then Returned(h)
    else
      match reducer(h, actions[0])
      case Returned(h1) => DispatchAll(reducer, h1, actions[1..])
      case Threw(err) => Threw(err)
  }

  /** Dispatching one more action continues from where the others ended. */
  lemma {:induction false} DispatchAllSnoc(reducer: Reducer, h: Object, actions: seq<Action>, last: Action)
    ensures DispatchAll(reducer, h, actions + [last]) == Forward(DispatchAll(reducer, h, actions), reducer, last)
    decreases |actions|
  {
    if |actions| == 0 {
      assert actions + [last] == [last];
      assert [last][1..] == [];
    } else {
      assert (actions + [last])[0] == actions[0];
      assert (actions + [last])[1..] == actions[1..] + [last];
      match reducer(h, actions[0])
      case Returned(h1) => DispatchAllSnoc(reducer, h1, actions[1..], last);
      case Threw(_) =>
    }
  }

  /** The type of the last action in the list the predicate does not
      ignore, if any. */
  function LastRecorded(ignored: Action -> bool, actions: seq<Action>): Option<string>
    decreases |actions|
  {
    if |actions| == 0 then None
    else if !ignored(actions[|actions| - 1]) then Some(actions[|actions| - 1].actionType)
    else LastRecorded(ignored, actions[..|actions| - 1])
  }

  /** The terminal reducer returns, and keeps the value of `key`. */
  ghost predicate KeepsField(terminal: Reducer, key: string) {
    forall h, a :: terminal(h, a).Returned? && Get(terminal(h, a).history, key) == Get(h, key)
  }

  /** Behind a terminal that keeps `actionType`, the `actionTypeField`
      extender leaves `actionType` holding the type of the most recent
      action it did not ignore, and leaves it as it was when it ignored
      them all. */
  lemma {:induction false} ActionTypeTracksLastRecorded(ignored: Action -> bool, terminal: Reducer,
                                                        config: Config, h: Object, actions: seq<Action>)
    requires KeepsField(terminal, "actionType")
    ensures var c := DispatchAll(Compose([ActionType(ignored)], terminal, config), h, actions);
            && c.Returned?
            && Get(c.history, "actionType") ==
                 match LastRecorded(ignored, actions)
                 case Some(t) => Str(t)
                 case None => Get(h, "actionType")
    decreases |actions|
  {
    var reducer := Compose([ActionType(ignored)], terminal, config);
    if |actions| > 0 {
      var init := actions[..|actions| - 1];
      var last := actions[|actions| - 1];
      assert actions == init + [last];
      ActionTypeTracksLastRecorded(ignored, terminal, config, h, init);
      DispatchAllSnoc(reducer, h, init, last);
      var mid := DispatchAll(reducer, h, init).history;
      RunIsTerminalAfterFold([ActionType(ignored)], terminal, config, mid, last);
      assert [ActionType(ignored)][1..] == [];
      assert Fold([ActionType(ignored)], config, mid, last)
             == Returned(ActionTypeTransform(ignored, mid, last));
    }
  }
}

/** The editor's input listener (editor/editor_scene.py, `EditorListener`).

    The listener keeps, per callback type, the callbacks registered for it
    in registration order. A left mouse press runs every "mouse_pressed"
    callback in turn: each must come with a keyword-argument factory,
    whose "layer" entry decides whether the callback is called and on
    which layer the click is converted to a map position. Callbacks and
    factories are opaque values here; `layerOf` stands for calling a
    factory and reading its "layer" entry (`None` when absent or `None`),
    and `arityOf` for the number of positional arguments a callback
    accepts. A callback called with any other number of arguments raises
    `TypeError` before its body runs; otherwise its body is taken not to
    raise. The screen-to-map conversion is not modelled: a press yields
    the list of (callback, layer) calls made. */
module EditorScene {
  import opened Py

  const MousePressed: string := "mouse_pressed"

  /** The error raised when a callback without a factory is reached. */
  const MissingKwargsError: PyError := RuntimeError("The callback needs keywords args,but they are not set")

  datatype Button = LeftButton | RightButton | MiddleButton | OtherButton

  datatype Registration<F, K> = Registration(func: F, kwargs: Option<K>)

  datatype Listener<F, K> = Listener(callbacks: map<string, seq<Registration<F, K>>>)

  /** A new listener knows the "mouse_pressed" type only, with no callback. */
  function NewListener<F, K>(): (l: Listener<F, K>)
    ensures l.callbacks.Keys == {MousePressed} && l.callbacks[MousePressed] == []
  {
    Listener(map[MousePressed := []])
  }

  /** A listener that also knows the mouse drag and move types, the three
      types the object toolbar registers with. */
  function NewMotionListener<F, K>(): (l: Listener<F, K>)
    ensures l.callbacks.Keys == {MousePressed, "mouse_dragged", "mouse_moved"}
    ensures forall t | t in l.callbacks :: l.callbacks[t] == []
  {
    Listener(map[MousePressed := [], "mouse_dragged" := [], "mouse_moved" := []])
  }

  /** The error `add_callback` raises for a type the listener does not know. */
  function UnknownTypeError(cbType: string): PyError
  {
    RuntimeError(cbType + " is not a valid callback type")
  }

  /** `add_callback`: an unknown type raises `RuntimeError`; otherwise the
      callback joins the end of its type's list and nothing else changes. */
  function AddCallback<F, K>(l: Listener<F, K>, cbType: string, func: F, kwargs: Option<K>): (r: Result<Listener<F, K>>)
    ensures r.Ok? <==> cbType in l.callbacks
    ensures r.Raise? ==> r.error == UnknownTypeError(cbType)
    ensures r.Ok? ==> r.value.callbacks.Keys == l.callbacks.Keys
    ensures r.Ok? ==>
      && |r.value.callbacks[cbType]| == |l.callbacks[cbType]| + 1
      && r.value.callbacks[cbType][..|l.callbacks[cbType]|] == l.callbacks[cbType]
      && r.value.callbacks[cbType][|l.callbacks[cbType]|] == Registration(func, kwargs)
    ensures r.Ok? ==> forall t | t in l.callbacks && t != cbType :: r.value.callbacks[t] == l.callbacks[t]
  {
    if cbType !in l.callbacks then Raise(UnknownTypeError(cbType))
    else Ok(Listener(l.callbacks[cbType := l.callbacks[cbType] + [Registration(func, kwargs)]]))
  }

  /** Callbacks registered one after another are kept in that order. */
  lemma {:induction false} RegistrationOrder<F, K>(l: Listener<F, K>, cbType: string, f1: F, k1: Option<K>, f2: F, k2: Option<K>)
    requires cbType in l.callbacks
    ensures var l1 := AddCallback(l, cbType, f1, k1).value;
      && AddCallback(l1, cbType, f2, k2).Ok?
      && AddCallback(l1, cbType, f2, k2).value.callbacks[cbType] ==
           l.callbacks[cbType] + [Registration(f1, k1), Registration(f2, k2)]
  {
    var l1 := AddCallback(l, cbType, f1, k1).value;
    var l2 := AddCallback(l1, cbType, f2, k2).value;
    var n := |l.callbacks[cbType]|;
    assert l1.callbacks[cbType] == l.callbacks[cbType] + [Registration(f1, k1)] by {
      assert l1.callbacks[cbType][..n] == l.callbacks[cbType];
    }
    assert l2.callbacks[cbType][..n + 1] == l1.callbacks[cbType];
  }

  /** The calls a run over callbacks that all have factories makes: each
      callback whose factory names a layer, in order. */
  function Called<F, K>(regs: seq<Registration<F, K>>, layerOf: K -> Option<string>): (r: seq<(F, string)>)
    requires forall i | 0 <= i < |regs| :: regs[i].kwargs.Some?
    ensures |r| <= |regs|
    decreases |regs|
  {
    if |regs| == 0 then []
    else
      var last := regs[|regs| - 1];
      Called(regs[..|regs| - 1], layerOf) +
        match layerOf(last.kwargs.value)
        case None => []
        case Some(layer) => [(last.func, layer)]
  }

  /** The callbacks before the first one without a factory. */
  function UpToMissing<F, K>(regs: seq<Registration<F, K>>): (n: nat)
    ensures n <= |regs|
    ensures forall i | 0 <= i < n :: regs[i].kwargs.Some?
    ensures n < |regs| ==> regs[n].kwargs.None?
    decreases |regs|
  {
    if |regs| == 0 || regs[0].kwargs.None? then 0 else 1 + UpToMissing(regs[1..])
  }

  /** The arguments `mousePressed` passes a callback: the map point alone,
      as the code is written. */
  const PressArgumentsAsWritten: nat := 1

  /** The arguments the toolbars' press callbacks take: the map point and
      the button pressed. */
  const PressArgumentsIntended: nat := 2

  /** Reaching `reg` ends the dispatch: it has no factory, or its factory
      names a layer and the callback does not take `argc` arguments. */
  predicate Blocks<F, K>(reg: Registration<F, K>, layerOf: K -> Option<string>, arityOf: F -> nat, argc: nat)
  {
    reg.kwargs.None? || (layerOf(reg.kwargs.value).Some? && arityOf(reg.func) != argc)
  }

  /** The exception a blocking callback raises. */
  function BlockError<F, K>(reg: Registration<F, K>): PyError
  {
    if reg.kwargs.None? then MissingKwargsError else TypeError
  }

  /** The callbacks a press runs through before one blocks it. */
  function Reach<F, K>(regs: seq<Registration<F, K>>, layerOf: K -> Option<string>, arityOf: F -> nat, argc: nat): (n: nat)
    ensures n <= |regs|
    ensures forall i | 0 <= i < n :: !Blocks(regs[i], layerOf, arityOf, argc)
    ensures n < |regs| ==> Blocks(regs[n], layerOf, arityOf, argc)
    decreases |regs|
  {
    if |regs| == 0 || Blocks(regs[0], layerOf, arityOf, argc) then 0
    else 1 + Reach(regs[1..], layerOf, arityOf, argc)
  }

  /** A press never gets past the first callback without a factory. */
  lemma {:induction false} ReachStopsAtMissing<F, K>(regs: seq<Registration<F, K>>, layerOf: K -> Option<string>,
                                                      arityOf: F -> nat, argc: nat)
    ensures Reach(regs, layerOf, arityOf, argc) <= UpToMissing(regs)
    decreases |regs|
  {
    if |regs| > 0 && !Blocks(regs[0], layerOf, arityOf, argc) {
      ReachStopsAtMissing(regs[1..], layerOf, arityOf, argc);
    }
  }

  /** `mousePressed`: only the left button dispatches. Callbacks run in
      registration order, each called with `argc` arguments; reaching one
      without a factory raises `RuntimeError`, and calling one that takes a
      different number of arguments raises `TypeError`, after the calls
      before it were made. */
  method MousePress<F, K>(l: Listener<F, K>, button: Button, layerOf: K -> Option<string>, arityOf: F -> nat, argc: nat)
    returns (o: Outcome<seq<(F, string)>>)
    ensures button != LeftButton ==> o == Done([])
    ensures button == LeftButton && MousePressed !in l.callbacks ==> o == Fail([], KeyError(MousePressed))
    ensures button == LeftButton && MousePressed in l.callbacks ==>
      var regs := l.callbacks[MousePressed];
      var n := Reach(regs, layerOf, arityOf, argc);
      && o.state == Called(regs[..n], layerOf)
      && (o.raised.None? <==> n == |regs|)
      && (o.raised.Some? ==> o.raised.value == BlockError(regs[n]))
  {
    if button != LeftButton {
      return Done([]);
    }
    if MousePressed !in l.callbacks {
      return Fail([], KeyError(MousePressed));
    }
    var regs := l.callbacks[MousePressed];
    var n := Reach(regs, layerOf, arityOf, argc);
    var calls: seq<(F, string)> := [];
    for i := 0 to |regs|
      invariant i <= n
      invariant calls == Called(regs[..i], layerOf)
    {
      var reg := regs[i];
      if reg.kwargs.None? {
        return Fail(calls, MissingKwargsError);
      }
      assert regs[..i + 1][..i] == regs[..i];
      var layer := layerOf(reg.kwargs.value);
      if layer.Some? {
        if arityOf(reg.func) != argc {
          return Fail(calls, TypeError);
        }
        calls := calls + [(reg.func, layer.value)];
      }
    }
    assert regs[..|regs|] == regs;
    o := Done(calls);
  }

  /** As written, a callback taking the point and the button, reached with
      a layer, stops the press with `TypeError` before any call is made. */
  lemma PressAsWrittenRejectsTwoArguments<F, K>(reg: Registration<F, K>, layerOf: K -> Option<string>, arityOf: F -> nat)
    requires reg.kwargs.Some? && layerOf(reg.kwargs.value).Some?
    requires arityOf(reg.func) == PressArgumentsIntended
    ensures Reach([reg], layerOf, arityOf, PressArgumentsAsWritten) == 0
    ensures BlockError(reg) == TypeError
  {
  }

  /** Passing the button too, a press over callbacks that all have
      factories and all take the point and the button runs through every
      one of them and completes. */
  lemma {:induction false} PressWithButtonReachesAll<F, K>(regs: seq<Registration<F, K>>, layerOf: K -> Option<string>,
                                                            arityOf: F -> nat)
    requires forall i | 0 <= i < |regs| :: regs[i].kwargs.Some? && arityOf(regs[i].func) == PressArgumentsIntended
    ensures Reach(regs, layerOf, arityOf, PressArgumentsIntended) == |regs|
    decreases |regs|
  {
    if |regs| > 0 {
      PressWithButtonReachesAll(regs[1..], layerOf, arityOf);
    }
  }

  /** A callback registered without a factory, as the basic toolbar
      registers its own, makes every left press that reaches it raise. */
  lemma FactorylessCallbackBlocksDispatch<F, K>(l: Listener<F, K>, i: nat, layerOf: K -> Option<string>,
                                                 arityOf: F -> nat, argc: nat)
    requires MousePressed in l.callbacks && i < |l.callbacks[MousePressed]|
    requires l.callbacks[MousePressed][i].kwargs.None?
    ensures UpToMissing(l.callbacks[MousePressed]) <= i
    ensures Reach(l.callbacks[MousePressed], layerOf, arityOf, argc) <= i
  {
    ReachStopsAtMissing(l.callbacks[MousePressed], layerOf, arityOf, argc);
  }
}

/**
 * The pointer-state directive `ComponentStateDirective`: four flags kept in an
 * insertion-ordered map, the state list published from them, the CSS classes
 * kept in step with them, and the transient global listeners it registers and
 * releases. DOM events arrive as method calls; the two `delay(1)` callbacks
 * that arm the "click elsewhere" listeners are methods the environment calls.
 */
module ComponentStates {
  import opened Wrappers

  /** The states of a host element, in the enum's declaration order (0 to 4). */
  datatype ComponentState = Normal | Hover | Pressed | Focus | Active

  /** One entry of the directive's state map. */
  datatype Entry = Entry(key: ComponentState, on: bool)

  /** The keys of an insertion-ordered map, in iteration order. */
  function Keys(es: seq<Entry>): seq<ComponentState>
  {
    seq(|es|, i requires 0 <= i < |es| => es[i].key)
  }

  /** `Map.get`: the value stored under `k`, if the key is present. */
  function MapGet(es: seq<Entry>, k: ComponentState): Option<bool>
  {
    if es == [] then None
    else if es[0].key == k then Some(es[0].on)
    else MapGet(es[1..], k)
  }

  lemma KeysCons(e: Entry, es: seq<Entry>)
    ensures Keys([e] + es) == [e.key] + Keys(es)
  {
  }

  lemma MapGetCons(e: Entry, es: seq<Entry>, k: ComponentState)
    ensures MapGet([e] + es, k) == if e.key == k then Some(e.on) else MapGet(es, k)
  {
    assert ([e] + es)[1..] == es;
  }

  /**
   * `Map.set`: an existing key keeps its place in the iteration order and
   * gets the new value; a new key goes to the end.
   */
  function MapSet(es: seq<Entry>, k: ComponentState, v: bool): (r: seq<Entry>)
    ensures Keys(r) == if k in Keys(es) then Keys(es) else Keys(es) + [k]
    ensures MapGet(r, k) == Some(v)
    ensures forall k' :: k' != k ==> MapGet(r, k') == MapGet(es, k')
  {
    if es == [] then
      KeysCons(Entry(k, v), []);
      [Entry(k, v)]
    else
      var e, tail := es[0], es[1..];
      assert es == [e] + tail;
      KeysCons(e, tail);
      if e.key == k then
        KeysCons(Entry(k, v), tail);
        forall k' ensures MapGet([Entry(k, v)] + tail, k') == if k' == k then Some(v) else MapGet(es, k') {
          MapGetCons(Entry(k, v), tail, k');
          MapGetCons(e, tail, k');
        }
        [Entry(k, v)] + tail
      else
        var rest := MapSet(tail, k, v);
        KeysCons(e, rest);
        forall k' ensures MapGet([e] + rest, k') == if k' == k then Some(v) else MapGet(es, k') {
          MapGetCons(e, rest, k');
          MapGetCons(e, tail, k');
        }
        [e] + rest
  }

  /** The iteration order of the state map: the order of its initializer. */
  const StateMapOrder: seq<ComponentState> := [Hover, Active, Pressed, Focus]

  /** The state map as the directive creates it: every flag off. */
  const InitialStateMap: seq<Entry> :=
    [Entry(Hover, false), Entry(Active, false), Entry(Pressed, false), Entry(Focus, false)]

  /** The four flags read out of the state map. */
  datatype Flags = Flags(hover: bool, active: bool, pressed: bool, focus: bool)

  const AllOff := Flags(false, false, false, false)

  predicate IsOn(es: seq<Entry>, k: ComponentState)
  {
    MapGet(es, k) == Some(true)
  }

  function FlagsOf(es: seq<Entry>): Flags
  {
    Flags(IsOn(es, Hover), IsOn(es, Active), IsOn(es, Pressed), IsOn(es, Focus))
  }

  /** The state map, in iteration order, that holds the flags `f`. */
  function EntriesOf(f: Flags): seq<Entry>
  {
    [Entry(Hover, f.hover), Entry(Active, f.active), Entry(Pressed, f.pressed), Entry(Focus, f.focus)]
  }

  /** A map whose keys are those of the initializer is determined by its flags. */
  lemma {:induction false} OrderedMapShape(es: seq<Entry>)
    requires Keys(es) == StateMapOrder
    ensures es == EntriesOf(FlagsOf(es))
  {
    var ks := Keys(es);
    assert |es| == 4;
    assert ks[0] == es[0].key && ks[1] == es[1].key && ks[2] == es[2].key && ks[3] == es[3].key;
    assert es[0].key == Hover && es[1].key == Active && es[2].key == Pressed && es[3].key == Focus;
    var t1 := es[1..];
    var t2 := t1[1..];
    var t3 := t2[1..];
    assert t1[0] == es[1] && t2[0] == es[2] && t3[0] == es[3];
    assert MapGet(es, Hover) == Some(es[0].on);
    assert MapGet(es, Active) == MapGet(t1, Active) == Some(es[1].on);
    assert MapGet(t1, Pressed) == MapGet(t2, Pressed) == Some(es[2].on);
    assert MapGet(es, Pressed) == Some(es[2].on);
    assert MapGet(t2, Focus) == MapGet(t3, Focus) == Some(es[3].on);
    assert MapGet(es, Focus) == MapGet(t1, Focus) == Some(es[3].on);
  }

  /** The keys whose value is true, in iteration order: what the `forEach` pushes. */
  function TrueKeys(es: seq<Entry>): seq<ComponentState>
  {
    if es == [] then []
    else TrueKeys(es[..|es| - 1]) + (if es[|es| - 1].on then [es[|es| - 1].key] else [])
  }

  /** The published state list: the true keys, or `[Normal]` when there are none. */
  function ComponentStatesOf(es: seq<Entry>): seq<ComponentState>
  {
    var cs := TrueKeys(es);
    if |cs| == 0 then [Normal] else cs
  }

  /** The state list for the flags `f`, written out case by case. */
  function ExpectedStates(f: Flags): seq<ComponentState>
  {
    if f == AllOff then [Normal]
    else
      (if f.hover then [Hover] else []) + (if f.active then [Active] else [])
      + (if f.pressed then [Pressed] else []) + (if f.focus then [Focus] else [])
  }

  lemma TrueKeysOfEntries(f: Flags)
    ensures TrueKeys(EntriesOf(f))
         == (if f.hover then [Hover] else []) + (if f.active then [Active] else [])
          + (if f.pressed then [Pressed] else []) + (if f.focus then [Focus] else [])
  {
    var es := EntriesOf(f);
    assert TrueKeys(es[..1]) == (if f.hover then [Hover] else []) by {
      assert es[..1][..0] == [];
    }
    assert TrueKeys(es[..2]) == (if f.hover then [Hover] else []) + (if f.active then [Active] else []) by {
      assert es[..2][..1] == es[..1];
    }
    assert TrueKeys(es[..3]) == (if f.hover then [Hover] else []) + (if f.active then [Active] else [])
                              + (if f.pressed then [Pressed] else []) by {
      assert es[..3][..2] == es[..2];
    }
    assert es[..4] == es;
    assert es[..4][..3] == es[..3];
  }

  /** Sets the flag of `k` in `f` to `v`. */
  function WithFlag(f: Flags, k: ComponentState, v: bool): Flags
  {
    match k
    case Hover => f.(hover := v)
    case Active => f.(active := v)
    case Pressed => f.(pressed := v)
    case Focus => f.(focus := v)
    case Normal => f
  }

  /** `set` on one of the map's own keys keeps the iteration order and changes that one flag. */
  lemma {:induction false} MapSetFlag(es: seq<Entry>, k: ComponentState, v: bool)
    requires Keys(es) == StateMapOrder && k != Normal
    ensures Keys(MapSet(es, k, v)) == StateMapOrder
    ensures FlagsOf(MapSet(es, k, v)) == WithFlag(FlagsOf(es), k, v)
  {
    assert k in StateMapOrder;
  }

  /**
   * The published list holds exactly the true flags in map order
   * hover, active, pressed, focus, and is `[Normal]` when none is true.
   */
  lemma {:induction false} ComponentStatesOfFlags(es: seq<Entry>)
    requires Keys(es) == StateMapOrder
    ensures ComponentStatesOf(es) == ExpectedStates(FlagsOf(es))
  {
    OrderedMapShape(es);
    TrueKeysOfEntries(FlagsOf(es));
  }

  /**
   * The published list is never empty; it is `[Normal]` exactly when every
   * flag is off; otherwise it holds precisely the states whose flag is on
   * and never `Normal`.
   */
  lemma {:induction false} PublishedStates(es: seq<Entry>)
    requires Keys(es) == StateMapOrder
    ensures |ComponentStatesOf(es)| >= 1
    ensures ComponentStatesOf(es) == [Normal] <==> FlagsOf(es) == AllOff
    ensures Normal in ComponentStatesOf(es) <==> FlagsOf(es) == AllOff
    ensures forall s :: s != Normal ==> (s in ComponentStatesOf(es) <==> IsOn(es, s))
  {
    ComponentStatesOfFlags(es);
    forall s | s != Normal
      ensures s in ComponentStatesOf(es) <==> IsOn(es, s)
    {
      OrderedMapShape(es);
    }
  }

  /** The CSS classes the directive keeps on the host for the flags `f`; `pressed` has none. */
  function ClassesFor(f: Flags): set<string>
  {
    (if f.hover then {"hover"} else {}) + (if f.active then {"active"} else {})
      + (if f.focus then {"focus"} else {})
  }

  /**
   * A listener-handle field: never assigned, holding the unlisten function
   * of a live listener, or holding one that has been called. The field
   * stays set after the call, so a later call is a harmless repeat.
   */
  datatype Handle = Unset | Listening | Released

  /** `if (handle) handle()`: a set handle is released; an unset one is left alone. */
  function Release(h: Handle): (r: Handle)
    ensures r != Listening
    ensures r == Unset <==> h == Unset
  {
    if h == Unset then Unset else Released
  }

  /** The `find` test: the list holds `active`, `focus` or `pressed`. */
  predicate HasEngagedState(states: seq<ComponentState>)
  {
    exists i :: 0 <= i < |states| && (states[i] == Active || states[i] == Focus || states[i] == Pressed)
  }

  /**
   * The `every` test over the event's composed path: no HTMLElement on it
   * carries the host's id. `None` stands for a target that is not an
   * HTMLElement (the window, the document, a text node).
   */
  predicate OutsideHost(path: seq<Option<string>>, hostId: string)
  {
    forall i :: 0 <= i < |path| ==> path[i].None? || path[i].value != hostId
  }

  /** While the copy is current, the `find` test reads the active, focus and pressed flags. */
  lemma {:induction false} EngagedIffFlags(es: seq<Entry>)
    requires Keys(es) == StateMapOrder
    ensures HasEngagedState(ComponentStatesOf(es))
        <==> FlagsOf(es).active || FlagsOf(es).focus || FlagsOf(es).pressed
  {
    var cs := ComponentStatesOf(es);
    PublishedStates(es);
    if HasEngagedState(cs) {
      var i :| 0 <= i < |cs| && (cs[i] == Active || cs[i] == Focus || cs[i] == Pressed);
      assert cs[i] in cs;
    } else {
      assert Active !in cs && Focus !in cs && Pressed !in cs;
    }
  }

  class ComponentStateDirective {
    /** The host element's `id` (the empty string when it has none). */
    const hostId: string
    /** The `applyState` input: whether the directive toggles CSS classes. */
    const applyState: bool

    var stateMap: seq<Entry>
    var latestStates: seq<ComponentState>
    /** Every value emitted on the `componentStates` output, oldest first. */
    var emitted: seq<seq<ComponentState>>
    /** Those of the classes `hover`, `active`, `focus` that are on the host element. */
    var classes: set<string>
    var afterMouseDown: Handle
    var wayAfterMouseDown: Handle
    var afterMouseUp: Handle
    /** `delay(1)` callbacks scheduled by mousedown and by mouseup that have not run yet. */
    var pendingDownArms: nat
    var pendingUpArms: nat
    /** False once `ngOnDestroy` has ended the subscription that copies emissions into `latestStates`. */
    var subscribed: bool

    ghost predicate Valid()
      reads this
    {
      && Keys(stateMap) == StateMapOrder
      && (subscribed ==> latestStates == ComponentStatesOf(stateMap))
      && classes == (if applyState then ClassesFor(FlagsOf(stateMap)) else {})
    }

    function CurrentFlags(): Flags
      reads this
    {
      FlagsOf(stateMap)
    }

    constructor(hostId: string, applyState: bool)
      ensures Valid()
      ensures this.hostId == hostId && this.applyState == applyState
      ensures stateMap == InitialStateMap && CurrentFlags() == AllOff
      ensures latestStates == [Normal] && emitted == [] && classes == {}
      ensures afterMouseDown == Unset && wayAfterMouseDown == Unset && afterMouseUp == Unset
      ensures pendingDownArms == 0 && pendingUpArms == 0 && subscribed
    {
      this.hostId := hostId;
      this.applyState := applyState;
      stateMap := InitialStateMap;
      latestStates := [Normal];
      emitted := [];
      classes := {};
      afterMouseDown, wayAfterMouseDown, afterMouseUp := Unset, Unset, Unset;
      pendingDownArms, pendingUpArms := 0, 0;
      subscribed := true;
      new;
      ComponentStatesOfFlags(stateMap);
    }

    /** `this.stateMap.set(k, v)` on one of the map's own keys. */
    method SetState(k: ComponentState, v: bool)
      requires Keys(stateMap) == StateMapOrder && k != Normal
      modifies this`stateMap
      ensures Keys(stateMap) == StateMapOrder
      ensures CurrentFlags() == WithFlag(old(CurrentFlags()), k, v)
    {
      MapSetFlag(stateMap, k, v);
      stateMap := MapSet(stateMap, k, v);
    }

    /** `getAllComponentStates`: walk the map in order, collecting the keys that are on. */
    method GetAllComponentStates() returns (cs: seq<ComponentState>)
      ensures cs == ComponentStatesOf(stateMap)
    {
      cs := [];
      for i := 0 to |stateMap|
        invariant cs == TrueKeys(stateMap[..i])
      {
        assert stateMap[..i + 1][..i] == stateMap[..i];
        if stateMap[i].on {
          cs := cs + [stateMap[i].key];
        }
      }
      assert stateMap[..|stateMap|] == stateMap;
      if |cs| == 0 {
        cs := [Normal];
      }
    }

    /**
     * `componentStates.next(this.getAllComponentStates())`, followed by the
     * constructor's subscription copying the value into `latestStates`
     * for as long as it is subscribed.
     */
    method Emit()
      modifies this`emitted, this`latestStates
      ensures emitted == old(emitted) + [ComponentStatesOf(stateMap)]
      ensures latestStates == if subscribed then ComponentStatesOf(stateMap) else old(latestStates)
    {
      var cs := GetAllComponentStates();
      emitted := emitted + [cs];
      if subscribed {
        latestStates := cs;
      }
    }

    method OnMouseEnter()
      requires Valid()
      modifies this`stateMap, this`latestStates, this`emitted, this`classes
      ensures Valid()
      ensures CurrentFlags() == old(CurrentFlags()).(hover := true)
      ensures emitted == old(emitted) + [ComponentStatesOf(stateMap)]
      ensures !subscribed ==> latestStates == old(latestStates)
      ensures classes == if applyState then old(classes) + {"hover"} else old(classes)
    {
      SetState(Hover, true);
      Emit();
      if applyState {
        classes := classes + {"hover"};
      }
    }

    method OnMouseLeave()
      requires Valid()
      modifies this`stateMap, this`latestStates, this`emitted, this`classes
      ensures Valid()
      ensures CurrentFlags() == old(CurrentFlags()).(hover := false)
      ensures emitted == old(emitted) + [ComponentStatesOf(stateMap)]
      ensures !subscribed ==> latestStates == old(latestStates)
      ensures classes == if applyState then old(classes) - {"hover"} else old(classes)
    {
      SetState(Hover, false);
      Emit();
      if applyState {
        classes := classes - {"hover"};
      }
    }

    /**
     * Sets active, focus and pressed (hover is left as it was), registers
     * the global mouseup listener and schedules the arming of the global
     * mousedown ("click elsewhere") listener.
     */
    method OnMouseDown()
      requires Valid()
      modifies this`stateMap, this`latestStates, this`emitted, this`classes,
               this`afterMouseDown, this`pendingDownArms
      ensures Valid()
      ensures CurrentFlags() == old(CurrentFlags()).(active := true, focus := true, pressed := true)
      ensures emitted == old(emitted) + [ComponentStatesOf(stateMap)]
      ensures !subscribed ==> latestStates == old(latestStates)
      ensures classes == if applyState then old(classes) + {"active", "focus"} else old(classes)
      ensures afterMouseDown == Listening
      ensures pendingDownArms == old(pendingDownArms) + 1
    {
      SetState(Active, true);
      SetState(Focus, true);
      SetState(Pressed, true);
      Emit();
      if applyState {
        classes := classes + {"active"};
      }
      if applyState {
        classes := classes + {"focus"};
      }
      afterMouseDown := Listening;
      pendingDownArms := pendingDownArms + 1;
    }

    /** The `delay(1)` callback scheduled by mousedown: arms the global mousedown listener. */
    method OnMouseDownDelayElapsed()
      requires pendingDownArms > 0
      modifies this`wayAfterMouseDown, this`pendingDownArms
      ensures wayAfterMouseDown == Listening
      ensures pendingDownArms == old(pendingDownArms) - 1
    {
      wayAfterMouseDown := Listening;
      pendingDownArms := pendingDownArms - 1;
    }

    /**
     * The global mouseup: clears pressed and active, schedules the arming of
     * the global mouseup ("click elsewhere") listener and releases the
     * mouseup listener registered at mousedown.
     */
    method OnMouseUp()
      requires Valid()
      modifies this`stateMap, this`latestStates, this`emitted, this`classes,
               this`afterMouseDown, this`pendingUpArms
      ensures Valid()
      ensures CurrentFlags() == old(CurrentFlags()).(pressed := false, active := false)
      ensures emitted == old(emitted) + [ComponentStatesOf(stateMap)]
      ensures !subscribed ==> latestStates == old(latestStates)
      ensures classes == if applyState then old(classes) - {"active"} else old(classes)
      ensures afterMouseDown == Release(old(afterMouseDown))
      ensures pendingUpArms == old(pendingUpArms) + 1
    {
      SetState(Pressed, false);
      SetState(Active, false);
      Emit();
      if applyState {
        classes := classes - {"active"};
      }
      pendingUpArms := pendingUpArms + 1;
      afterMouseDown := Release(afterMouseDown);
    }

    /** The `delay(1)` callback scheduled by mouseup: arms the global mouseup listener. */
    method OnMouseUpDelayElapsed()
      requires pendingUpArms > 0
      modifies this`afterMouseUp, this`pendingUpArms
      ensures afterMouseUp == Listening
      ensures pendingUpArms == old(pendingUpArms) - 1
    {
      afterMouseUp := Listening;
      pendingUpArms := pendingUpArms - 1;
    }

    /**
     * A global press or release seen by an armed "click elsewhere" listener,
     * with the ids along the event's composed path. Focus is cleared only
     * when the last published list holds active, focus or pressed and no
     * HTMLElement on the path has the host's id; both transient listeners
     * are released in every case.
     */
    method OnClickElsewhere(path: seq<Option<string>>)
      requires Valid()
      modifies this`stateMap, this`latestStates, this`emitted, this`classes,
               this`wayAfterMouseDown, this`afterMouseUp
      ensures Valid()
      ensures var clears := HasEngagedState(old(latestStates)) && OutsideHost(path, hostId);
        && (clears ==> CurrentFlags() == old(CurrentFlags()).(focus := false))
        && (clears ==> emitted == old(emitted) + [ComponentStatesOf(stateMap)])
        && (clears ==> classes == if applyState then old(classes) - {"focus"} else old(classes))
        && (clears && !subscribed ==> latestStates == old(latestStates))
        && (!clears ==> stateMap == old(stateMap) && emitted == old(emitted)
                        && latestStates == old(latestStates) && classes == old(classes))
      ensures wayAfterMouseDown == Release(old(wayAfterMouseDown))
      ensures afterMouseUp == Release(old(afterMouseUp))
    {
      if HasEngagedState(latestStates) {
        if OutsideHost(path, hostId) {
          SetState(Focus, false);
          Emit();
          if applyState {
            classes := classes - {"focus"};
          }
        }
      }
      wayAfterMouseDown := Release(wayAfterMouseDown);
      afterMouseUp := Release(afterMouseUp);
    }

    /** Calls every stored unlisten handle that is set, then ends the subscription. */
    method NgOnDestroy()
      requires Valid()
      modifies this`afterMouseDown, this`wayAfterMouseDown, this`afterMouseUp, this`subscribed
      ensures Valid()
      ensures afterMouseDown == Release(old(afterMouseDown))
      ensures wayAfterMouseDown == Release(old(wayAfterMouseDown))
      ensures afterMouseUp == Release(old(afterMouseUp))
      ensures !subscribed
    {
      afterMouseDown := Release(afterMouseDown);
      wayAfterMouseDown := Release(wayAfterMouseDown);
      afterMouseUp := Release(afterMouseUp);
      subscribed := false;
    }
  }

  /** Pointer events on a host that is never pressed. */
  datatype HoverEvent = Enter | Leave | OutsideClick(path: seq<Option<string>>)

  /** What the directive emits for a run of such events: `[hover]`, `[normal]` or nothing. */
  function HoverLog(events: seq<HoverEvent>): seq<seq<ComponentState>>
  {
    if events == [] then []
    else
      HoverLog(events[..|events| - 1])
      + match events[|events| - 1]
        case Enter => [[Hover]]
        case Leave => [[Normal]]
        case OutsideClick(_) => []
  }

  /**
   * Without a press, enter and leave emit `[hover]` and `[normal]` in turn,
   * and a click elsewhere emits nothing.
   */
  method HoverOnlyRun(hostId: string, applyState: bool, events: seq<HoverEvent>)
    returns (log: seq<seq<ComponentState>>)
    ensures log == HoverLog(events)
  {
    var d := new ComponentStateDirective(hostId, applyState);
    for i := 0 to |events|
      invariant d.Valid() && d.subscribed
      invariant !d.CurrentFlags().active && !d.CurrentFlags().pressed && !d.CurrentFlags().focus
      invariant d.emitted == HoverLog(events[..i])
    {
      assert events[..i + 1][..i] == events[..i];
      match events[i]
      case Enter =>
        d.OnMouseEnter();
        ComponentStatesOfFlags(d.stateMap);
        assert d.emitted[|d.emitted| - 1] == [Hover];
        assert HoverLog(events[..i + 1]) == HoverLog(events[..i]) + [[Hover]];
      case Leave =>
        d.OnMouseLeave();
        ComponentStatesOfFlags(d.stateMap);
        assert d.emitted[|d.emitted| - 1] == [Normal];
        assert HoverLog(events[..i + 1]) == HoverLog(events[..i]) + [[Normal]];
      case OutsideClick(path) =>
        EngagedIffFlags(d.stateMap);
        d.OnClickElsewhere(path);
        assert d.emitted == HoverLog(events[..i]);
        assert HoverLog(events[..i + 1]) == HoverLog(events[..i]);
    }
    assert events[..|events|] == events;
    log := d.emitted;
  }

  /**
   * A press followed by a click outside the host before any release:
   * the press publishes active, pressed and focus; the outside click
   * removes focus and leaves active and pressed.
   */
  method PressThenClickOutside(hostId: string, path: seq<Option<string>>)
    returns (log: seq<seq<ComponentState>>)
    requires OutsideHost(path, hostId)
    ensures log == [[Active, Pressed, Focus], [Active, Pressed]]
  {
    var d := new ComponentStateDirective(hostId, true);
    d.OnMouseDown();
    ComponentStatesOfFlags(d.stateMap);
    assert ExpectedStates(Flags(false, true, true, true)) == [Active, Pressed, Focus];
    d.OnMouseDownDelayElapsed();
    EngagedIffFlags(d.stateMap);
    d.OnClickElsewhere(path);
    ComponentStatesOfFlags(d.stateMap);
    assert ExpectedStates(Flags(false, true, true, false)) == [Active, Pressed];
    log := d.emitted;
  }

  /**
   * A press and release without hover: the release removes pressed and
   * active, focus stays published and, with `applyState`, is the one class left.
   */
  method PressRelease(hostId: string, applyState: bool)
    returns (log: seq<seq<ComponentState>>, classes: set<string>)
    ensures log == [[Active, Pressed, Focus], [Focus]]
    ensures classes == if applyState then {"focus"} else {}
  {
    var d := new ComponentStateDirective(hostId, applyState);
    d.OnMouseDown();
    ComponentStatesOfFlags(d.stateMap);
    assert ExpectedStates(Flags(false, true, true, true)) == [Active, Pressed, Focus];
    d.OnMouseUp();
    ComponentStatesOfFlags(d.stateMap);
    assert ExpectedStates(Flags(false, false, false, true)) == [Focus];
    log, classes := d.emitted, d.classes;
  }

  /**
   * The `delay(1)` armings are not tied to the teardown: a press and a
   * release whose armings are still pending when `ngOnDestroy` runs leave
   * both global "click elsewhere" listeners live once the delays elapse.
   */
  method ArmingsOutliveTeardown(hostId: string, applyState: bool)
    returns (wayAfterMouseDown: Handle, afterMouseUp: Handle, subscribed: bool)
    ensures wayAfterMouseDown == Listening && afterMouseUp == Listening
    ensures !subscribed
  {
    var d := new ComponentStateDirective(hostId, applyState);
    d.OnMouseDown();
    d.OnMouseUp();
    d.NgOnDestroy();
    d.OnMouseDownDelayElapsed();
    d.OnMouseUpDelayElapsed();
    wayAfterMouseDown, afterMouseUp, subscribed := d.wayAfterMouseDown, d.afterMouseUp, d.subscribed;
  }

  /** A host without an id (id `''`) matches every id-less HTMLElement on the path. */
  lemma IdlessHostIsNeverOutside(path: seq<Option<string>>)
    requires Some("") in path
    ensures !OutsideHost(path, "")
  {
    var i :| 0 <= i < |path| && path[i] == Some("");
  }

  /**
   * A pressed host without an id keeps focus on a click elsewhere whose path
   * holds an HTMLElement without an id (such as `<body>`): the click emits
   * nothing and focus stays on.
   */
  method IdlessHostKeepsFocus(applyState: bool, path: seq<Option<string>>)
    returns (log: seq<seq<ComponentState>>, focusOn: bool)
    requires Some("") in path
    ensures log == [[Active, Pressed, Focus]]
    ensures focusOn
  {
    var d := new ComponentStateDirective("", applyState);
    d.OnMouseDown();
    ComponentStatesOfFlags(d.stateMap);
    assert ExpectedStates(Flags(false, true, true, true)) == [Active, Pressed, Focus];
    d.OnMouseDownDelayElapsed();
    IdlessHostIsNeverOutside(path);
    d.OnClickElsewhere(path);
    log, focusOn := d.emitted, d.CurrentFlags().focus;
  }
}

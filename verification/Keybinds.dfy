// Global keybinds over the native input hook (browser and X11 path). Events arrive in any order.
module Keybinds {
  import opened Prelude
  import opened ActionLog

  datatype Keybind = Keybind(actionId: string, keys: seq<int>, mouseButton: Option<int>)

  /** `Configured` tells whether the hook would start; key codes go through the table of known keys. */
  datatype Event =
    | KeyDown(code: int)
    | KeyUp(code: int)
    | MouseDown(button: int)
    | MouseUp(button: int)
    | Configured(keybinds: seq<Keybind>, hookStarts: bool)
    | Stopped

  datatype HookState = HookState(
    keybinds: seq<Keybind>, pressed: set<int>, active: seq<string>, started: bool, calls: seq<Call>)

  function Fresh(): HookState {
    HookState([], {}, [], false, [])
  }

  predicate UsesMouse(kb: Keybind) {
    kb.mouseButton.Some? && kb.mouseButton.value != 0
  }

  predicate AllPressed(kb: Keybind, pressed: set<int>) {
    forall k | k in kb.keys :: k in pressed
  }

  predicate KeysFire(kb: Keybind, pressed: set<int>) {
    !UsesMouse(kb) && kb.keys != [] && AllPressed(kb, pressed)
  }

  predicate MouseFires(kb: Keybind, pressed: set<int>, button: int) {
    kb.mouseButton == Some(button) && AllPressed(kb, pressed)
  }

  /** `keybinds.find`. */
  function Binding(keybinds: seq<Keybind>, id: string): Option<Keybind> {
    if keybinds == [] then None
    else if keybinds[0].actionId == id then Some(keybinds[0])
    else Binding(keybinds[1..], id)
  }

  function Press(s: HookState, id: string): HookState {
    if id in s.active then s else s.(active := s.active + [id], calls := s.calls + [Call(id, true)])
  }

  /** One pass over the bindings, pressing each idle one that fires; `button` is `None` for a key event. */
  function Fire(s: HookState, kbs: seq<Keybind>, button: Option<int>): HookState {
    if kbs == [] then s
    else
      var t, kb := Fire(s, kbs[..|kbs| - 1], button), kbs[|kbs| - 1];
      if Fires(kb, s.pressed, button) then Press(t, kb.actionId) else t
  }

  predicate Fires(kb: Keybind, pressed: set<int>, button: Option<int>) {
    match button
    case None => KeysFire(kb, pressed)
    case Some(b) => MouseFires(kb, pressed, b)
  }

  function Drop(s: HookState, keep: string -> bool): HookState {
    s.(active := Filter(keep, s.active), calls := s.calls + Releases(Filter(Not(keep), s.active)))
  }

  function KeptOnKeyUp(keybinds: seq<Keybind>, pressed: set<int>): string -> bool {
    (id: string) =>
      var kb := Binding(keybinds, id);
      kb.None? || UsesMouse(kb.value) || AllPressed(kb.value, pressed)
  }

  function KeptOnMouseUp(keybinds: seq<Keybind>, button: int): string -> bool {
    (id: string) =>
      var kb := Binding(keybinds, id);
      kb.None? || kb.value.mouseButton != Some(button)
  }

  function StillBound(keybinds: seq<Keybind>): string -> bool {
    (id: string) => exists kb | kb in keybinds :: kb.actionId == id
  }

  function StopHook(s: HookState): HookState {
    if s.started then HookState([], {}, [], false, s.calls + Releases(s.active)) else s.(keybinds := [])
  }

  function Configure(s: HookState, keybinds: seq<Keybind>, hookStarts: bool): HookState {
    var t := Drop(s.(keybinds := keybinds), StillBound(keybinds));
    var u := if keybinds != [] && !t.started then t.(started := hookStarts) else t;
    if keybinds == [] && u.started then StopHook(u) else u
  }

  /** The hook delivers input events only while it runs. */
  function Step(table: map<int, int>, s: HookState, event: Event): HookState {
    match event
    case KeyDown(code) =>
      if !s.started || code !in table then s
      else Fire(s.(pressed := s.pressed + {table[code]}), s.keybinds, None)
    case KeyUp(code) =>
      if !s.started || code !in table then s
      else
        var pressed := s.pressed - {table[code]};
        Drop(s.(pressed := pressed), KeptOnKeyUp(s.keybinds, pressed))
    case MouseDown(button) =>
      if !s.started || button <= 2 then s else Fire(s, s.keybinds, Some(button))
    case MouseUp(button) =>
      if !s.started || button <= 2 then s else Drop(s, KeptOnMouseUp(s.keybinds, button))
    case Configured(keybinds, hookStarts) => Configure(s, keybinds, hookStarts)
    case Stopped => StopHook(s)
  }

  function Run(table: map<int, int>, s: HookState, events: seq<Event>): HookState {
    if events == [] then s else Step(table, Run(table, s, events[..|events| - 1]), events[|events| - 1])
  }

  // ---- The class ----

  class KeybindManager {
    const table: map<int, int>
    var keybinds: seq<Keybind>
    var pressedKeys: set<int>
    var activeActions: seq<string>
    var started: bool
    var calls: seq<Call>

    ghost function State(): HookState
      reads this
    {
      HookState(keybinds, pressedKeys, activeActions, started, calls)
    }

    constructor (table: map<int, int>)
      ensures State() == Fresh() && this.table == table
    {
      this.table := table;
      keybinds, pressedKeys, activeActions, started, calls := [], {}, [], false, [];
    }

    method EvaluateKeybinds()
      modifies this`activeActions, this`calls
      ensures State() == Fire(old(State()), keybinds, None)
    {
      for i := 0 to |keybinds|
        invariant State() == Fire(old(State()), keybinds[..i], None)
      {
        var kb := keybinds[i];
        assert keybinds[..i + 1][..i] == keybinds[..i];
        FireFrame(old(State()), keybinds[..i], None);
        if kb.actionId in activeActions { continue; }
        if UsesMouse(kb) { continue; }
        if |kb.keys| == 0 { continue; }
        if forall k | k in kb.keys :: k in pressedKeys {
          activeActions := activeActions + [kb.actionId];
          calls := calls + [Call(kb.actionId, true)];
        }
      }
      assert keybinds[..|keybinds|] == keybinds;
    }

    method EvaluateKeybindsWithMouse(button: int)
      modifies this`activeActions, this`calls
      ensures State() == Fire(old(State()), keybinds, Some(button))
    {
      for i := 0 to |keybinds|
        invariant State() == Fire(old(State()), keybinds[..i], Some(button))
      {
        var kb := keybinds[i];
        assert keybinds[..i + 1][..i] == keybinds[..i];
        FireFrame(old(State()), keybinds[..i], Some(button));
        if kb.actionId in activeActions { continue; }
        if kb.mouseButton != Some(button) { continue; }
        if forall k | k in kb.keys :: k in pressedKeys {
          activeActions := activeActions + [kb.actionId];
          calls := calls + [Call(kb.actionId, true)];
        }
      }
      assert keybinds[..|keybinds|] == keybinds;
    }

    method CheckReleases()
      requires Distinct(activeActions)
      modifies this`activeActions, this`calls
      ensures State() == Drop(old(State()), KeptOnKeyUp(keybinds, pressedKeys))
    {
      hide Filter, Left, Gone, Remove, Binding, AllPressed;
      var ids := activeActions;
      ghost var keep := KeptOnKeyUp(keybinds, pressedKeys);
      DropEnds(keep, ids);
      for i := 0 to |ids|
        invariant activeActions == Left(keep, ids, i) && calls == old(calls) + Gone(keep, ids, i)
      {
        DropStep(keep, ids, i);
        var kb := Binding(keybinds, ids[i]);
        if kb.None? { continue; }
        if UsesMouse(kb.value) { continue; }
        if !AllPressed(kb.value, pressedKeys) {
          activeActions := Remove(activeActions, ids[i]);
          calls := calls + [Call(ids[i], false)];
        }
      }
    }

    method CheckMouseReleases(button: int)
      requires Distinct(activeActions)
      modifies this`activeActions, this`calls
      ensures State() == Drop(old(State()), KeptOnMouseUp(keybinds, button))
    {
      hide Filter, Left, Gone, Remove, Binding;
      var ids := activeActions;
      ghost var keep := KeptOnMouseUp(keybinds, button);
      DropEnds(keep, ids);
      for i := 0 to |ids|
        invariant activeActions == Left(keep, ids, i) && calls == old(calls) + Gone(keep, ids, i)
      {
        DropStep(keep, ids, i);
        var kb := Binding(keybinds, ids[i]);
        if kb.None? || kb.value.mouseButton != Some(button) { continue; }
        activeActions := Remove(activeActions, ids[i]);
        calls := calls + [Call(ids[i], false)];
      }
    }

    method ReleaseUnbound()
      requires Distinct(activeActions)
      modifies this`activeActions, this`calls
      ensures State() == Drop(old(State()), StillBound(keybinds))
    {
      hide Filter, Left, Gone, Remove;
      var ids := activeActions;
      ghost var keep := StillBound(keybinds);
      DropEnds(keep, ids);
      for i := 0 to |ids|
        invariant activeActions == Left(keep, ids, i) && calls == old(calls) + Gone(keep, ids, i)
      {
        DropStep(keep, ids, i);
        if !(exists kb | kb in keybinds :: kb.actionId == ids[i]) {
          calls := calls + [Call(ids[i], false)];
          activeActions := Remove(activeActions, ids[i]);
        }
      }
    }

    method OnKeyDown(code: int)
      requires started
      modifies this
      ensures State() == Step(table, old(State()), KeyDown(code))
    {
      if code !in table {
        return;
      }
      pressedKeys := pressedKeys + {table[code]};
      EvaluateKeybinds();
    }

    method OnKeyUp(code: int)
      requires started && Distinct(activeActions)
      modifies this
      ensures State() == Step(table, old(State()), KeyUp(code))
    {
      if code !in table {
        return;
      }
      pressedKeys := pressedKeys - {table[code]};
      CheckReleases();
    }

    method OnMouseDown(button: int)
      requires started
      modifies this
      ensures State() == Step(table, old(State()), MouseDown(button))
    {
      if button <= 2 {
        return;
      }
      EvaluateKeybindsWithMouse(button);
    }

    method OnMouseUp(button: int)
      requires started && Distinct(activeActions)
      modifies this
      ensures State() == Step(table, old(State()), MouseUp(button))
    {
      if button <= 2 {
        return;
      }
      CheckMouseReleases(button);
    }

    method UpdateKeybinds(keybinds: seq<Keybind>, hookStarts: bool)
      requires Distinct(activeActions)
      modifies this
      ensures State() == Step(table, old(State()), Configured(keybinds, hookStarts))
    {
      hide Filter, Releases;
      this.keybinds := keybinds;
      ReleaseUnbound();
      if |keybinds| > 0 && !started {
        started := hookStarts;
      }
      if |keybinds| == 0 && started {
        Stop();
      }
    }

    method Stop()
      modifies this
      ensures State() == StopHook(old(State()))
    {
      keybinds := [];
      if !started {
        return;
      }
      for i := 0 to |activeActions|
        invariant State() == old(State()).(keybinds := [], calls := calls)
        invariant calls == old(calls) + Releases(activeActions[..i])
      {
        calls := calls + [Call(activeActions[i], false)];
      }
      assert activeActions[..|activeActions|] == activeActions;
      activeActions := [];
      pressedKeys := {};
      started := false;
    }
  }

  // ---- What every run keeps ----

  /** Calls and held set agree, only bound actions are held, and a stopped hook holds nothing. */
  ghost predicate Sound(s: HookState) {
    && Tracks(s.active, s.calls)
    && (!s.started ==> s.active == [] && s.pressed == {})
    && (forall id | id in s.active :: StillBound(s.keybinds)(id))
  }

  lemma {:induction false} FireFrame(s: HookState, kbs: seq<Keybind>, button: Option<int>)
    ensures var t := Fire(s, kbs, button);
            t.keybinds == s.keybinds && t.pressed == s.pressed && t.started == s.started
  {
    if kbs != [] { FireFrame(s, kbs[..|kbs| - 1], button); }
  }

  predicate FiringAction(kbs: seq<Keybind>, pressed: set<int>, button: Option<int>, id: string) {
    exists i :: 0 <= i < |kbs| && kbs[i].actionId == id && Fires(kbs[i], pressed, button)
  }

  /** A pass holds what was held and every action one of whose bindings fires, nothing else. */
  lemma {:induction false} FireHolds(s: HookState, kbs: seq<Keybind>, button: Option<int>, id: string)
    ensures id in Fire(s, kbs, button).active <==> id in s.active || FiringAction(kbs, s.pressed, button, id)
  {
    if kbs != [] {
      var n := |kbs| - 1;
      var init, kb := kbs[..n], kbs[n];
      FireHolds(s, init, button, id);
      assert forall i :: 0 <= i < n ==> init[i] == kbs[i];
      assert FiringAction(kbs, s.pressed, button, id) <==>
        FiringAction(init, s.pressed, button, id) || (kb.actionId == id && Fires(kb, s.pressed, button));
    }
  }

  lemma {:induction false} FireTracks(s: HookState, kbs: seq<Keybind>, button: Option<int>)
    requires Tracks(s.active, s.calls)
    ensures Tracks(Fire(s, kbs, button).active, Fire(s, kbs, button).calls)
  {
    hide Tracks, Fires;
    if kbs != [] {
      var t, kb := Fire(s, kbs[..|kbs| - 1], button), kbs[|kbs| - 1];
      FireTracks(s, kbs[..|kbs| - 1], button);
      if kb.actionId !in t.active { PressTracks(t.active, t.calls, kb.actionId); }
    }
  }

  lemma FireSound(s: HookState, button: Option<int>)
    requires Sound(s) && s.started
    ensures Sound(Fire(s, s.keybinds, button))
  {
    hide Tracks, Fire;
    FireTracks(s, s.keybinds, button);
    FireFrame(s, s.keybinds, button);
    forall id | id in Fire(s, s.keybinds, button).active ensures StillBound(s.keybinds)(id) {
      FireHolds(s, s.keybinds, button, id);
      if id !in s.active {
        var i :| 0 <= i < |s.keybinds| && s.keybinds[i].actionId == id && Fires(s.keybinds[i], s.pressed, button);
        assert s.keybinds[i] in s.keybinds;
      }
    }
  }

  lemma DropSound(s: HookState, keep: string -> bool)
    requires Sound(s)
    ensures Sound(Drop(s, keep))
  {
    hide Tracks, StillBound;
    ReleaseTracks(s.active, s.calls, keep);
  }

  lemma StopSound(s: HookState)
    requires Tracks(s.active, s.calls) && (!s.started ==> s.active == [] && s.pressed == {})
    ensures Sound(StopHook(s)) && !StopHook(s).started
  {
    ReleaseEach(s.active, s.calls, s.active);
  }

  lemma ConfigureSound(s: HookState, keybinds: seq<Keybind>, hookStarts: bool)
    requires Sound(s)
    ensures Sound(Configure(s, keybinds, hookStarts))
    ensures keybinds == [] ==> !Configure(s, keybinds, hookStarts).started
  {
    hide Tracks, StillBound, StopHook;
    ReleaseTracks(s.active, s.calls, StillBound(keybinds));
    var t := Drop(s.(keybinds := keybinds), StillBound(keybinds));
    if keybinds == [] && t.started { StopSound(t); }
  }

  lemma StepSound(table: map<int, int>, s: HookState, event: Event)
    requires Sound(s)
    ensures Sound(Step(table, s, event))
  {
    hide Tracks, Fire, Drop, Configure, StopHook, StillBound, KeptOnKeyUp, KeptOnMouseUp;
    match event
    case KeyDown(code) => if s.started && code in table { FireSound(s.(pressed := s.pressed + {table[code]}), None); }
    case KeyUp(code) =>
      if s.started && code in table {
        var pressed := s.pressed - {table[code]};
        DropSound(s.(pressed := pressed), KeptOnKeyUp(s.keybinds, pressed));
      }
    case MouseDown(button) => if s.started { FireSound(s, Some(button)); }
    case MouseUp(button) => DropSound(s, KeptOnMouseUp(s.keybinds, button));
    case Configured(keybinds, hookStarts) => ConfigureSound(s, keybinds, hookStarts);
    case Stopped => StopSound(s);
  }

  lemma {:induction false} RunSound(table: map<int, int>, s: HookState, events: seq<Event>)
    requires Sound(s)
    ensures Sound(Run(table, s, events))
  {
    hide Sound, Step;
    if events != [] {
      RunSound(table, s, events[..|events| - 1]);
      StepSound(table, Run(table, s, events[..|events| - 1]), events[|events| - 1]);
    }
  }

  /** Every run: calls alternate per action, and a stopped hook holds no action. */
  lemma PressesAlternate(table: map<int, int>, events: seq<Event>, id: string)
    ensures var s := Run(table, Fresh(), events);
            && PressReleasePress(Filter(Of(id), s.calls))
            && (id in s.active <==> |Filter(Of(id), s.calls)| % 2 == 1)
            && (!s.started ==> |Filter(Of(id), s.calls)| % 2 == 0)
  {
    var s := Run(table, Fresh(), events);
    assert Tracks([], []);
    RunSound(table, Fresh(), events);
    AlternatesPerAction(s.calls, id);
  }

  // ---- Held exactly while its keys are down ----

  predicate UniqueActions(kbs: seq<Keybind>) {
    forall i, j :: 0 <= i < j < |kbs| ==> kbs[i].actionId != kbs[j].actionId
  }

  predicate KeyboardBinding(kb: Keybind) {
    !UsesMouse(kb) && kb.keys != []
  }

  /** Every keyboard binding whose keys are all down is held. */
  ghost predicate PressedIsHeld(s: HookState) {
    forall i :: 0 <= i < |s.keybinds| && KeyboardBinding(s.keybinds[i]) && AllPressed(s.keybinds[i], s.pressed)
                ==> s.keybinds[i].actionId in s.active
  }

  /** Every held keyboard binding has all its keys down. */
  ghost predicate HeldIsPressed(s: HookState) {
    forall i :: 0 <= i < |s.keybinds| && KeyboardBinding(s.keybinds[i]) && s.keybinds[i].actionId in s.active
                ==> AllPressed(s.keybinds[i], s.pressed)
  }

  predicate IsInput(event: Event) {
    !event.Configured? && !event.Stopped?
  }

  lemma {:induction false} BindingOfUnique(kbs: seq<Keybind>, i: int)
    requires UniqueActions(kbs) && 0 <= i < |kbs|
    ensures Binding(kbs, kbs[i].actionId) == Some(kbs[i])
  {
    if i > 0 {
      assert kbs[1..][i - 1] == kbs[i];
      BindingOfUnique(kbs[1..], i - 1);
    }
  }

  /** With unique actions, an action fires iff its one binding does. */
  lemma FiresUnique(kbs: seq<Keybind>, pressed: set<int>, button: Option<int>, i: int)
    requires UniqueActions(kbs) && 0 <= i < |kbs|
    ensures FiringAction(kbs, pressed, button, kbs[i].actionId) <==> Fires(kbs[i], pressed, button)
  {
    if FiringAction(kbs, pressed, button, kbs[i].actionId) {
      var j :| 0 <= j < |kbs| && kbs[j].actionId == kbs[i].actionId && Fires(kbs[j], pressed, button);
      assert !(i < j) && !(j < i);
    }
  }

  lemma InputFrame(table: map<int, int>, s: HookState, event: Event)
    requires IsInput(event)
    ensures Step(table, s, event).keybinds == s.keybinds && Step(table, s, event).started == s.started
  {
    match event
    case KeyDown(code) => if code in table { FireFrame(s.(pressed := s.pressed + {table[code]}), s.keybinds, None); }
    case KeyUp(code) =>
    case MouseDown(button) => FireFrame(s, s.keybinds, Some(button));
    case MouseUp(button) =>
  }

  /** What an input step does to one keyboard binding, `other` actions aside. */
  lemma InputOnBinding(table: map<int, int>, s: HookState, event: Event, i: int)
    requires IsInput(event) && s.started && UniqueActions(s.keybinds) && 0 <= i < |s.keybinds|
    requires KeyboardBinding(s.keybinds[i])
    ensures var t, kb := Step(table, s, event), s.keybinds[i];
            var held, now := kb.actionId in s.active, kb.actionId in t.active;
            match event
            case KeyDown(code) =>
              t.pressed == (if code in table then s.pressed + {table[code]} else s.pressed)
              && (now <==> held || (code in table && AllPressed(kb, t.pressed)))
            case KeyUp(code) =>
              t.pressed == (if code in table then s.pressed - {table[code]} else s.pressed)
              && (now <==> held && (code !in table || AllPressed(kb, t.pressed)))
            case _ => t.pressed == s.pressed && (now <==> held)
  {
    hide Filter, Fire, Binding, AllPressed;
    var kb := s.keybinds[i];
    BindingOfUnique(s.keybinds, i);
    match event
    case KeyDown(code) =>
      if code in table {
        var u := s.(pressed := s.pressed + {table[code]});
        FireFrame(u, s.keybinds, None);
        FireHolds(u, s.keybinds, None, kb.actionId);
        FiresUnique(s.keybinds, u.pressed, None, i);
      }
    case KeyUp(code) =>
    case MouseDown(button) =>
      FireFrame(s, s.keybinds, Some(button));
      FireHolds(s, s.keybinds, Some(button), kb.actionId);
      FiresUnique(s.keybinds, s.pressed, Some(button), i);
    case MouseUp(button) =>
  }

  lemma MorePressed(kb: Keybind, few: set<int>, many: set<int>)
    requires few <= many && AllPressed(kb, few)
    ensures AllPressed(kb, many)
  {
  }

  predicate MappedDown(table: map<int, int>, event: Event) {
    event.KeyDown? && event.code in table
  }

  predicate MappedUp(table: map<int, int>, event: Event) {
    event.KeyUp? && event.code in table
  }

  /** Input steps keep either direction; a mapped key-down establishes the first, a mapped key-up the second. */
  lemma InputRestores(table: map<int, int>, s: HookState, event: Event)
    requires IsInput(event) && s.started && UniqueActions(s.keybinds)
    ensures PressedIsHeld(s) || MappedDown(table, event) ==> PressedIsHeld(Step(table, s, event))
    ensures HeldIsPressed(s) || MappedUp(table, event) ==> HeldIsPressed(Step(table, s, event))
  {
    hide Step, AllPressed;
    var t := Step(table, s, event);
    InputFrame(table, s, event);
    forall i | 0 <= i < |s.keybinds| && KeyboardBinding(s.keybinds[i])
      ensures (PressedIsHeld(s) || MappedDown(table, event)) && AllPressed(s.keybinds[i], t.pressed)
              ==> s.keybinds[i].actionId in t.active
      ensures (HeldIsPressed(s) || MappedUp(table, event)) && s.keybinds[i].actionId in t.active
              ==> AllPressed(s.keybinds[i], t.pressed)
    {
      var kb := s.keybinds[i];
      InputOnBinding(table, s, event, i);
      if AllPressed(kb, s.pressed) && s.pressed <= t.pressed { MorePressed(kb, s.pressed, t.pressed); }
      if AllPressed(kb, t.pressed) && t.pressed <= s.pressed { MorePressed(kb, t.pressed, s.pressed); }
    }
  }

  ghost predicate AllInput(events: seq<Event>) {
    forall i :: 0 <= i < |events| ==> IsInput(events[i])
  }

  ghost predicate SomeDown(table: map<int, int>, events: seq<Event>) {
    exists i :: 0 <= i < |events| && MappedDown(table, events[i])
  }

  ghost predicate SomeUp(table: map<int, int>, events: seq<Event>) {
    exists i :: 0 <= i < |events| && MappedUp(table, events[i])
  }

  lemma {:induction false} InputRun(table: map<int, int>, s: HookState, events: seq<Event>)
    requires AllInput(events) && s.started && UniqueActions(s.keybinds)
    ensures var t := Run(table, s, events);
            && t.keybinds == s.keybinds && t.started
            && (PressedIsHeld(s) || SomeDown(table, events) ==> PressedIsHeld(t))
            && (HeldIsPressed(s) || SomeUp(table, events) ==> HeldIsPressed(t))
  {
    hide Step, PressedIsHeld, HeldIsPressed;
    if events != [] {
      var n := |events| - 1;
      var init := events[..n];
      assert forall i :: 0 <= i < n ==> init[i] == events[i];
      InputRun(table, s, init);
      InputFrame(table, Run(table, s, init), events[n]);
      InputRestores(table, Run(table, s, init), events[n]);
      assert SomeDown(table, events) ==> SomeDown(table, init) || MappedDown(table, events[n]);
      assert SomeUp(table, events) ==> SomeUp(table, init) || MappedUp(table, events[n]);
    }
  }

  /** Since the hook started, while the configuration stands: a keyboard binding is held iff all its keys are down. */
  lemma HeldIffPressed(table: map<int, int>, before: seq<Event>, keybinds: seq<Keybind>, events: seq<Event>, i: int)
    requires !Run(table, Fresh(), before).started
    requires UniqueActions(keybinds) && AllInput(events) && 0 <= i < |keybinds| && KeyboardBinding(keybinds[i])
    ensures var t := Run(table, Step(table, Run(table, Fresh(), before), Configured(keybinds, true)), events);
            t.started && t.keybinds == keybinds &&
            (keybinds[i].actionId in t.active <==> AllPressed(keybinds[i], t.pressed))
  {
    var s := Run(table, Fresh(), before);
    var u := Step(table, s, Configured(keybinds, true));
    assert Tracks([], []);
    RunSound(table, Fresh(), before);
    assert u.keybinds == keybinds && u.started && u.active == [] && u.pressed == {};
    NothingPressed(u);
    InputRun(table, u, events);
  }

  lemma NothingPressed(s: HookState)
    requires s.active == [] && s.pressed == {}
    ensures PressedIsHeld(s) && HeldIsPressed(s)
  {
    forall i | 0 <= i < |s.keybinds| && KeyboardBinding(s.keybinds[i]) ensures !AllPressed(s.keybinds[i], s.pressed) {
      var k := s.keybinds[i].keys[0];
      assert k in s.keybinds[i].keys && k !in s.pressed;
    }
  }

  /** After a configuration change, the first mapped key-down and the first mapped key-up restore the two halves. */
  lemma RestoredAfterChange(table: map<int, int>, s: HookState, keybinds: seq<Keybind>, hookStarts: bool,
                            events: seq<Event>)
    requires s.started && keybinds != [] && UniqueActions(keybinds) && AllInput(events)
    ensures var t := Run(table, Step(table, s, Configured(keybinds, hookStarts)), events);
            && (SomeDown(table, events) ==> PressedIsHeld(t))
            && (SomeUp(table, events) ==> HeldIsPressed(t))
  {
    var u := Step(table, s, Configured(keybinds, hookStarts));
    assert u.keybinds == keybinds && u.started;
    InputRun(table, u, events);
  }

  // ---- Which held actions input can release ----

  /** Input can release it: a keyboard binding with a key, or a binding to a button above 2. */
  predicate Releasable(kb: Keybind) {
    KeyboardBinding(kb) || (kb.mouseButton.Some? && kb.mouseButton.value > 2)
  }

  /** Only mapped keys are ever down. */
  ghost predicate KeysMapped(table: map<int, int>, s: HookState) {
    forall k | k in s.pressed :: exists code :: code in table && table[code] == k
  }

  lemma StepMapped(table: map<int, int>, s: HookState, event: Event)
    requires KeysMapped(table, s)
    ensures KeysMapped(table, Step(table, s, event))
  {
    hide Fire, Filter;
    match event
    case KeyDown(code) => if code in table { FireFrame(s.(pressed := s.pressed + {table[code]}), s.keybinds, None); }
    case MouseDown(button) => FireFrame(s, s.keybinds, Some(button));
    case _ =>
  }

  lemma {:induction false} RunMapped(table: map<int, int>, events: seq<Event>)
    ensures KeysMapped(table, Run(table, Fresh(), events))
  {
    hide Step, KeysMapped;
    if events == [] {
      FreshMapped(table);
    } else {
      RunMapped(table, events[..|events| - 1]);
      StepMapped(table, Run(table, Fresh(), events[..|events| - 1]), events[|events| - 1]);
    }
  }

  lemma FreshMapped(table: map<int, int>)
    ensures KeysMapped(table, Fresh())
  {
  }

  /** No input releases any other held action. */
  lemma {:induction false} HeldThroughInput(table: map<int, int>, s: HookState, id: string, events: seq<Event>)
    requires AllInput(events) && s.started && id in s.active
    requires Binding(s.keybinds, id).Some? && !Releasable(Binding(s.keybinds, id).value)
    ensures Run(table, s, events).keybinds == s.keybinds && Run(table, s, events).started
    ensures id in Run(table, s, events).active
  {
    hide Fire, Filter, Binding;
    if events != [] {
      var n := |events| - 1;
      HeldThroughInput(table, s, id, events[..n]);
      var t := Run(table, s, events[..n]);
      InputFrame(table, t, events[n]);
      match events[n]
      case KeyDown(code) =>
        if code in table { FireHolds(t.(pressed := t.pressed + {table[code]}), t.keybinds, None, id); }
      case MouseDown(button) => FireHolds(t, t.keybinds, Some(button), id);
      case _ =>
    }
  }

  /** A mapped key whose release leaves the binding incomplete. */
  lemma SomeKey(table: map<int, int>, s: HookState, kb: Keybind) returns (code: int)
    requires KeysMapped(table, s) && (exists c :: c in table) && KeyboardBinding(kb)
    ensures code in table && !AllPressed(kb, s.pressed - {table[code]})
  {
    var k := kb.keys[0];
    assert k in kb.keys;
    if k in s.pressed {
      code :| code in table && table[code] == k;
    } else {
      code :| code in table;
    }
  }

  lemma OneInputReleases(table: map<int, int>, s: HookState, id: string) returns (event: Event)
    requires KeysMapped(table, s) && (exists c :: c in table) && s.started && id in s.active
    requires Binding(s.keybinds, id).Some? && Releasable(Binding(s.keybinds, id).value)
    ensures IsInput(event) && id !in Step(table, s, event).active
  {
    hide Filter, Binding, AllPressed;
    var kb := Binding(s.keybinds, id).value;
    if KeyboardBinding(kb) {
      var code := SomeKey(table, s, kb);
      event := KeyUp(code);
    } else {
      event := MouseUp(kb.mouseButton.value);
    }
  }

  lemma {:induction false} BindingOfBound(keybinds: seq<Keybind>, id: string)
    requires StillBound(keybinds)(id)
    ensures Binding(keybinds, id).Some?
  {
    if keybinds[0].actionId != id {
      assert keybinds == [keybinds[0]] + keybinds[1..];
      BindingOfBound(keybinds[1..], id);
    }
  }

  /**
   * After any run, some further input releases a held action iff its first binding has keys and no button, or a
   * button above 2: an action rebound otherwise stays held until the configuration changes or the hook stops.
   */
  lemma ReleasableIff(table: map<int, int>, before: seq<Event>, id: string)
    requires (exists c :: c in table)
    requires Run(table, Fresh(), before).started && id in Run(table, Fresh(), before).active
    ensures var s := Run(table, Fresh(), before);
            && Binding(s.keybinds, id).Some?
            && (Releasable(Binding(s.keybinds, id).value)
                <==> exists events :: AllInput(events) && id !in Run(table, s, events).active)
  {
    hide Step, Releasable, KeysMapped, Binding;
    var s := Run(table, Fresh(), before);
    assert Tracks([], []);
    RunSound(table, Fresh(), before);
    RunMapped(table, before);
    assert StillBound(s.keybinds)(id);
    BindingOfBound(s.keybinds, id);
    if Releasable(Binding(s.keybinds, id).value) {
      var event := OneInputReleases(table, s, id);
      RunOne(table, s, event);
      assert AllInput([event]);
    } else {
      forall events | AllInput(events) ensures id in Run(table, s, events).active {
        HeldThroughInput(table, s, id, events);
      }
    }
  }

  lemma RunOne(table: map<int, int>, s: HookState, event: Event)
    ensures Run(table, s, [event]) == Step(table, s, event)
  {
    assert [event][..0] == [];
  }

  /** Such an action arises: held by its key, then rebound without one, it outlasts every input. */
  lemma ReboundWithoutKeysSticks(events: seq<Event>)
    requires AllInput(events)
    ensures var table, bound, rebound := map[30 := 7], [Keybind("ptt", [7], None)], [Keybind("ptt", [], None)];
            "ptt" in Run(table, Rebound(table, bound, rebound), events).active
  {
    hide Fire, Binding, Configure;
    var table, bound, rebound := map[30 := 7], [Keybind("ptt", [7], None)], [Keybind("ptt", [], None)];
    HeldByKey(table, bound);
    ReboundHolds(Step(table, Step(table, Fresh(), Configured(bound, true)), KeyDown(30)), rebound[0]);
    OneBinding(rebound[0]);
    HeldThroughInput(table, Rebound(table, bound, rebound), "ptt", events);
  }

  /** So does one rebound to a button the hook ignores, whatever its keys. */
  lemma ReboundToLowButtonSticks(keys: seq<int>, events: seq<Event>)
    requires AllInput(events)
    ensures var table, bound, rebound := map[30 := 7], [Keybind("ptt", [7], None)], [Keybind("ptt", keys, Some(1))];
            "ptt" in Run(table, Rebound(table, bound, rebound), events).active
  {
    hide Fire, Binding, Configure;
    var table, bound, rebound := map[30 := 7], [Keybind("ptt", [7], None)], [Keybind("ptt", keys, Some(1))];
    HeldByKey(table, bound);
    ReboundHolds(Step(table, Step(table, Fresh(), Configured(bound, true)), KeyDown(30)), rebound[0]);
    OneBinding(rebound[0]);
    HeldThroughInput(table, Rebound(table, bound, rebound), "ptt", events);
  }

  /** The state after configuring, pressing key code 30 and configuring again. */
  function Rebound(table: map<int, int>, bound: seq<Keybind>, rebound: seq<Keybind>): HookState {
    Step(table, Step(table, Step(table, Fresh(), Configured(bound, true)), KeyDown(30)), Configured(rebound, true))
  }

  lemma HeldByKey(table: map<int, int>, bound: seq<Keybind>)
    requires table == map[30 := 7] && bound == [Keybind("ptt", [7], None)]
    ensures var s := Step(table, Step(table, Fresh(), Configured(bound, true)), KeyDown(30));
            s.started && "ptt" in s.active
  {
    hide Fire;
    var started := Step(table, Fresh(), Configured(bound, true));
    var down := started.(pressed := started.pressed + {7});
    FireFrame(down, bound, None);
    FireHolds(down, bound, None, "ptt");
    assert bound[0].actionId == "ptt" && Fires(bound[0], down.pressed, None);
  }

  lemma OneBinding(kb: Keybind)
    ensures Binding([kb], kb.actionId) == Some(kb) && StillBound([kb])(kb.actionId)
  {
    assert kb in [kb];
  }

  lemma ReboundHolds(s: HookState, kb: Keybind)
    requires s.started && kb.actionId in s.active
    ensures var t := Configure(s, [kb], true); t.started && t.keybinds == [kb] && kb.actionId in t.active
  {
    hide Binding;
    OneBinding(kb);
  }

  // ---- Mouse buttons ----

  /** The mapped keys held down once `events` went by, none being down before. */
  function KeysDown(table: map<int, int>, events: seq<Event>): set<int> {
    if events == [] then {}
    else
      var before, last := KeysDown(table, events[..|events| - 1]), events[|events| - 1];
      if MappedDown(table, last) then before + {table[last.code]}
      else if MappedUp(table, last) then before - {table[last.code]}
      else before
  }

  /** The press at `i` fired the binding and its button has not gone up since. */
  ghost predicate FiredAt(table: map<int, int>, kb: Keybind, events: seq<Event>, i: int) {
    && 0 <= i < |events| && kb.mouseButton.Some?
    && events[i] == MouseDown(kb.mouseButton.value) && AllPressed(kb, KeysDown(table, events[..i]))
    && forall j :: i < j < |events| ==> events[j] != MouseUp(kb.mouseButton.value)
  }

  ghost predicate FiredSinceRelease(table: map<int, int>, kb: Keybind, events: seq<Event>) {
    exists i :: FiredAt(table, kb, events, i)
  }

  lemma FiredStep(table: map<int, int>, kb: Keybind, events: seq<Event>)
    requires events != [] && kb.mouseButton.Some?
    ensures var n := |events| - 1;
            FiredSinceRelease(table, kb, events) <==>
              && events[n] != MouseUp(kb.mouseButton.value)
              && (FiredSinceRelease(table, kb, events[..n])
                  || (events[n] == MouseDown(kb.mouseButton.value) && AllPressed(kb, KeysDown(table, events[..n]))))
  {
    hide AllPressed, KeysDown;
    var n := |events| - 1;
    forall i | 0 <= i < n ensures FiredAt(table, kb, events, i)
                                  <==> FiredAt(table, kb, events[..n], i) && events[n] != MouseUp(kb.mouseButton.value)
    {
      assert events[..n][..i] == events[..i];
      assert forall j :: 0 <= j < n ==> events[..n][j] == events[j];
    }
    assert FiredAt(table, kb, events, n) <==>
      events[n] == MouseDown(kb.mouseButton.value) && AllPressed(kb, KeysDown(table, events[..n]));
  }

  /** One input step on a binding to a button above 2. */
  lemma InputOnButton(table: map<int, int>, s: HookState, event: Event, i: int)
    requires IsInput(event) && s.started && UniqueActions(s.keybinds) && 0 <= i < |s.keybinds|
    requires s.keybinds[i].mouseButton.Some? && s.keybinds[i].mouseButton.value > 2
    ensures var kb, t := s.keybinds[i], Step(table, s, event);
            kb.actionId in t.active <==>
              && event != MouseUp(kb.mouseButton.value)
              && (kb.actionId in s.active || (event == MouseDown(kb.mouseButton.value) && AllPressed(kb, s.pressed)))
  {
    hide Filter, Fire, Binding, AllPressed;
    var kb := s.keybinds[i];
    BindingOfUnique(s.keybinds, i);
    match event
    case KeyDown(code) =>
      if code in table {
        var u := s.(pressed := s.pressed + {table[code]});
        FireHolds(u, s.keybinds, None, kb.actionId);
        FiresUnique(s.keybinds, u.pressed, None, i);
      }
    case KeyUp(code) =>
    case MouseDown(button) =>
      FireHolds(s, s.keybinds, Some(button), kb.actionId);
      FiresUnique(s.keybinds, s.pressed, Some(button), i);
    case MouseUp(button) =>
  }

  lemma InputKeys(table: map<int, int>, s: HookState, event: Event)
    requires IsInput(event) && s.started
    ensures Step(table, s, event).pressed
         == if MappedDown(table, event) then s.pressed + {table[event.code]}
            else if MappedUp(table, event) then s.pressed - {table[event.code]} else s.pressed
  {
    hide Filter, Fire;
    match event
    case KeyDown(code) => if code in table { FireFrame(s.(pressed := s.pressed + {table[code]}), s.keybinds, None); }
    case MouseDown(button) => FireFrame(s, s.keybinds, Some(button));
    case _ =>
  }

  lemma {:induction false} ButtonRun(table: map<int, int>, s: HookState, events: seq<Event>, i: int)
    requires AllInput(events) && s.started && s.active == [] && s.pressed == {} && UniqueActions(s.keybinds)
    requires 0 <= i < |s.keybinds| && s.keybinds[i].mouseButton.Some? && s.keybinds[i].mouseButton.value > 2
    ensures var t := Run(table, s, events);
            && t.keybinds == s.keybinds && t.started && t.pressed == KeysDown(table, events)
            && (s.keybinds[i].actionId in t.active <==> FiredSinceRelease(table, s.keybinds[i], events))
  {
    hide Step, AllPressed, FiredAt;
    if events == [] {
      assert !FiredSinceRelease(table, s.keybinds[i], []) by { NothingFired(table, s.keybinds[i]); }
    } else {
      var n := |events| - 1;
      var init := events[..n];
      assert forall j :: 0 <= j < n ==> init[j] == events[j];
      ButtonRun(table, s, init, i);
      var t := Run(table, s, init);
      InputFrame(table, t, events[n]);
      InputKeys(table, t, events[n]);
      InputOnButton(table, t, events[n], i);
      FiredStep(table, s.keybinds[i], events);
    }
  }

  lemma NothingFired(table: map<int, int>, kb: Keybind)
    ensures !FiredSinceRelease(table, kb, [])
  {
  }

  /**
   * Since the hook started and while the configuration stands: a binding to a button above 2 is held iff a press of
   * the button with its keys down came after the button's last release.
   */
  lemma HeldIffButtonFired(table: map<int, int>, before: seq<Event>, keybinds: seq<Keybind>, events: seq<Event>, i: int)
    requires !Run(table, Fresh(), before).started
    requires UniqueActions(keybinds) && AllInput(events) && 0 <= i < |keybinds|
    requires keybinds[i].mouseButton.Some? && keybinds[i].mouseButton.value > 2
    ensures var t := Run(table, Step(table, Run(table, Fresh(), before), Configured(keybinds, true)), events);
            keybinds[i].actionId in t.active <==> FiredSinceRelease(table, keybinds[i], events)
  {
    hide FiredSinceRelease;
    assert Tracks([], []);
    RunSound(table, Fresh(), before);
    ButtonRun(table, Step(table, Run(table, Fresh(), before), Configured(keybinds, true)), events, i);
  }

  /** A binding no input fires: to a button up to 2, or to neither a button nor a key. */
  predicate Inert(kb: Keybind) {
    if UsesMouse(kb) then kb.mouseButton.value <= 2 else kb.keys == []
  }

  lemma InertStep(table: map<int, int>, s: HookState, event: Event, i: int)
    requires IsInput(event) && s.started && UniqueActions(s.keybinds) && 0 <= i < |s.keybinds|
    requires Inert(s.keybinds[i]) && s.keybinds[i].actionId !in s.active
    ensures s.keybinds[i].actionId !in Step(table, s, event).active
  {
    hide Filter, Fire, Binding, AllPressed;
    var kb := s.keybinds[i];
    match event
    case KeyDown(code) =>
      if code in table {
        var u := s.(pressed := s.pressed + {table[code]});
        FireHolds(u, s.keybinds, None, kb.actionId);
        FiresUnique(s.keybinds, u.pressed, None, i);
      }
    case MouseDown(button) =>
      FireHolds(s, s.keybinds, Some(button), kb.actionId);
      FiresUnique(s.keybinds, s.pressed, Some(button), i);
    case _ =>
  }

  lemma {:induction false} InertRun(table: map<int, int>, s: HookState, events: seq<Event>, i: int)
    requires AllInput(events) && s.started && s.active == [] && s.pressed == {} && UniqueActions(s.keybinds)
    requires 0 <= i < |s.keybinds| && Inert(s.keybinds[i])
    ensures var t := Run(table, s, events); t.keybinds == s.keybinds && t.started && s.keybinds[i].actionId !in t.active
  {
    hide Step, AllPressed;
    if events != [] {
      var n := |events| - 1;
      assert forall j :: 0 <= j < n ==> events[..n][j] == events[j];
      InertRun(table, s, events[..n], i);
      InputFrame(table, Run(table, s, events[..n]), events[n]);
      InertStep(table, Run(table, s, events[..n]), events[n], i);
    }
  }

  /** Since the hook started and while the configuration stands, such a binding is never held. */
  lemma InertNeverHeld(table: map<int, int>, before: seq<Event>, keybinds: seq<Keybind>, events: seq<Event>, i: int)
    requires !Run(table, Fresh(), before).started
    requires UniqueActions(keybinds) && AllInput(events) && 0 <= i < |keybinds| && Inert(keybinds[i])
    ensures var t := Run(table, Step(table, Run(table, Fresh(), before), Configured(keybinds, true)), events);
            keybinds[i].actionId !in t.active
  {
    assert Tracks([], []);
    RunSound(table, Fresh(), before);
    InertRun(table, Step(table, Run(table, Fresh(), before), Configured(keybinds, true)), events, i);
  }
}

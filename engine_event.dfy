/** src/engine/event/mod.rs: the key sets the game reads input from. A key
    is "pressed" only in the frame it went down and "held" until it comes
    up. The SDL event pump is replaced by the list of events it yields in
    one frame; only the key, quit and mouse-motion branches matter. */
module EngineEvent {
  import opened Geometry

  /** `EventStore`: held keys, keys pressed this frame, and the mouse. */
  class EventStore<K(==)> {
    var held: set<K>
    var pressed: set<K>
    var mouse: Vec2

    function State(quit: bool): InputState<K>
      reads this
    {
      InputState(held, pressed, mouse, quit)
    }

    constructor ()
      ensures held == {} && pressed == {} && mouse == Vec2(0, 0)
    {
      held := {};
      pressed := {};
      mouse := Vec2(0, 0);
    }

    /** `clear_pressed_keys`: forget this frame's presses; held keys stay. */
    method ClearPressedKeys()
      modifies this
      ensures pressed == {} && held == old(held) && mouse == old(mouse)
    {
      pressed := {};
    }

    /** `press_key`: the key is both pressed and held. */
    method PressKey(key: K)
      modifies this
      ensures pressed == old(pressed) + {key} && held == old(held) + {key} && mouse == old(mouse)
    {
      pressed := pressed + {key};
      held := held + {key};
    }

    /** `raise_key`: the key is no longer held; a press this frame stays. */
    method RaiseKey(key: K)
      modifies this
      ensures held == old(held) - {key} && pressed == old(pressed) && mouse == old(mouse)
    {
      held := held - {key};
    }

    /** `set_mose_position`. */
    method SetMousePosition(position: Vec2)
      modifies this
      ensures mouse == position && held == old(held) && pressed == old(pressed)
    {
      mouse := position;
    }

    /** `is_key_pressed`. */
    predicate IsKeyPressed(key: K)
      reads this
    {
      key in pressed
    }

    /** `is_key_held`. */
    predicate IsKeyHeld(key: K)
      reads this
    {
      key in held
    }

    /** `get_mouse_position`. */
    function GetMousePosition(): Vec2
      reads this
    {
      mouse
    }
  }

  /** The events of one frame that the update distinguishes; a key event
      may carry no keycode. */
  datatype InputEvent<K> = Quit | KeyDown(key: Option<K>) | KeyUp(key: Option<K>) | MouseMotion(position: Vec2) | OtherEvent

  /** The event store's sets and mouse, plus the `is_quit` flag of `Events`. */
  datatype InputState<K> = InputState(held: set<K>, pressed: set<K>, mouse: Vec2, quit: bool)

  /** One event's effect: quit sets the flag; a key going down is pressed
      only if it is not already held; a key going up is released; motion
      moves the mouse. */
  function Step<K>(s: InputState<K>, e: InputEvent<K>): InputState<K> {
    match e
    case Quit => s.(quit := true)
    case KeyDown(Some(k)) => if k in s.held then s else s.(pressed := s.pressed + {k}, held := s.held + {k})
    case KeyUp(Some(k)) => s.(held := s.held - {k})
    case MouseMotion(p) => s.(mouse := p)
    case _ => s
  }

  /** The state after the events, taken in order. */
  function ApplyAll<K>(s: InputState<K>, events: seq<InputEvent<K>>): InputState<K>
    decreases |events|
  {
    if events == [] then s else Step(ApplyAll(s, events[..|events| - 1]), events[|events| - 1])
  }

  /** `Events`: the quit flag; `update` runs one frame of events. */
  class Events {
    var isQuit: bool

    constructor ()
      ensures !isQuit
    {
      isQuit := false;
    }

    /** `Events::update`: clear this frame's presses, then apply the events
        in order. */
    method Update<K(==)>(store: EventStore<K>, events: seq<InputEvent<K>>)
      modifies this, store
      ensures store.State(isQuit) == ApplyAll(InputState(old(store.held), {}, old(store.mouse), old(isQuit)), events)
    {
      store.ClearPressedKeys();
      ghost var start := store.State(isQuit);
      var i := 0;
      while i < |events|
        invariant i <= |events|
        invariant store.State(isQuit) == ApplyAll(start, events[..i])
      {
        assert events[..i + 1][..i] == events[..i];
        match events[i] {
          case Quit =>
            isQuit := true;
          case KeyDown(key) =>
            if key.Some? && !store.IsKeyHeld(key.value) {
              store.PressKey(key.value);
            }
          case KeyUp(key) =>
            if key.Some? {
              store.RaiseKey(key.value);
            }
          case MouseMotion(p) =>
            store.SetMousePosition(p);
          case OtherEvent =>
        }
        i := i + 1;
      }
      assert events[..|events|] == events;
    }
  }

  /** Pressing is edge-triggered: a key held at the start of the frame and
      not released during it is not pressed in that frame, however many
      key-down events repeat for it. */
  lemma {:induction false} HeldKeyNotPressed<K>(s: InputState<K>, events: seq<InputEvent<K>>, k: K)
    requires k in s.held && k !in s.pressed
    requires forall i :: 0 <= i < |events| ==> events[i] != KeyUp(Some(k))
    ensures k in ApplyAll(s, events).held && k !in ApplyAll(s, events).pressed
    decreases |events|
  {
    if events != [] {
      HeldKeyNotPressed(s, events[..|events| - 1], k);
    }
  }

  /** A key pressed at the end of a frame that began with no presses went
      down during it, while not held; and every such key is held unless it
      came up again. */
  lemma {:induction false} PressedCameFromKeyDown<K>(s: InputState<K>, events: seq<InputEvent<K>>, k: K)
    requires k !in s.pressed
    requires k in ApplyAll(s, events).pressed
    ensures exists i :: 0 <= i < |events| && events[i] == KeyDown(Some(k))
    decreases |events|
  {
    var last := |events| - 1;
    if k in ApplyAll(s, events[..last]).pressed {
      PressedCameFromKeyDown(s, events[..last], k);
      var i :| 0 <= i < last && events[..last][i] == KeyDown(Some(k));
      assert events[i] == KeyDown(Some(k));
    } else {
      assert events[last] == KeyDown(Some(k));
    }
  }

  /** The mouse ends where the last motion event put it, or stays put. */
  lemma {:induction false} MouseFollowsLastMotion<K>(s: InputState<K>, events: seq<InputEvent<K>>, p: Vec2)
    requires |events| > 0 && events[|events| - 1] == MouseMotion(p)
    ensures ApplyAll(s, events).mouse == p
  {
  }

  /** Without motion events the mouse does not move, and without key events
      the key sets do not change. */
  lemma {:induction false} UnrelatedEventsKeepState<K>(s: InputState<K>, events: seq<InputEvent<K>>)
    requires forall i :: 0 <= i < |events| ==> events[i] == Quit || events[i] == OtherEvent
    ensures ApplyAll(s, events).held == s.held && ApplyAll(s, events).pressed == s.pressed
    ensures ApplyAll(s, events).mouse == s.mouse
    ensures ApplyAll(s, events).quit == (s.quit || Quit in events)
    decreases |events|
  {
    if events != [] {
      var last := |events| - 1;
      UnrelatedEventsKeepState(s, events[..last]);
      assert Quit in events <==> Quit in events[..last] || events[last] == Quit by {
        assert events == events[..last] + [events[last]];
      }
    }
  }
}

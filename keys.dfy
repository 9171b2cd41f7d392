/**
 * The key bindings of src/keybinds.rs: a three-state edge detector per
 * action (off, pressed this frame, held) and the table from each action to
 * its keys and current state.
 *
 * Raw keyboard polling (`is_key_down`) is an input: the set of keys held
 * down this frame.
 */
module Keys {

  datatype KeyAction = Boost | Pause

  /** Boost and Pause are the only actions: a table binding both binds every action. */
  lemma BindsEveryAction<V>(m: map<KeyAction, V>)
    requires Boost in m && Pause in m
    ensures forall a: KeyAction :: a in m
  {
    forall a: KeyAction
      ensures a in m
    {
      match a
      case Boost =>
      case Pause =>
    }
  }

  /** The keys of macroquad's `KeyCode` that the bindings name; every other key is `Other`. */
  datatype KeyCode = W | Up | Escape | Other(code: nat)

  /** `PressedState`: the state of an action as of the last update. */
  datatype PressedState = JustPressed | Pressed | Off {

    /** `is_just_pressed`: the action went down at the last update. */
    function IsJustPressed(): (b: bool)
      ensures b <==> this == JustPressed
      ensures b ==> IsPressed()
    {
      match this
      case JustPressed => true
      case Pressed => false
      case Off => false
    }

    /** `is_pressed`: the action is down, whether newly or not. */
    function IsPressed(): (b: bool)
      ensures b <==> this != Off
    {
      match this
      case JustPressed => true
      case Pressed => true
      case Off => false
    }

    /** `is_not_pressed`: exactly the released state. */
    function IsNotPressed(): (b: bool)
      ensures b <==> this == Off
      ensures b <==> !IsPressed()
    {
      !IsPressed()
    }

    /**
     * `update`: the state after one more frame with the action `down` or not.
     * The result is pressed exactly when the action is down, and newly pressed
     * exactly when it was off before.
     */
    function Update(down: bool): (next: PressedState)
      ensures next.IsPressed() <==> down
      ensures next.IsJustPressed() <==> down && this == Off
    {
      match (this, down)
      case (Off, true) => JustPressed
      case (_, true) => Pressed
      case (_, false) => Off
    }
  }

  /** The state after the key has been held for `frames` updates, starting from `s`. */
  function Held(s: PressedState, frames: nat): PressedState
  {
    if frames == 0 then s else Held(s, frames - 1).Update(true)
  }

  /**
   * Holding a key reports "just pressed" on the first update only, and only
   * if the key was up before; from the second update on it reports "pressed".
   */
  lemma {:induction false} HeldJustPressedOnce(s: PressedState, frames: nat)
    requires frames >= 1
    ensures Held(s, frames).IsPressed()
    ensures Held(s, frames).IsJustPressed() <==> frames == 1 && s == Off
    ensures frames >= 2 ==> Held(s, frames) == Pressed
  {
    if frames >= 2 {
      HeldJustPressedOnce(s, frames - 1);
    }
  }

  /** `key_codes.iter().any(is_key_down)`: some key of the list is down. */
  function AnyDown(keys: seq<KeyCode>, down: set<KeyCode>): (b: bool)
    ensures b <==> exists i :: 0 <= i < |keys| && keys[i] in down
  {
    if keys == [] then false
    else if keys[0] in down then true
    else
      var rest := AnyDown(keys[1..], down);
      assert forall i :: 1 <= i < |keys| ==> keys[i] == keys[1..][i - 1];
      rest
  }

  /** One entry of the table: the keys bound to an action and the action's state. */
  datatype Binding = Binding(keys: seq<KeyCode>, state: PressedState)

  /** The table after one frame of `Keybinds::update`: each state advanced from its own keys. */
  function Refreshed(mappings: map<KeyAction, Binding>, down: set<KeyCode>): map<KeyAction, Binding>
  {
    map a | a in mappings :: Binding(mappings[a].keys, mappings[a].state.Update(AnyDown(mappings[a].keys, down)))
  }

  /**
   * An update changes no action and no key list, and afterwards an action is
   * pressed exactly when one of its keys is down, newly so exactly when it
   * was off before.
   */
  lemma RefreshedKeepsBindings(mappings: map<KeyAction, Binding>, down: set<KeyCode>)
    ensures Refreshed(mappings, down).Keys == mappings.Keys
    ensures forall a :: a in mappings ==>
      && Refreshed(mappings, down)[a].keys == mappings[a].keys
      && (Refreshed(mappings, down)[a].state.IsPressed() <==> exists k :: k in mappings[a].keys && k in down)
      && (Refreshed(mappings, down)[a].state.IsJustPressed() <==> AnyDown(mappings[a].keys, down) && mappings[a].state == Off)
  {
    forall a | a in mappings
      ensures Refreshed(mappings, down)[a].state.IsPressed() <==> exists k :: k in mappings[a].keys && k in down
    {
      var keys := mappings[a].keys;
      if AnyDown(keys, down) {
        var i :| 0 <= i < |keys| && keys[i] in down;
        assert keys[i] in keys;
      }
    }
  }

  /** `default_map`: Boost on W and Up, Pause on Escape, both released. */
  function DefaultMap(): (m: map<KeyAction, Binding>)
    ensures forall a: KeyAction :: a in m
    ensures forall a :: a in m ==> m[a].state == Off
    ensures m[Boost].keys == [W, Up] && m[Pause].keys == [Escape]
  {
    var m := map[Boost := Binding([W, Up], Off), Pause := Binding([Escape], Off)];
    BindsEveryAction(m);
    m
  }

  class Keybinds {
    var mappings: map<KeyAction, Binding>

    /** Every action is bound: what `expect("All KeyActions should be valid key mappings")` relies on. */
    ghost predicate Total()
      reads this
    {
      forall a: KeyAction :: a in mappings
    }

    /** `Keybinds::default()`: the default map. */
    constructor ()
      ensures Total()
      ensures mappings == DefaultMap()
    {
      mappings := DefaultMap();
    }

    /** `update`: advances every action's state from whether any of its keys is down. */
    method Update(down: set<KeyCode>)
      modifies this
      ensures mappings == Refreshed(old(mappings), down)
      ensures old(Total()) ==> Total()
    {
      var todo := mappings.Keys;
      while todo != {}
        invariant mappings.Keys == old(mappings).Keys && todo <= mappings.Keys
        invariant forall a :: a in todo ==> mappings[a] == old(mappings)[a]
        invariant forall a :: a in mappings && a !in todo ==> mappings[a] == Refreshed(old(mappings), down)[a]
        decreases todo
      {
        var a :| a in todo;
        var entry := mappings[a];
        mappings := mappings[a := Binding(entry.keys, entry.state.Update(AnyDown(entry.keys, down)))];
        todo := todo - {a};
      }
    }

    /** `add_key`: appends `key` to the keys of `action`, which must be bound. */
    method AddKey(action: KeyAction, key: KeyCode)
      requires action in mappings
      modifies this
      ensures mappings.Keys == old(mappings).Keys
      ensures mappings[action] == Binding(old(mappings)[action].keys + [key], old(mappings)[action].state)
      ensures forall a :: a in mappings && a != action ==> mappings[a] == old(mappings)[a]
    {
      var entry := mappings[action];
      mappings := mappings[action := Binding(entry.keys + [key], entry.state)];
    }

    /** `get_keys`: the keys bound to an action that must be bound; with `get`, the whole entry. */
    function GetKeys(action: KeyAction): (keys: seq<KeyCode>)
      reads this
      requires action in mappings
      ensures Binding(keys, Get(action)) == mappings[action]
    {
      mappings[action].keys
    }

    /** `get`: the state of an action that must be bound. */
    function Get(action: KeyAction): (s: PressedState)
      reads this
      requires action in mappings
    {
      mappings[action].state
    }
  }
}

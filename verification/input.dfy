/**
 * The keypad of src/input/input.go: a double buffer of key states, and
 * the listener's two event bodies (a key press, and the scan that
 * releases keys not pressed again for `releaseDelay`). Time is an integer
 * count of nanoseconds passed in by the caller.
 */
module Input {
  import opened Bytes

  /** `time.Second / 5`, in nanoseconds. */
  const ReleaseDelay: int := 200_000_000

  /** The keys the listener reacts to, after lower-casing: "0"-"9" and "a"-"f". */
  const KeyMap: map<string, Byte> := map[
    "0" := 0x0, "1" := 0x1, "2" := 0x2, "3" := 0x3,
    "4" := 0x4, "5" := 0x5, "6" := 0x6, "7" := 0x7,
    "8" := 0x8, "9" := 0x9, "a" := 0xA, "b" := 0xB,
    "c" := 0xC, "d" := 0xD, "e" := 0xE, "f" := 0xF]

  /**
   * The keyboard state: the key states the interpreter sees now and saw
   * one update earlier, the states the listener is collecting, and the
   * time of the last press of every key held down.
   */
  datatype Keys = Keys(current: seq<bool>, prev: seq<bool>, temp: seq<bool>, keysDown: map<Byte, int>)

  /** Three 16-key arrays, and only keypad keys held down. */
  predicate Wf(k: Keys) {
    |k.current| == 16 && |k.prev| == 16 && |k.temp| == 16
    && forall key :: key in k.keysDown ==> key < 16
  }

  /** `IsPressed` on the key state `k`: down at the last update. */
  predicate IsPressedIn(k: Keys, key: Byte)
    requires Wf(k) && key < 16
  {
    k.current[key]
  }

  /** `JustPressed` on the key state `k`: down now, up at the previous update. */
  predicate JustPressedIn(k: Keys, key: Byte)
    requires Wf(k) && key < 16
  {
    k.current[key] && !k.prev[key]
  }

  /** `JustReleased` on the key state `k`: up now, down at the previous update. */
  predicate JustReleasedIn(k: Keys, key: Byte)
    requires Wf(k) && key < 16
  {
    !k.current[key] && k.prev[key]
  }

  /** `DoKeyEventUpdates`: the current states become the previous ones, the collected ones current. */
  function Updated(k: Keys): Keys {
    k.(prev := k.current, current := k.temp)
  }

  /** ASCII lower-casing, the part of `strings.ToLower` that can produce a key of the map. */
  function Lower(c: char): char {
    if 'A' <= c <= 'Z' then (c as int + 32) as char else c
  }

  /** A key event for rune `c` at time `now`: a keypad key is marked down and time-stamped. */
  function Pressed(k: Keys, c: char, now: int): Keys
    requires Wf(k)
  {
    var s := [Lower(c)];
    if s in KeyMap then
      KeyMapRange(s);
      k.(keysDown := k.keysDown[KeyMap[s] := now], temp := k.temp[KeyMap[s] := true])
    else k
  }

  /** The press of `key` was at least `ReleaseDelay` before `now`. */
  predicate Expired(k: Keys, now: int, key: int) {
    0 <= key < 0x100 && key as Byte in k.keysDown && now - k.keysDown[key as Byte] >= ReleaseDelay
  }

  /**
   * The release scan with the keys in `pending` not yet visited: every
   * visited expired key is gone from `keysDown` and up in `temp`.
   */
  function ReleasedExcept(k: Keys, now: int, pending: set<Byte>): Keys
    requires Wf(k)
  {
    k.(keysDown := map key | key in k.keysDown && (key in pending || !Expired(k, now, key)) :: k.keysDown[key],
       temp := seq(16, j requires 0 <= j < 16 =>
                 if Expired(k, now, j) && j as Byte !in pending then false else k.temp[j]))
  }

  /** The whole release scan. */
  function Released(k: Keys, now: int): Keys
    requires Wf(k)
  {
    ReleasedExcept(k, now, {})
  }

  lemma KeyMapRange(s: string)
    requires s in KeyMap
    ensures KeyMap[s] < 16
  {
  }

  // ---------------------------------------------------------------------
  // Properties of the keypad

  /** The characters of `KeyMap` are the digits "0"-"9" and the letters "a"-"f". */
  lemma KeyMapKeys()
    ensures forall s :: s in KeyMap ==> |s| == 1 && ('0' <= s[0] <= '9' || 'a' <= s[0] <= 'f')
  {
  }

  /** No two characters of `KeyMap` name the same key. */
  lemma KeyMapInjective()
    ensures forall s, t :: s in KeyMap && t in KeyMap && KeyMap[s] == KeyMap[t] ==> s == t
  {
  }

  /** Every one of the sixteen keys has a character in `KeyMap`. */
  lemma KeyMapOnto(key: Byte)
    requires key < 16
    ensures key in KeyMap.Values
  {
    var s := ["0123456789abcdef"[key]];
    assert KeyMap[s] == key;
  }

  /** A key is never just pressed and just released at once; just pressed means down, just released up. */
  lemma Transitions(k: Keys, key: Byte)
    requires Wf(k) && key < 16
    ensures !(JustPressedIn(k, key) && JustReleasedIn(k, key))
    ensures JustPressedIn(k, key) ==> IsPressedIn(k, key)
    ensures JustReleasedIn(k, key) ==> !IsPressedIn(k, key)
    ensures JustPressedIn(k, key) || JustReleasedIn(k, key) <==> k.current[key] != k.prev[key]
  {
  }

  /**
   * An update shows what the listener collected; a second update with
   * nothing collected in between leaves no key just pressed or just
   * released.
   */
  lemma UpdateTwice(k: Keys, key: Byte)
    requires Wf(k) && key < 16
    ensures Wf(Updated(k)) && IsPressedIn(Updated(k), key) == k.temp[key]
    ensures Updated(k).temp == k.temp && Updated(k).keysDown == k.keysDown
    ensures !JustPressedIn(Updated(Updated(k)), key) && !JustReleasedIn(Updated(Updated(k)), key)
  {
  }

  /**
   * A key event for a mapped character marks exactly that key down and
   * stamps it with `now`; any other character changes nothing. Lower and
   * upper case letters are the same key.
   */
  lemma PressEffect(k: Keys, c: char, now: int)
    requires Wf(k)
    ensures Wf(Pressed(k, c, now))
    ensures [Lower(c)] !in KeyMap ==> Pressed(k, c, now) == k
    ensures [Lower(c)] in KeyMap ==>
      var key, k' := KeyMap[[Lower(c)]], Pressed(k, c, now);
      && key < 16 && k'.temp[key] && key in k'.keysDown && k'.keysDown[key] == now
      && (forall j :: 0 <= j < 16 && j != key ==> k'.temp[j] == k.temp[j])
      && (forall j :: j in k.keysDown && j != key ==> j in k'.keysDown && k'.keysDown[j] == k.keysDown[j])
      && k'.current == k.current && k'.prev == k.prev
    ensures 'A' <= c <= 'F' ==> Pressed(k, c, now) == Pressed(k, (c as int + 32) as char, now)
  {
  }

  /** A key pressed and then taken up by an update is seen as pressed. */
  lemma PressThenUpdate(k: Keys, c: char, now: int)
    requires Wf(k) && [Lower(c)] in KeyMap
    ensures Wf(Pressed(k, c, now)) && KeyMap[[Lower(c)]] < 16
    ensures IsPressedIn(Updated(Pressed(k, c, now)), KeyMap[[Lower(c)]])
  {
    PressEffect(k, c, now);
  }

  /**
   * The release scan touches only keys pressed at least `ReleaseDelay`
   * ago: those leave `keysDown` and are up in `temp`; every other key
   * keeps its entry and its state. The interpreter's view is unchanged.
   */
  lemma ReleaseEffect(k: Keys, now: int)
    requires Wf(k)
    ensures var k' := Released(k, now);
      && Wf(k')
      && (forall key: Byte :: key in k.keysDown && now - k.keysDown[key] >= ReleaseDelay ==>
            key !in k'.keysDown && !k'.temp[key])
      && (forall key: Byte :: key in k.keysDown && now - k.keysDown[key] < ReleaseDelay ==>
            key in k'.keysDown && k'.keysDown[key] == k.keysDown[key])
      && (forall j :: 0 <= j < 16 && !Expired(k, now, j) ==> k'.temp[j] == k.temp[j])
      && k'.keysDown.Keys <= k.keysDown.Keys
      && k'.current == k.current && k'.prev == k.prev
  {
  }

  /** The keyboard object: the three key arrays and the held-down map, updated in place. */
  class Keyboard {
    var current: seq<bool>
    var prev: seq<bool>
    var temp: seq<bool>
    var keysDown: map<Byte, int>

    ghost function State(): Keys
      reads this
    {
      Keys(current, prev, temp, keysDown)
    }

    ghost predicate Valid()
      reads this
    {
      Wf(State())
    }

    /** `IsPressed`: the key is down at the last update. */
    function IsPressed(key: Byte): (pressed: bool)
      requires Valid() && key < 16
      reads this
      ensures pressed == IsPressedIn(State(), key)
    {
      current[key]
    }

    /** `JustPressed`: the key went down at the last update, so it is pressed. */
    function JustPressed(key: Byte): (went: bool)
      requires Valid() && key < 16
      reads this
      ensures went == JustPressedIn(State(), key)
      ensures went ==> IsPressed(key) && !JustReleased(key)
    {
      current[key] && !prev[key]
    }

    /** `JustReleased`: the key went up at the last update, so it is not pressed. */
    function JustReleased(key: Byte): (went: bool)
      requires Valid() && key < 16
      reads this
      ensures went == JustReleasedIn(State(), key)
      ensures went ==> !IsPressed(key)
    {
      !current[key] && prev[key]
    }

    /** Go's zero value: every key up, no map yet (an empty one here). */
    constructor()
      ensures Valid()
      ensures current == seq(16, _ => false) && prev == current && temp == current && keysDown == map[]
    {
      current := seq(16, _ => false);
      prev := seq(16, _ => false);
      temp := seq(16, _ => false);
      keysDown := map[];
    }

    /** `Start` without the listener goroutine: a fresh, empty held-down map. */
    method Start()
      requires Valid()
      modifies this
      ensures Valid() && State() == old(State()).(keysDown := map[])
    {
      keysDown := map[];
    }

    method DoKeyEventUpdates()
      requires Valid()
      modifies this
      ensures Valid() && State() == Updated(old(State()))
    {
      prev := current;
      current := temp;
    }

    /** The listener's body for a key event with rune `c`, at time `now`. */
    method Press(c: char, now: int)
      requires Valid()
      modifies this
      ensures Valid() && State() == Pressed(old(State()), c, now)
    {
      var pressedChar := [Lower(c)];
      if pressedChar in KeyMap {
        var charIdx := KeyMap[pressedChar];
        KeyMapRange(pressedChar);
        keysDown := keysDown[charIdx := now];
        temp := temp[charIdx := true];
      }
    }

    /**
     * The listener's body when no event is waiting: visit every held-down
     * key once, in any order, and release those pressed at least
     * `ReleaseDelay` before `now`.
     */
    method ReleaseScan(now: int)
      requires Valid()
      modifies this
      ensures Valid() && State() == Released(old(State()), now)
    {
      ghost var k0 := State();
      var pending := keysDown.Keys;
      while pending != {}
        invariant pending <= k0.keysDown.Keys
        invariant State() == ReleasedExcept(k0, now, pending)
        decreases pending
      {
        var key :| key in pending;
        var t := keysDown[key];
        if now - t >= ReleaseDelay {
          keysDown := map k | k in keysDown && k != key :: keysDown[k];
          temp := temp[key := false];
        }
        pending := pending - {key};
      }
    }
  }
}

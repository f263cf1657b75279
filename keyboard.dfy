/**
 * The keypad (scripts/keyboard.mjs): a fixed map from host key codes to the
 * sixteen CHIP-8 keys, the pressed state of each key, and a one-shot slot for
 * the continuation of the wait-for-key opcode.
 *
 * Host events arrive as method calls carrying the host key code (the source
 * registers window listeners instead). The slot held a JavaScript closure; the
 * only closure ever stored there is the one Fx0A builds, so the model stores
 * its defunctionalised form, `StoreKeyAndResume(x)`, and the keyboard hands it
 * back, with the key, when it fires.
 */
module Keypad {
  import opened Bytes

  /** Host key code (KeyboardEvent.which) to keypad value. */
  const KEYMAP: map<int, nibble> := map[
    49 := 0x1, 50 := 0x2, 51 := 0x3, 52 := 0xC,
    81 := 0x4, 87 := 0x5, 69 := 0x6, 82 := 0xD,
    65 := 0x7, 83 := 0x8, 68 := 0x9, 70 := 0xE,
    90 := 0xA, 88 := 0x0, 67 := 0xB, 86 := 0xF
  ]

  /** The continuation Fx0A registers: store the key into register Vx and resume. */
  datatype Callback = StoreKeyAndResume(register: nibble)

  /** `isKeyPressed(k)`: a key never touched, or any k outside 0..15, reads as released. */
  predicate IsPressed(pressed: seq<bool>, k: int)
  {
    0 <= k < |pressed| && pressed[k]
  }

  /**
   * The pressed state after a key event. An unmapped code writes the array's
   * `undefined` property, which no numeric query reads, so it changes nothing
   * observable.
   */
  function AfterKeyEvent(pressed: seq<bool>, code: int, down: bool): (r: seq<bool>)
    requires |pressed| == 16
    ensures |r| == 16
    ensures code in KEYMAP ==> (IsPressed(r, KEYMAP[code]) <==> down)
    ensures forall k :: (code !in KEYMAP || k != KEYMAP[code]) ==> (IsPressed(r, k) <==> IsPressed(pressed, k))
  {
    if code in KEYMAP then pressed[KEYMAP[code] := down] else pressed
  }

  /**
   * The call a key-down makes: the registered continuation with the mapped key,
   * when a continuation is registered and the key is truthy. The truthiness
   * test rejects both an unmapped code and the key 0x0.
   */
  function Fire(slot: Option<Callback>, code: int): (r: Option<(Callback, nibble)>)
    ensures r.Some? <==> slot.Some? && code in KEYMAP && KEYMAP[code] != 0
    ensures r.Some? ==> r.value == (slot.value, KEYMAP[code])
  {
    if slot.Some? && code in KEYMAP && KEYMAP[code] != 0 then Some((slot.value, KEYMAP[code])) else None
  }

  class Keyboard {
    var keyPressed: seq<bool>
    var onNextKeyPress: Option<Callback>

    ghost predicate Valid()
      reads this
    {
      |keyPressed| == 16
    }

    constructor ()
      ensures Valid()
      ensures onNextKeyPress == None
      ensures forall k :: !IsKeyPressed(k)
    {
      keyPressed := seq(16, _ => false);
      onNextKeyPress := None;
    }

    predicate IsKeyPressed(k: int)
      reads this
      ensures IsKeyPressed(k) ==> 0 <= k < |keyPressed|
    {
      IsPressed(keyPressed, k)
    }

    /**
     * Marks the mapped key pressed, then, if a continuation is registered and
     * the key is nonzero, returns it with the key (the source calls it here)
     * and clears the slot.
     */
    method OnKeyDown(code: int) returns (fired: Option<(Callback, nibble)>)
      requires Valid()
      modifies this
      ensures Valid()
      ensures keyPressed == AfterKeyEvent(old(keyPressed), code, true)
      ensures fired == Fire(old(onNextKeyPress), code)
      ensures onNextKeyPress == if fired.Some? then None else old(onNextKeyPress)
    {
      if code in KEYMAP {
        keyPressed := keyPressed[KEYMAP[code] := true];
      }
      fired := None;
      if onNextKeyPress != None && code in KEYMAP && KEYMAP[code] != 0 {
        fired := Some((onNextKeyPress.value, KEYMAP[code]));
        onNextKeyPress := None;
      }
    }

    /** Marks the mapped key released; the slot is untouched. */
    method OnKeyUp(code: int)
      requires Valid()
      modifies this
      ensures Valid()
      ensures keyPressed == AfterKeyEvent(old(keyPressed), code, false)
      ensures onNextKeyPress == old(onNextKeyPress)
    {
      if code in KEYMAP {
        keyPressed := keyPressed[KEYMAP[code] := false];
      }
    }
  }

  /** The host code of each keypad value: the inverse of KEYMAP. */
  const HOST_CODE: seq<int> := [88, 49, 50, 51, 81, 87, 69, 65, 83, 68, 90, 67, 52, 82, 70, 86]

  /** Every keypad value 0x0..0xF is reached, from the host code HOST_CODE lists for it. */
  lemma KeymapOnto()
    ensures forall k: nibble :: HOST_CODE[k] in KEYMAP && KEYMAP[HOST_CODE[k]] == k
  {
  }

  /** HOST_CODE undoes KEYMAP, so no two host codes share a keypad value. */
  lemma KeymapInjective()
    ensures forall c :: c in KEYMAP ==> HOST_CODE[KEYMAP[c]] == c
    ensures forall a, b :: a in KEYMAP && b in KEYMAP && KEYMAP[a] == KEYMAP[b] ==> a == b
  {
  }

  /** Whatever happened before, the last event for a key decides what isKeyPressed reports. */
  lemma {:induction false} LatestEventWins(pressed: seq<bool>, codes: seq<int>, downs: seq<bool>, j: nat)
    requires |pressed| == 16 && |codes| == |downs| && j < |codes| && codes[j] in KEYMAP
    requires forall t :: j < t < |codes| ==> codes[t] !in KEYMAP || KEYMAP[codes[t]] != KEYMAP[codes[j]]
    ensures IsPressed(Replay(pressed, codes, downs), KEYMAP[codes[j]]) <==> downs[j]
  {
    var n := |codes| - 1;
    if j < n {
      LatestEventWins(pressed, codes[..n], downs[..n], j);
    }
  }

  /** Replays a sequence of key events, the `down` flag telling key-down from key-up. */
  function Replay(pressed: seq<bool>, codes: seq<int>, downs: seq<bool>): (r: seq<bool>)
    requires |pressed| == 16 && |codes| == |downs|
    ensures |r| == 16
  {
    if |codes| == 0 then pressed
    else AfterKeyEvent(Replay(pressed, codes[..|codes| - 1], downs[..|downs| - 1]), codes[|codes| - 1], downs[|downs| - 1])
  }

  /** A continuation fires at most once: the slot is empty afterwards, so no later key-down fires. */
  lemma FiresAtMostOnce(slot: Option<Callback>, code: int, later: int)
    requires Fire(slot, code).Some?
    ensures Fire(None, later) == None
    ensures Fire(slot, code) == Some((slot.value, KEYMAP[code]))
  {
  }

  /** Key 0x0 (host code 88) never completes a wait, and an unmapped code never does either. */
  lemma KeyZeroNeverFires(slot: Option<Callback>, code: int)
    requires code !in KEYMAP || KEYMAP[code] == 0
    ensures Fire(slot, code) == None
  {
  }
}

/** Fixed-width integers of the keypad firmware and the messages it hands to
    the keypad hardware (notes over USB MIDI, pixel colours), kept as an
    ordered log so that what was sent can be reasoned about afterwards. */
module Midi {

  /** An 8-bit unsigned value (`byte`, `uint8_t`). */
  type byte = x: int | 0 <= x < 0x100

  /** A 32-bit unsigned value (`uint32_t`). */
  type uint32 = x: int | 0 <= x < 0x1_0000_0000

  const UINT32_MODULUS: int := 0x1_0000_0000

  /** Conversion of an `int` to `uint8_t`: only the low eight bits survive. */
  function ToByte(x: int): (b: byte)
    ensures 0 <= x < 0x100 ==> b == x
    ensures (b - x) % 0x100 == 0
  {
    x % 0x100
  }

  /** One request to the keypad hardware. */
  datatype Event =
    | NoteOn(pitch: int, velocity: int)
    | NoteOff(pitch: int, velocity: int)
    | SetPixel(key: int, color: int)

  /** Whether `e` is a note message (on or off) for `pitch`. */
  predicate IsNoteFor(e: Event, pitch: int)
  {
    (e.NoteOn? || e.NoteOff?) && e.pitch == pitch
  }

  /** The note `pitch` is sounding after `log` when the last note message
      for it is a note-on of non-zero velocity (MIDI reads a note-on of
      velocity 0 as a note-off). Nothing sounds before anything is sent. */
  function Sounding(log: seq<Event>, pitch: int): bool
    decreases |log|
  {
    if log == [] then false
    else
      var e := log[|log| - 1];
      if IsNoteFor(e, pitch) then e.NoteOn? && e.velocity > 0
      else Sounding(log[..|log| - 1], pitch)
  }

  /** The pixel of `key` is lit after `log` when the last colour written to
      it is not black (0). Pixels start black. */
  function Lit(log: seq<Event>, key: int): bool
    decreases |log|
  {
    if log == [] then false
    else
      var e := log[|log| - 1];
      if e.SetPixel? && e.key == key then e.color != 0
      else Lit(log[..|log| - 1], key)
  }

  /** Messages that say nothing about `pitch` do not change whether it sounds. */
  lemma {:induction false} SoundingIgnores(log: seq<Event>, more: seq<Event>, pitch: int)
    requires forall i | 0 <= i < |more| :: !IsNoteFor(more[i], pitch)
    ensures Sounding(log + more, pitch) == Sounding(log, pitch)
    decreases |more|
  {
    if more != [] {
      var init := more[..|more| - 1];
      assert (log + more)[..|log + more| - 1] == log + init;
      assert !IsNoteFor((log + more)[|log + more| - 1], pitch) by {
        assert (log + more)[|log + more| - 1] == more[|more| - 1];
      }
      SoundingIgnores(log, init, pitch);
    } else {
      assert log + more == log;
    }
  }

  /** Whether `pitch` sounds after `log + more` is decided by `more` alone
      as soon as `more` ends with a note message for `pitch`. */
  lemma LastNoteDecides(log: seq<Event>, more: seq<Event>, pitch: int)
    requires more != [] && IsNoteFor(more[|more| - 1], pitch)
    ensures Sounding(log + more, pitch) == Sounding(more, pitch)
    ensures Sounding(log + more, pitch) == (more[|more| - 1].NoteOn? && more[|more| - 1].velocity > 0)
  {
  }

  /** Writes to other pixels, and note messages, do not change whether `key` is lit. */
  lemma {:induction false} LitIgnores(log: seq<Event>, more: seq<Event>, key: int)
    requires forall i | 0 <= i < |more| :: !(more[i].SetPixel? && more[i].key == key)
    ensures Lit(log + more, key) == Lit(log, key)
    decreases |more|
  {
    if more != [] {
      var init := more[..|more| - 1];
      assert (log + more)[..|log + more| - 1] == log + init;
      assert (log + more)[|log + more| - 1] == more[|more| - 1];
      assert !(more[|more| - 1].SetPixel? && more[|more| - 1].key == key);
      LitIgnores(log, init, key);
    } else {
      assert log + more == log;
    }
  }
}

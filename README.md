# MIDI keypad step cells and clock loop, in Dafny

This project models the core of a MIDI keypad firmware for a 32-key pad
(4 rows of 8) that sends USB MIDI:

- the **main loop** (`src/main.cpp`): each pass reads one USB-MIDI packet and
  updates the 32-bit clock counter `tick`. On a clock packet (header 15), a
  "click" is sent whenever `tick` is a multiple of 12: note 36 off at
  velocity 0, then on at velocity 64. After that `tick` goes up by one, modulo
  2^32. Transport start (header 3) resets `tick` to six ticks per sixteenth of
  the packet's position byte. Transport stop (header 11), every other header
  and an empty read (header 0) change nothing. The loop then drains the
  pending key events. A press lights the key white and plays note
  `36 + key` at velocity 64. A release turns the key black and sends the
  matching note-off;
- the **colour wheel** `Wheel`: a byte position becomes an RGB colour that
  runs red, green, blue and back to red;
- the **step cells** in two iterations. In `src/` a `Cell` has a public
  `is_on` flag, and a `Note` adds an accent flag and a pitch. In
  `src/classes/` the flag is protected, and the `Note` can `play` itself:
  velocity 127 if accented, 96 otherwise, nothing if the cell is off. It can
  also `stop` itself, which always sends a note-off at velocity 0.

How the model is built:

- Everything the firmware sends to the keypad hardware is recorded, in order,
  as a log of `Midi.Event`s: note-on, note-off and pixel colour.
- `Midi.Sounding` and `Midi.Lit` read that log back: which notes sound and
  which pixels are lit.
- The loop's packet branch is the function `MidiKeypad.Receive`. A sequence
  of passes is `MidiKeypad.Run`. The key drain is the method
  `MidiKeypad.DrainKeys`, with a `while` loop. The globals are fields of the
  class `MidiKeypad.Keypad`.
- Cells are classes whose methods update their flags in place.
- Every cell keeps a ghost history of the calls made on it. Its invariant is
  that the flag equals the replay of that history (`CellHistory.Replay`), so
  the lemmas about call sequences hold of every cell whose flag changes only
  through its methods. In the first iteration the flags and the pitch are
  public, so code may assign `is_on` directly and step outside that history.
  The `Note` constructor does assign it, but only to `false`, which is what the
  empty history already gives.
- The C++ `Note : Cell` inheritance is written as composition. Each note
  owns the object `cell`, which is its `Cell` part, and the inherited
  `toggle`, `on` and `off` are that object's methods.

The wider step sequencer one might expect of this repository is not in these
source files: a grid of steps, swing, chord gestures and scrolling. The model
follows the code, so it has none of them. In the code, the clock only
sends the fixed click on note 36.

## Model

| member | source | states |
|---|---|---|
| `ColorWheel.Wheel` | src/main.cpp:37-48 | for every byte position, the three components sum to exactly 255 and at least one is 0; positions 0 and 255 give pure red |
| `ColorWheel.WheelPrimaries` | src/main.cpp:35-48 | the wheel goes red (0), green (85), blue (170) and back to red (255), in that order |
| `ColorWheel.WheelIsGradual` | src/main.cpp:35-48 | neighbouring positions differ by at most 3 in every component, across segment boundaries too |
| `ColorWheel.RedOnlyAtEnds` | src/main.cpp:37-48 | pure red is produced by the two ends of the wheel and by no other position |
| `Midi.ToByte` | src/main.cpp:40-47 | narrowing an `int` to `uint8_t` keeps values already in 0..255 and otherwise agrees modulo 256 |
| `MidiKeypad.SixteenthNoteToTicks` | src/main.cpp:50-52 | the result is six times the position byte and at most 1530, so it never wraps in `uint32_t` |
| `MidiKeypad.Receive` | src/main.cpp:72-95 | for each header: a clock packet gives `(tick + 1) mod 2^32` and the click exactly when `tick % 12 == 0`; a transport start gives `6 * byte2` and no messages; every other header (stop, 0, anything else) keeps `tick` and sends nothing |
| `MidiKeypad.ClockClicksOnMultiples` | src/main.cpp:72-78 | a clock packet sends the click (note 36 off at 0, then on at 64) if and only if `tick % 12 == 0` before the increment, and otherwise nothing; `tick` becomes `(tick + 1) mod 2^32` |
| `MidiKeypad.StartResynchronises` | src/main.cpp:79-81 | transport start sets `tick` to `6 * byte2` whatever it was before, and sends nothing |
| `MidiKeypad.OtherPacketsAreInert` | src/main.cpp:82-95 | transport stop, header 0 and every other header leave `tick` unchanged and send nothing |
| `MidiKeypad.RunClocks` | src/main.cpp:72-78 | without a wrap, `n` clock packets advance `tick` by `n` and send one click for each multiple of 12 the counter passes through |
| `MidiKeypad.TwelveClocksOneClick` | src/main.cpp:72-78 | from any starting `tick` that does not wrap, twelve consecutive clock packets send exactly one click |
| `MidiKeypad.WrapSendsTwoClicks` | src/main.cpp:72-78 | the no-wrap proviso is needed: twelve clock packets from `0xFFFFFFFC` send two clicks, because 2^32 is not a multiple of 12 |
| `MidiKeypad.StartThenClocks` | src/main.cpp:72-81 | after a transport start, the clicks of the following clock packets depend only on the position byte, not on the earlier counter |
| `MidiKeypad.KeyResponse` | src/main.cpp:106-115 | a press gives the white pixel (`0xFFFFFF`) for the key and note-on `36 + key` at 64; a release gives the black pixel (`0x0`) and note-off `36 + key` at 64; any other event code gives nothing |
| `MidiKeypad.KeysResponse` | src/main.cpp:97-116 | the answers to a queue of key events, in queue order: at most two messages per event, and every note at velocity 64 |
| `MidiKeypad.DrainKeys` | src/main.cpp:97-116 | draining the pending key events sends, in order, for each press the white pixel and note-on `36 + key` at 64, for each release the black pixel and note-off `36 + key` at 64, and nothing for other event codes |
| `MidiKeypad.DrainShowsHeldKeys` | src/main.cpp:106-115 | after a drain that follows any earlier messages, key `k`'s note sounds and its pixel is lit exactly when the last press or release of `k` in the queue was a press; a key with no press or release in the queue keeps the note and pixel it had before |
| `MidiKeypad.Keypad.constructor` | src/main.cpp:17 | the counter starts at 0 (and so does the click count) |
| `MidiKeypad.Keypad.Loop` | src/main.cpp:66-116 | one pass updates `tick` only through the packet branch, never through key events; it counts a click exactly when one is sent; it sends the packet's click (if any) followed by the key responses |
| `CellHistory.LastSetterDecides` | src/Cell.cpp:13-21 | after any sequence of calls ending in `on` or `off`, the flag depends only on that last call |
| `CellHistory.ToggleTwiceRestores` | src/Cell.cpp:8-11 | two toggles after any history restore the flag (toggle is an involution) |
| `CellHistory.SetterIdempotent` | src/Cell.cpp:13-21 | calling `on` (or `off`) twice leaves the flag as calling it once does |
| `Cell.Cell.constructor` | src/Cell.cpp:3-6 | a new cell is off, with an empty call history |
| `Cell.Cell.Toggle` | src/Cell.cpp:8-11 | negates `is_on` and records the call |
| `Cell.Cell.On` | src/Cell.cpp:13-16 | sets `is_on` whatever it was |
| `Cell.Cell.Off` | src/Cell.cpp:18-21 | clears `is_on` whatever it was |
| `ClassesCell.Cell.constructor` | src/classes/Cell.cpp:3-6 | a new cell is off, with an empty call history |
| `ClassesCell.Cell.Toggle` | src/classes/Cell.cpp:8-11 | negates `_is_on` and records the call |
| `ClassesCell.Cell.On` | src/classes/Cell.cpp:13-16 | sets `_is_on` whatever it was |
| `ClassesCell.Cell.Off` | src/classes/Cell.cpp:18-21 | clears `_is_on` whatever it was |
| `Note.Note.constructor` | src/Note.cpp:3-7 | a new note has both `is_on` and `is_accented` cleared; its pitch is unset |
| `Note.Note.SetNote` | src/Note.cpp:8-11 | sets the pitch and leaves both flags unchanged |
| `Note.Note.ToggleAccent` | src/Note.cpp:14-17 | negates `is_accented` and leaves `is_on` and the pitch unchanged; the accent is on exactly after an odd number of calls, so two calls restore it |
| `ClassesNote.PlayVelocity` | src/classes/Note.cpp:11-17 | the play velocity is a non-zero MIDI data byte; it is the maximum 127 exactly for accented notes and 96 for the others |
| `ClassesNote.PlayMessages` | src/classes/Note.cpp:9-19 | a note that is off sends nothing; a note that is on sends exactly one note-on for its pitch, at 127 if accented and 96 otherwise |
| `ClassesNote.StopMessages` | src/classes/Note.cpp:21-24 | `stop` sends exactly one note-off for the pitch, at velocity 0 |
| `ClassesNote.PlaySoundsIffOn` | src/classes/Note.cpp:9-19 | `play` sends at most one message; afterwards the note sounds if its cell is on, and a note that is off sends nothing |
| `ClassesNote.StopSilences` | src/classes/Note.cpp:21-24 | after `stop` the pitch is silent, whatever was sent before |
| `ClassesNote.Note.constructor` | src/classes/Note.cpp:3-7 | stores the pitch; the cell part starts off through the base constructor; the accent starts arbitrary; nothing has been sent |
| `ClassesNote.Note.Play` | src/classes/Note.cpp:9-19 | sends note-on at 127 if on and accented, at 96 if on and not accented, nothing if off; changes no flag |
| `ClassesNote.Note.Stop` | src/classes/Note.cpp:21-24 | always sends exactly one note-off at velocity 0, whatever the flags; changes no flag |
| `ClassesNote.Note.ToggleAccent` | src/classes/Note.cpp:26-29 | negates `_is_accented` relative to its arbitrary start, once per call, so two calls restore it; nothing is sent |

## Left out

- `ofMap` (src/main.cpp:20-33): floating-point mapping, and nothing in the loop calls it.
- `setup`, serial logging, `delay`, and the accelerometer object: these are
  hardware start-up and I/O with no effect on the modelled state.
- `trellis.tick` and `MidiUSB.read`: the packet read in a pass is a
  parameter of `Keypad.Loop`.
- `trellis.available` and `trellis.read`: the queue of pending key events is
  a parameter.
- `trellis.sendMIDI`: the output is the ordered event log, and the batching
  flush is not modelled.
- The key event's `COL` and `ROW` fields are read by the loop but never used,
  so they are not modelled.
- Key indices are limited to the pad's 32 keys (0..31).
- `trellis.Color`: packing the three components into one `uint32_t` is a
  library call. `Wheel` returns the `(r, g, b)` triple.
- Pitches and velocities in the event log are plain integers. The library
  narrows them to MIDI data bytes, and that narrowing is not modelled.
- `MidiKeypad.Keypad.Loop`: `eighth_note` (src/main.cpp:76) is never declared
  in main.cpp, so the file does not compile as shown. It is modelled as an
  unbounded counter that goes up exactly when a click is sent. Its intended
  width is unknown.
- `play` and `stop` of the first iteration (src/Note.h:14-15) are declared
  but never defined, so they are not modelled.
- `ClassesNote.Note.constructor`: the keypad object is copied into each note.
  The model keeps only what the note itself sends after construction (`sent`
  starts empty), not the copied state of the original object.
- The C++ inheritance of `Note` from `Cell` is modelled by composition. A
  note's `cell` object is its `Cell` part, so a call such as `note.toggle()`
  becomes `note.cell.Toggle()`.

/** The note step of the second iteration (`src/classes/Note.cpp`): a cell
    with a pitch and an accent that can play and stop itself. The C++ class
    derives from `Cell`; here its cell part is the object `cell`. The note
    keeps its own copy of the keypad object (it is stored by value), so what
    `play` and `stop` send goes to that copy: the log `sent`. */
module ClassesNote {
  import opened Midi
  import ClassesCell

  const ACCENT_VELOCITY: int := 127
  const NORMAL_VELOCITY: int := 96
  const STOP_VELOCITY: int := 0

  /** The velocity `play` strikes a note with. */
  function PlayVelocity(accented: bool): (v: int)
    ensures 0 < v <= 0x7F
    ensures v == 0x7F <==> accented
    ensures !accented ==> v == 96
  {
    if accented then ACCENT_VELOCITY else NORMAL_VELOCITY
  }

  /** What `play` sends for a note with the given flags and pitch: nothing
      when the cell is off, otherwise one note-on at the play velocity. */
  function PlayMessages(isOn: bool, accented: bool, pitch: int): (out: seq<Event>)
    ensures !isOn ==> out == []
    ensures isOn ==> |out| == 1 && out[0].NoteOn? && out[0].pitch == pitch
    ensures isOn && accented ==> out[0].velocity == 127
    ensures isOn && !accented ==> out[0].velocity == 96
  {
    if isOn then [NoteOn(pitch, PlayVelocity(accented))] else []
  }

  /** What `stop` sends: a note-off at velocity 0, whatever the flags. */
  function StopMessages(pitch: int): (out: seq<Event>)
    ensures |out| == 1 && out[0].NoteOff? && out[0].pitch == pitch && out[0].velocity == 0
  {
    [NoteOff(pitch, STOP_VELOCITY)]
  }

  /** After `play`, the note sounds if its cell is on; a note that is off
      leaves the pitch as it was. */
  lemma PlaySoundsIffOn(log: seq<Event>, isOn: bool, accented: bool, pitch: int)
    ensures Sounding(log + PlayMessages(isOn, accented, pitch), pitch) == (isOn || Sounding(log, pitch))
    ensures |PlayMessages(isOn, accented, pitch)| == (if isOn then 1 else 0)
  {
    if isOn {
      LastNoteDecides(log, PlayMessages(isOn, accented, pitch), pitch);
    } else {
      assert log + [] == log;
    }
  }

  /** After `stop`, the pitch is silent, whatever was sent before. */
  lemma StopSilences(log: seq<Event>, pitch: int)
    ensures !Sounding(log + StopMessages(pitch), pitch)
  {
  }

  class Note {
    /** The `Cell` part of the note, holding `_is_on`. */
    const cell: ClassesCell.Cell
    /** `_midi_note` */
    var midiNote: int
    /** `_is_accented`, never initialised by the constructor. */
    var isAccented: bool
    /** What this note sent through its copy of the keypad object. */
    var sent: seq<Event>
    /** The value `_is_accented` happened to start with. */
    ghost var initialAccent: bool
    /** How many times `toggle_accent` was called since construction. */
    ghost var accentToggles: nat

    /** The cell part is valid and the accent differs from its arbitrary
        starting value exactly after an odd number of `toggle_accent` calls. */
    ghost predicate Valid()
      reads this, cell
    {
      cell.Valid() && isAccented == (initialAccent != (accentToggles % 2 == 1))
    }

    /** Stores the pitch; the cell part starts off, the accent is arbitrary
        and nothing has been sent. */
    constructor(midiNote: int)
      ensures Valid() && fresh(cell)
      ensures !cell.isOn && cell.history == [] && this.midiNote == midiNote
      ensures sent == [] && accentToggles == 0 && isAccented == initialAccent
    {
      cell := new ClassesCell.Cell();
      this.midiNote := midiNote;
      isAccented := *;
      sent := [];
      accentToggles := 0;
      new;
      initialAccent := isAccented;
    }

    /** `play`: strikes the note at 127 if accented and at 96 otherwise, and
        sends nothing when the cell is off. The flags do not change. */
    method Play()
      requires Valid()
      modifies this
      ensures Valid()
      ensures sent == old(sent) + PlayMessages(cell.isOn, isAccented, midiNote)
      ensures isAccented == old(isAccented) && accentToggles == old(accentToggles)
      ensures midiNote == old(midiNote) && cell.isOn == old(cell.isOn)
    {
      if cell.isOn {
        if isAccented {
          sent := sent + [NoteOn(midiNote, ACCENT_VELOCITY)];
        } else {
          sent := sent + [NoteOn(midiNote, NORMAL_VELOCITY)];
        }
      }
    }

    /** `stop`: always sends a note-off at velocity 0. The flags do not change. */
    method Stop()
      requires Valid()
      modifies this
      ensures Valid()
      ensures sent == old(sent) + StopMessages(midiNote)
      ensures isAccented == old(isAccented) && accentToggles == old(accentToggles)
      ensures midiNote == old(midiNote) && cell.isOn == old(cell.isOn)
    {
      sent := sent + [NoteOff(midiNote, STOP_VELOCITY)];
    }

    /** `toggle_accent`: flips the accent and nothing else. */
    method ToggleAccent()
      requires Valid()
      modifies this
      ensures Valid() && isAccented == !old(isAccented) && accentToggles == old(accentToggles) + 1
      ensures sent == old(sent) && midiNote == old(midiNote) && cell.isOn == old(cell.isOn)
    {
      isAccented := !isAccented;
      accentToggles := accentToggles + 1;
    }
  }
}

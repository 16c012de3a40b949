/** The note step of the first iteration (`src/Note.cpp`): a cell with an
    accent flag and a MIDI pitch. The C++ class derives from `Cell`; here the
    cell it derives from is the object `cell`, whose `Toggle`, `On` and `Off`
    are the inherited operations. `play` and `stop` are declared for this
    iteration but never defined, so they are not part of it. */
module Note {
  import Cell

  class Note {
    /** The `Cell` part of the note. */
    const cell: Cell.Cell
    /** `midi`: the pitch, left unset until `set_note`. */
    var midi: int
    /** `is_accented` */
    var isAccented: bool
    /** How many times `toggle_accent` was called since construction. */
    ghost var accentToggles: nat

    /** The cell part is valid and the accent is on exactly after an odd
        number of `toggle_accent` calls. */
    ghost predicate Valid()
      reads this, cell
    {
      cell.Valid() && isAccented == (accentToggles % 2 == 1)
    }

    /** Both flags start cleared; the pitch is whatever the memory held. */
    constructor()
      ensures Valid() && fresh(cell)
      ensures !cell.isOn && cell.history == [] && !isAccented && accentToggles == 0
    {
      cell := new Cell.Cell();
      midi := *;
      isAccented := false;
      accentToggles := 0;
      new;
      cell.isOn := false;
    }

    /** `set_note`: assigns the pitch and nothing else. */
    method SetNote(midiNote: int)
      requires Valid()
      modifies this
      ensures Valid() && midi == midiNote
      ensures isAccented == old(isAccented) && accentToggles == old(accentToggles)
      ensures cell.isOn == old(cell.isOn)
    {
      midi := midiNote;
    }

    /** `toggle_accent`: flips the accent and nothing else. */
    method ToggleAccent()
      requires Valid()
      modifies this
      ensures Valid() && isAccented == !old(isAccented) && accentToggles == old(accentToggles) + 1
      ensures midi == old(midi) && cell.isOn == old(cell.isOn)
    {
      isAccented := !isAccented;
      accentToggles := accentToggles + 1;
    }
  }
}

/** The step cell of the first iteration (`src/Cell.cpp`): one public on/off flag. */
module Cell {
  import opened CellHistory

  class Cell {
    /** `is_on` */
    var isOn: bool
    /** The flag-changing calls made on this cell since it was constructed. */
    ghost var history: seq<Call>

    /** The flag is always what the history of calls made it. */
    ghost predicate Valid()
      reads this
    {
      isOn == Replay(false, history)
    }

    constructor()
      ensures Valid() && !isOn && history == []
    {
      isOn := false;
      history := [];
    }

    /** `toggle`: flips the flag. */
    method Toggle()
      requires Valid()
      modifies this
      ensures Valid() && isOn == !old(isOn) && history == old(history) + [Toggled]
    {
      ReplayStep(false, history, Toggled);
      isOn := !isOn;
      history := history + [Toggled];
    }

    /** `on`: sets the flag, whatever it was. */
    method On()
      requires Valid()
      modifies this
      ensures Valid() && isOn && history == old(history) + [SwitchedOn]
    {
      ReplayStep(false, history, SwitchedOn);
      isOn := true;
      history := history + [SwitchedOn];
    }

    /** `off`: clears the flag, whatever it was. */
    method Off()
      requires Valid()
      modifies this
      ensures Valid() && !isOn && history == old(history) + [SwitchedOff]
    {
      ReplayStep(false, history, SwitchedOff);
      isOn := false;
      history := history + [SwitchedOff];
    }
  }
}

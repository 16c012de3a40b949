/** The meaning of a step cell's on/off flag as a function of the calls made
    on it: `toggle` flips the flag, `on` sets it, `off` clears it. Both
    iterations of the cell keep their flag equal to the replay of their
    call history, so the lemmas here hold of every cell object. */
module CellHistory {

  /** A call that changes a cell's flag. */
  datatype Call = Toggled | SwitchedOn | SwitchedOff

  /** The flag after one call. */
  function After(isOn: bool, call: Call): bool
  {
    match call
    case Toggled => !isOn
    case SwitchedOn => true
    case SwitchedOff => false
  }

  /** The flag after `calls`, made in order, starting from `initial`. */
  function Replay(initial: bool, calls: seq<Call>): bool
    decreases |calls|
  {
    if calls == [] then initial else Replay(After(initial, calls[0]), calls[1..])
  }

  /** Replaying two histories one after the other is replaying their concatenation. */
  lemma {:induction false} ReplayAppend(initial: bool, calls: seq<Call>, more: seq<Call>)
    ensures Replay(initial, calls + more) == Replay(Replay(initial, calls), more)
    decreases |calls|
  {
    if calls == [] {
      assert calls + more == more;
    } else {
      assert (calls + more)[1..] == calls[1..] + more;
      ReplayAppend(After(initial, calls[0]), calls[1..], more);
    }
  }

  /** One more call acts on the flag the history left. */
  lemma ReplayStep(initial: bool, calls: seq<Call>, call: Call)
    ensures Replay(initial, calls + [call]) == After(Replay(initial, calls), call)
  {
    ReplayAppend(initial, calls, [call]);
  }

  /** After any history that ends in `on` or `off`, the flag depends only on
      that last call: neither the initial flag nor the earlier calls matter. */
  lemma LastSetterDecides(initial: bool, calls: seq<Call>, last: Call)
    requires last != Toggled
    ensures Replay(initial, calls + [last]) == (last == SwitchedOn)
  {
    ReplayStep(initial, calls, last);
  }

  /** Two toggles in a row restore the flag. */
  lemma ToggleTwiceRestores(initial: bool, calls: seq<Call>)
    ensures Replay(initial, calls + [Toggled, Toggled]) == Replay(initial, calls)
  {
    ReplayAppend(initial, calls, [Toggled, Toggled]);
  }

  /** Repeating `on` (or `off`) changes nothing the first call did not. */
  lemma SetterIdempotent(initial: bool, calls: seq<Call>, setter: Call)
    requires setter != Toggled
    ensures Replay(initial, calls + [setter, setter]) == Replay(initial, calls + [setter])
  {
    ReplayAppend(initial, calls, [setter, setter]);
    ReplayAppend(initial, calls, [setter]);
  }
}

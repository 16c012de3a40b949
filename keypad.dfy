/** The main loop of the MIDI keypad: one USB-MIDI packet is read per pass and
    updates the clock counter `tick` (clock, transport start, transport stop,
    anything else), then every pending key event is drained and answered with
    a note and a pixel colour. */
module MidiKeypad {
  import opened Midi

  /** Pitch of key 0; key `k` plays `FIRST_MIDI_NOTE + k`. */
  const FIRST_MIDI_NOTE: int := 36
  /** The keypad has 4 rows of 8 keys. */
  const NUM_KEYS: int := 32
  /** Velocity of the notes sent for key presses and releases. */
  const KEY_VELOCITY: int := 64
  const WHITE: int := 0xFFFFFF
  const BLACK: int := 0x0

  /** Packet headers the loop distinguishes. Header 0 means no packet was read. */
  const CLOCK_HEADER: byte := 15
  const START_HEADER: byte := 3
  const STOP_HEADER: byte := 11

  /** A click is sent on every 12th clock tick. */
  const TICKS_PER_CLICK: int := 12

  /** One USB-MIDI event packet. */
  datatype Packet = Packet(header: byte, byte1: byte, byte2: byte, byte3: byte)

  type KeyIndex = k: int | 0 <= k < NUM_KEYS

  /** What happened to a key: just pressed, just released, or any other event code. */
  datatype Edge = JustPressed | JustReleased | OtherEdge

  datatype KeyEvent = KeyEvent(key: KeyIndex, edge: Edge)

  /** Converts a transport position in sixteenth notes to clock ticks (6 ticks
      per sixteenth at 24 ticks per quarter note). The product is an `int`
      returned as `uint32_t`. */
  function SixteenthNoteToTicks(sixteenthNote: byte): (ticks: uint32)
    ensures ticks == 6 * sixteenthNote
    ensures ticks <= 6 * 255
  {
    (sixteenthNote * 6) % UINT32_MODULUS
  }

  /** The click: note 36 is switched off and struck again at velocity 64. */
  const Click: seq<Event> := [NoteOff(36, 0), NoteOn(36, 64)]

  /** `n` clicks in a row. */
  function Clicks(n: nat): seq<Event>
  {
    if n == 0 then [] else Click + Clicks(n - 1)
  }

  /** A clock packet arriving while `tick` is a multiple of 12 sends the click. */
  predicate Fires(tick: uint32, p: Packet)
  {
    p.header == CLOCK_HEADER && tick % TICKS_PER_CLICK == 0
  }

  /** The counter after a packet, and the note messages the packet caused. */
  datatype Reaction = Reaction(tick: uint32, events: seq<Event>)

  /** The packet branch of the loop, on the counter alone: a clock packet
      advances the counter modulo 2^32 and clicks on multiples of 12, a
      transport start sets the counter to six ticks per sixteenth of the
      position byte, and every other packet changes and sends nothing. */
  function Receive(tick: uint32, p: Packet): (r: Reaction)
    ensures p.header == CLOCK_HEADER ==>
      r == Reaction((tick + 1) % UINT32_MODULUS, if tick % 12 == 0 then Click else [])
    ensures p.header == START_HEADER ==> r == Reaction(6 * p.byte2, [])
    ensures p.header != CLOCK_HEADER && p.header != START_HEADER ==> r == Reaction(tick, [])
  {
    if p.header == CLOCK_HEADER then
      Reaction((tick + 1) % UINT32_MODULUS, if tick % TICKS_PER_CLICK == 0 then Click else [])
    else if p.header == START_HEADER then
      Reaction(SixteenthNoteToTicks(p.byte2), [])
    else if p.header == STOP_HEADER then
      Reaction(tick, [])
    else
      // header 0: nothing was read; any other header is only logged
      Reaction(tick, [])
  }

  /** A clock packet sends the click exactly when the counter is a multiple
      of 12 before the increment, and then advances the counter modulo 2^32. */
  lemma ClockClicksOnMultiples(tick: uint32, p: Packet)
    requires p.header == CLOCK_HEADER
    ensures Receive(tick, p).events == Click <==> tick % 12 == 0
    ensures Receive(tick, p).events == [] <==> tick % 12 != 0
    ensures Receive(tick, p).tick == (tick + 1) % 0x1_0000_0000
  {
  }

  /** Transport start resynchronises the counter to six ticks per sixteenth
      of its position byte, whatever the counter held before, and sends nothing. */
  lemma StartResynchronises(tick: uint32, other: uint32, p: Packet)
    requires p.header == START_HEADER
    ensures Receive(tick, p) == Receive(other, p)
    ensures Receive(tick, p).tick == 6 * p.byte2 && Receive(tick, p).events == []
  {
  }

  /** Transport stop, an empty read (header 0) and every other header leave
      the counter alone and send nothing. */
  lemma OtherPacketsAreInert(tick: uint32, p: Packet)
    requires p.header != CLOCK_HEADER && p.header != START_HEADER
    ensures Receive(tick, p) == Reaction(tick, [])
  {
  }

  /** The packets of successive passes of the loop, applied in order. */
  function Run(tick: uint32, packets: seq<Packet>): Reaction
    decreases |packets|
  {
    if packets == [] then Reaction(tick, [])
    else
      var first := Receive(tick, packets[0]);
      var rest := Run(first.tick, packets[1..]);
      Reaction(rest.tick, first.events + rest.events)
  }

  /** Running `a` and then `b` is running `a + b`. */
  lemma {:induction false} RunAppend(tick: uint32, a: seq<Packet>, b: seq<Packet>)
    ensures Run(tick, a + b).tick == Run(Run(tick, a).tick, b).tick
    ensures Run(tick, a + b).events == Run(tick, a).events + Run(Run(tick, a).tick, b).events
    decreases |a|
  {
    if a == [] {
      assert a + b == b;
    } else {
      assert (a + b)[0] == a[0];
      assert (a + b)[1..] == a[1..] + b;
      RunAppend(Receive(tick, a[0]).tick, a[1..], b);
    }
  }

  /** The number of multiples of 12 among `tick`, ..., `tick + n - 1`. */
  function Downbeats(tick: int, n: nat): (count: nat)
  {
    (tick + n + 11) / 12 - (tick + 11) / 12
  }

  lemma DownbeatsStep(tick: int, n: nat)
    requires n > 0
    ensures Downbeats(tick, n) == (if tick % 12 == 0 then 1 else 0) + Downbeats(tick + 1, n - 1)
  {
  }

  /** As long as the counter does not wrap, `n` clock packets advance it by
      `n` and send one click per multiple of 12 the counter passes through. */
  lemma {:induction false} RunClocks(tick: uint32, packets: seq<Packet>)
    requires forall i | 0 <= i < |packets| :: packets[i].header == CLOCK_HEADER
    requires tick + |packets| < UINT32_MODULUS
    ensures Run(tick, packets).tick == tick + |packets|
    ensures Run(tick, packets).events == Clicks(Downbeats(tick, |packets|))
    decreases |packets|
  {
    if packets != [] {
      RunClocks(tick + 1, packets[1..]);
      DownbeatsStep(tick, |packets|);
    }
  }

  /** Twelve clock packets in a row send exactly one click, wherever the
      counter starts, provided it does not wrap. */
  lemma TwelveClocksOneClick(tick: uint32, packets: seq<Packet>)
    requires |packets| == 12
    requires forall i | 0 <= i < |packets| :: packets[i].header == CLOCK_HEADER
    requires tick + 12 < UINT32_MODULUS
    ensures Run(tick, packets).events == Click
    ensures Run(tick, packets).tick == tick + 12
  {
    RunClocks(tick, packets);
    assert Downbeats(tick, 12) == 1;
    assert Clicks(1) == Click + [];
  }

  /** The proviso is needed: 2^32 is not a multiple of 12, so across the
      wrap the clicks at 2^32 - 4 and at 0 are only four ticks apart and
      twelve clock packets send two clicks. */
  lemma WrapSendsTwoClicks(packets: seq<Packet>)
    requires |packets| == 12
    requires forall i | 0 <= i < |packets| :: packets[i].header == CLOCK_HEADER
    ensures Run(0xFFFF_FFFC, packets).events == Click + Click
    ensures Run(0xFFFF_FFFC, packets).tick == 8
  {
    var before, at, after := packets[..3], packets[3..4], packets[4..];
    assert packets == before + at + after;
    RunAppend(0xFFFF_FFFC, before + at, after);
    RunAppend(0xFFFF_FFFC, before, at);
    RunClocks(0xFFFF_FFFC, before);
    assert Downbeats(0xFFFF_FFFC, 3) == 1;
    assert Clicks(1) == Click + [];
    assert Run(0xFFFF_FFFF, at) == Reaction(0, []);
    RunClocks(0, after);
    assert Downbeats(0, 8) == 1;
  }

  /** Transport start keeps the click in phase with the sender's position:
      after it, the clicks depend only on the position byte, not on where
      the counter was. */
  lemma StartThenClocks(tick: uint32, start: Packet, clocks: seq<Packet>)
    requires start.header == START_HEADER
    requires forall i | 0 <= i < |clocks| :: clocks[i].header == CLOCK_HEADER
    requires 6 * start.byte2 + |clocks| < UINT32_MODULUS
    ensures Run(tick, [start] + clocks).events == Clicks(Downbeats(6 * start.byte2, |clocks|))
    ensures Run(tick, [start] + clocks).tick == 6 * start.byte2 + |clocks|
  {
    assert ([start] + clocks)[0] == start;
    assert ([start] + clocks)[1..] == clocks;
    RunClocks(6 * start.byte2, clocks);
  }

  /** The messages sent for one key event: a press lights the key white and
      strikes its note, a release turns it black and releases the note. */
  function KeyResponse(e: KeyEvent): (out: seq<Event>)
    ensures e.edge == JustPressed ==>
      out == [SetPixel(e.key, 0xFFFFFF), NoteOn(36 + e.key, 64)]
    ensures e.edge == JustReleased ==>
      out == [SetPixel(e.key, 0x0), NoteOff(36 + e.key, 64)]
    ensures e.edge == OtherEdge ==> out == []
  {
    match e.edge
    case JustPressed => [SetPixel(e.key, WHITE), NoteOn(FIRST_MIDI_NOTE + e.key, KEY_VELOCITY)]
    case JustReleased => [SetPixel(e.key, BLACK), NoteOff(FIRST_MIDI_NOTE + e.key, KEY_VELOCITY)]
    case OtherEdge => []
  }

  /** The messages sent for a queue of key events, answered in order: at
      most two per event, and every note at velocity 64. */
  function KeysResponse(pending: seq<KeyEvent>): (out: seq<Event>)
    ensures |out| <= 2 * |pending|
    ensures forall i | 0 <= i < |out| :: out[i].SetPixel? || out[i].velocity == KEY_VELOCITY
    decreases |pending|
  {
    if pending == [] then []
    else KeysResponse(pending[..|pending| - 1]) + KeyResponse(pending[|pending| - 1])
  }

  /** Whether the last press or release of `key` in `pending` was a press;
      `initially` when the queue has none for `key`. */
  function HeldAfter(pending: seq<KeyEvent>, key: KeyIndex, initially: bool): bool
    decreases |pending|
  {
    if pending == [] then initially
    else
      var e := pending[|pending| - 1];
      if e.key == key && e.edge != OtherEdge then e.edge == JustPressed
      else HeldAfter(pending[..|pending| - 1], key, initially)
  }

  /** Drains the queue of key events, as the `while` loop over the keypad's
      pending events does. */
  method DrainKeys(pending: seq<KeyEvent>) returns (out: seq<Event>)
    ensures out == KeysResponse(pending)
  {
    out := [];
    var i := 0;
    while i < |pending|
      invariant 0 <= i <= |pending|
      invariant out == KeysResponse(pending[..i])
    {
      var e := pending[i];
      if e.edge == JustPressed {
        out := out + [SetPixel(e.key, WHITE), NoteOn(FIRST_MIDI_NOTE + e.key, KEY_VELOCITY)];
      } else if e.edge == JustReleased {
        out := out + [SetPixel(e.key, BLACK), NoteOff(FIRST_MIDI_NOTE + e.key, KEY_VELOCITY)];
      }
      assert pending[..i + 1][..i] == pending[..i];
      i := i + 1;
    }
    assert pending[..|pending|] == pending;
  }

  /** The response to a press or release of `key` decides its note and pixel. */
  lemma OwnKeyResponse(before: seq<Event>, e: KeyEvent, key: KeyIndex)
    requires e.key == key && e.edge != OtherEdge
    ensures Sounding(before + KeyResponse(e), FIRST_MIDI_NOTE + key) == (e.edge == JustPressed)
    ensures Lit(before + KeyResponse(e), key) == (e.edge == JustPressed)
  {
  }

  /** The response to an event of another key, or to another event code,
      leaves `key`'s note and pixel as they were. */
  lemma OtherKeyResponse(before: seq<Event>, e: KeyEvent, key: KeyIndex)
    requires !(e.key == key && e.edge != OtherEdge)
    ensures Sounding(before + KeyResponse(e), FIRST_MIDI_NOTE + key) == Sounding(before, FIRST_MIDI_NOTE + key)
    ensures Lit(before + KeyResponse(e), key) == Lit(before, key)
  {
    SoundingIgnores(before, KeyResponse(e), FIRST_MIDI_NOTE + key);
    LitIgnores(before, KeyResponse(e), key);
  }

  /** After a drain that follows any earlier messages `before`, a key's note
      sounds and its pixel is lit exactly when its last press or release in
      the queue was a press; a key with no press or release in the queue
      keeps the note and the pixel it had after `before`. */
  lemma {:induction false} DrainShowsHeldKeys(before: seq<Event>, pending: seq<KeyEvent>, key: KeyIndex)
    ensures Sounding(before + KeysResponse(pending), FIRST_MIDI_NOTE + key)
         == HeldAfter(pending, key, Sounding(before, FIRST_MIDI_NOTE + key))
    ensures Lit(before + KeysResponse(pending), key) == HeldAfter(pending, key, Lit(before, key))
    decreases |pending|
  {
    if pending == [] {
      assert before + KeysResponse(pending) == before;
    } else {
      var init, e := pending[..|pending| - 1], pending[|pending| - 1];
      DrainShowsHeldKeys(before, init, key);
      assert before + KeysResponse(pending) == (before + KeysResponse(init)) + KeyResponse(e);
      if e.key == key && e.edge != OtherEdge {
        OwnKeyResponse(before + KeysResponse(init), e, key);
      } else {
        OtherKeyResponse(before + KeysResponse(init), e, key);
      }
    }
  }

  /** The globals of the loop: the clock counter, and the count of clicks
      sent (`eighth_note`, which the loop increments but never declares). */
  class Keypad {
    var tick: uint32
    var eighthNote: nat

    constructor()
      ensures tick == 0 && eighthNote == 0
    {
      tick := 0;
      eighthNote := 0;
    }

    /** One pass of the loop: the packet read this pass, then every pending
        key event. Returns what the pass sent, in order. */
    method Loop(p: Packet, pending: seq<KeyEvent>) returns (out: seq<Event>)
      modifies this
      ensures tick == Receive(old(tick), p).tick
      ensures eighthNote == old(eighthNote) + (if Fires(old(tick), p) then 1 else 0)
      ensures out == Receive(old(tick), p).events + KeysResponse(pending)
    {
      out := [];
      if p.header == CLOCK_HEADER {
        if tick % TICKS_PER_CLICK == 0 {
          out := out + [NoteOff(36, 0), NoteOn(36, 64)];
          eighthNote := eighthNote + 1;
        }
        tick := (tick + 1) % UINT32_MODULUS;
      } else if p.header == START_HEADER {
        tick := SixteenthNoteToTicks(p.byte2);
      } else if p.header == STOP_HEADER {
        // only logged
      } else if p.header != 0 {
        // only logged
      }
      var keys := DrainKeys(pending);
      out := out + keys;
    }
  }
}

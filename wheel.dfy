/** The colour wheel of the keypad firmware: a position 0..255 is turned into
    a colour that moves from red through green and blue back to red. */
module ColorWheel {
  import opened Midi

  /** The three components handed to the library's colour packing. */
  datatype Rgb = Rgb(r: byte, g: byte, b: byte)

  const Red := Rgb(255, 0, 0)
  const Green := Rgb(0, 255, 0)
  const Blue := Rgb(0, 0, 255)

  /** `Wheel(wheelPos)`: the position is reversed (`255 - wheelPos`) and then
      falls into one of three segments of 85 positions; in each, one component
      rises by 3 per step while another falls by 3 and the third is 0. Every
      product is an `int` narrowed to `uint8_t` when passed on, which is what
      `ToByte` writes out. */
  function Wheel(wheelPos: byte): (c: Rgb)
    ensures c.r + c.g + c.b == 255
    ensures c.r == 0 || c.g == 0 || c.b == 0
    ensures wheelPos == 0 || wheelPos == 255 ==> c == Red
  {
    var pos := 255 - wheelPos;
    if pos < 85 then
      Rgb(ToByte(255 - pos * 3), 0, ToByte(pos * 3))
    else if pos < 170 then
      var pos := pos - 85;
      Rgb(0, ToByte(pos * 3), ToByte(255 - pos * 3))
    else
      var pos := pos - 170;
      Rgb(ToByte(pos * 3), ToByte(255 - pos * 3), 0)
  }

  /** The wheel passes through the three primaries in the order red, green,
      blue, and closes the circle on red. */
  lemma WheelPrimaries()
    ensures Wheel(0) == Red && Wheel(85) == Green && Wheel(170) == Blue && Wheel(255) == Red
  {
  }

  /** The transition is gradual: neighbouring positions differ by at most 3
      in every component, including across the segment boundaries. */
  lemma WheelIsGradual(wheelPos: byte)
    requires wheelPos < 255
    ensures -3 <= Wheel(wheelPos + 1).r - Wheel(wheelPos).r <= 3
    ensures -3 <= Wheel(wheelPos + 1).g - Wheel(wheelPos).g <= 3
    ensures -3 <= Wheel(wheelPos + 1).b - Wheel(wheelPos).b <= 3
  {
  }

  /** Only the two ends of the wheel give pure red; every other position gives
      a colour with some green or blue in it. */
  lemma RedOnlyAtEnds(wheelPos: byte)
    ensures Wheel(wheelPos) == Red <==> wheelPos == 0 || wheelPos == 255
  {
  }
}

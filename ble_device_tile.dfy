/** The Bluetooth device tile: the signal-strength scale and the title rule. */
module BleDeviceTile {
  import opened Wrappers

  /**
   * `normalizeRssi`: -100 dBm or weaker is 0, -30 dBm or stronger is 100, and in between
   * `Math.round((rssi + 100) * 100 / 70)`, written with integer division.
   */
  function NormalizeRssi(rssi: int): (r: int)
    ensures 0 <= r <= 100
  {
    if rssi <= -100 then 0
    else if rssi >= -30 then 100
    else (20 * (rssi + 100) + 7) / 14
  }

  /** The scale saturates at both ends. */
  lemma NormalizeRssiSaturates(rssi: int)
    ensures rssi <= -100 ==> NormalizeRssi(rssi) == 0
    ensures rssi >= -30 ==> NormalizeRssi(rssi) == 100
  {
  }

  /**
   * Inside the range the result is `Math.round` of the exact ratio: the largest integer
   * not above `ratio + 1/2`.
   */
  lemma NormalizeRssiRounds(rssi: int)
    requires -100 < rssi < -30
    ensures var ratio := ((rssi + 100) * 100) as real / 70.0;
            var r := NormalizeRssi(rssi) as real;
            r <= ratio + 0.5 < r + 1.0
  {
    var x := rssi + 100;
    var r := (20 * x + 7) / 14;
    assert 14 * r <= 20 * x + 7 < 14 * r + 14;
    var ratio := (x * 100) as real / 70.0;
    assert ratio + 0.5 == (20 * x + 7) as real / 14.0;
  }

  /** A stronger signal never shows a lower value. */
  lemma NormalizeRssiMonotone(a: int, b: int)
    requires a <= b
    ensures NormalizeRssi(a) <= NormalizeRssi(b)
  {
  }

  /** Half-way up the range, -65 dBm shows 50. */
  lemma NormalizeRssiMidpoint()
    ensures NormalizeRssi(-65) == 50
  {
  }

  /** The title: the device's name, or "(No name)" when it has none or it is empty. */
  function Title(name: Option<string>): (r: string)
    ensures r != []
    ensures name.Some? && |name.value| > 0 ==> r == name.value
  {
    if name.Some? && |name.value| > 0 then name.value else "(No name)"
  }

  lemma TitleOfNamelessDevice()
    ensures Title(None) == "(No name)" && Title(Some("")) == "(No name)"
  {
  }
}

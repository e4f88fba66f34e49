/**
 * Unit normalisation and plausibility bands (main.py). A temperature is held in
 * hundredths of a degree Celsius ("centidegrees"): the line-based probes read
 * whole numbers, so every conversion they make is exact at that resolution.
 */
module Units {

  /** Deci-Kelvin to centidegrees: raw / 10 - 273.15 degrees. */
  function DeciKelvin(raw: nat): (c: int)
    ensures c as real / 100.0 == raw as real / 10.0 - 273.15
  {
    10 * raw - 27315
  }

  /**
   * The magnitude heuristic: above 2000 the raw value is deci-Kelvin, above 200
   * (up to 2000) it is Kelvin, otherwise it is already Celsius. The boundary
   * values 2000 and 200 take the lower branch.
   */
  function Normalize(raw: nat): (c: int)
    ensures raw > 2000 ==> c as real / 100.0 == raw as real / 10.0 - 273.15
    ensures 200 < raw <= 2000 ==> c as real / 100.0 == raw as real - 273.15
    ensures raw <= 200 ==> c as real / 100.0 == raw as real
  {
    if raw > 2000 then DeciKelvin(raw)
    else if raw > 200 then 100 * raw - 27315
    else 100 * raw
  }

  lemma NormalizeExamples()
    ensures Normalize(2500) == -2315   // 250.0 K: -23.15 degrees, deci-Kelvin
    ensures Normalize(2970) == 2385    // 297.0 K: 23.85 degrees
    ensures Normalize(300) == 2685     // 26.85 degrees, Kelvin
    ensures Normalize(45) == 4500      // 45 degrees, already Celsius
    ensures Normalize(2001) == -7305   // just above 2000: deci-Kelvin, -73.05 degrees
    ensures Normalize(2000) == 172685  // 2000 itself is read as Kelvin
    ensures Normalize(201) == -7215    // just above 200: Kelvin
    ensures Normalize(200) == 20000    // 200 itself is read as Celsius
  {
  }

  /** The general band: 0 < t < 150 degrees. */
  predicate InGeneralBand(c: int) {
    0 < c < 15000
  }

  /** The narrower band of the video-controller-assisted probe: 30 < t < 120 degrees. */
  predicate InGpuBand(c: int) {
    3000 < c < 12000
  }
}

/**
 * The conversion factors of Cantera's units namespace: each is the size of
 * the unit in the SI base unit of its dimension (metre, kilogram, second,
 * joule) or, for amounts, in kmol.
 */
module Units {
  // Length, in metres.
  const Cm: real := 0.01
  const Microns: real := 0.000001
  const Nm: real := 0.000000001
  const Km: real := 1000.0

  // Mass, in kilograms.
  const Kg: real := 1.0
  const G: real := 0.001

  // Time, in seconds.
  const S: real := 1.0
  const Min: real := 60.0
  const Hr: real := 3600.0
  const Days: real := 24.0 * Hr

  // Energy, in joules.
  const KJ: real := 1000.0
  const J: real := 1.0

  // Amount, in kmol.
  const Kmol: real := 1.0
  const Mol: real := 0.001

  /** How the factors relate: a day is 86400 s, and the prefixed units scale as their prefixes say. */
  lemma UnitRelations()
    ensures Days == 86400.0 * S && Hr == 60.0 * Min && Min == 60.0 * S
    ensures Kg == 1000.0 * G
    ensures KJ == 1000.0 * J
    ensures Kmol == 1000.0 * Mol
    ensures 100.0 * Cm == 1.0 && Km == 1000.0 && 1000.0 * Nm == Microns && 1000000.0 * Microns == 1.0
  {
  }
}

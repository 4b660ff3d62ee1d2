/**
 * The static tables the Gasera One clients look device codes up in, each with
 * the fallback text `dict.get(code, default)` returns for a code it lacks.
 */
module AkTables {
  const StatusMap: map<string, string> := map[
    "0" := "Device initializing",
    "1" := "Initialization error",
    "2" := "Device idle state",
    "3" := "Device self-test in progress",
    "4" := "Malfunction",
    "5" := "Measurement in progress",
    "6" := "Calibration in progress",
    "7" := "Canceling measurement",
    "8" := "Laserscan in progress"
  ]

  const MeasurementStatusMap: map<string, string> := map[
    "0" := "None (device is idle)",
    "1" := "Gas exchange in progress",
    "2" := "Sample integration (measurement) in progress",
    "3" := "Sample analysis in progress",
    "4" := "Laser tuning in progress"
  ]

  /** The CAS registry numbers the legacy client knows. */
  const LegacyCasToGas: map<string, string> := map[
    "74-82-8" := "methane",
    "124-38-9" := "carbonDioxide",
    "10024-97-2" := "nitrousOxide",
    "7782-44-7" := "oxygen",
    "7783-06-4" := "hydrogenSulfide",
    "7664-41-7" := "ammonia",
    "1333-74-0" := "hydrogen",
    "10102-43-9" := "nitrogenDioxide",
    "7440-37-1" := "argon",
    "7782-50-5" := "chlorine",
    "630-08-0" := "carbonMonoxide",
    "2551-62-4" := "sulfurHexafluoride"
  ]

  const WaterCas := "7732-18-5"

  /** The newer client's table: the legacy one plus water. */
  const CasToGas: map<string, string> := LegacyCasToGas[WaterCas := "water"]

  const UnknownStatus := "Unknown status"
  const UnknownMeasurementStatus := "Unknown measurement status"
  const UnknownCas := "unknownCASNumber"

  /** `m.get(k, default)`. */
  function Get(m: map<string, string>, k: string, default: string): (r: string)
    ensures k in m ==> r == m[k]
    ensures k !in m ==> r == default
  {
    if k in m then m[k] else default
  }

  function StatusLabel(code: string): string {
    Get(StatusMap, code, UnknownStatus)
  }

  function MeasurementStatusLabel(code: string): string {
    Get(MeasurementStatusMap, code, UnknownMeasurementStatus)
  }

  /** The gas name a CAS number maps to, in the legacy or the newer table. */
  function GasName(cas: string, legacy: bool): string {
    Get(if legacy then LegacyCasToGas else CasToGas, cas, UnknownCas)
  }

  /** The device status label is the fallback exactly for codes outside "0".."8". */
  lemma StatusLabelFallback(code: string)
    ensures StatusLabel(code) == UnknownStatus <==> code !in {"0", "1", "2", "3", "4", "5", "6", "7", "8"}
  {
    assert UnknownStatus !in StatusMap.Values;
  }

  /** The measurement status label is the fallback exactly for codes outside "0".."4". */
  lemma MeasurementStatusLabelFallback(code: string)
    ensures MeasurementStatusLabel(code) == UnknownMeasurementStatus <==> code !in {"0", "1", "2", "3", "4"}
  {
    assert UnknownMeasurementStatus !in MeasurementStatusMap.Values;
  }

  /** The code a missing status token defaults to, "-1", has the fallback label. */
  lemma MissingCodesAreUnknown()
    ensures StatusLabel("-1") == UnknownStatus
    ensures MeasurementStatusLabel("-1") == UnknownMeasurementStatus
  {
  }

  /** Methane maps by both tables; water only by the newer one. */
  lemma CasTableDifferences()
    ensures GasName("74-82-8", false) == "methane" && GasName("74-82-8", true) == "methane"
    ensures GasName(WaterCas, false) == "water"
    ensures GasName(WaterCas, true) == UnknownCas
    ensures forall cas :: cas != WaterCas ==> GasName(cas, false) == GasName(cas, true)
  {
  }

  /** No gas is named like the fallback, so the fallback marks exactly the unknown numbers. */
  lemma GasNameFallback(cas: string, legacy: bool)
    ensures GasName(cas, legacy) == UnknownCas <==> cas !in (if legacy then LegacyCasToGas else CasToGas)
  {
    assert UnknownCas !in LegacyCasToGas.Values;
    assert UnknownCas !in CasToGas.Values;
  }
}

/**
 * One ECG sample. Two digital lines report electrode disconnection (LO+ and
 * LO-); when either reads 1 the sample is the sentinel 0 and the analog
 * channel is not read. The pin levels and the analog value are parameters;
 * which of them the code actually samples is returned beside the value.
 */
module LeadOff {
  datatype Probe = LeadOffPlus | LeadOffMinus | Analog

  datatype Sample = Sample(value: int, probes: seq<Probe>)

  /** `ecgReading`: `||` reads LO+ first and LO- only when LO+ is not 1. */
  function EcgReading(loPlus: int, loMinus: int, analog: int): (s: Sample)
    ensures (loPlus == 1 || loMinus == 1) ==> s.value == 0
    ensures !(loPlus == 1 || loMinus == 1) ==> s.value == analog
    ensures (Analog in s.probes) <==> (loPlus != 1 && loMinus != 1)
    ensures (LeadOffMinus in s.probes) <==> (loPlus != 1)
    ensures |s.probes| >= 1 && s.probes[0] == LeadOffPlus
  {
    if loPlus == 1 then Sample(0, [LeadOffPlus])
    else if loMinus == 1 then Sample(0, [LeadOffPlus, LeadOffMinus])
    else Sample(analog, [LeadOffPlus, LeadOffMinus, Analog])
  }

  /** With a lead off, the sample does not depend on the analog channel at all. */
  lemma LeadsOffIgnoresAnalog(loPlus: int, loMinus: int, a: int, b: int)
    requires loPlus == 1 || loMinus == 1
    ensures EcgReading(loPlus, loMinus, a) == EcgReading(loPlus, loMinus, b)
  {
  }
}

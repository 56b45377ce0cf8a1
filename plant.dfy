/** Manufacturing sites and their SAP plant codes (src/api/plant.rs). */
module ApiPlant {

  datatype Plant = Lancaster | Williamsport

  /** The serde name of each plant: its SAP plant code. */
  function Code(p: Plant): (code: string)
    ensures IsCode(code)
  {
    match p
    case Lancaster => "HS01"
    case Williamsport => "HS02"
  }

  predicate IsCode(s: string) {
    s == "HS01" || s == "HS02"
  }

  /** `From<&str> for Plant`, which `From<String>` calls: any other text panics. */
  function FromCode(s: string): (p: Plant)
    requires IsCode(s)
    ensures Code(p) == s
  {
    if s == "HS01" then Lancaster else Williamsport
  }

  /** The code of a plant reads back as that plant. */
  lemma CodeRoundTrip(p: Plant)
    ensures FromCode(Code(p)) == p
  {
  }
}

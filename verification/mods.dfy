/** osu! game modifiers, in the order of the mod select panel. */
module Mods {
  import opened Common

  datatype Mod = EZ | NF | HT | HR | DT | HD | FL

  /** The enum constant's name. */
  function Name(m: Mod): string {
    match m
    case EZ => "EZ" case NF => "NF" case HT => "HT" case HR => "HR"
    case DT => "DT" case HD => "HD" case FL => "FL"
  }

  /** `Mod.valueOf(text)`: the constant with that name, or none (the JVM throws). */
  function ValueOf(text: string): (r: Option<Mod>)
    ensures r.Some? ==> Name(r.value) == text
  {
    if text == "EZ" then Some(EZ) else if text == "NF" then Some(NF)
    else if text == "HT" then Some(HT) else if text == "HR" then Some(HR)
    else if text == "DT" then Some(DT) else if text == "HD" then Some(HD)
    else if text == "FL" then Some(FL) else None
  }

  /** Every constant is found again by its name. */
  lemma ValueOfName(m: Mod)
    ensures ValueOf(Name(m)) == Some(m)
  {
  }
}

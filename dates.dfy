/**
 * The dates the program receives from its command line. Nothing about them
 * matters to the core except their two textual renderings.
 */
module Dates {
  import opened Wrappers

  /** A date: `text` is what Python's `str()` prints, `iso` what `isoformat()` prints. */
  datatype Stamp = Stamp(text: string, iso: string)

  /** `str()` of an optional date, as an f-string renders it: a missing date prints as `None`. */
  function Show(d: Option<Stamp>): (s: string)
    ensures d.None? ==> s == "None"
    ensures d.Some? ==> s == d.value.text
  {
    match d
    case None => "None"
    case Some(t) => t.text
  }

}

/**
 * A security finding as the remediation script reads it: a JSON object from a
 * scanner result's `rule_detections` array. Only the keys the script looks
 * at are modelled; each may be absent.
 */
module Findings {
  import opened Wrappers
  import opened Ascii

  datatype Finding = Finding(
    severity: Option<string>,
    ruleName: Option<string>,
    details: Option<string>,
    description: Option<string>)

  const Critical: string := "CRITICAL"
  const High: string := "HIGH"
  const Medium: string := "MEDIUM"
  const Informational: string := "INFORMATIONAL"

  /** The four buckets, in the order the script declares them. */
  const SeverityKeys: seq<string> := [Critical, High, Medium, Informational]

  /**
   * The bucket a finding is filed under: its severity upper-cased, or
   * INFORMATIONAL when it has none. Only the letters' case is ignored.
   */
  function SeverityOf(f: Finding): (r: string)
    ensures f.severity.None? ==> r == Informational
    ensures f.severity.Some? ==> r == Upper(Lower(f.severity.value))
  {
    UpperIgnoresCase(f.severity.GetOr(Informational));
    assert Upper(Informational) == Informational;
    Upper(f.severity.GetOr(Informational))
  }

  predicate Recognised(f: Finding) {
    SeverityOf(f) in SeverityKeys
  }

  /** Fixed spellings: three case variants of one severity share a bucket, and `low` has none. */
  lemma CaseVariantsAgree()
    ensures Upper("critical") == Upper("Critical") == Critical
    ensures Upper("low") == "LOW" && "LOW" !in SeverityKeys
  {
  }
}

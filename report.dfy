/**
 * `SecurityRemediator.generate_pr_body`: the pull request description. The
 * model renders the header (icon, title-cased severity, count, lower-cased
 * severity), the numbered list of findings and the bulleted list of fixes.
 */
module Report {
  import opened Ascii
  import opened Findings

  const DefaultIcon: string := "\U{1F527}"

  const SeverityIcons: map<string, string> := map[
    Critical := "\U{1F6A8}",
    High := "\U{26A0}\U{FE0F}",
    Medium := "\U{1F4CB}",
    Informational := "\U{2139}\U{FE0F}"]

  /** The heading icon: the lookup is exact, so only the four keys have their own icon, and any other label gets the wrench. */
  function Icon(severity: string): (r: string)
    ensures severity !in SeverityKeys ==> r == DefaultIcon
    ensures severity in SeverityKeys ==> r != DefaultIcon && r == SeverityIcons[severity]
  {
    if severity in SeverityIcons then SeverityIcons[severity] else DefaultIcon
  }

  /** The rule name shown for a finding, with a placeholder when it has none. */
  function RuleName(f: Finding): (r: string)
    ensures f.ruleName.Some? ==> r == f.ruleName.value
    ensures f.ruleName.None? ==> r == "Unknown Rule"
  {
    f.ruleName.GetOr("Unknown Rule")
  }

  /** The text shown for a finding: its details, else its description, else a placeholder. */
  function Description(f: Finding): (r: string)
    ensures f.details.Some? ==> r == f.details.value
    ensures f.details.None? && f.description.Some? ==> r == f.description.value
    ensures f.details.None? && f.description.None? ==> r == "Security issue detected"
  {
    f.details.GetOr(f.description.GetOr("Security issue detected"))
  }

  /** The entry for the `number`-th finding, without its newline. */
  function FindingLine(number: nat, f: Finding): string {
    NatToString(number) + ". **" + RuleName(f) + "**: " + Description(f)
  }

  /** Finding `i` of the list is numbered `i + 1`. */
  function FindingLines(findings: seq<Finding>): (ls: seq<string>)
    ensures |ls| == |findings|
  {
    seq(|findings|, i requires 0 <= i < |findings| => FindingLine(i + 1, findings[i]))
  }

  function FixLines(fixes: seq<string>): (ls: seq<string>)
    ensures |ls| == |fixes|
  {
    seq(|fixes|, i requires 0 <= i < |fixes| => "- " + fixes[i])
  }

  /** The header up to the count: heading with icon and title-cased label, then the count's sentence. */
  function CountLead(severity: string): string {
    "## " + Icon(severity) + " Security Remediation: " + Title(severity) + " Issues\n\n"
    + "### \U{1F4CA} Issues Fixed\n"
    + "This pull request addresses **"
  }

  /** The header after the count: the lower-cased label, then the findings heading. */
  function CountTail(severity: string): (r: string)
    ensures r != [] && r[0] == ' ' && r[|r| - 1] == '\n'
  {
    " " + Lower(severity) + " severity security issues** identified by CrowdStrike FCS CLI.\n\n"
    + "### \U{1F50D} Security Findings Addressed:\n"
  }

  /** The last character of a concatenation is that of its non-empty right part. */
  lemma LastOf(a: string, b: string)
    requires b != []
    ensures (a + b)[|a + b| - 1] == b[|b| - 1]
  {
  }

  /**
   * The header of the description. The number read from just after the lead
   * text is the count, and the header ends in a newline, so the finding list
   * starts on a line of its own.
   */
  function Header(severity: string, count: nat): (r: string)
    ensures CountLead(severity) <= r
    ensures NumberAt(r, |CountLead(severity)|) == count
    ensures NumberEnds(r, |CountLead(severity)|)
    ensures r[|r| - 1] == '\n'
  {
    NumberReadsBack(CountLead(severity), count, CountTail(severity));
    LastOf(CountLead(severity) + NatToString(count), CountTail(severity));
    CountLead(severity) + NatToString(count) + CountTail(severity)
  }

  const FixesHeading: string := "\n### \U{2705} Fixes Applied:\n"

  /**
   * The modelled description: header, numbered findings, fixes heading, one
   * bullet per fix. The fixes heading and the fix list end the text.
   */
  function PrBody(severity: string, findings: seq<Finding>, fixesApplied: seq<string>): (r: string)
    ensures var xs := FixesHeading + Unlines(FixLines(fixesApplied)); |xs| <= |r| && r[|r| - |xs|..] == xs
  {
    var h := Header(severity, |findings|);
    var fs := Unlines(FindingLines(findings));
    var xs := Unlines(FixLines(fixesApplied));
    assert h + fs + FixesHeading + xs == (h + fs) + (FixesHeading + xs);
    h + fs + FixesHeading + xs
  }

  /**
   * The header (whose count is the number of findings listed) opens the
   * description, and the finding list follows it directly.
   */
  lemma PrBodyLayout(severity: string, findings: seq<Finding>, fixesApplied: seq<string>)
    ensures Header(severity, |findings|) + Unlines(FindingLines(findings)) <= PrBody(severity, findings, fixesApplied)
  {
    var h := Header(severity, |findings|);
    var fs := Unlines(FindingLines(findings));
    var xs := Unlines(FixLines(fixesApplied));
    assert h + fs + FixesHeading + xs == (h + fs) + (FixesHeading + xs);
  }

  /** Each line followed by a newline, in order. */
  function Unlines(ls: seq<string>): string
    decreases |ls|
  {
    if ls == [] then "" else ls[0] + "\n" + Unlines(ls[1..])
  }

  lemma {:induction false} UnlinesSnoc(ls: seq<string>, l: string)
    ensures Unlines(ls + [l]) == Unlines(ls) + l + "\n"
    decreases |ls|
  {
    if ls == [] {
      assert [l][1..] == [];
    } else {
      assert (ls + [l])[1..] == ls[1..] + [l];
      UnlinesSnoc(ls[1..], l);
    }
  }

  /**
   * The script's construction: the header, then one appended line per finding and one
   * per fix. (The fixed closing sections are not modelled.)
   */
  method GeneratePrBody(severity: string, findings: seq<Finding>, fixesApplied: seq<string>)
    returns (body: string)
    ensures body == PrBody(severity, findings, fixesApplied)
  {
    body := Header(severity, |findings|);
    body := AppendFindingLines(body, findings);
    body := body + FixesHeading;
    body := AppendFixLines(body, fixesApplied);
  }

  /** The first loop: for each finding in turn, append its numbered line (numbering from 1) and a newline. */
  method AppendFindingLines(prefix: string, findings: seq<Finding>) returns (body: string)
    ensures body == prefix + Unlines(FindingLines(findings))
  {
    body := prefix;
    for i := 0 to |findings|
      invariant body == prefix + Unlines(FindingLines(findings[..i]))
    {
      var finding := findings[i];
      var ruleName := finding.ruleName.GetOr("Unknown Rule");
      var description := finding.details.GetOr(finding.description.GetOr("Security issue detected"));
      var line := NatToString(i + 1) + ". **" + ruleName + "**: " + description;
      assert line == FindingLine(i + 1, finding);
      FindingLinesSnoc(findings, i);
      UnlinesSnoc(FindingLines(findings[..i]), line);
      body := body + line + "\n";
    }
    assert findings[..|findings|] == findings;
  }

  /** The second loop: for each fix in turn, append it as a bullet line. */
  method AppendFixLines(prefix: string, fixesApplied: seq<string>) returns (body: string)
    ensures body == prefix + Unlines(FixLines(fixesApplied))
  {
    body := prefix;
    for i := 0 to |fixesApplied|
      invariant body == prefix + Unlines(FixLines(fixesApplied[..i]))
    {
      var line := "- " + fixesApplied[i];
      FixLinesSnoc(fixesApplied, i);
      UnlinesSnoc(FixLines(fixesApplied[..i]), line);
      body := body + line + "\n";
    }
    assert fixesApplied[..|fixesApplied|] == fixesApplied;
  }

  lemma FindingLinesSnoc(findings: seq<Finding>, i: nat)
    requires i < |findings|
    ensures FindingLines(findings[..i + 1]) == FindingLines(findings[..i]) + [FindingLine(i + 1, findings[i])]
  {
  }

  lemma FixLinesSnoc(fixes: seq<string>, i: nat)
    requires i < |fixes|
    ensures FixLines(fixes[..i + 1]) == FixLines(fixes[..i]) + ["- " + fixes[i]]
  {
  }

  // Reading the lists back

  predicate NoNewline(s: string) {
    forall i :: 0 <= i < |s| ==> s[i] != '\n'
  }

  /** Position of the first newline, or the length when there is none. */
  function NewlineAt(s: string): (k: nat)
    ensures k <= |s|
    ensures forall i :: 0 <= i < k ==> s[i] != '\n'
    ensures k < |s| ==> s[k] == '\n'
    decreases |s|
  {
    if s == [] || s[0] == '\n' then 0 else 1 + NewlineAt(s[1..])
  }

  /** Splits newline-terminated text into its lines. */
  function SplitLines(s: string): seq<string>
    decreases |s|
  {
    if s == [] then []
    else
      var k := NewlineAt(s);
      if k == |s| then [s] else [s[..k]] + SplitLines(s[k + 1..])
  }

  lemma SplitFirstLine(l: string, rest: string)
    requires NoNewline(l)
    ensures SplitLines(l + "\n" + rest) == [l] + SplitLines(rest)
  {
    var s := l + "\n" + rest;
    var k := NewlineAt(s);
    assert s[|l|] == '\n';
    assert k == |l|;
    assert s[..k] == l && s[k + 1..] == rest;
  }

  /** Joining lines that hold no newline and splitting again gives the lines back. */
  lemma {:induction false} SplitUnlines(ls: seq<string>)
    requires forall i :: 0 <= i < |ls| ==> NoNewline(ls[i])
    ensures SplitLines(Unlines(ls)) == ls
    decreases |ls|
  {
    if ls != [] {
      SplitFirstLine(ls[0], Unlines(ls[1..]));
      SplitUnlines(ls[1..]);
    }
  }

  lemma FindingLineHasNoNewline(number: nat, f: Finding)
    requires NoNewline(RuleName(f)) && NoNewline(Description(f))
    ensures NoNewline(FindingLine(number, f))
  {
    var digits := NatToString(number);
    assert NoNewline(digits) by {
      forall i | 0 <= i < |digits| ensures digits[i] != '\n' {
        assert IsDigit(digits[i]);
      }
    }
  }

  /**
   * When no rule name or description holds a newline, the finding section is exactly
   * one line per finding, in input order, the i-th reading
   * `i. **rule_name**: description`.
   */
  lemma FindingSectionReadsBack(findings: seq<Finding>)
    requires forall i :: 0 <= i < |findings| ==>
      NoNewline(RuleName(findings[i])) && NoNewline(Description(findings[i]))
    ensures var ls := SplitLines(Unlines(FindingLines(findings)));
      && |ls| == |findings|
      && forall i :: 0 <= i < |findings| ==>
           ls[i] == NatToString(i + 1) + ". **" + RuleName(findings[i]) + "**: " + Description(findings[i])
  {
    var ls := FindingLines(findings);
    forall i | 0 <= i < |ls| ensures NoNewline(ls[i]) {
      FindingLineHasNoNewline(i + 1, findings[i]);
    }
    SplitUnlines(ls);
  }

  /** When no fix holds a newline, the fix section is one `- fix` line per fix, in order. */
  lemma FixSectionReadsBack(fixes: seq<string>)
    requires forall i :: 0 <= i < |fixes| ==> NoNewline(fixes[i])
    ensures var ls := SplitLines(Unlines(FixLines(fixes)));
      && |ls| == |fixes|
      && forall i :: 0 <= i < |fixes| ==> ls[i] == "- " + fixes[i]
  {
    var ls := FixLines(fixes);
    forall i | 0 <= i < |ls| ensures NoNewline(ls[i]) {
      assert ls[i] == "- " + fixes[i];
    }
    SplitUnlines(ls);
  }

  /** The combined severity label the remediation run passes falls back to the wrench icon. */
  lemma CombinedLabelIcon()
    ensures Icon("CRITICAL/HIGH") == DefaultIcon
  {
  }

  /** The heading title-cases the combined label as `Critical/High`. */
  lemma CombinedLabelTitle()
    ensures Title("CRITICAL/HIGH") == "Critical/High"
  {
  }

  lemma CombinedLabelLower()
    ensures Lower("CRITICAL/HIGH") == "critical/high"
  {
  }
}

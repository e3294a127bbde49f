/**
 * ASCII text helpers standing in for the Python string operations the
 * remediation script uses: `str.upper`, `str.lower`, `str.title`,
 * `str.endswith` and the decimal rendering of an `int` inside an f-string.
 * Only the ASCII letters change case; every other character is left alone.
 */
module Ascii {

  predicate IsLower(c: char) { 'a' <= c <= 'z' }
  predicate IsUpper(c: char) { 'A' <= c <= 'Z' }
  predicate IsLetter(c: char) { IsLower(c) || IsUpper(c) }
  predicate IsDigit(c: char) { '0' <= c <= '9' }

  function UpperChar(c: char): (r: char)
    ensures !IsLower(r)
    ensures IsLetter(c) <==> IsLetter(r)
  {
    if IsLower(c) then (c as int - 'a' as int + 'A' as int) as char else c
  }

  function LowerChar(c: char): (r: char)
    ensures !IsUpper(r)
    ensures IsLetter(c) <==> IsLetter(r)
  {
    if IsUpper(c) then (c as int - 'A' as int + 'a' as int) as char else c
  }

  /** `s.upper()` on ASCII text. */
  function Upper(s: string): (r: string)
    ensures |r| == |s|
    ensures forall i :: 0 <= i < |r| ==> !IsLower(r[i])
  {
    seq(|s|, i requires 0 <= i < |s| => UpperChar(s[i]))
  }

  /** `s.lower()` on ASCII text. */
  function Lower(s: string): (r: string)
    ensures |r| == |s|
    ensures forall i :: 0 <= i < |r| ==> !IsUpper(r[i])
  {
    seq(|s|, i requires 0 <= i < |s| => LowerChar(s[i]))
  }

  /**
   * Python's title casing on ASCII text: a letter is upper-cased when the
   * character before it is not a letter (or it starts the text), and
   * lower-cased when it is; every other character is kept.
   */
  function Title(s: string): (r: string)
    ensures |r| == |s|
    ensures forall i :: 0 <= i < |s| ==>
      r[i] == if !IsLetter(s[i]) then s[i]
              else if i > 0 && IsLetter(s[i - 1]) then LowerChar(s[i])
              else UpperChar(s[i])
  {
    TitleAt(s, false);
    TitleAfter(s, false)
  }

  function TitleAfter(s: string, afterLetter: bool): string
    decreases |s|
  {
    if s == [] then []
    else
      var c := if !IsLetter(s[0]) then s[0]
               else if afterLetter then LowerChar(s[0])
               else UpperChar(s[0]);
      [c] + TitleAfter(s[1..], IsLetter(s[0]))
  }

  /** The title-cased form of `s[i]`, given whether the text before `s` ended in a letter. */
  function TitleChar(s: string, i: nat, afterLetter: bool): char
    requires i < |s|
  {
    if !IsLetter(s[i]) then s[i]
    else if (i == 0 && afterLetter) || (i > 0 && IsLetter(s[i - 1])) then LowerChar(s[i])
    else UpperChar(s[i])
  }

  /**
   * Pointwise title casing: each letter is lower-cased exactly when the
   * character before it (or `afterLetter`, at the start) is a letter.
   */
  lemma {:induction false} TitleAt(s: string, afterLetter: bool)
    ensures |TitleAfter(s, afterLetter)| == |s|
    ensures forall i :: 0 <= i < |s| ==> TitleAfter(s, afterLetter)[i] == TitleChar(s, i, afterLetter)
    decreases |s|
  {
    if s != [] {
      TitleAt(s[1..], IsLetter(s[0]));
      var t := TitleAfter(s, afterLetter);
      assert t[1..] == TitleAfter(s[1..], IsLetter(s[0]));
      forall i | 0 <= i < |s|
        ensures t[i] == TitleChar(s, i, afterLetter)
      {
        if i > 0 {
          var rest := TitleAfter(s[1..], IsLetter(s[0]));
          assert t[i] == rest[i - 1];
          assert s[i] == s[1..][i - 1];
          assert s[i - 1] == (if i - 1 == 0 then s[0] else s[1..][i - 2]);
        }
      }
    }
  }

  /** Title casing changes only case: it keeps the length and the lower-cased text. */
  lemma {:induction false} TitleKeepsLetters(s: string, afterLetter: bool)
    ensures |TitleAfter(s, afterLetter)| == |s|
    ensures Lower(TitleAfter(s, afterLetter)) == Lower(s)
  {
    if s != [] {
      TitleKeepsLetters(s[1..], IsLetter(s[0]));
      var t := TitleAfter(s, afterLetter);
      assert t[1..] == TitleAfter(s[1..], IsLetter(s[0]));
      forall i | 0 <= i < |s| ensures Lower(t)[i] == Lower(s)[i] {
        if i > 0 {
          assert Lower(t)[i] == Lower(t[1..])[i - 1];
          assert Lower(s)[i] == Lower(s[1..])[i - 1];
        }
      }
    }
  }

  /** Letters that follow a letter are lower-cased. */
  lemma {:induction false} TitleAfterLetters(w: string, rest: string)
    requires forall i :: 0 <= i < |w| ==> IsLetter(w[i])
    ensures TitleAfter(w + rest, true) == Lower(w) + TitleAfter(rest, true)
    decreases |w|
  {
    if w == [] {
      assert w + rest == rest;
    } else {
      assert (w + rest)[1..] == w[1..] + rest;
      TitleAfterLetters(w[1..], rest);
      assert Lower(w) == [LowerChar(w[0])] + Lower(w[1..]);
    }
  }

  /**
   * Upper-casing is idempotent, and text that differs only in case upper-cases
   * alike. Each of `Upper` and `Lower` keeps what the other computes, so
   * together with their own contracts they change only the case of letters.
   */
  lemma UpperIgnoresCase(s: string)
    ensures Upper(Upper(s)) == Upper(s)
    ensures Upper(Lower(s)) == Upper(s)
    ensures Lower(Upper(s)) == Lower(s)
    ensures Lower(Lower(s)) == Lower(s)
  {
  }

  /** `s.endswith(suffix)`. */
  predicate EndsWith(s: string, suffix: string) {
    |suffix| <= |s| && s[|s| - |suffix|..] == suffix
  }

  /** `s` ends with `suffix` exactly when it is some text followed by `suffix`. */
  lemma EndsWithSuffix(s: string, suffix: string)
    ensures EndsWith(s, suffix) <==> exists p :: s == p + suffix
  {
    var k := |s| - |suffix|;
    if k >= 0 {
      assert s == s[..k] + s[k..];
    }
  }

  function DigitChar(d: nat): (c: char)
    requires d < 10
    ensures IsDigit(c)
  {
    "0123456789"[d]
  }

  function DigitValue(c: char): (d: nat)
    requires IsDigit(c)
    ensures d < 10
  {
    c as int - '0' as int
  }

  /** `str(n)` for a non-negative `int`: decimal digits, no leading zero. */
  function NatToString(n: nat): (r: string)
    ensures |r| >= 1
    ensures forall i :: 0 <= i < |r| ==> IsDigit(r[i])
    ensures |r| > 1 ==> r[0] != '0'
    decreases n
  {
    if n < 10 then [DigitChar(n)] else NatToString(n / 10) + [DigitChar(n % 10)]
  }

  /** Reads a run of decimal digits back as a number. */
  function ParseNat(s: string): nat
    requires forall i :: 0 <= i < |s| ==> IsDigit(s[i])
    decreases |s|
  {
    if s == [] then 0 else ParseNat(s[..|s| - 1]) * 10 + DigitValue(s[|s| - 1])
  }

  /** The rendered count reads back as the count itself. */
  lemma {:induction false} ParseNatToString(n: nat)
    ensures ParseNat(NatToString(n)) == n
    decreases n
  {
    var r := NatToString(n);
    if n >= 10 {
      ParseNatToString(n / 10);
      assert r[..|r| - 1] == NatToString(n / 10);
    }
  }

  /** The length of the run of decimal digits that `s` starts with. */
  function DigitRun(s: string): (k: nat)
    ensures k <= |s|
    ensures forall i :: 0 <= i < k ==> IsDigit(s[i])
    ensures k < |s| ==> !IsDigit(s[k])
    decreases |s|
  {
    if s == [] || !IsDigit(s[0]) then 0 else 1 + DigitRun(s[1..])
  }

  lemma {:induction false} DigitRunOf(d: string, rest: string)
    requires forall i :: 0 <= i < |d| ==> IsDigit(d[i])
    requires rest == [] || !IsDigit(rest[0])
    ensures DigitRun(d + rest) == |d|
    decreases |d|
  {
    if d == [] {
      assert d + rest == rest;
    } else {
      assert (d + rest)[1..] == d[1..] + rest;
      DigitRunOf(d[1..], rest);
    }
  }

  /** The number written at position `k` of `s`: the run of digits there, read in decimal. */
  function NumberAt(s: string, k: nat): nat
    requires k <= |s|
  {
    var rest := s[k..];
    ParseNat(rest[..DigitRun(rest)])
  }

  /** The digits at position `k` of `s` are followed by some other character. */
  predicate NumberEnds(s: string, k: nat)
    requires k <= |s|
  {
    k + DigitRun(s[k..]) < |s|
  }

  /**
   * A rendered number placed after any text and before text that does not
   * start with a digit reads back, at its position, as the number itself.
   */
  lemma NumberReadsBack(lead: string, n: nat, rest: string)
    requires rest == [] || !IsDigit(rest[0])
    ensures NumberAt(lead + NatToString(n) + rest, |lead|) == n
    ensures rest != [] ==> NumberEnds(lead + NatToString(n) + rest, |lead|)
  {
    var d := NatToString(n);
    var s := lead + d + rest;
    DigitRunOf(d, rest);
    ParseNatToString(n);
    assert s[|lead|..] == d + rest;
    assert (d + rest)[..|d|] == d;
  }
}

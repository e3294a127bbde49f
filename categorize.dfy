/**
 * `SecurityRemediator.categorize_findings`: partition the loaded findings into
 * the four fixed severity buckets, keeping input order and silently dropping
 * findings whose severity is none of the four.
 */
module Categorize {
  import opened Wrappers
  import opened Ascii
  import opened Findings

  /** The order-preserving selection of the findings whose severity is `key`. */
  function Bucket(s: seq<Finding>, key: string): (r: seq<Finding>)
    ensures |r| <= |s|
    ensures forall j :: 0 <= j < |r| ==> SeverityOf(r[j]) == key && r[j] in s
    decreases |s|
  {
    if s == [] then []
    else Bucket(s[..|s| - 1], key) + (if SeverityOf(s[|s| - 1]) == key then [s[|s| - 1]] else [])
  }

  /** The positions in `s` of the findings selected by `Bucket(s, key)`. */
  function BucketIndices(s: seq<Finding>, key: string): seq<nat>
    decreases |s|
  {
    if s == [] then []
    else BucketIndices(s[..|s| - 1], key) + (if SeverityOf(s[|s| - 1]) == key then [|s| - 1] else [])
  }

  /** The findings the script drops: their severity names no bucket. */
  function Dropped(s: seq<Finding>): (r: seq<Finding>)
    ensures forall j :: 0 <= j < |r| ==> !Recognised(r[j]) && r[j] in s
    ensures r == [] <==> forall i :: 0 <= i < |s| ==> Recognised(s[i])
    decreases |s|
  {
    if s == [] then []
    else Dropped(s[..|s| - 1]) + (if Recognised(s[|s| - 1]) then [] else [s[|s| - 1]])
  }

  /** Each selected finding sits at its recorded position. */
  lemma {:induction false} BucketIndicesMatch(s: seq<Finding>, key: string)
    ensures |BucketIndices(s, key)| == |Bucket(s, key)|
    ensures forall j :: 0 <= j < |BucketIndices(s, key)| ==>
      BucketIndices(s, key)[j] < |s| && Bucket(s, key)[j] == s[BucketIndices(s, key)[j]]
    decreases |s|
  {
    if s != [] {
      var n := |s| - 1;
      BucketIndicesMatch(s[..n], key);
      var prev, prevBucket := BucketIndices(s[..n], key), Bucket(s[..n], key);
      var idx, bucket := BucketIndices(s, key), Bucket(s, key);
      assert idx[..|prev|] == prev && bucket[..|prevBucket|] == prevBucket;
      forall j | 0 <= j < |idx| ensures idx[j] < |s| && bucket[j] == s[idx[j]] {
        if j < |prev| {
          assert idx[j] == prev[j] && bucket[j] == prevBucket[j];
          assert s[..n][prev[j]] == s[prev[j]];
        }
      }
    }
  }

  /** The recorded positions are strictly increasing, so the selection keeps input order. */
  lemma {:induction false} BucketIndicesIncreasing(s: seq<Finding>, key: string)
    ensures forall j :: 0 <= j < |BucketIndices(s, key)| ==> BucketIndices(s, key)[j] < |s|
    ensures forall j, j' :: 0 <= j < j' < |BucketIndices(s, key)| ==>
      BucketIndices(s, key)[j] < BucketIndices(s, key)[j']
    decreases |s|
  {
    if s != [] {
      BucketIndicesIncreasing(s[..|s| - 1], key);
    }
  }

  /** The recorded positions are exactly those whose severity is the key. */
  lemma {:induction false} BucketIndicesExact(s: seq<Finding>, key: string)
    ensures forall i :: 0 <= i < |s| ==> (i in BucketIndices(s, key) <==> SeverityOf(s[i]) == key)
    decreases |s|
  {
    if s != [] {
      var n := |s| - 1;
      BucketIndicesExact(s[..n], key);
      BucketIndicesIncreasing(s[..n], key);
      forall i | 0 <= i < |s| ensures i in BucketIndices(s, key) <==> SeverityOf(s[i]) == key {
        if i < n {
          assert s[..n][i] == s[i];
        }
      }
    }
  }

  /**
   * Each bucket is exactly the subsequence of the input at the positions whose
   * severity is the bucket's key: those positions, in increasing order, and no others.
   */
  lemma BucketIsSubsequence(s: seq<Finding>, key: string)
    ensures |BucketIndices(s, key)| == |Bucket(s, key)|
    ensures forall j :: 0 <= j < |BucketIndices(s, key)| ==>
      BucketIndices(s, key)[j] < |s| && Bucket(s, key)[j] == s[BucketIndices(s, key)[j]]
    ensures forall j, j' :: 0 <= j < j' < |BucketIndices(s, key)| ==>
      BucketIndices(s, key)[j] < BucketIndices(s, key)[j']
    ensures forall i :: 0 <= i < |s| ==> (i in BucketIndices(s, key) <==> SeverityOf(s[i]) == key)
  {
    BucketIndicesMatch(s, key);
    BucketIndicesIncreasing(s, key);
    BucketIndicesExact(s, key);
  }

  /** A finding with a recognised severity lands in its bucket; missing severity means INFORMATIONAL. */
  lemma {:induction false} RecognisedIsKept(s: seq<Finding>, i: nat)
    requires i < |s|
    ensures Recognised(s[i]) ==> s[i] in Bucket(s, SeverityOf(s[i]))
    ensures s[i].severity.None? ==> s[i] in Bucket(s, Informational)
  {
    var key := SeverityOf(s[i]);
    BucketIsSubsequence(s, key);
    var idx := BucketIndices(s, key);
    var j :| 0 <= j < |idx| && idx[j] == i;
    assert Bucket(s, key)[j] == s[i];
  }

  /** A finding whose severity is not one of the four keys appears in no bucket. */
  lemma UnrecognisedIsDropped(s: seq<Finding>, f: Finding)
    requires !Recognised(f)
    ensures forall k :: k in SeverityKeys ==> f !in Bucket(s, k)
  {
  }

  /** Every finding is in one bucket or dropped, so nothing is counted twice. */
  lemma {:induction false} BucketSizes(s: seq<Finding>)
    ensures |Bucket(s, Critical)| + |Bucket(s, High)| + |Bucket(s, Medium)|
          + |Bucket(s, Informational)| + |Dropped(s)| == |s|
    decreases |s|
  {
    if s != [] {
      BucketSizes(s[..|s| - 1]);
    }
  }

  /** The buckets hold at most the input, and all of it exactly when every severity is recognised. */
  lemma BucketTotal(s: seq<Finding>)
    ensures |Bucket(s, Critical)| + |Bucket(s, High)| + |Bucket(s, Medium)|
          + |Bucket(s, Informational)| <= |s|
    ensures |Bucket(s, Critical)| + |Bucket(s, High)| + |Bucket(s, Medium)|
          + |Bucket(s, Informational)| == |s|
        <==> forall i :: 0 <= i < |s| ==> Recognised(s[i])
  {
    BucketSizes(s);
  }

  /** Buckets of a concatenation are the concatenated buckets: nothing moves across. */
  lemma {:induction false} BucketAppend(a: seq<Finding>, b: seq<Finding>, key: string)
    ensures Bucket(a + b, key) == Bucket(a, key) + Bucket(b, key)
    decreases |b|
  {
    if b != [] {
      var n := |b| - 1;
      assert (a + b)[..|a + b| - 1] == a + b[..n];
      assert (a + b)[|a + b| - 1] == b[n];
      BucketAppend(a, b[..n], key);
      var t := if SeverityOf(b[n]) == key then [b[n]] else [];
      calc {
        Bucket(a + b, key);
        Bucket(a + b[..n], key) + t;
        Bucket(a, key) + Bucket(b[..n], key) + t;
        Bucket(a, key) + (Bucket(b[..n], key) + t);
      }
    } else {
      assert a + b == a;
    }
  }

  /** Replacing a finding by one with the same effective severity leaves every bucket's positions unchanged. */
  lemma {:induction false} SameSeverityBuckets(s: seq<Finding>, i: nat, g: Finding, key: string)
    requires i < |s|
    requires SeverityOf(g) == SeverityOf(s[i])
    ensures BucketIndices(s[i := g], key) == BucketIndices(s, key)
    decreases |s|
  {
    var n := |s| - 1;
    if i < n {
      assert s[i := g][..n] == s[..n][i := g];
      SameSeverityBuckets(s[..n], i, g, key);
    } else {
      assert s[i := g][..n] == s[..n];
    }
  }

  /**
   * The partition depends on the spelling of a severity only up to case:
   * respelling one finding's severity `v` in any mix of cases (an absent one
   * counting as `INFORMATIONAL`) leaves every bucket's positions unchanged.
   */
  lemma BucketsIgnoreCase(s: seq<Finding>, i: nat, v: string, key: string)
    requires i < |s|
    requires Lower(v) == Lower(s[i].severity.GetOr(Informational))
    ensures BucketIndices(s[i := s[i].(severity := Some(v))], key) == BucketIndices(s, key)
  {
    UpperIgnoresCase(Informational);
    SameSeverityBuckets(s, i, s[i].(severity := Some(v)), key);
  }

  /** The four severity keys as a set. */
  const AllKeys: set<string> := set k | k in SeverityKeys

  lemma AllKeysListed()
    ensures AllKeys == {Critical, High, Medium, Informational}
  {
    assert forall k :: k in AllKeys <==> k in SeverityKeys;
  }

  /**
   * The script's loop: start with four empty lists and append each finding to
   * the list named by its upper-cased severity, if there is one.
   */
  method CategorizeFindings(findings: seq<Finding>) returns (categories: map<string, seq<Finding>>)
    ensures categories.Keys == AllKeys
    ensures forall k :: k in categories ==> categories[k] == Bucket(findings, k)
  {
    AllKeysListed();
    categories := map[Critical := [], High := [], Medium := [], Informational := []];
    for i := 0 to |findings|
      invariant categories.Keys == AllKeys
      invariant forall k :: k in categories ==> categories[k] == Bucket(findings[..i], k)
    {
      var severity := Upper(findings[i].severity.GetOr(Informational));
      if severity in categories {
        categories := categories[severity := categories[severity] + [findings[i]]];
      }
      assert findings[..i + 1][..i] == findings[..i];
    }
    assert findings[..|findings|] == findings;
  }

  /** The urgent list `main` builds: all critical findings, then all high ones. */
  function CriticalAndHigh(s: seq<Finding>): (r: seq<Finding>)
    ensures |r| == |Bucket(s, Critical)| + |Bucket(s, High)|
    ensures forall j :: 0 <= j < |r| ==>
      SeverityOf(r[j]) == (if j < |Bucket(s, Critical)| then Critical else High)
  {
    Bucket(s, Critical) + Bucket(s, High)
  }

  /** Remediation is skipped exactly when no finding is critical or high. */
  lemma CriticalAndHighEmpty(s: seq<Finding>)
    ensures CriticalAndHigh(s) == [] <==>
      forall i :: 0 <= i < |s| ==> SeverityOf(s[i]) != Critical && SeverityOf(s[i]) != High
  {
    if exists i :: 0 <= i < |s| && (SeverityOf(s[i]) == Critical || SeverityOf(s[i]) == High) {
      var i :| 0 <= i < |s| && (SeverityOf(s[i]) == Critical || SeverityOf(s[i]) == High);
      RecognisedIsKept(s, i);
    }
    var r := CriticalAndHigh(s);
    if r != [] {
      assert r[0] in s;
      var i :| 0 <= i < |s| && s[i] == r[0];
      assert SeverityOf(s[i]) == Critical || SeverityOf(s[i]) == High;
    }
  }
}

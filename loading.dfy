/**
 * The pure part of `SecurityRemediator.load_security_findings`: walk the
 * directory listing in order, and for each `.json` file whose document has a
 * `rule_detections` key, append that array to the findings. The first
 * exception (an unreadable or undecodable file, or a listing that cannot be
 * taken) ends the walk, and what was gathered so far is returned.
 */
module Loading {
  import opened Wrappers
  import opened Ascii
  import opened Findings

  /** What decoding a file yields: a JSON object, which may lack the key, or an exception. */
  datatype Parsed = Document(ruleDetections: Option<seq<Finding>>) | Unreadable

  /** One directory entry: its name and what opening and decoding it would give. */
  datatype Entry = Entry(name: string, content: Parsed)

  predicate IsJson(e: Entry) {
    EndsWith(e.name, ".json")
  }

  /** Only `.json` files are opened, so only they can raise. */
  predicate Fails(e: Entry) {
    IsJson(e) && e.content.Unreadable?
  }

  /**
   * What one entry adds to the accumulator when it does not raise: the
   * `rule_detections` array of a `.json` document that has one, else nothing.
   */
  function Contribution(e: Entry): (r: seq<Finding>)
    ensures !IsJson(e) || e.content.Unreadable? || e.content.ruleDetections.None? ==> r == []
    ensures r != [] ==> IsJson(e) && e.content == Document(Some(r))
    ensures IsJson(e) && e.content.Document? && e.content.ruleDetections.Some? ==>
      r == e.content.ruleDetections.value
  {
    if IsJson(e) && e.content.Document? && e.content.ruleDetections.Some?
    then e.content.ruleDetections.value
    else []
  }

  /** The concatenated contributions of the entries, in listing order. */
  function Collected(es: seq<Entry>): seq<Finding>
    decreases |es|
  {
    if es == [] then [] else Collected(es[..|es| - 1]) + Contribution(es[|es| - 1])
  }

  /** The position of the first entry that raises, or the length when none does. */
  function FirstFailure(es: seq<Entry>): (r: nat)
    ensures r <= |es|
    ensures forall i :: 0 <= i < r ==> !Fails(es[i])
    ensures r < |es| ==> Fails(es[r])
    decreases |es|
  {
    if es == [] || Fails(es[0]) then 0 else 1 + FirstFailure(es[1..])
  }

  /**
   * The findings the script returns for a listing (`None`: `os.listdir` raised):
   * everything the entries before the first exception collect.
   */
  function Loaded(listing: Option<seq<Entry>>): (r: seq<Finding>)
    ensures listing.None? ==> r == []
    ensures listing.Some? && FirstFailure(listing.value) == |listing.value| ==> r == Collected(listing.value)
    ensures listing.Some? && listing.value != [] && Fails(listing.value[0]) ==> r == []
  {
    match listing
    case None => []
    case Some(es) =>
      assert es[..|es|] == es;
      assert es[..0] == [];
      Collected(es[..FirstFailure(es)])
  }

  /** The script's loop, with the exception as an early exit. */
  method LoadSecurityFindings(listing: Option<seq<Entry>>) returns (findings: seq<Finding>)
    ensures listing.None? ==> findings == []
    ensures listing.Some? ==> findings == Collected(listing.value[..FirstFailure(listing.value)])
  {
    findings := [];
    if listing.None? {
      return;
    }
    var entries := listing.value;
    var i := 0;
    while i < |entries|
      invariant i <= FirstFailure(entries)
      invariant findings == Collected(entries[..i])
    {
      var entry := entries[i];
      CollectedSnoc(entries, i);
      if EndsWith(entry.name, ".json") {
        match entry.content
        case Unreadable =>
          assert Fails(entry);
          break;
        case Document(detections) =>
          if detections.Some? {
            findings := findings + detections.value;
          }
      }
      i := i + 1;
    }
  }

  lemma CollectedSnoc(es: seq<Entry>, i: nat)
    requires i < |es|
    ensures Collected(es[..i + 1]) == Collected(es[..i]) + Contribution(es[i])
  {
    assert es[..i + 1][..i] == es[..i];
  }

  /** Loading a concatenated listing concatenates what each part contributes. */
  lemma {:induction false} CollectedAppend(a: seq<Entry>, b: seq<Entry>)
    ensures Collected(a + b) == Collected(a) + Collected(b)
    decreases |b|
  {
    if b == [] {
      assert a + b == a;
    } else {
      var n := |b| - 1;
      assert (a + b)[..|a + b| - 1] == a + b[..n];
      CollectedAppend(a, b[..n]);
    }
  }

  /** A finding is loaded only from some `.json` document that carried it. */
  lemma {:induction false} CollectedFrom(es: seq<Entry>, f: Finding)
    ensures f in Collected(es) <==> exists i :: 0 <= i < |es| && f in Contribution(es[i])
    decreases |es|
  {
    if es != [] {
      var n := |es| - 1;
      CollectedFrom(es[..n], f);
      if exists i :: 0 <= i < |es| && f in Contribution(es[i]) {
        var i :| 0 <= i < |es| && f in Contribution(es[i]);
        if i < n {
          assert es[..n][i] == es[i];
        }
      }
    }
  }

  /** A file that is not `.json`, or a document without `rule_detections`, contributes nothing. */
  lemma IgnoredEntry(a: seq<Entry>, e: Entry, b: seq<Entry>)
    requires !IsJson(e) || (e.content.Document? && e.content.ruleDetections.None?)
    ensures Collected(a + [e] + b) == Collected(a + b)
    ensures !Fails(e)
  {
    CollectedAppend(a + [e], b);
    CollectedAppend(a, b);
    assert (a + [e])[..|a|] == a;
  }

  /** The walk stops at the first entry that raises. */
  lemma FailurePosition(a: seq<Entry>, e: Entry, b: seq<Entry>)
    requires forall i :: 0 <= i < |a| ==> !Fails(a[i])
    requires Fails(e)
    ensures FirstFailure(a + [e] + b) == |a|
  {
    var es := a + [e] + b;
    var k := FirstFailure(es);
    assert es[|a|] == e;
  }

  /**
   * A finding is loaded exactly when some `.json` document before the first
   * entry that raises carried it in its `rule_detections`.
   */
  lemma LoadedFrom(es: seq<Entry>, f: Finding)
    ensures f in Loaded(Some(es)) <==>
      exists i :: 0 <= i < FirstFailure(es) && f in Contribution(es[i])
  {
    var a := es[..FirstFailure(es)];
    CollectedFrom(a, f);
    assert forall i :: 0 <= i < |a| ==> a[i] == es[i];
  }

  lemma LoadedUpTo(es: seq<Entry>, a: seq<Entry>)
    requires |a| <= |es| && es[..|a|] == a && FirstFailure(es) == |a|
    ensures Loaded(Some(es)) == Collected(a)
  {
  }

  /** An exception keeps exactly what the entries before it gave; nothing after it counts. */
  lemma StopsAtFailure(a: seq<Entry>, e: Entry, b: seq<Entry>)
    requires forall i :: 0 <= i < |a| ==> !Fails(a[i])
    requires Fails(e)
    ensures Loaded(Some(a + [e] + b)) == Collected(a)
  {
    var es := a + [e] + b;
    FailurePosition(a, e, b);
    assert es[..|a|] == a;
    LoadedUpTo(es, a);
  }
}

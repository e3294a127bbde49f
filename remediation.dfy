/**
 * The script's `main`: decide whether a remediation pull request is needed
 * and run the chain of external steps, stopping at the first that fails. The
 * external steps (`git` and `gh` subprocesses, the template copy) are not
 * modelled; only whether each one succeeds is, as part of the environment.
 */
module Remediation {
  import opened Wrappers
  import opened Ascii
  import opened Findings
  import opened Categorize
  import opened Loading
  import opened Report

  /** The external steps, in the order the script runs them. */
  datatype Step = CheckoutMain | CreateBranch | ApplyFixes | PushBranch | CreatePullRequest

  const RemediationChain: seq<Step> := [CheckoutMain, CreateBranch, ApplyFixes, PushBranch, CreatePullRequest]

  /**
   * What the script observes of the outside world: whether `./fcs-results`
   * exists, what listing it yields, and which external steps succeed.
   */
  datatype Environment = Environment(resultsExist: bool, listing: Option<seq<Entry>>, succeeding: set<Step>)

  /** The arguments handed to `gh pr create`. */
  datatype PullRequest = PullRequest(head: string, base: string, title: string, body: string)

  const BranchName: string := "security-fixes/critical-high-remediation"
  const BaseBranch: string := "main"
  const CombinedSeverity: string := "CRITICAL/HIGH"

  const FixesApplied: seq<string> := [
    "\U{1F6E1}\U{FE0F} Block S3 bucket public access (prevents data exposure)",
    "\U{1F510} Enable S3 server-side encryption (protects data at rest)",
    "\U{1F4CB} Enable S3 versioning (prevents accidental data loss)",
    "\U{1F6AB} Remove wildcard IAM permissions (enforces least privilege)",
    "\U{1F4CD} Add IAM condition restrictions (limits permission scope)",
    "\U{1F511} Remove programmatic access keys (reduces credential risk)",
    "\U{1F4CA} Add access logging for security monitoring",
    "\U{1F3D7}\U{FE0F} Implement secure-by-default infrastructure patterns"]

  const TitlePrefix: string := "\U{1F512} Fix "
  const TitleSuffix: string := " Critical/High Security Issues"

  /** The pull request title: the number read just after the prefix is the count. */
  function PrTitle(count: nat): (r: string)
    ensures TitlePrefix <= r
    ensures NumberAt(r, |TitlePrefix|) == count
  {
    assert TitleSuffix[0] == ' ';
    NumberReadsBack(TitlePrefix, count, TitleSuffix);
    TitlePrefix + NatToString(count) + TitleSuffix
  }

  /** The number shown in the title reads back as the count it was built from. */
  lemma PrTitleShowsCount(count: nat)
    ensures var t := PrTitle(count);
      var digits := t[|TitlePrefix|..|t| - |TitleSuffix|];
      && (forall i :: 0 <= i < |digits| ==> IsDigit(digits[i]))
      && ParseNat(digits) == count
  {
    var t := PrTitle(count);
    assert t[|TitlePrefix|..|t| - |TitleSuffix|] == NatToString(count);
    ParseNatToString(count);
  }

  /**
   * The findings that call for a remediation pull request: the critical and
   * high ones among those loaded. There are none exactly when no loaded
   * finding is critical or high.
   */
  function Urgent(env: Environment): (r: seq<Finding>)
    ensures forall f :: f in r ==> SeverityOf(f) == Critical || SeverityOf(f) == High
    ensures r == [] <==> forall i :: 0 <= i < |Loaded(env.listing)| ==>
      SeverityOf(Loaded(env.listing)[i]) != Critical && SeverityOf(Loaded(env.listing)[i]) != High
  {
    CriticalAndHighEmpty(Loaded(env.listing));
    CriticalAndHigh(Loaded(env.listing))
  }

  /** The results exist, something was loaded, and some of it is critical or high. */
  predicate RemediationNeeded(env: Environment) {
    env.resultsExist && Loaded(env.listing) != [] && Urgent(env) != []
  }

  /** How many steps of `steps` succeed before the first one that fails. */
  function Succeeded(steps: seq<Step>, succeeding: set<Step>): (k: nat)
    ensures k <= |steps|
    ensures forall i :: 0 <= i < k ==> steps[i] in succeeding
    ensures k < |steps| ==> steps[k] !in succeeding
    decreases |steps|
  {
    if steps == [] || steps[0] !in succeeding then 0 else 1 + Succeeded(steps[1..], succeeding)
  }

  /** Unfolds `Succeeded` over the five steps of the chain: the same count, one step at a time. */
  lemma SucceededOnChain(succeeding: set<Step>)
    ensures Succeeded(RemediationChain, succeeding) ==
      if CheckoutMain !in succeeding then 0
      else if CreateBranch !in succeeding then 1
      else if ApplyFixes !in succeeding then 2
      else if PushBranch !in succeeding then 3
      else if CreatePullRequest !in succeeding then 4
      else 5
  {
    var k := Succeeded(RemediationChain, succeeding);
    assert k <= 5;
    if k < 5 {
      assert RemediationChain[k] !in succeeding;
    }
  }

  /** The steps run: the leading successes, then the failing step if there is one. */
  function Attempted(succeeding: set<Step>): seq<Step> {
    var k := Succeeded(RemediationChain, succeeding);
    RemediationChain[..if k < |RemediationChain| then k + 1 else k]
  }

  /**
   * How many steps of the chain run, step by step: `|Attempted(succeeding)|`
   * spelled out for the five steps (see `AttemptedOnChain`).
   */
  function StepsRun(succeeding: set<Step>): nat {
    if CheckoutMain !in succeeding then 1
    else if CreateBranch !in succeeding then 2
    else if ApplyFixes !in succeeding then 3
    else if PushBranch !in succeeding then 4
    else 5
  }

  lemma AttemptedOnChain(succeeding: set<Step>)
    ensures Attempted(succeeding) == RemediationChain[..StepsRun(succeeding)]
    ensures Succeeded(RemediationChain, succeeding) == |RemediationChain| <==>
      StepsRun(succeeding) == 5 && CreatePullRequest in succeeding
  {
    SucceededOnChain(succeeding);
  }

  /**
   * `attempted` ran in chain order and stopped at the first failure: every
   * step but the last succeeded, and the last failed unless the whole chain ran.
   */
  predicate StopsAtFirstFailure(attempted: seq<Step>, succeeding: set<Step>) {
    && |attempted| <= |RemediationChain| && attempted == RemediationChain[..|attempted|]
    && (forall i :: 0 <= i < |attempted| - 1 ==> attempted[i] in succeeding)
    && (0 < |attempted| < |RemediationChain| ==> attempted[|attempted| - 1] !in succeeding)
  }

  predicate AllSucceed(succeeding: set<Step>) {
    forall s :: s in RemediationChain ==> s in succeeding
  }

  /** The chain run is non-empty, stops at the first failure, and completes exactly when every step succeeds. */
  lemma AttemptedStopsAtFirstFailure(succeeding: set<Step>)
    ensures Attempted(succeeding) != []
    ensures StopsAtFirstFailure(Attempted(succeeding), succeeding)
    ensures Succeeded(RemediationChain, succeeding) == |RemediationChain| <==> AllSucceed(succeeding)
  {
  }

  /** Creating the pull request is the last step of the chain. */
  lemma PullRequestIsLastStep(n: nat)
    requires n <= |RemediationChain|
    ensures CreatePullRequest in RemediationChain[..n] <==> n == |RemediationChain|
  {
    var prefix := RemediationChain[..n];
    if n < |RemediationChain| {
      forall i | 0 <= i < n ensures prefix[i] != CreatePullRequest {
        assert prefix[i] == RemediationChain[i];
      }
    } else {
      assert prefix[n - 1] == CreatePullRequest;
    }
  }

  /** What a remediation run, as `RemediateUrgent` describes it, means for `main`'s promises. */
  lemma UrgentRunOutcome(succeeding: set<Step>, exitCode: int, attempted: seq<Step>, requested: bool)
    requires attempted == Attempted(succeeding)
    requires exitCode == if Succeeded(RemediationChain, succeeding) == |RemediationChain| then 0 else 1
    requires requested <==> |attempted| == |RemediationChain|
    ensures exitCode == 0 <==> AllSucceed(succeeding)
    ensures attempted != [] && StopsAtFirstFailure(attempted, succeeding)
    ensures requested <==> CreatePullRequest in attempted
  {
    AttemptedStopsAtFirstFailure(succeeding);
    PullRequestIsLastStep(|attempted|);
  }

  /**
   * `main`. The exit code is 0 when the results directory is absent, when
   * nothing was loaded, when nothing is critical or high, or when every step
   * succeeds, and 1 otherwise. Steps run in chain order and none runs after
   * one that fails.
   */
  method RunRemediation(env: Environment)
    returns (exitCode: int, attempted: seq<Step>, request: Option<PullRequest>)
    ensures exitCode == 0 || exitCode == 1
    ensures exitCode == 0 <==> !RemediationNeeded(env) || AllSucceed(env.succeeding)
    ensures attempted != [] <==> RemediationNeeded(env)
    ensures StopsAtFirstFailure(attempted, env.succeeding)
    ensures request.Some? <==> CreatePullRequest in attempted
    ensures request.Some? ==> request.value == PullRequest(BranchName, BaseBranch,
      PrTitle(|Urgent(env)|), PrBody(CombinedSeverity, Urgent(env), FixesApplied))
  {
    exitCode, attempted, request := 0, [], None;
    if !env.resultsExist {
      return;
    }
    var findings, categories := LoadAndCategorize(env.listing);
    if findings == [] {
      return;
    }
    var criticalAndHigh := categories[Critical] + categories[High];
    if criticalAndHigh != [] {
      exitCode, attempted, request := RemediateUrgent(env.succeeding, criticalAndHigh);
      UrgentRunOutcome(env.succeeding, exitCode, attempted, request.Some?);
    }
  }

  /** The first two calls of `main`: load the findings, then sort them into buckets. */
  method LoadAndCategorize(listing: Option<seq<Entry>>)
    returns (findings: seq<Finding>, categories: map<string, seq<Finding>>)
    ensures findings == Loaded(listing)
    ensures categories.Keys == AllKeys
    ensures forall k :: k in categories ==> categories[k] == Bucket(findings, k)
    ensures categories[Critical] + categories[High] == CriticalAndHigh(findings)
  {
    findings := LoadSecurityFindings(listing);
    categories := CategorizeFindings(findings);
  }

  /**
   * The remediation run, entered when the urgent list is non-empty. A failing `git checkout main` is an
   * uncaught exception, which ends the process with status 1; each later step
   * that fails makes `main` return 1.
   */
  method RemediateUrgent(succeeding: set<Step>, criticalAndHigh: seq<Finding>)
    returns (exitCode: int, attempted: seq<Step>, request: Option<PullRequest>)
    ensures attempted == Attempted(succeeding)
    ensures exitCode == if Succeeded(RemediationChain, succeeding) == |RemediationChain| then 0 else 1
    ensures request.Some? <==> |attempted| == |RemediationChain|
    ensures request.Some? ==> request.value == PullRequest(BranchName, BaseBranch,
      PrTitle(|criticalAndHigh|), PrBody(CombinedSeverity, criticalAndHigh, FixesApplied))
  {
    AttemptedOnChain(succeeding);
    exitCode, request := 1, None;
    var steps := 1;
    if CheckoutMain in succeeding {
      steps := 2;
      if CreateBranch in succeeding {
        steps := 3;
        if ApplyFixes in succeeding {
          steps := 4;
          if PushBranch in succeeding {
            var pr := BuildPullRequest(criticalAndHigh);
            request := Some(pr);
            steps := 5;
            if CreatePullRequest in succeeding {
              exitCode := 0;
            }
          }
        }
      }
    }
    attempted := RemediationChain[..steps];
  }

  /** The title and body `main` prepares before calling `gh pr create`. */
  method BuildPullRequest(criticalAndHigh: seq<Finding>) returns (pr: PullRequest)
    ensures pr == PullRequest(BranchName, BaseBranch,
      PrTitle(|criticalAndHigh|), PrBody(CombinedSeverity, criticalAndHigh, FixesApplied))
  {
    var title := TitlePrefix + NatToString(|criticalAndHigh|) + TitleSuffix;
    var body := GeneratePrBody(CombinedSeverity, criticalAndHigh, FixesApplied);
    pr := PullRequest(BranchName, BaseBranch, title, body);
  }
}

# Automated security remediation: a verified model

The repository is a shift-left security demonstration: Terraform
configurations, a scanning pipeline, and one executable script,
`automation/auto-remediate.py`. The script reads the scanner's JSON results
from `./fcs-results`. It sorts the findings into severity buckets. When any
finding is CRITICAL or HIGH, it creates a fix branch, applies a secure
template, pushes the branch and opens a pull request describing the
findings. This project models that script's logic in Dafny and proves what
it promises.

Modules, one per part of the script:

- `Wrappers`: `Option`, standing for a dictionary key that may be absent.
- `Ascii`: ASCII stand-ins for `str.upper`, `str.lower`, `str.title`, `str.endswith` and `str(int)`, with a decimal reader used to show that rendered numbers read back.
- `Findings`: the finding record (optional `severity`, `rule_name`, `details`, `description`), the four severity keys, and the effective severity: the given severity upper-cased, or INFORMATIONAL when there is none.
- `Categorize`: `categorize_findings` as a method with a loop over a map of four lists, specified by the function `Bucket`. The lemmas state the partition, order and dropping properties.
- `Loading`: the accumulation loop of `load_security_findings`, over an abstract directory listing. Each entry has a name and the outcome of decoding it.
- `Report`: `generate_pr_body`, covering the header, the numbered finding list and the fix bullets. The lemmas read both lists back line by line.
- `Remediation`: `main`. It covers the decision to remediate, the chain of external steps, the pull request's title and body, and the exit code.

The script silently drops a finding whose upper-cased severity is not one of the four keys (for example `LOW`). For findings that are objects with string severities, its exit code is 0 unless remediation runs and one of its steps fails.

## Model

| member | source | states |
|---|---|---|
| Findings.SeverityOf | automation/auto-remediate.py:50 | a finding without `severity` is INFORMATIONAL; a given severity is compared after upper-casing, so its case never matters |
| Findings.CaseVariantsAgree | automation/auto-remediate.py:50-51 | on fixed strings only: `critical`, `Critical` and `CRITICAL` share the CRITICAL bucket, and `LOW` is not one of the four keys |
| Categorize.Bucket | automation/auto-remediate.py:49-52 | a bucket is no longer than the input, and every finding in bucket K came from the input and has upper-cased severity K |
| Categorize.Dropped | automation/auto-remediate.py:51 | the dropped findings are input findings with unrecognised severities; none is dropped exactly when every severity is recognised |
| Categorize.BucketIsSubsequence | automation/auto-remediate.py:49-52 | bucket K is the input at exactly the positions whose severity is K, in increasing order: nothing reordered, duplicated or missed |
| Categorize.RecognisedIsKept | automation/auto-remediate.py:50-52 | every finding with a recognised severity is in its bucket; a finding without severity is in INFORMATIONAL |
| Categorize.UnrecognisedIsDropped | automation/auto-remediate.py:51-52 | a finding whose upper-cased severity is none of the four keys is in no bucket |
| Categorize.BucketSizes | automation/auto-remediate.py:49-52 | the four bucket sizes plus the number dropped equal the input length |
| Categorize.BucketTotal | automation/auto-remediate.py:49-52 | the buckets hold at most the input, and exactly all of it iff every severity is recognised |
| Categorize.BucketAppend | automation/auto-remediate.py:49-52 | bucketing a concatenation concatenates the buckets, so input order is kept across the whole run |
| Categorize.BucketsIgnoreCase | automation/auto-remediate.py:50 | respelling one finding's severity as any `v` with the same lower-cased text (an absent severity counting as `INFORMATIONAL`) leaves every bucket's positions unchanged |
| Categorize.CategorizeFindings | automation/auto-remediate.py:40-54 | the loop returns exactly the keys CRITICAL, HIGH, MEDIUM, INFORMATIONAL (also for empty input), each mapped to its bucket |
| Categorize.CriticalAndHigh | automation/auto-remediate.py:226 | the urgent list is all CRITICAL findings followed by all HIGH ones; its length is the sum of the two bucket sizes |
| Categorize.CriticalAndHighEmpty | automation/auto-remediate.py:226-228 | the urgent list is empty iff no input finding is CRITICAL or HIGH |
| Loading.Contribution | automation/auto-remediate.py:27-34 | a non-`.json` entry, an unreadable one, or a document without `rule_detections` contributes nothing; a `.json` document with `rule_detections` contributes exactly that array, and a non-empty contribution always comes from such a document |
| Loading.Loaded | automation/auto-remediate.py:21-38 | a listing that cannot be taken gives nothing; with no exception the result is everything collected; a first entry that raises gives nothing |
| Loading.FirstFailure | automation/auto-remediate.py:25-35 | locates the first `.json` entry that raises: all entries before it load, and it raises |
| Loading.LoadSecurityFindings | automation/auto-remediate.py:21-38 | the loop returns the listing-order concatenation of `rule_detections` from the entries before the first exception; a failed listing gives nothing |
| Loading.CollectedAppend | automation/auto-remediate.py:26-34 | loading a concatenated listing concatenates what each part contributes |
| Loading.CollectedFrom | automation/auto-remediate.py:26-34 | for a listing in which no entry raises, a finding is collected iff some `.json` document's `rule_detections` carried it |
| Loading.LoadedFrom | automation/auto-remediate.py:25-37 | a finding is loaded iff some `.json` document before the first entry that raises carried it in `rule_detections` |
| Loading.IgnoredEntry | automation/auto-remediate.py:27-34 | a non-`.json` file, or a document without `rule_detections`, contributes nothing and cannot raise |
| Loading.StopsAtFailure | automation/auto-remediate.py:25-37 | after an exception, the result is exactly what earlier entries gave; later entries never count |
| Report.Icon | automation/auto-remediate.py:143-150 | each of the four keys has its own icon; any other label, including `CRITICAL/HIGH`, gets the wrench |
| Report.RuleName | automation/auto-remediate.py:161 | the given rule name, or `Unknown Rule` when it is absent |
| Report.Description | automation/auto-remediate.py:162 | `details` when present, else `description` when present, else `Security issue detected` |
| Report.Header | automation/auto-remediate.py:152-158 | the header starts with the icon heading; the number read just after the lead text is the count it was given, and that number is followed by other text; the header ends in a newline |
| Report.PrBody | automation/auto-remediate.py:140-170 | the fixes heading and the fix bullets end the description |
| Report.PrBodyLayout | automation/auto-remediate.py:152-163 | the header, with the count of findings, opens the description, and the finding list follows it directly |
| Report.GeneratePrBody | automation/auto-remediate.py:140-170 | the body is the header (with the count), the numbered finding list, the fixes heading and the fix bullets, in that order |
| Report.AppendFindingLines | automation/auto-remediate.py:160-163 | the first loop appends the line `i. **rule_name**: description` for finding i = 1..n, each ending in a newline |
| Report.AppendFixLines | automation/auto-remediate.py:169-170 | the second loop appends one `- fix` line per fix, in order |
| Report.FindingSectionReadsBack | automation/auto-remediate.py:160-163 | when no rule name or description holds a newline: split at newlines, the finding section has exactly one line per finding, in order; line i uses the `Unknown Rule` and details/description/`Security issue detected` fallbacks |
| Report.FixSectionReadsBack | automation/auto-remediate.py:169-170 | when no fix holds a newline (true of `main`'s eight fixes): split at newlines, the fix section has exactly one `- fix` line per fix, in order |
| Report.CombinedLabelIcon | automation/auto-remediate.py:150 | the `CRITICAL/HIGH` label that `main` passes gets the fallback icon |
| Report.CombinedLabelTitle | automation/auto-remediate.py:152 | the header title-cases `CRITICAL/HIGH` as `Critical/High` |
| Report.CombinedLabelLower | automation/auto-remediate.py:155 | the header lower-cases `CRITICAL/HIGH` as `critical/high` |
| Ascii.Upper | automation/auto-remediate.py:50 | upper-casing keeps the length and leaves no lower-case letter; with `UpperIgnoresCase` it changes nothing but the case of letters |
| Ascii.Lower | automation/auto-remediate.py:155 | lower-casing keeps the length and leaves no upper-case letter; with `UpperIgnoresCase` it changes nothing but the case of letters |
| Ascii.UpperIgnoresCase | automation/auto-remediate.py:50 | both casings are idempotent and each keeps the other's result: `Upper(Lower(s)) == Upper(s)` and `Lower(Upper(s)) == Lower(s)` |
| Ascii.Title | automation/auto-remediate.py:152 | title casing keeps the length; each letter is lower-cased when the character before it is a letter and upper-cased otherwise; every other character is kept |
| Ascii.TitleAt | automation/auto-remediate.py:152 | the same rule, character by character, for text that follows a letter or not |
| Ascii.TitleAfterLetters | automation/auto-remediate.py:152 | in title casing, a run of letters that follows a letter comes out lower-cased |
| Ascii.TitleKeepsLetters | automation/auto-remediate.py:152 | title casing keeps the length and changes letters only in case |
| Ascii.EndsWithSuffix | automation/auto-remediate.py:27 | a name ends with a suffix exactly when it is some text followed by that suffix |
| Ascii.NatToString | automation/auto-remediate.py:155 | a rendered count is a non-empty run of decimal digits with no leading zero |
| Ascii.ParseNatToString | automation/auto-remediate.py:163 | a rendered number reads back as itself, so the list numbers are exact |
| Ascii.NumberReadsBack | automation/auto-remediate.py:155 | a rendered number placed between any text and text that does not start with a digit reads back, at its position, as itself |
| Remediation.Urgent | automation/auto-remediate.py:226 | every urgent finding is CRITICAL or HIGH, and there are none exactly when no loaded finding is CRITICAL or HIGH |
| Remediation.LoadAndCategorize | automation/auto-remediate.py:212-213 | `main` loads the findings and buckets them; CRITICAL ++ HIGH of those buckets is the urgent list |
| Remediation.Succeeded | automation/auto-remediate.py:237-278 | counts the steps that succeed before the first failure: all of those succeeded and the next one failed |
| Remediation.AttemptedStopsAtFirstFailure | automation/auto-remediate.py:237-278 | the steps run form a non-empty prefix of the chain; every step but the last succeeded; the run is cut short only by a failure; the chain completes iff every step succeeds |
| Remediation.PullRequestIsLastStep | automation/auto-remediate.py:265 | the pull request is created only when the run reaches the end of the chain |
| Remediation.AttemptedOnChain | automation/auto-remediate.py:229-278 | the steps run are the chain up to and including the first failing one, counted through the nested checks; the chain succeeds iff all five pass |
| Remediation.UrgentRunOutcome | automation/auto-remediate.py:229-283 | a run as `RemediateUrgent` describes it exits 0 iff every step succeeds, stops at the first failure, and asks for the request iff it reaches the last step |
| Remediation.RemediateUrgent | automation/auto-remediate.py:229-278 | the nested steps run exactly the chain prefix up to the first failure; they give exit code 0 iff all succeed; a request is prepared iff the push succeeded |
| Remediation.BuildPullRequest | automation/auto-remediate.py:249-262 | the request has head `security-fixes/critical-high-remediation`, base `main`, a title with the urgent count, and the `CRITICAL/HIGH` body over the urgent findings and the eight fixes |
| Remediation.PrTitle | automation/auto-remediate.py:249 | the title starts with the lock prefix, and the number read just after it is the count |
| Remediation.PrTitleShowsCount | automation/auto-remediate.py:249 | the number shown in the pull request title reads back as the count of critical and high findings |
| Remediation.RunRemediation | automation/auto-remediate.py:199-283 | remediation is attempted iff the results exist, something loaded and CRITICAL ++ HIGH is non-empty. The exit code is 0 in those skip cases or when every step succeeds, otherwise 1. No step runs after a failure. A request exists iff PR creation was attempted, and it has the urgent count in its title |

## Left out

- The `git` and `gh` subprocesses and the template copy (`shutil.copy2`) are external effects. The model keeps only whether each step succeeds: `Environment.succeeding`.
- Directory listing, file reading and JSON decoding are I/O. The listing is an `Option<seq<Entry>>` (`None` means `os.listdir` raised). Each entry pairs a file name with the decoded outcome: an object that may lack `rule_detections`, or an exception.
- A decoded document that is a JSON value but not an object, or a `rule_detections` value that is not an array, is not modelled. Every document decodes to an object or raises.
- The existence check on `./fcs-results` is a boolean input, `Environment.resultsExist`.
- `GITHUB_TOKEN` and `GITHUB_REPOSITORY` are read from the environment but never influence the modelled logic.
- All console output is left out: the messages of `main`, the per-severity summary loop (lines 220-223) and the error prints.
- The fixed commit message is left out.
- The PR body's closing sections (Security Impact, Related Resources, Testing, signature; lines 172-195) are constant text with no behaviour. `Report.PrBody` ends after the fix list.
- `upper`, `lower` and `title` are modelled on ASCII letters only. Python's Unicode case mappings are not.
- A `severity` value that is present but not a string (e.g. `null`) crashes the script. The model treats every severity as an optional string.
- An element of `rule_detections` that is not an object makes `finding.get` raise at line 50, so the script ends with a traceback (exit 1). The model's findings are always records.
- A `rule_name`, `details` or `description` that is present but `null` is rendered as `None` in the finding line (lines 161-163). The model treats these keys as optional strings, so a present value is always text.
- The uncaught `CalledProcessError` from `git checkout main` (line 234) is modelled as a failing first step. The exit status is 1, the same as the traceback exit of the Python interpreter.

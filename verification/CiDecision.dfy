/** The decision of scripts/ci_scope.py for one run: baselines per half, changed windows,
    classification and the documentation exemption. git and the two API calls are inputs. */
module CiDecision {
  import opened Options
  import opened CiPaths
  import opened CiHistory

  type Blob = string
  type Tree = map<Path, Blob>

  const ALL_ZERO_SHA: Sha := "0000000000000000000000000000000000000000"

  /** The two trees disagree on a path: it is added, removed or changed. */
  predicate DiffersAt(a: Tree, b: Tree, p: Path) {
    (p in a) != (p in b) || (p in a && p in b && a[p] != b[p])
  }

  /** What the checkout can answer. A missing commit, pair or diff is a git command that failed. */
  datatype Git = Git(commits: map<Sha, Tree>, mergeBases: map<(Sha, Sha), Sha>, diffs: map<(Sha, Sha), seq<Path>>) {
    /** `git diff --name-only --no-renames` prints exactly the paths on which two commits differ. */
    ghost predicate Honest() {
      forall pair :: pair in diffs ==>
        && pair.0 in commits && pair.1 in commits
        && forall p :: p in diffs[pair] <==> DiffersAt(commits[pair.0], commits[pair.1], p)
    }
  }

  datatype Mode = Direct | MergeBase | All
  datatype Baseline = Baseline(sha: Sha, mode: Mode)

  const EVERYTHING := Baseline("", All)

  /** The environment of the script; "" is an unset variable. */
  datatype Env = Env(q: Query, prBaseSha: Sha, eventBefore: Sha, hasToken: bool)

  /** The script's observations: the run list (None if the call or its decoding raised) and, per
      half, what the jobs calls of its probe loop returned. */
  datatype Observed = Observed(listing: Option<seq<Run>>, frontendJobs: Fetched, rustJobs: Fetched, git: Git) {
    function Jobs(h: Half): Fetched { if h.Frontend? then frontendJobs else rustJobs }
  }

  datatype Decision = Decision(scope: Scope, docsOnly: bool)

  function JobName(h: Half): string { if h.Frontend? then "frontend" else "rust" }

  // ---------- baselines ----------

  function SelectCiBaseline(event: Event, previous: Option<Run>, hadPrior: bool, apiOk: bool,
                            prBaseSha: Sha, eventBefore: Sha): Baseline {
    if event == WorkflowDispatch then EVERYTHING
    else if previous.Some? then Baseline(previous.value.sha, Direct)
    else if event == PullRequest && prBaseSha != "" then Baseline(prBaseSha, MergeBase)
    else if apiOk && hadPrior then EVERYTHING
    else if event == Push && apiOk && eventBefore != "" && eventBefore != ALL_ZERO_SHA then Baseline(eventBefore, Direct)
    else EVERYTHING
  }

  /** The run list the script works with: none without a token, for other events, or on failure. */
  function UsableListing(env: Env, seen: Observed): Option<seq<Run>> {
    if (env.q.event == PullRequest || env.q.event == Push) && env.hasToken then seen.listing else None
  }

  function History(env: Env, seen: Observed): PreviousSuccess {
    match UsableListing(env, seen)
    case None => PreviousSuccess(None, false, false)
    case Some(runs) => FindPreviousSuccessfulRun(runs, env.q)
  }

  function CommonBaseline(env: Env, seen: Observed): Baseline {
    var history := History(env, seen);
    SelectCiBaseline(env.q.event, history.run, history.hadPrior, history.currentFound, env.prBaseSha, env.eventBefore)
  }

  /** Whether the jobs API is consulted at all. */
  predicate ProbesJobs(env: Env, seen: Observed) {
    var history := History(env, seen);
    history.run.None? && history.hadPrior && history.currentFound
  }

  function HalfBaseline(h: Half, env: Env, seen: Observed): Baseline {
    if env.q.event == WorkflowDispatch || !ProbesJobs(env, seen) then CommonBaseline(env, seen)
    else
      match LatestGreenJobSha(UsableListing(env, seen).value, JobName(h), env.q, seen.Jobs(h), GREEN_JOB_PROBE_LIMIT)
      case None => CommonBaseline(env, seen)
      case Some(sha) => Baseline(sha, Direct)
  }

  /** _resolve_baseline with resolve_half_baselines: a dictionary of two baselines, refined per half. */
  method ResolveHalfBaselines(env: Env, seen: Observed) returns (bases: map<Half, Baseline>)
    ensures bases.Keys == {Frontend, Rust}
    ensures forall h :: h in bases ==> bases[h] == HalfBaseline(h, env, seen)
  {
    var common := CommonBaseline(env, seen);
    bases := map[Frontend := common, Rust := common];
    if env.q.event == WorkflowDispatch || !ProbesJobs(env, seen) {
      return;
    }
    var runs := UsableListing(env, seen).value;
    var halves := [Frontend, Rust];
    for i := 0 to |halves|
      invariant bases.Keys == {Frontend, Rust}
      invariant forall k :: 0 <= k < |halves| ==>
                  bases[halves[k]] == if k < i then HalfBaseline(halves[k], env, seen) else common
    {
      var green, _ := FindLatestGreenJobSha(runs, JobName(halves[i]), env.q, seen.Jobs(halves[i]));
      if green.Some? {
        bases := bases[halves[i] := Baseline(green.value, Direct)];
      }
    }
    assert halves[0] == Frontend && halves[1] == Rust;
  }

  // ---------- windows ----------

  function ChangedPaths(git: Git, base: Sha, current: Sha, mode: Mode): Option<seq<Path>> {
    if mode == All || base == "" then None
    else if current !in git.commits || base !in git.commits then None
    else if mode == MergeBase && (base, current) !in git.mergeBases then None
    else
      var from := if mode == MergeBase then git.mergeBases[(base, current)] else base;
      if (from, current) in git.diffs then Some(git.diffs[(from, current)]) else None
  }

  function Window(h: Half, env: Env, seen: Observed): Option<seq<Path>> {
    var base := HalfBaseline(h, env, seen);
    ChangedPaths(seen.git, base.sha, env.q.sha, base.mode)
  }

  function ClassifyHalfWindows(frontendWindow: seq<Path>, rustWindow: seq<Path>): Scope {
    Scope(Classify(frontendWindow).frontend, Classify(rustWindow).rust)
  }

  function ResolveDocsOnly(env: Env, git: Git): bool {
    if env.q.event != PullRequest || env.prBaseSha == "" || env.q.sha == "" then false
    else
      match ChangedPaths(git, env.prBaseSha, env.q.sha, MergeBase)
      case None => false
      case Some(changed) => IsDocsOnlyPaths(changed)
  }

  /** The decision part of main. */
  function Decide(env: Env, seen: Observed): Decision {
    var frontendWindow, rustWindow := Window(Frontend, env, seen), Window(Rust, env, seen);
    var scope := if frontendWindow.None? || rustWindow.None? then BOTH
                 else ClassifyHalfWindows(frontendWindow.value, rustWindow.value);
    Decision(scope, ResolveDocsOnly(env, seen.git))
  }

  /** The `if` of the two heavy jobs in .github/workflows/ci.yml. */
  predicate Executes(d: Decision, event: Event, h: Half) {
    !d.docsOnly && (d.scope.On(h) || event == WorkflowDispatch)
  }

  // ---------- properties of one decision ----------

  /** Where a half's baseline can come from. */
  datatype Provenance =
    | PriorSuccess(run: Run)
    | GreenJob(run: Run)
    | PullRequestBase
    | PushedBefore
    | NoBaseline

  /** A listed run that the script counts as prior to the current one, in the same stream. */
  predicate ListedPrior(run: Run, env: Env, seen: Observed) {
    && CurrentIsListed(env, seen)
    && run in seen.listing.value
    && var current := FindRun(seen.listing.value, env.q.runId);
       current.Some? && IsPrior(run, current.value, env.q)
  }

  /** The run list was asked for and arrived, with the current run in it. */
  predicate CurrentIsListed(env: Env, seen: Observed) {
    && (env.q.event == PullRequest || env.q.event == Push) && env.hasToken && seen.listing.Some?
    && exists r :: r in seen.listing.value && r.id == env.q.runId
  }

  /** A listed prior run of another commit that succeeded as a whole. */
  predicate SuccessListed(run: Run, env: Env, seen: Observed) {
    && ListedPrior(run, env, seen)
    && run.status == Completed && run.conclusion == Success && run.sha != env.q.sha && run.sha != ""
  }

  predicate NoSuccessListed(env: Env, seen: Observed) {
    seen.listing.Some? ==> forall r :: r in seen.listing.value ==> !SuccessListed(r, env, seen)
  }

  /** The commits on which a half's own job may be found green: the five newest other commits with a
      completed newest record among the prior runs, in that order. */
  function GreenProbes(env: Env, seen: Observed): seq<Run> {
    if UsableListing(env, seen).None? || PriorRunsOf(UsableListing(env, seen).value, env.q).None? then []
    else
      var candidates := Candidates(PriorRunsOf(UsableListing(env, seen).value, env.q).value, env.q.sha);
      if |candidates| > 5 then candidates[..5] else candidates
  }

  /** The probe that gives a half its baseline: its job ran and succeeded, and every newer probe was
      answered and did not show that. */
  ghost predicate IsFirstGreen(i: int, h: Half, env: Env, seen: Observed) {
    var probes, green := GreenProbes(env, seen), Job(if h == Rust then "rust" else "frontend", Completed, Success);
    && 0 <= i < |probes| && probes[i].id in seen.Jobs(h) && green in seen.Jobs(h)[probes[i].id]
    && forall k :: 0 <= k < i ==> probes[k].id in seen.Jobs(h) && green !in seen.Jobs(h)[probes[k].id]
  }

  predicate PullRequestBaseKnown(env: Env) { env.q.event == PullRequest && env.prBaseSha != "" }

  /** A push that is in the list, without any earlier run of its branch. */
  predicate ListedFirst(env: Env, seen: Observed) {
    env.q.event == Push && CurrentIsListed(env, seen) && forall r :: r in seen.listing.value ==> !ListedPrior(r, env, seen)
  }

  /** And what was pushed to existed before. */
  predicate IsFirstPush(env: Env, seen: Observed) {
    && ListedFirst(env, seen)
    && env.eventBefore != "" && env.eventBefore != seq(40, _ => '0')
  }

  lemma AllZeroShaIsFortyZeros()
    ensures ALL_ZERO_SHA == seq(40, _ => '0')
  {
  }

  /** What a baseline rests on, in the order of preference. */
  ghost predicate Supports(why: Provenance, h: Half, base: Baseline, env: Env, seen: Observed) {
    match why
    case PriorSuccess(run) =>
      && base == Baseline(run.sha, Direct) && SuccessListed(run, env, seen) && IsUsableSuccess(run, env.q)
      && forall r :: r in seen.listing.value && SuccessListed(r, env, seen) ==> !IsBefore(run, r)
    case GreenJob(run) =>
      && base == Baseline(run.sha, Direct) && ListedPrior(run, env, seen) && run.sha != env.q.sha
      && Shows(seen.Jobs(h), run, JobName(h))
      && NoSuccessListed(env, seen)
      && exists i :: IsFirstGreen(i, h, env, seen) && GreenProbes(env, seen)[i] == run
    case PullRequestBase =>
      && PullRequestBaseKnown(env) && base == Baseline(env.prBaseSha, MergeBase)
      && NoSuccessListed(env, seen) && forall i :: !IsFirstGreen(i, h, env, seen)
    case PushedBefore =>
      IsFirstPush(env, seen) && base == Baseline(env.eventBefore, Direct)
    case NoBaseline =>
      && base == EVERYTHING
      && (env.q.event == WorkflowDispatch ||
          (&& NoSuccessListed(env, seen) && (forall i :: !IsFirstGreen(i, h, env, seen))
           && !PullRequestBaseKnown(env) && !IsFirstPush(env, seen)))
  }

  /** Every baseline is the newest earlier success of the stream, or else the newest commit on which the
      half's own job was green, or else the pull request's base, or what the branch held before its
      first push; everything runs only if there is none of these. Evidence from history is never the
      current commit, so re-running a commit cannot find an empty window against itself. */
  lemma BaselineHasProvenance(h: Half, env: Env, seen: Observed) returns (why: Provenance)
    ensures Supports(why, h, HalfBaseline(h, env, seen), env, seen)
    ensures why.PriorSuccess? || why.GreenJob? ==> HalfBaseline(h, env, seen).sha != env.q.sha
  {
    var history := History(env, seen);
    AllZeroShaIsFortyZeros();
    HistoryOnRecords(env, seen);
    if env.q.event == WorkflowDispatch {
      why := NoBaseline;
    } else if history.run.Some? {
      PreviousSuccessFound(UsableListing(env, seen).value, env.q);
      why := PriorSuccess(history.run.value);
    } else {
      NoSuccessFound(env, seen);
      var green := GreenFound(h, env, seen);
      if green.Some? {
        why := GreenJob(GreenProbes(env, seen)[green.value]);
      } else if PullRequestBaseKnown(env) {
        why := PullRequestBase;
      } else if IsFirstPush(env, seen) {
        why := PushedBefore;
      } else {
        why := NoBaseline;
      }
    }
  }

  lemma NoSuccessFound(env: Env, seen: Observed)
    requires History(env, seen).run.None?
    ensures NoSuccessListed(env, seen)
  {
    HistoryOnRecords(env, seen);
    if CurrentIsListed(env, seen) {
      PreviousSuccessIsNewest(seen.listing.value, env.q);
    }
  }

  lemma PreviousSuccessFound(runs: seq<Run>, q: Query)
    requires FindPreviousSuccessfulRun(runs, q).run.Some?
    ensures FindRun(runs, q.runId).Some?
    ensures var run := FindPreviousSuccessfulRun(runs, q).run.value;
      && run in runs && IsPrior(run, FindRun(runs, q.runId).value, q) && IsUsableSuccess(run, q)
      && run.status == Completed && run.conclusion == Success && run.sha != q.sha && run.sha != ""
      && forall r :: r in runs && IsPrior(r, FindRun(runs, q.runId).value, q) && IsUsableSuccess(r, q) ==> !IsBefore(run, r)
  {
    PreviousSuccessIsNewest(runs, q);
  }

  /** Without a success, the baseline is that of the first green probe, or the common one. */
  lemma GreenFound(h: Half, env: Env, seen: Observed) returns (found: Option<int>)
    requires env.q.event != WorkflowDispatch && History(env, seen).run.None?
    ensures found.Some? ==>
      && IsFirstGreen(found.value, h, env, seen)
      && var run := GreenProbes(env, seen)[found.value];
         && HalfBaseline(h, env, seen) == Baseline(run.sha, Direct)
         && ListedPrior(run, env, seen) && run.sha != env.q.sha && Shows(seen.Jobs(h), run, JobName(h))
    ensures found.None? ==>
      HalfBaseline(h, env, seen) == CommonBaseline(env, seen) && forall i :: !IsFirstGreen(i, h, env, seen)
  {
    found := None;
    if ProbesJobs(env, seen) {
      var runs := UsableListing(env, seen).value;
      var probes, name, jobs := GreenProbes(env, seen), JobName(h), seen.Jobs(h);
      forall i ensures IsFirstGreen(i, h, env, seen) <==>
        0 <= i < |probes| && Shows(jobs, probes[i], name) && NoneGreen(probes[..i], name, jobs)
      {
        FirstGreenOnRecords(i, h, env, seen);
      }
      assert probes == Probes(PriorRunsOf(runs, env.q).value, env.q.sha, GREEN_JOB_PROBE_LIMIT);
      match FirstGreen(probes, name, jobs) {
        case None =>
          forall i ensures !IsFirstGreen(i, h, env, seen) {
            if IsFirstGreen(i, h, env, seen) {
              GreenShaIsFirstGreenProbe(probes, name, jobs, probes[i].sha);
            }
          }
        case Some(sha) =>
          GreenShaIsFirstGreenProbe(probes, name, jobs, sha);
          var i :| 0 <= i < |probes| && probes[i].sha == sha && Shows(jobs, probes[i], name) && NoneGreen(probes[..i], name, jobs);
          found := Some(i);
          ProbeIsListed(env, seen, i);
      }
    }
  }

  lemma ProbeIsListed(env: Env, seen: Observed, i: nat)
    requires i < |GreenProbes(env, seen)|
    ensures var run := GreenProbes(env, seen)[i]; ListedPrior(run, env, seen) && run.sha != env.q.sha
  {
    HistoryOnRecords(env, seen);
    var runs := UsableListing(env, seen).value;
    PriorRunsAreExact(runs, env.q);
    ProbesAreFreshAndDistinct(PriorRunsOf(runs, env.q).value, env.q.sha, GREEN_JOB_PROBE_LIMIT);
  }

  lemma FirstGreenOnRecords(i: int, h: Half, env: Env, seen: Observed)
    ensures var probes := GreenProbes(env, seen);
      IsFirstGreen(i, h, env, seen) <==>
      0 <= i < |probes| && Shows(seen.Jobs(h), probes[i], JobName(h)) && NoneGreen(probes[..i], JobName(h), seen.Jobs(h))
  {
    var probes, name, jobs := GreenProbes(env, seen), JobName(h), seen.Jobs(h);
    if 0 <= i < |probes| {
      forall k | 0 <= k <= i
        ensures probes[k].id in jobs ==> (AnyGreen(jobs[probes[k].id], name) <==> Job(name, Completed, Success) in jobs[probes[k].id])
      {
        GreenOnRecords(jobs, probes[k], name);
      }
      forall k | 0 <= k < i ensures probes[k] in probes[..i] {
        assert probes[..i][k] == probes[k];
      }
    }
  }

  /** The commit a window starts at. */
  function WindowStart(base: Baseline, env: Env, git: Git): Option<Sha> {
    if base.mode == All then None
    else if base.mode == Direct then Some(base.sha)
    else if (base.sha, env.q.sha) in git.mergeBases then Some(git.mergeBases[(base.sha, env.q.sha)])
    else None
  }

  /** A window is known exactly if git resolves both commits and answers, and then it holds exactly the
      paths on which the current tree differs from the one that the window starts at. */
  lemma WindowIsTheDifference(h: Half, env: Env, seen: Observed)
    requires seen.git.Honest()
    ensures
      var base := HalfBaseline(h, env, seen);
      var start := WindowStart(base, env, seen.git);
      && (Window(h, env, seen).Some? <==>
            && start.Some? && base.sha != "" && base.sha in seen.git.commits && env.q.sha in seen.git.commits
            && (start.value, env.q.sha) in seen.git.diffs)
      && (Window(h, env, seen).Some? ==>
            && start.value in seen.git.commits
            && forall p :: p in Window(h, env, seen).value <==>
                 DiffersAt(seen.git.commits[start.value], seen.git.commits[env.q.sha], p))
  {
    var start := WindowStart(HalfBaseline(h, env, seen), env, seen.git);
    if Window(h, env, seen).Some? {
      assert (start.value, env.q.sha) in seen.git.diffs;
    }
  }

  /** A half is left out for exactly two reasons: the whole pull request is documentation, or both
      windows are known and the half's own window holds no path classified for it. */
  lemma WhyHalfIsSkipped(h: Half, env: Env, seen: Observed)
    ensures !Executes(Decide(env, seen), env.q.event, h) <==>
      || ResolveDocsOnly(env, seen.git)
      || (&& Window(Frontend, env, seen).Some? && Window(Rust, env, seen).Some?
          && !AnySelected(h, Window(h, env, seen).value))
  {
    ManualRunsAreFull(env, seen);
  }

  /** A manual run has no baseline, so both outputs are already true and the event test in the
      workflow's job conditions changes nothing. */
  lemma ManualRunsAreFull(env: Env, seen: Observed)
    ensures env.q.event == WorkflowDispatch ==> Decide(env, seen) == Decision(BOTH, false)
  {
  }

  /** Fail closed: a push whose history is unknown (no token, a failed call, or a list without the
      current run), or any run whose current commit git cannot resolve, executes both halves. */
  lemma UnknownHistoryRunsEverything(h: Half, env: Env, seen: Observed)
    requires (env.q.event == Push && !CurrentIsListed(env, seen)) || env.q.sha !in seen.git.commits
    ensures Executes(Decide(env, seen), env.q.event, h)
  {
    if env.q.event == Push && !CurrentIsListed(env, seen) {
      HistoryOnRecords(env, seen);
      assert History(env, seen).run.None?;
    }
  }

  /** What is known of the history: whether the current run is listed, and whether any run is prior. */
  lemma HistoryOnRecords(env: Env, seen: Observed)
    ensures History(env, seen).currentFound <==> CurrentIsListed(env, seen)
    ensures History(env, seen).hadPrior <==>
      CurrentIsListed(env, seen) && exists r :: r in seen.listing.value && ListedPrior(r, env, seen)
    ensures CurrentIsListed(env, seen) ==>
      UsableListing(env, seen) == seen.listing && FindRun(seen.listing.value, env.q.runId).Some?
  {
    if UsableListing(env, seen).Some? {
      var runs := UsableListing(env, seen).value;
      FindRunIsExact(runs, env.q.runId);
      if FindRun(runs, env.q.runId).Some? {
        assert CurrentIsListed(env, seen);
        PreviousSuccessIsNewest(runs, env.q);
      }
    }
  }

  /** A pull request is exempt exactly if its merge-base diff is known, not empty, and all documentation. */
  lemma ExemptExactlyWhen(env: Env, git: Git)
    ensures ResolveDocsOnly(env, git) <==>
      && env.q.event == PullRequest && env.q.sha != ""
      && match ChangedPaths(git, env.prBaseSha, env.q.sha, MergeBase)
         case None => false
         case Some(changed) => changed != [] && forall p :: p in changed ==> IsDocsOnlyPath(p)
  {
  }

  /** With no jobs fetcher the per-half design collapses to one window for both halves. */
  lemma WithoutProbesOneWindowDecides(env: Env, seen: Observed)
    requires !ProbesJobs(env, seen)
    ensures
      var base := CommonBaseline(env, seen);
      var window := ChangedPaths(seen.git, base.sha, env.q.sha, base.mode);
      Decide(env, seen).scope == if window.None? then BOTH else Classify(window.value)
  {
  }
}

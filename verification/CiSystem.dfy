/** Whole histories of CI runs. Runs start, decide from whatever the APIs happened to show, execute
    or skip each half, finish, complete, and are re-run in any order. The result: a half is only
    ever skipped on a tree that agrees, on every relevant path, with a tree already accounted for. */
module CiSystem {
  import opened Options
  import opened CiPaths
  import opened CiHistory
  import opened CiDecision

  /** Everything git knows, the same for all runs. */
  datatype World = World(commits: map<Sha, Tree>, mergeBases: map<(Sha, Sha), Sha>)

  /** A run: its API record, the rest of its event payload, and the state of its current attempt.
      `jobs` holds the conclusions of the heavy jobs that finished. */
  datatype RunState = RunState(record: Run, prNumber: string, prBaseSha: Sha, eventBefore: Sha,
                               decision: Option<Decision>, jobs: map<Half, Conclusion>)

  /** `listed` remembers every record the runs API has ever been able to show and `green` every
      (half, run) whose job really ran and succeeded, so that a snapshot may be taken page by page,
      late, partially and with repetitions. `firstPushes` are the pushes that, when they decided, found
      themselves listed without any earlier run of their branch. */
  datatype System = System(runs: map<nat, RunState>, listed: set<Run>, green: set<(Half, nat)>, firstPushes: set<nat>)

  const START := System(map[], {}, {}, {})

  function Show(s: System, id: nat, run: RunState): System {
    s.(runs := s.runs[id := run], listed := s.listed + {run.record})
  }

  function EnvOf(run: RunState, hasToken: bool): Env {
    Env(Query(run.record.id, run.record.sha, run.record.event, run.prNumber, run.record.branch),
        run.prBaseSha, run.eventBefore, hasToken)
  }

  // ---------- steps ----------

  ghost predicate Starts(w: World, s: System, s': System, id: nat, run: RunState) {
    && id !in s.runs && run.record.id == id
    && run.record.sha in w.commits && run.record.status != Completed
    && run.decision == None && run.jobs == map[]
    && s' == Show(s, id, run)
  }

  /** Observations are true of some earlier moment, not necessarily the same one, and may be partial. */
  ghost predicate Truthful(w: World, s: System, seen: Observed) {
    && (seen.listing.Some? ==> forall r :: r in seen.listing.value ==> r in s.listed)
    && (forall id :: id in seen.frontendJobs && Job("frontend", Completed, Success) in seen.frontendJobs[id] ==>
          (Frontend, id) in s.green)
    && (forall id :: id in seen.rustJobs && Job("rust", Completed, Success) in seen.rustJobs[id] ==> (Rust, id) in s.green)
    && seen.git.Honest()
    && (forall c :: c in seen.git.commits ==> c in w.commits && w.commits[c] == seen.git.commits[c])
    && (forall pair :: pair in seen.git.mergeBases ==>
          pair in w.mergeBases && w.mergeBases[pair] == seen.git.mergeBases[pair])
  }

  /** Remembers a push without earlier runs. */
  function Note(s: System, env: Env, seen: Observed): System {
    if ListedFirst(env, seen)
    then s.(firstPushes := s.firstPushes + {env.q.runId})
    else s
  }

  ghost predicate Decides(w: World, s: System, s': System, id: nat, hasToken: bool, seen: Observed) {
    && id in s.runs && s.runs[id].decision == None && s.runs[id].record.status != Completed
    && Truthful(w, s, seen)
    && var env := EnvOf(s.runs[id], hasToken);
       s' == Show(Note(s, env, seen), id, s.runs[id].(decision := Some(Decide(env, seen))))
  }

  predicate Runs(run: RunState, h: Half) {
    run.decision.Some? && Executes(run.decision.value, run.record.event, h)
  }

  ghost predicate FinishesJob(s: System, s': System, id: nat, h: Half, conclusion: Conclusion) {
    && id in s.runs && Runs(s.runs[id], h) && h !in s.runs[id].jobs && s.runs[id].record.status != Completed
    && s' == Show(s, id, s.runs[id].(jobs := s.runs[id].jobs[h := conclusion]))
               .(green := if conclusion == Success then s.green + {(h, id)} else s.green)
  }

  /** A run may end in any way at any time, but it is a success only if every half it executes is. */
  ghost predicate Completes(s: System, s': System, id: nat, conclusion: Conclusion) {
    && id in s.runs && s.runs[id].record.status != Completed
    && (conclusion == Success ==>
          && s.runs[id].decision.Some?
          && forall h :: Runs(s.runs[id], h) ==> h in s.runs[id].jobs && s.runs[id].jobs[h] == Success)
    && s' == Show(s, id, s.runs[id].(record := s.runs[id].record.(status := Completed, conclusion := conclusion)))
  }

  /** Re-running everything decides again; re-running some jobs keeps the decision and the others. */
  ghost predicate Reruns(s: System, s': System, id: nat, again: RunState) {
    && id in s.runs && s.runs[id].record.status == Completed
    && again.record.status != Completed
    && again.record == s.runs[id].record.(status := again.record.status, conclusion := again.record.conclusion)
    && again == s.runs[id].(record := again.record, decision := again.decision, jobs := again.jobs)
    && (again.decision == None ==> again.jobs == map[])
    && (again.decision != None ==>
          && again.decision == s.runs[id].decision
          && forall h :: h in again.jobs ==> h in s.runs[id].jobs && again.jobs[h] == s.runs[id].jobs[h])
    && s' == Show(s, id, again)
  }

  /** The pull requests associated with a run change as branches and pull requests do. */
  ghost predicate Relabels(s: System, s': System, id: nat, prs: seq<string>) {
    id in s.runs && s' == Show(s, id, s.runs[id].(record := s.runs[id].record.(prs := prs)))
  }

  ghost predicate Next(w: World, s: System, s': System) {
    || (exists id, run :: Starts(w, s, s', id, run))
    || (exists id, hasToken, seen :: Decides(w, s, s', id, hasToken, seen))
    || (exists id, h, conclusion :: FinishesJob(s, s', id, h, conclusion))
    || (exists id, conclusion :: Completes(s, s', id, conclusion))
    || (exists id, again :: Reruns(s, s', id, again))
    || (exists id, prs :: Relabels(s, s', id, prs))
  }

  ghost predicate IsHistory(w: World, trace: seq<System>) {
    && trace != [] && trace[0] == START
    && forall i :: 0 <= i < |trace| - 1 ==> Next(w, trace[i], trace[i + 1])
  }

  // ---------- what a skipped half rests on ----------

  /** Equal on everything half `h` must be tested for. */
  ghost predicate Agree(h: Half, a: Tree, b: Tree) {
    forall p :: Relevant(h, p) ==> !DiffersAt(a, b, p)
  }

  /** Run `a` was once listed as prior to run `b`: earlier, of the same event, and of the same pull
      request or branch. */
  ghost predicate Linked(s: System, a: nat, b: nat)
    requires b in s.runs
  {
    exists r :: r in s.listed && r.id == a && IsPrior(r, s.runs[b].record, EnvOf(s.runs[b], false).q)
  }

  /** A path of runs, each listed as prior to the next, that ends at run `id`. */
  ghost predicate Chain(s: System, path: seq<nat>, id: nat) {
    && path != [] && path[|path| - 1] == id
    && (forall i :: 0 <= i < |path| ==> path[i] in s.runs)
    && (forall i :: 0 < i < |path| ==> Linked(s, path[i - 1], path[i]))
  }

  /** The commit that a run's own event vouches for: the merge base of a pull request, or what the
      branch held before a push that no earlier run of the branch preceded. */
  function TrustedBase(w: World, s: System, run: RunState): Option<Sha> {
    match run.record.event
    case PullRequest =>
      var pair := (run.prBaseSha, run.record.sha);
      if pair in w.mergeBases && w.mergeBases[pair] in w.commits then Some(w.mergeBases[pair]) else None
    case Push =>
      if run.record.id in s.firstPushes && run.eventBefore in w.commits then Some(run.eventBefore) else None
    case _ => None
  }

  /** Run `id` accounts for `tree`: its own job of the half was green on an agreeing tree, or its
      trusted base agrees. */
  ghost predicate Accounts(w: World, s: System, id: nat, h: Half, tree: Tree)
    requires id in s.runs
  {
    var run := s.runs[id];
    || ((h, id) in s.green && run.record.sha in w.commits && Agree(h, w.commits[run.record.sha], tree))
    || (TrustedBase(w, s, run).Some? && Agree(h, w.commits[TrustedBase(w, s, run).value], tree))
  }

  /** A run at the start of a chain to `r`, or `r` itself, accounts for what `r` was to test. */
  ghost predicate Verified(w: World, s: System, h: Half, r: Run) {
    && r.sha in w.commits
    && exists path :: Chain(s, path, r.id) && Accounts(w, s, path[0], h, w.commits[r.sha])
  }

  ghost predicate Succeeded(r: Run) { r.status == Completed && r.conclusion == Success }

  /** The parts of a record that never change. */
  predicate SameRun(a: Run, b: Run) {
    a.id == b.id && a.created == b.created && a.event == b.event && a.branch == b.branch && a.sha == b.sha
  }

  predicate SamePayload(a: RunState, b: RunState) {
    && SameRun(a.record, b.record)
    && a.prNumber == b.prNumber && a.prBaseSha == b.prBaseSha && a.eventBefore == b.eventBefore
  }

  ghost predicate RunInvariant(w: World, s: System, id: nat)
    requires id in s.runs
  {
    var run := s.runs[id];
    && run.record.id == id && run.record.sha in w.commits
    && (forall h :: h in run.jobs && run.jobs[h] == Success ==> (h, id) in s.green)
    && (run.decision.Some? ==> forall h :: !Runs(run, h) ==> Verified(w, s, h, run.record))
    && (run.record.status == Completed ==> run.record in s.listed)
  }

  ghost predicate ListedInvariant(w: World, s: System, r: Run) {
    && r.id in s.runs
    && SameRun(r, s.runs[r.id].record)
    && (Succeeded(r) ==> forall h :: Verified(w, s, h, r))
  }

  ghost predicate Invariant(w: World, s: System) {
    && (forall id :: id in s.runs ==> RunInvariant(w, s, id))
    && (forall r :: r in s.listed ==> ListedInvariant(w, s, r))
    && (forall h: Half, id | (h, id) in s.green :: id in s.runs)
  }

  // ---------- evidence is never lost ----------

  /** What later states keep of earlier ones: runs, with everything fixed by their event, and evidence. */
  ghost predicate Keeps(s: System, s': System) {
    && s.green <= s'.green && s.listed <= s'.listed && s.firstPushes <= s'.firstPushes
    && forall id :: id in s.runs ==> id in s'.runs && SamePayload(s.runs[id], s'.runs[id])
  }

  /** Each step changes one run, and nothing that its event fixed. */
  lemma OneRunChanges(s: System, s': System, id: nat)
    requires id in s'.runs && s'.runs == s.runs[id := s'.runs[id]]
    requires s.green <= s'.green && s.listed <= s'.listed && s.firstPushes <= s'.firstPushes
    requires id in s.runs ==> SamePayload(s.runs[id], s'.runs[id])
    ensures Keeps(s, s')
  {
  }

  lemma ChainLasts(s: System, s': System, path: seq<nat>, id: nat)
    requires Keeps(s, s') && Chain(s, path, id)
    ensures Chain(s', path, id)
  {
    forall i | 0 < i < |path| ensures Linked(s', path[i - 1], path[i]) {
      var b := path[i];
      assert Linked(s, path[i - 1], b);
      var r :| r in s.listed && r.id == path[i - 1] && IsPrior(r, s.runs[b].record, EnvOf(s.runs[b], false).q);
      assert SamePayload(s.runs[b], s'.runs[b]);
      assert r in s'.listed && IsPrior(r, s'.runs[b].record, EnvOf(s'.runs[b], false).q);
    }
  }

  lemma AccountsLasts(w: World, s: System, s': System, id: nat, h: Half, tree: Tree)
    requires Keeps(s, s') && id in s.runs && Accounts(w, s, id, h, tree)
    ensures id in s'.runs && Accounts(w, s', id, h, tree)
  {
    assert SamePayload(s.runs[id], s'.runs[id]);
    assert TrustedBase(w, s, s.runs[id]).Some? ==> TrustedBase(w, s, s.runs[id]) == TrustedBase(w, s', s'.runs[id]);
  }

  /** Verification is never lost, and concerns only which run it is, not its status or labels. */
  lemma VerifiedLasts(w: World, s: System, s': System, h: Half, r: Run, r': Run)
    requires Keeps(s, s') && Verified(w, s, h, r) && SameRun(r, r')
    ensures Verified(w, s', h, r')
  {
    var path :| Chain(s, path, r.id) && Accounts(w, s, path[0], h, w.commits[r.sha]);
    ChainLasts(s, s', path, r.id);
    AccountsLasts(w, s, s', path[0], h, w.commits[r.sha]);
  }

  lemma ChainExtends(s: System, path: seq<nat>, a: nat, b: nat)
    requires Chain(s, path, a) && b in s.runs && Linked(s, a, b)
    ensures Chain(s, path + [b], b)
  {
    var longer := path + [b];
    forall i | 0 < i < |longer| ensures Linked(s, longer[i - 1], longer[i]) {
      if i < |path| {
        assert Linked(s, path[i - 1], path[i]);
      }
    }
  }

  /** Verification carries over to an agreeing tree of a run that saw the verified one as prior. */
  lemma VerifiedTransfers(w: World, s: System, h: Half, from: Run, to: Run)
    requires Verified(w, s, h, from) && to.id in s.runs && Linked(s, from.id, to.id)
    requires to.sha in w.commits && Agree(h, w.commits[from.sha], w.commits[to.sha])
    ensures Verified(w, s, h, to)
  {
    var path :| Chain(s, path, from.id) && Accounts(w, s, path[0], h, w.commits[from.sha]);
    var tree, tree' := w.commits[from.sha], w.commits[to.sha];
    forall t | Agree(h, t, tree) ensures Agree(h, t, tree') {
      AgreeIsTransitive(h, t, tree, tree');
    }
    ChainExtends(s, path, from.id, to.id);
    assert Accounts(w, s, (path + [to.id])[0], h, tree');
  }

  lemma AgreeIsTransitive(h: Half, a: Tree, b: Tree, c: Tree)
    requires Agree(h, a, b) && Agree(h, b, c)
    ensures Agree(h, a, c)
  {
    forall p | Relevant(h, p) ensures !DiffersAt(a, c, p) {
      assert !DiffersAt(a, b, p) && !DiffersAt(b, c, p);
    }
  }

  lemma GreenVerifies(w: World, s: System, h: Half, id: nat)
    requires id in s.runs && s.runs[id].record.id == id
    requires (h, id) in s.green && s.runs[id].record.sha in w.commits
    ensures Verified(w, s, h, s.runs[id].record)
  {
    AccountsForItself(w, s, id, h);
  }

  /** The shortest chain. */
  lemma AccountsForItself(w: World, s: System, id: nat, h: Half)
    requires id in s.runs && s.runs[id].record.id == id && s.runs[id].record.sha in w.commits
    requires Accounts(w, s, id, h, w.commits[s.runs[id].record.sha])
    ensures Verified(w, s, h, s.runs[id].record)
  {
    assert Chain(s, [id], id);
    assert [id][0] == id;
  }

  // ---------- the decision step ----------

  /** A window without a path of half `h` makes its two ends agree. */
  lemma EmptyWindowAgrees(w: World, s: System, seen: Observed, h: Half, base: Sha, current: Sha, mode: Mode)
    requires Truthful(w, s, seen) && ChangedPaths(seen.git, base, current, mode).Some?
    requires var window := ChangedPaths(seen.git, base, current, mode).value;
      !AnySelected(h, window) || (forall p :: p in window ==> IsDocsOnlyPath(p))
    ensures
      var from := if mode == MergeBase then seen.git.mergeBases[(base, current)] else base;
      from in w.commits && current in w.commits && Agree(h, w.commits[from], w.commits[current])
  {
    var from := if mode == MergeBase then seen.git.mergeBases[(base, current)] else base;
    assert (from, current) in seen.git.diffs;
    var window := seen.git.diffs[(from, current)];
    forall p | Relevant(h, p) ensures !DiffersAt(w.commits[from], w.commits[current], p) {
      assert p !in window;
    }
  }

  lemma ExemptionIsVerified(w: World, s: System, id: nat, hasToken: bool, seen: Observed, h: Half)
    requires Invariant(w, s) && id in s.runs && Truthful(w, s, seen)
    requires ResolveDocsOnly(EnvOf(s.runs[id], hasToken), seen.git)
    ensures Verified(w, s, h, s.runs[id].record)
  {
    var run := s.runs[id];
    EmptyWindowAgrees(w, s, seen, h, run.prBaseSha, run.record.sha, MergeBase);
    assert TrustedBase(w, s, run) == Some(w.mergeBases[(run.prBaseSha, run.record.sha)]);
    assert RunInvariant(w, s, id);
    AccountsForItself(w, s, id, h);
  }

  lemma NoteKeeps(s: System, env: Env, seen: Observed)
    ensures Keeps(s, Note(s, env, seen))
  {
  }

  lemma VerifiedByPrior(w: World, s: System, id: nat, env: Env, seen: Observed, h: Half, prior: Run)
    requires id in s.runs && s.runs[id].record.id == id && Verified(w, s, h, prior) && Linked(s, prior.id, id)
    requires var sha := s.runs[id].record.sha; sha in w.commits && Agree(h, w.commits[prior.sha], w.commits[sha])
    ensures Verified(w, Note(s, env, seen), h, s.runs[id].record)
  {
    VerifiedTransfers(w, s, h, prior, s.runs[id].record);
    NoteKeeps(s, env, seen);
    VerifiedLasts(w, s, Note(s, env, seen), h, s.runs[id].record, s.runs[id].record);
  }

  lemma EmptyWindowIsVerified(w: World, s: System, id: nat, hasToken: bool, seen: Observed, h: Half)
    requires Invariant(w, s) && id in s.runs && Truthful(w, s, seen)
    requires var window := Window(h, EnvOf(s.runs[id], hasToken), seen);
      window.Some? && !AnySelected(h, window.value)
    ensures Verified(w, Note(s, EnvOf(s.runs[id], hasToken), seen), h, s.runs[id].record)
  {
    var run, env := s.runs[id], EnvOf(s.runs[id], hasToken);
    var noted := Note(s, env, seen);
    var base := HalfBaseline(h, env, seen);
    EmptyWindowAgrees(w, s, seen, h, base.sha, run.record.sha, base.mode);
    assert RunInvariant(w, s, id);
    var why := BaselineHasProvenance(h, env, seen);
    match why {
      case PriorSuccess(prior) =>
        PriorIsLinked(w, s, id, hasToken, seen, prior);
        VerifiedByPrior(w, s, id, env, seen, h, prior);
      case GreenJob(prior) =>
        PriorIsLinked(w, s, id, hasToken, seen, prior);
        GreenOnRecords(seen.Jobs(h), prior, JobName(h));
        assert RunInvariant(w, s, prior.id);
        GreenVerifies(w, s, h, prior.id);
        VerifiedByPrior(w, s, id, env, seen, h, s.runs[prior.id].record);
      case PullRequestBase =>
        AccountsForItself(w, noted, id, h);
      case PushedBefore =>
        AccountsForItself(w, noted, id, h);
      case NoBaseline =>
        assert false;
    }
  }

  /** A run that the script took as prior is known, and linked. */
  lemma PriorIsLinked(w: World, s: System, id: nat, hasToken: bool, seen: Observed, prior: Run)
    requires Invariant(w, s) && id in s.runs && Truthful(w, s, seen)
    requires ListedPrior(prior, EnvOf(s.runs[id], hasToken), seen)
    ensures ListedInvariant(w, s, prior) && Linked(s, prior.id, id)
  {
    var env := EnvOf(s.runs[id], hasToken);
    var runs := UsableListing(env, seen).value;
    FindRunIsExact(runs, env.q.runId);
    var current := FindRun(runs, env.q.runId).value;
    assert RunInvariant(w, s, id) && ListedInvariant(w, s, current);
    assert prior in s.listed && IsPrior(prior, s.runs[id].record, EnvOf(s.runs[id], false).q);
  }

  /** The moment of decision: if the half is not to run, then it is already verified, by evidence
      older than this run's own jobs. */
  lemma SkippingIsVerifiedAtDecision(w: World, s: System, id: nat, hasToken: bool, seen: Observed, h: Half)
    requires Invariant(w, s) && id in s.runs && Truthful(w, s, seen)
    requires var env := EnvOf(s.runs[id], hasToken); !Executes(Decide(env, seen), env.q.event, h)
    ensures Verified(w, Note(s, EnvOf(s.runs[id], hasToken), seen), h, s.runs[id].record)
  {
    var env := EnvOf(s.runs[id], hasToken);
    WhyHalfIsSkipped(h, env, seen);
    if ResolveDocsOnly(env, seen.git) {
      ExemptionIsVerified(w, s, id, hasToken, seen, h);
      NoteKeeps(s, env, seen);
      VerifiedLasts(w, s, Note(s, env, seen), h, s.runs[id].record, s.runs[id].record);
    } else {
      EmptyWindowIsVerified(w, s, id, hasToken, seen, h);
    }
  }

  // ---------- every step keeps the invariant ----------

  /** A step that changes run `id` alone keeps the invariant if it keeps it for that run. */
  lemma ShowKeepsInvariant(w: World, s: System, s': System, id: nat)
    requires Invariant(w, s) && Keeps(s, s') && id in s'.runs
    requires s'.runs == s.runs[id := s'.runs[id]] && s'.listed == s.listed + {s'.runs[id].record}
    requires forall h: Half, k | (h, k) in s'.green :: (h, k) in s.green || k == id
    requires RunInvariant(w, s', id)
    requires Succeeded(s'.runs[id].record) ==> forall h :: Verified(w, s', h, s'.runs[id].record)
    ensures Invariant(w, s')
  {
    forall k | k in s'.runs ensures RunInvariant(w, s', k) {
      if k != id {
        assert RunInvariant(w, s, k);
        forall h | s.runs[k].decision.Some? && !Runs(s.runs[k], h) ensures Verified(w, s', h, s'.runs[k].record) {
          VerifiedLasts(w, s, s', h, s.runs[k].record, s'.runs[k].record);
        }
      }
    }
    forall r | r in s'.listed ensures ListedInvariant(w, s', r) {
      if r in s.listed {
        assert ListedInvariant(w, s, r);
        forall h | Succeeded(r) ensures Verified(w, s', h, r) {
          VerifiedLasts(w, s, s', h, r, r);
        }
      }
    }
  }

  lemma DecidesKeepsInvariant(w: World, s: System, s': System, id: nat, hasToken: bool, seen: Observed)
    requires Invariant(w, s) && Decides(w, s, s', id, hasToken, seen)
    ensures Invariant(w, s')
  {
    OneRunChanges(s, s', id);
    assert RunInvariant(w, s, id);
    forall h | !Runs(s'.runs[id], h) ensures Verified(w, s', h, s'.runs[id].record) {
      SkippingIsVerifiedAtDecision(w, s, id, hasToken, seen, h);
      VerifiedLasts(w, Note(s, EnvOf(s.runs[id], hasToken), seen), s', h, s.runs[id].record, s'.runs[id].record);
    }
    ShowKeepsInvariant(w, s, s', id);
  }

  /** Steps that keep or drop the decision of a run keep what its skipped halves rest on. */
  lemma SkippedStayVerified(w: World, s: System, s': System, id: nat)
    requires Invariant(w, s) && Keeps(s, s') && id in s.runs
    requires s'.runs[id].decision == s.runs[id].decision
    ensures s'.runs[id].decision.Some? ==>
              forall h :: !Runs(s'.runs[id], h) ==> Verified(w, s', h, s'.runs[id].record)
  {
    assert RunInvariant(w, s, id);
    forall h | s'.runs[id].decision.Some? && !Runs(s'.runs[id], h) ensures Verified(w, s', h, s'.runs[id].record) {
      VerifiedLasts(w, s, s', h, s.runs[id].record, s'.runs[id].record);
    }
  }

  lemma CompletesKeepsInvariant(w: World, s: System, s': System, id: nat, conclusion: Conclusion)
    requires Invariant(w, s) && Completes(s, s', id, conclusion)
    ensures Invariant(w, s')
  {
    OneRunChanges(s, s', id);
    assert RunInvariant(w, s, id);
    SkippedStayVerified(w, s, s', id);
    forall h | conclusion == Success ensures Verified(w, s', h, s'.runs[id].record) {
      if Runs(s.runs[id], h) {
        GreenVerifies(w, s', h, id);
      }
    }
    ShowKeepsInvariant(w, s, s', id);
  }

  lemma RelabelsKeepsInvariant(w: World, s: System, s': System, id: nat, prs: seq<string>)
    requires Invariant(w, s) && Relabels(s, s', id, prs)
    ensures Invariant(w, s')
  {
    OneRunChanges(s, s', id);
    assert RunInvariant(w, s, id);
    SkippedStayVerified(w, s, s', id);
    forall h | Succeeded(s'.runs[id].record) ensures Verified(w, s', h, s'.runs[id].record) {
      assert ListedInvariant(w, s, s.runs[id].record);
      VerifiedLasts(w, s, s', h, s.runs[id].record, s'.runs[id].record);
    }
    ShowKeepsInvariant(w, s, s', id);
  }

  lemma StartsKeepsInvariant(w: World, s: System, s': System, id: nat, run: RunState)
    requires Invariant(w, s) && Starts(w, s, s', id, run)
    ensures Invariant(w, s')
  {
    OneRunChanges(s, s', id);
    ShowKeepsInvariant(w, s, s', id);
  }

  lemma FinishesJobKeepsInvariant(w: World, s: System, s': System, id: nat, h: Half, conclusion: Conclusion)
    requires Invariant(w, s) && FinishesJob(s, s', id, h, conclusion)
    ensures Invariant(w, s')
  {
    OneRunChanges(s, s', id);
    assert RunInvariant(w, s, id);
    SkippedStayVerified(w, s, s', id);
    ShowKeepsInvariant(w, s, s', id);
  }

  lemma RerunsKeepsInvariant(w: World, s: System, s': System, id: nat, again: RunState)
    requires Invariant(w, s) && Reruns(s, s', id, again)
    ensures Invariant(w, s')
  {
    OneRunChanges(s, s', id);
    assert RunInvariant(w, s, id);
    if again.decision.Some? {
      SkippedStayVerified(w, s, s', id);
    }
    ShowKeepsInvariant(w, s, s', id);
  }

  lemma NextKeepsInvariant(w: World, s: System, s': System)
    requires Invariant(w, s) && Next(w, s, s')
    ensures Invariant(w, s')
  {
    if id, run :| Starts(w, s, s', id, run) {
      StartsKeepsInvariant(w, s, s', id, run);
    } else if id, hasToken, seen :| Decides(w, s, s', id, hasToken, seen) {
      DecidesKeepsInvariant(w, s, s', id, hasToken, seen);
    } else if id, h, conclusion :| FinishesJob(s, s', id, h, conclusion) {
      FinishesJobKeepsInvariant(w, s, s', id, h, conclusion);
    } else if id, conclusion :| Completes(s, s', id, conclusion) {
      CompletesKeepsInvariant(w, s, s', id, conclusion);
    } else if id, again :| Reruns(s, s', id, again) {
      RerunsKeepsInvariant(w, s, s', id, again);
    } else if id, prs :| Relabels(s, s', id, prs) {
      RelabelsKeepsInvariant(w, s, s', id, prs);
    }
  }

  lemma {:induction false} HistoryKeepsInvariant(w: World, trace: seq<System>)
    requires IsHistory(w, trace)
    ensures Invariant(w, trace[|trace| - 1])
  {
    var n := |trace| - 1;
    if n > 0 {
      assert Next(w, trace[n - 1], trace[n]);
      HistoryKeepsInvariant(w, trace[..n]);
      NextKeepsInvariant(w, trace[n - 1], trace[n]);
    }
  }

  // ---------- main results ----------

  /** Soundness over whole histories. However runs, decisions, jobs, completions and re-runs
      interleave, every run ever listed as a success is verified for both halves: on every path
      relevant to the half its tree agrees with one on which a real job of that half was green, or
      with the trusted base, of a run from which a chain of prior runs leads to it. */
  lemma SuccessesAreVerified(w: World, trace: seq<System>, r: Run, h: Half)
    requires IsHistory(w, trace)
    requires var s := trace[|trace| - 1]; r in s.listed && Succeeded(r)
    ensures Verified(w, trace[|trace| - 1], h, r)
  {
    HistoryKeepsInvariant(w, trace);
    assert ListedInvariant(w, trace[|trace| - 1], r);
  }

  /** The same for a half that is skipped now, whatever becomes of its run. */
  lemma SkippedHalvesAreVerified(w: World, trace: seq<System>, id: nat, h: Half)
    requires IsHistory(w, trace)
    requires var s := trace[|trace| - 1]; id in s.runs && s.runs[id].decision.Some? && !Runs(s.runs[id], h)
    ensures Verified(w, trace[|trace| - 1], h, trace[|trace| - 1].runs[id].record)
  {
    HistoryKeepsInvariant(w, trace);
    assert RunInvariant(w, trace[|trace| - 1], id);
  }

  /** Runs of one event, and of one branch unless they belong to pull requests. */
  predicate OneStream(a: Run, b: Run) {
    a.event == b.event && (a.event != PullRequest ==> a.branch == b.branch)
  }

  lemma LinkGoesBack(w: World, s: System, a: nat, b: nat)
    requires Invariant(w, s) && b in s.runs && Linked(s, a, b)
    ensures a in s.runs && IsBefore(s.runs[a].record, s.runs[b].record) && OneStream(s.runs[a].record, s.runs[b].record)
  {
    assert RunInvariant(w, s, b);
    var r :| r in s.listed && r.id == a && IsPrior(r, s.runs[b].record, EnvOf(s.runs[b], false).q);
    assert ListedInvariant(w, s, r);
  }

  /** Evidence is never borrowed from elsewhere or from the future: along a chain all runs are of one
      event, and of one branch unless they belong to pull requests, each strictly before the next. */
  lemma {:induction false} ChainGoesBack(w: World, trace: seq<System>, path: seq<nat>, id: nat, i: nat)
    requires IsHistory(w, trace) && Chain(trace[|trace| - 1], path, id) && i < |path|
    ensures
      var s := trace[|trace| - 1];
      var a, b := s.runs[path[i]].record, s.runs[id].record;
      && OneStream(a, b)
      && (i < |path| - 1 ==> IsBefore(a, b) && (a.created < b.created || (a.created == b.created && a.id < b.id)))
    decreases |path| - i
  {
    if i < |path| - 1 {
      var s := trace[|trace| - 1];
      HistoryKeepsInvariant(w, trace);
      assert Linked(s, path[i], path[i + 1]);
      LinkGoesBack(w, s, path[i], path[i + 1]);
      ChainGoesBack(w, trace, path, id, i + 1);
    }
  }

  /** What agreement leaves open: exactly the two files that are exempt yet classified. */
  lemma AgreementSparesTwoFiles(h: Half, a: Tree, b: Tree)
    ensures Agree(h, a, b) <==>
      forall p :: Selects(h, p) && p != "LICENSE" && p != ".gitignore" ==> !DiffersAt(a, b, p)
  {
    forall p ensures Relevant(h, p) <==> Selects(h, p) && p != "LICENSE" && p != ".gitignore" {
      DocsOnlyYetSelected(h, p);
    }
  }

  /** Equality on every path classified for the half, exempt or not. */
  ghost predicate EqualOnSelected(h: Half, a: Tree, b: Tree) {
    forall p :: Selects(h, p) ==> !DiffersAt(a, b, p)
  }

  /** A half skipped because its own window holds no path of it meets full equality with its baseline. */
  lemma EmptyWindowMeetsFullEquality(w: World, s: System, seen: Observed, h: Half, base: Sha, current: Sha, mode: Mode)
    requires Truthful(w, s, seen) && ChangedPaths(seen.git, base, current, mode).Some?
    ensures
      var from := if mode == MergeBase then seen.git.mergeBases[(base, current)] else base;
      && from in w.commits && current in w.commits
      && (EqualOnSelected(h, w.commits[from], w.commits[current]) <==>
            !AnySelected(h, ChangedPaths(seen.git, base, current, mode).value))
  {
    var from := if mode == MergeBase then seen.git.mergeBases[(base, current)] else base;
    assert (from, current) in seen.git.diffs;
    var window := seen.git.diffs[(from, current)];
    assert forall p :: p in window <==> DiffersAt(w.commits[from], w.commits[current], p);
  }

  /** A half skipped by the documentation exemption meets full equality with the merge base exactly when
      the pull request changes neither LICENSE nor .gitignore. */
  lemma ExemptionMeetsFullEqualityExactlyWhen(w: World, s: System, env: Env, seen: Observed, h: Half)
    requires Truthful(w, s, seen) && ResolveDocsOnly(env, seen.git)
    ensures
      var changed := ChangedPaths(seen.git, env.prBaseSha, env.q.sha, MergeBase).value;
      var base := seen.git.mergeBases[(env.prBaseSha, env.q.sha)];
      && base in w.commits && env.q.sha in w.commits
      && (EqualOnSelected(h, w.commits[base], w.commits[env.q.sha]) <==>
            "LICENSE" !in changed && ".gitignore" !in changed)
  {
    EmptyWindowMeetsFullEquality(w, s, seen, h, env.prBaseSha, env.q.sha, MergeBase);
    var changed := ChangedPaths(seen.git, env.prBaseSha, env.q.sha, MergeBase).value;
    forall p | p in changed ensures Selects(h, p) <==> p == "LICENSE" || p == ".gitignore" {
      DocsOnlyYetSelected(h, p);
    }
  }

  // A pull request that only adds LICENSE, decided without API access.

  const LICENSE_WORLD := World(map["base" := map[], "head" := map["LICENSE" := "text"]], map[("base", "head") := "base"])
  const LICENSE_GIT := Git(LICENSE_WORLD.commits, LICENSE_WORLD.mergeBases, map[("base", "head") := ["LICENSE"]])
  const LICENSE_SEEN := Observed(None, map[], map[], LICENSE_GIT)
  const LICENSE_RUN := RunState(Run(1, 0, PullRequest, ["7"], "topic", "head", InProgress, NoConclusion), "7", "base", "", None, map[])

  lemma LicenseDecision() returns (d: Decision)
    ensures d == Decide(EnvOf(LICENSE_RUN, false), LICENSE_SEEN) && d.docsOnly
  {
    d := Decide(EnvOf(LICENSE_RUN, false), LICENSE_SEEN);
    var changed := ["LICENSE"];
    assert "base" in LICENSE_GIT.commits && "head" in LICENSE_GIT.commits;
    assert ChangedPaths(LICENSE_GIT, "base", "head", MergeBase) == Some(changed);
    assert IsDocsOnlyPath("LICENSE");
    assert forall p :: p in changed ==> p == "LICENSE";
  }

  lemma LicenseObservationIsTruthful(s: System)
    ensures Truthful(LICENSE_WORLD, s, LICENSE_SEEN)
  {
    var before, after := LICENSE_WORLD.commits["base"], LICENSE_WORLD.commits["head"];
    forall p ensures p in ["LICENSE"] <==> DiffersAt(before, after, p) {
    }
    assert LICENSE_GIT.Honest();
  }

  /** The gap is real: a pull request that only changes LICENSE succeeds with no job ever run, so
      equality on every classified path would be too much to claim. */
  lemma LicenseChangeIsNeverTested() returns (trace: seq<System>)
    ensures IsHistory(LICENSE_WORLD, trace)
    ensures var s := trace[|trace| - 1];
      && s.green == {} && s.runs.Keys == {1} && Succeeded(s.runs[1].record)
      && (forall h :: !Runs(s.runs[1], h) && Selects(h, "LICENSE"))
      && TrustedBase(LICENSE_WORLD, s, s.runs[1]) == Some("base") && s.runs[1].record.sha == "head"
    ensures DiffersAt(LICENSE_WORLD.commits["base"], LICENSE_WORLD.commits["head"], "LICENSE")
  {
    var d := LicenseDecision();
    var decided := LICENSE_RUN.(decision := Some(d));
    var done := decided.(record := LICENSE_RUN.record.(status := Completed, conclusion := Success));
    var s1 := Show(START, 1, LICENSE_RUN);
    var s2 := Show(s1, 1, decided);
    var s3 := Show(s2, 1, done);
    assert Starts(LICENSE_WORLD, START, s1, 1, LICENSE_RUN);
    LicenseObservationIsTruthful(s1);
    assert Decides(LICENSE_WORLD, s1, s2, 1, false, LICENSE_SEEN);
    assert Completes(s2, s3, 1, Success);
    trace := [START, s1, s2, s3];
    forall h ensures !Runs(done, h) && Selects(h, "LICENSE") {
      DocsOnlyYetSelected(h, "LICENSE");
    }
  }
}

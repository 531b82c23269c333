/** Reading the list of earlier workflow runs in scripts/ci_scope.py: the runs before the current
    one, the previous fully successful run, and the newest commit on which one job was green. */
module CiHistory {
  import opened Options

  datatype Event = PullRequest | Push | WorkflowDispatch | OtherEvent(name: string)
  datatype Status = Queued | InProgress | Completed
  datatype Conclusion = NoConclusion | Success | Failure | Cancelled | Skipped

  type Sha = string  // "" stands for a missing commit id

  /** One workflow-run record as the runs API lists it. */
  datatype Run = Run(id: nat, created: int, event: Event, prs: seq<string>, branch: string,
                     sha: Sha, status: Status, conclusion: Conclusion)

  /** One job record as the jobs API lists it. */
  datatype Job = Job(name: string, status: Status, conclusion: Conclusion)

  /** What the script knows about the run it is part of. */
  datatype Query = Query(runId: nat, sha: Sha, event: Event, prNumber: string, branch: string)

  // ---------- order ----------

  predicate IsBefore(a: Run, b: Run) {
    if a.created != b.created then a.created < b.created else a.id < b.id
  }

  /** A strict total order on runs with distinct ids (or distinct times). */
  lemma IsBeforeIsStrictTotalOrder(a: Run, b: Run, c: Run)
    ensures !IsBefore(a, a)
    ensures IsBefore(a, b) && IsBefore(b, c) ==> IsBefore(a, c)
    ensures a.id != b.id ==> (IsBefore(a, b) <==> !IsBefore(b, a))
  {
  }

  // ---------- prior runs ----------

  function FindRun(runs: seq<Run>, id: nat): Option<Run> {
    if runs == [] then None else if runs[0].id == id then Some(runs[0]) else FindRun(runs[1..], id)
  }

  predicate SameStream(run: Run, q: Query) {
    && run.event == q.event
    && (if q.event == PullRequest then q.prNumber in run.prs else run.branch == q.branch)
  }

  predicate IsPrior(run: Run, current: Run, q: Query) {
    IsBefore(run, current) && SameStream(run, q)
  }

  function Priors(runs: seq<Run>, current: Run, q: Query): seq<Run> {
    if runs == [] then []
    else
      var init := Priors(runs[..|runs| - 1], current, q);
      var run := runs[|runs| - 1];
      if IsPrior(run, current, q) then init + [run] else init
  }

  /** Python's list sort with reverse=True: newest first, equal keys keep their order. */
  function SortNewestFirst(runs: seq<Run>): seq<Run> {
    if runs == [] then [] else Insert(runs[0], SortNewestFirst(runs[1..]))
  }

  function Insert(run: Run, sorted: seq<Run>): seq<Run> {
    if sorted == [] || !IsBefore(run, sorted[0]) then [run] + sorted
    else [sorted[0]] + Insert(run, sorted[1..])
  }

  predicate NewestFirst(runs: seq<Run>) {
    forall i, j :: 0 <= i < j < |runs| ==> !IsBefore(runs[i], runs[j])
  }

  predicate DistinctIds(runs: seq<Run>) {
    forall i, j :: 0 <= i < j < |runs| ==> runs[i].id != runs[j].id
  }

  lemma {:induction false} InsertSorts(run: Run, sorted: seq<Run>)
    requires NewestFirst(sorted)
    ensures multiset(Insert(run, sorted)) == multiset(sorted) + multiset{run}
    ensures NewestFirst(Insert(run, sorted))
  {
    if sorted == [] || !IsBefore(run, sorted[0]) {
    } else {
      var rest := sorted[1..];
      assert sorted == [sorted[0]] + rest;
      InsertSorts(run, rest);
      var inserted := Insert(run, rest);
      forall r | r in inserted ensures !IsBefore(sorted[0], r) {
        assert r in multiset(inserted);
        assert r in rest || r == run;
      }
    }
  }

  lemma {:induction false} SortIsPermutation(runs: seq<Run>)
    ensures multiset(SortNewestFirst(runs)) == multiset(runs)
    ensures NewestFirst(SortNewestFirst(runs))
  {
    if runs != [] {
      assert runs == [runs[0]] + runs[1..];
      SortIsPermutation(runs[1..]);
      InsertSorts(runs[0], SortNewestFirst(runs[1..]));
    }
  }

  lemma {:induction false} PriorsAreExact(runs: seq<Run>, current: Run, q: Query)
    ensures forall r :: multiset(Priors(runs, current, q))[r] ==
                        if IsPrior(r, current, q) then multiset(runs)[r] else 0
  {
    if runs != [] {
      var init, last := runs[..|runs| - 1], runs[|runs| - 1];
      assert runs == init + [last];
      PriorsAreExact(init, current, q);
    }
  }

  function PriorRunsOf(runs: seq<Run>, q: Query): Option<seq<Run>> {
    match FindRun(runs, q.runId)
    case None => None
    case Some(current) => Some(SortNewestFirst(Priors(runs, current, q)))
  }

  /** _prior_runs: a list grown in a loop, then sorted. */
  method PriorRuns(runs: seq<Run>, q: Query) returns (result: Option<seq<Run>>)
    ensures result == PriorRunsOf(runs, q)
  {
    var found := FindRun(runs, q.runId);
    if found.None? {
      return None;
    }
    var prior := [];
    for i := 0 to |runs|
      invariant prior == Priors(runs[..i], found.value, q)
    {
      assert runs[..i + 1][..i] == runs[..i];
      var run := runs[i];
      if !IsBefore(run, found.value) {
        continue;
      }
      if run.event != q.event {
        continue;
      }
      if q.event == PullRequest {
        if q.prNumber !in run.prs {
          continue;
        }
      } else if run.branch != q.branch {
        continue;
      }
      prior := prior + [run];
    }
    assert runs[..|runs|] == runs;
    result := Some(SortNewestFirst(prior));
  }

  lemma PriorRunsAreExact(runs: seq<Run>, q: Query)
    ensures PriorRunsOf(runs, q) == None <==> forall r :: r in runs ==> r.id != q.runId
    ensures PriorRunsOf(runs, q).Some? ==>
      var current := FindRun(runs, q.runId).value;
      var prior := PriorRunsOf(runs, q).value;
      && current in runs && current.id == q.runId
      && (forall r :: r in prior <==> r in runs && IsPrior(r, current, q))
      && (forall r :: r in prior ==> multiset(prior)[r] == multiset(runs)[r])
      && NewestFirst(prior)
  {
    FindRunIsExact(runs, q.runId);
    if PriorRunsOf(runs, q).Some? {
      var current := FindRun(runs, q.runId).value;
      var listed := Priors(runs, current, q);
      var prior := SortNewestFirst(listed);
      SortIsPermutation(listed);
      PriorsAreExact(runs, current, q);
      forall r ensures r in prior <==> r in runs && IsPrior(r, current, q) {
        assert r in prior <==> r in multiset(prior);
        assert r in runs <==> r in multiset(runs);
      }
    }
  }

  /** _prior_runs keeps exactly the runs of the stream before the current one, each as often as it
      was listed, newest first, and strictly so when no run is listed twice. The current run is the
      first record under its id. */
  lemma PriorRunsAreExactAndSorted(runs: seq<Run>, q: Query)
    ensures PriorRunsOf(runs, q) == None <==> forall r :: r in runs ==> r.id != q.runId
    ensures PriorRunsOf(runs, q).Some? ==>
      var current := FindRun(runs, q.runId).value;
      var prior := PriorRunsOf(runs, q).value;
      && (exists i :: 0 <= i < |runs| && runs[i] == current && forall k :: 0 <= k < i ==> runs[k].id != q.runId)
      && current.id == q.runId
      && (forall r :: r in prior <==>
            && r in runs
            && (r.created < current.created || (r.created == current.created && r.id < current.id))
            && r.event == q.event
            && (if q.event == PullRequest then q.prNumber in r.prs else r.branch == q.branch))
      && (forall r :: r in prior ==> multiset(prior)[r] == multiset(runs)[r])
      && (forall i, j :: 0 <= i < j < |prior| ==>
            prior[i].created > prior[j].created || (prior[i].created == prior[j].created && prior[i].id >= prior[j].id))
      && (DistinctIds(runs) ==> forall i, j :: 0 <= i < j < |prior| ==>
            prior[i].created > prior[j].created || prior[i].id > prior[j].id)
  {
    PriorRunsAreExact(runs, q);
    FindRunIsExact(runs, q.runId);
    if PriorRunsOf(runs, q).Some? && DistinctIds(runs) {
      var prior := PriorRunsOf(runs, q).value;
      forall r ensures multiset(prior)[r] <= multiset(runs)[r] {
        assert r in prior <==> r in multiset(prior);
      }
      SubBagKeepsIdsDistinct(prior, runs);
    }
  }

  lemma {:induction false} FindRunIsExact(runs: seq<Run>, id: nat)
    ensures FindRun(runs, id) == None <==> forall r :: r in runs ==> r.id != id
    ensures FindRun(runs, id).Some? ==> FindRun(runs, id).value in runs && FindRun(runs, id).value.id == id
    ensures FindRun(runs, id).Some? ==>
      exists i :: 0 <= i < |runs| && runs[i] == FindRun(runs, id).value && forall k :: 0 <= k < i ==> runs[k].id != id
  {
    if runs != [] {
      assert runs == [runs[0]] + runs[1..];
      FindRunIsExact(runs[1..], id);
      if runs[0].id != id && FindRun(runs, id).Some? {
        var rest := runs[1..];
        var i :| 0 <= i < |rest| && rest[i] == FindRun(rest, id).value && forall k :: 0 <= k < i ==> rest[k].id != id;
        assert runs[i + 1] == rest[i];
        assert forall k :: 0 < k < i + 1 ==> runs[k] == rest[k - 1];
      }
    }
  }

  /** The records of one run, by its sort key, in their order. */
  function RecordsOf(runs: seq<Run>, created: int, id: nat): seq<Run> {
    if runs == [] then []
    else (if runs[0].created == created && runs[0].id == id then [runs[0]] else []) + RecordsOf(runs[1..], created, id)
  }

  lemma {:induction false} InsertKeepsRecords(run: Run, sorted: seq<Run>, created: int, id: nat)
    ensures RecordsOf(Insert(run, sorted), created, id) == RecordsOf([run] + sorted, created, id)
  {
    assert ([run] + sorted)[1..] == sorted;
    if sorted != [] && IsBefore(run, sorted[0]) {
      InsertKeepsRecords(run, sorted[1..], created, id);
      assert ([run] + sorted[1..])[1..] == sorted[1..];
      assert Insert(run, sorted)[1..] == Insert(run, sorted[1..]);
    }
  }

  lemma {:induction false} SortKeepsRecords(runs: seq<Run>, created: int, id: nat)
    ensures RecordsOf(SortNewestFirst(runs), created, id) == RecordsOf(runs, created, id)
  {
    if runs != [] {
      SortKeepsRecords(runs[1..], created, id);
      InsertKeepsRecords(runs[0], SortNewestFirst(runs[1..]), created, id);
      assert ([runs[0]] + SortNewestFirst(runs[1..]))[1..] == SortNewestFirst(runs[1..]);
    }
  }

  lemma {:induction false} RecordsOfParts(a: seq<Run>, b: seq<Run>, created: int, id: nat)
    ensures RecordsOf(a + b, created, id) == RecordsOf(a, created, id) + RecordsOf(b, created, id)
  {
    if a == [] {
      assert a + b == b;
    } else {
      assert (a + b)[1..] == a[1..] + b;
      RecordsOfParts(a[1..], b, created, id);
    }
  }

  lemma PriorsOfOneMore(init: seq<Run>, run: Run, current: Run, q: Query)
    ensures Priors(init + [run], current, q) == Priors(init, current, q) + if IsPrior(run, current, q) then [run] else []
  {
    assert (init + [run])[..|init|] == init;
  }

  lemma {:induction false} PriorsKeepRecords(runs: seq<Run>, current: Run, q: Query, created: int, id: nat)
    ensures RecordsOf(Priors(runs, current, q), created, id) == Priors(RecordsOf(runs, created, id), current, q)
  {
    if runs != [] {
      var init, run := runs[..|runs| - 1], runs[|runs| - 1];
      assert runs == init + [run];
      PriorsKeepRecords(init, current, q, created, id);
      RecordsOfParts(init, [run], created, id);
      PriorsOfOneMore(init, run, current, q);
      PriorsOfOneMore(RecordsOf(init, created, id), run, current, q);
      RecordsOfParts(Priors(init, current, q), [run], created, id);
      var one := if run.created == created && run.id == id then [run] else [];
      assert RecordsOf([run], created, id) == one;
      if one == [] {
        assert RecordsOf(runs, created, id) == RecordsOf(init, created, id);
      }
    }
  }

  /** The sort is stable: of several records of one run, those kept stay in the order in which they
      were listed. With the order of the runs this settles the whole list. */
  lemma PriorRunsAreStable(runs: seq<Run>, q: Query, created: int, id: nat)
    requires PriorRunsOf(runs, q).Some?
    ensures RecordsOf(PriorRunsOf(runs, q).value, created, id) ==
      Priors(RecordsOf(runs, created, id), FindRun(runs, q.runId).value, q)
  {
    var current := FindRun(runs, q.runId).value;
    SortKeepsRecords(Priors(runs, current, q), created, id);
    PriorsKeepRecords(runs, current, q, created, id);
  }

  lemma SubBagKeepsIdsDistinct(part: seq<Run>, whole: seq<Run>)
    requires multiset(part) <= multiset(whole)
    requires DistinctIds(whole)
    ensures DistinctIds(part)
  {
    forall i, j | 0 <= i < j < |part| ensures part[i].id != part[j].id {
      if part[i].id == part[j].id {
        assert part[i] in multiset(whole) && part[j] in multiset(whole);
        var a :| 0 <= a < |whole| && whole[a] == part[i];
        var b :| 0 <= b < |whole| && whole[b] == part[j];
        assert a == b;
        TwiceInBag(part, i, j);
        OnceInBag(whole, a);
        assert false;
      }
    }
  }

  lemma TwiceInBag(s: seq<Run>, i: nat, j: nat)
    requires i < j < |s| && s[i] == s[j]
    ensures multiset(s)[s[i]] >= 2
  {
    assert s == s[..i] + [s[i]] + s[i + 1..j] + [s[j]] + s[j + 1..];
  }

  lemma OnceInBag(s: seq<Run>, i: nat)
    requires i < |s| && DistinctIds(s)
    ensures multiset(s)[s[i]] == 1
  {
    assert s == s[..i] + [s[i]] + s[i + 1..];
    assert s[i] !in s[..i] && s[i] !in s[i + 1..];
  }

  // ---------- the previous successful run ----------

  predicate IsUsableSuccess(run: Run, q: Query) {
    run.status == Completed && run.conclusion == Success && run.sha != q.sha && run.sha != ""
  }

  function FirstSuccess(prior: seq<Run>, q: Query): Option<Run> {
    if prior == [] then None
    else if IsUsableSuccess(prior[0], q) then Some(prior[0])
    else FirstSuccess(prior[1..], q)
  }

  datatype PreviousSuccess = PreviousSuccess(run: Option<Run>, hadPrior: bool, currentFound: bool)

  function FindPreviousSuccessfulRun(runs: seq<Run>, q: Query): PreviousSuccess {
    match PriorRunsOf(runs, q)
    case None => PreviousSuccess(None, false, false)
    case Some(prior) => PreviousSuccess(FirstSuccess(prior, q), prior != [], true)
  }

  lemma {:induction false} FirstSuccessIsFirst(prior: seq<Run>, q: Query)
    requires NewestFirst(prior)
    ensures FirstSuccess(prior, q) == None <==> forall r :: r in prior ==> !IsUsableSuccess(r, q)
    ensures FirstSuccess(prior, q).Some? ==>
      var chosen := FirstSuccess(prior, q).value;
      && chosen in prior && IsUsableSuccess(chosen, q)
      && forall r :: r in prior && IsUsableSuccess(r, q) ==> !IsBefore(chosen, r)
  {
    if prior != [] {
      assert prior == [prior[0]] + prior[1..];
      FirstSuccessIsFirst(prior[1..], q);
    }
  }

  /** Of several records that qualify, the first in the list of prior runs is chosen. */
  lemma {:induction false} NoSuccessBeforeChosen(prior: seq<Run>, q: Query, i: nat)
    requires i < |prior| && FirstSuccess(prior[..i], q) == None && IsUsableSuccess(prior[i], q)
    ensures FirstSuccess(prior, q) == Some(prior[i])
  {
    if i > 0 {
      assert prior[..i][0] == prior[0] && prior[..i][1..] == prior[1..][..i - 1];
      NoSuccessBeforeChosen(prior[1..], q, i - 1);
    }
  }

  /** The chosen previous success is a maximum, in time, of all completed successes of the stream
      before the current run on another commit; there is none only if no such run is listed. */
  lemma PreviousSuccessIsNewest(runs: seq<Run>, q: Query)
    requires FindRun(runs, q.runId).Some?
    ensures
      var current := FindRun(runs, q.runId).value;
      var found := FindPreviousSuccessfulRun(runs, q);
      && found.currentFound
      && (found.hadPrior <==> exists r :: r in runs && IsPrior(r, current, q))
      && (found.run == None <==> forall r :: r in runs && IsPrior(r, current, q) ==> !IsUsableSuccess(r, q))
      && (found.run == None <==> forall r :: r in runs && IsPrior(r, current, q) ==>
            !(r.status == Completed && r.conclusion == Success && r.sha != q.sha && r.sha != ""))
      && (found.run.Some? ==>
            var chosen := found.run.value;
            && chosen in runs && IsPrior(chosen, current, q) && IsUsableSuccess(chosen, q)
            && chosen.status == Completed && chosen.conclusion == Success && chosen.sha != q.sha && chosen.sha != ""
            && (chosen.created < current.created || (chosen.created == current.created && chosen.id < current.id))
            && forall r :: r in runs && IsPrior(r, current, q) && IsUsableSuccess(r, q)
                 ==> !(chosen.created < r.created) && (chosen.created == r.created ==> chosen.id >= r.id))
  {
    var prior := PriorRunsOf(runs, q).value;
    PriorRunsAreExact(runs, q);
    FirstSuccessIsFirst(prior, q);
    if prior != [] {
      assert prior[0] in prior;
    }
  }

  // ---------- the newest commit with a green job ----------

  const GREEN_JOB_PROBE_LIMIT := 5

  predicate IsGreen(job: Job, name: string) {
    job.name == name && job.status == Completed && job.conclusion == Success
  }

  predicate AnyGreen(jobs: seq<Job>, name: string) {
    exists job :: job in jobs && IsGreen(job, name)
  }

  /** Position `i` holds the newest record of a usable commit: no earlier position has its sha. */
  predicate IsNewestOfCommit(prior: seq<Run>, i: nat, currentSha: Sha)
    requires i < |prior|
  {
    prior[i].sha != "" && prior[i].sha != currentSha && forall k :: 0 <= k < i ==> prior[k].sha != prior[i].sha
  }

  /** The rule: the newest record of every usable commit, the completed ones among them. */
  function Candidates(prior: seq<Run>, currentSha: Sha): seq<Run> {
    if prior == [] then []
    else
      var n := |prior| - 1;
      var init := Candidates(prior[..n], currentSha);
      if IsNewestOfCommit(prior, n, currentSha) && prior[n].status == Completed then init + [prior[n]] else init
  }

  function Min(a: nat, b: nat): nat { if a < b then a else b }

  /** The commits that may be asked about: at most `limit` candidates. */
  function Probes(prior: seq<Run>, currentSha: Sha, limit: nat): seq<Run> {
    var all := Candidates(prior, currentSha);
    all[..Min(limit, |all|)]
  }

  /** jobs API: a run id that is missing stands for a call that raised. */
  type Fetched = map<nat, seq<Job>>

  predicate Shows(fetched: Fetched, run: Run, name: string) {
    run.id in fetched && AnyGreen(fetched[run.id], name)
  }

  /** The first green probe, unless a fetch failed before it. */
  function FirstGreen(probes: seq<Run>, name: string, fetched: Fetched): Option<Sha> {
    if probes == [] || probes[0].id !in fetched then None
    else if AnyGreen(fetched[probes[0].id], name) then Some(probes[0].sha)
    else FirstGreen(probes[1..], name, fetched)
  }

  function LatestGreenJobSha(runs: seq<Run>, name: string, q: Query, fetched: Fetched, limit: nat): Option<Sha> {
    match PriorRunsOf(runs, q)
    case None => None
    case Some(prior) => FirstGreen(Probes(prior, q.sha, limit), name, fetched)
  }

  lemma {:induction false} FirstGreenAfter(a: seq<Run>, b: seq<Run>, name: string, fetched: Fetched)
    requires forall r :: r in a ==> r.id in fetched && !AnyGreen(fetched[r.id], name)
    ensures FirstGreen(a + b, name, fetched) == FirstGreen(b, name, fetched)
  {
    if a == [] {
      assert a + b == b;
    } else {
      assert (a + b)[1..] == a[1..] + b;
      FirstGreenAfter(a[1..], b, name, fetched);
    }
  }

  lemma {:induction false} CandidatesExtend(a: seq<Run>, b: seq<Run>, currentSha: Sha)
    ensures Candidates(a, currentSha) <= Candidates(a + b, currentSha)
  {
    if b == [] {
      assert a + b == a;
    } else {
      var n := |a + b| - 1;
      assert (a + b)[..n] == a + b[..|b| - 1];
      CandidatesExtend(a, b[..|b| - 1], currentSha);
    }
  }

  /** What the candidates are, position by position. */
  lemma {:induction false} CandidatesAreExact(prior: seq<Run>, currentSha: Sha)
    ensures forall r :: r in Candidates(prior, currentSha) <==>
              exists i :: 0 <= i < |prior| && prior[i] == r && IsNewestOfCommit(prior, i, currentSha) && r.status == Completed
    ensures forall i, j :: 0 <= i < j < |Candidates(prior, currentSha)| ==>
              Candidates(prior, currentSha)[i].sha != Candidates(prior, currentSha)[j].sha
  {
    if prior != [] {
      var n := |prior| - 1;
      var init := prior[..n];
      CandidatesAreExact(init, currentSha);
      assert forall i :: 0 <= i < n ==> IsNewestOfCommit(init, i, currentSha) == IsNewestOfCommit(prior, i, currentSha);
      var before, after := Candidates(init, currentSha), Candidates(prior, currentSha);
      forall r ensures r in after <==>
                exists i :: 0 <= i < |prior| && prior[i] == r && IsNewestOfCommit(prior, i, currentSha) && r.status == Completed
      {
        if r in before {
          var i :| 0 <= i < |init| && init[i] == r && IsNewestOfCommit(init, i, currentSha) && r.status == Completed;
          assert prior[i] == r && IsNewestOfCommit(prior, i, currentSha);
        }
      }
      assert forall r :: r in before ==> r in init;
    }
  }

  /** On the records: a run is a candidate exactly if it is completed, of another commit, and the first
      in the list of its commit. */
  lemma CandidatesOnRecords(prior: seq<Run>, currentSha: Sha, r: Run)
    ensures r in Candidates(prior, currentSha) <==>
      && r.sha != "" && r.sha != currentSha && r.status == Completed
      && exists i :: 0 <= i < |prior| && prior[i] == r && forall k :: 0 <= k < i ==> prior[k].sha != r.sha
  {
    CandidatesAreExact(prior, currentSha);
    if i :| 0 <= i < |prior| && prior[i] == r && forall k :: 0 <= k < i ==> prior[k].sha != r.sha {
      assert IsNewestOfCommit(prior, i, currentSha) <==> r.sha != "" && r.sha != currentSha;
    }
  }

  /** Candidates keep the order of the list: `i` and `j` are where two of them stand. */
  lemma {:induction false} CandidatesInOrder(prior: seq<Run>, currentSha: Sha, k: nat, l: nat) returns (i: nat, j: nat)
    requires k < l < |Candidates(prior, currentSha)|
    ensures i < j < |prior| && Candidates(prior, currentSha)[k] == prior[i] && Candidates(prior, currentSha)[l] == prior[j]
    ensures IsNewestOfCommit(prior, i, currentSha) && IsNewestOfCommit(prior, j, currentSha)
  {
    var n := |prior| - 1;
    if l < |Candidates(prior[..n], currentSha)| {
      i, j := CandidatesInOrder(prior[..n], currentSha, k, l);
      NewestInPrefix(prior, n, j, currentSha);
    } else {
      i := CandidateStands(prior[..n], currentSha, k);
      j := n;
    }
    NewestInPrefix(prior, n, i, currentSha);
  }

  lemma {:induction false} CandidateStands(prior: seq<Run>, currentSha: Sha, k: nat) returns (i: nat)
    requires k < |Candidates(prior, currentSha)|
    ensures i < |prior| && Candidates(prior, currentSha)[k] == prior[i] && IsNewestOfCommit(prior, i, currentSha)
  {
    var n := |prior| - 1;
    if k < |Candidates(prior[..n], currentSha)| {
      i := CandidateStands(prior[..n], currentSha, k);
      NewestInPrefix(prior, n, i, currentSha);
    } else {
      i := n;
    }
  }

  lemma NewestInPrefix(prior: seq<Run>, n: nat, i: nat, currentSha: Sha)
    requires i < n <= |prior|
    ensures prior[..n][i] == prior[i]
    ensures IsNewestOfCommit(prior[..n], i, currentSha) <==> IsNewestOfCommit(prior, i, currentSha)
  {
    assert forall k :: 0 <= k <= i ==> prior[..n][k] == prior[k];
  }

  predicate NoneGreen(fetches: seq<Run>, name: string, fetched: Fetched) {
    forall r :: r in fetches ==> r.id in fetched && !AnyGreen(fetched[r.id], name)
  }

  /** The run at position `i` is the next probe after those the shorter prefix yields. */
  lemma NextProbe(prior: seq<Run>, i: nat, currentSha: Sha, limit: nat)
    requires i < |prior| && IsNewestOfCommit(prior, i, currentSha) && prior[i].status == Completed
    ensures
      var before := Candidates(prior[..i], currentSha);
      && Candidates(prior[..i + 1], currentSha) == before + [prior[i]]
      && (|before| < limit ==> before + [prior[i]] <= Probes(prior, currentSha, limit))
      && (|before| == limit ==> before == Probes(prior, currentSha, limit))
  {
    var shorter := prior[..i + 1];
    assert shorter[..i] == prior[..i] && shorter[i] == prior[i];
    assert IsNewestOfCommit(shorter, i, currentSha);
    assert shorter + prior[i + 1..] == prior;
    CandidatesExtend(shorter, prior[i + 1..], currentSha);
  }

  /** A run that is no candidate adds none. */
  lemma NoProbe(prior: seq<Run>, i: nat, currentSha: Sha)
    requires i < |prior| && !(IsNewestOfCommit(prior, i, currentSha) && prior[i].status == Completed)
    ensures Candidates(prior[..i + 1], currentSha) == Candidates(prior[..i], currentSha)
  {
    var shorter := prior[..i + 1];
    assert shorter[..i] == prior[..i] && shorter[i] == prior[i];
    assert IsNewestOfCommit(shorter, i, currentSha) == IsNewestOfCommit(prior, i, currentSha);
  }

  /** The rule's verdict is settled by the first fetch that fails or finds the job green. */
  lemma VerdictAtProbe(before: seq<Run>, run: Run, probes: seq<Run>, name: string, fetched: Fetched)
    requires before + [run] <= probes && NoneGreen(before, name, fetched)
    ensures run.id !in fetched ==> FirstGreen(probes, name, fetched) == None
    ensures Shows(fetched, run, name) ==> FirstGreen(probes, name, fetched) == Some(run.sha)
  {
    var rest := [run] + probes[|before| + 1..];
    assert probes == before + rest;
    FirstGreenAfter(before, rest, name, fetched);
  }

  lemma VerdictWithoutGreen(probes: seq<Run>, name: string, fetched: Fetched)
    requires NoneGreen(probes, name, fetched)
    ensures FirstGreen(probes, name, fetched) == None
  {
    FirstGreenAfter(probes, [], name, fetched);
    assert probes + [] == probes;
  }

  /** The shas that mark later records of the same commit as stale. */
  ghost function CommitsSeen(prior: seq<Run>, currentSha: Sha): set<Sha> {
    set run | run in prior && run.sha != "" && run.sha != currentSha :: run.sha
  }

  lemma SeeCommit(prior: seq<Run>, i: nat, currentSha: Sha)
    requires i < |prior|
    ensures
      var sha, seen := prior[i].sha, CommitsSeen(prior[..i], currentSha);
      var usable := sha != "" && sha != currentSha;
      && CommitsSeen(prior[..i + 1], currentSha) == (if usable then seen + {sha} else seen)
      && (IsNewestOfCommit(prior, i, currentSha) <==> usable && sha !in seen)
  {
    assert prior[..i + 1] == prior[..i] + [prior[i]];
    forall k | 0 <= k < i ensures prior[k] in prior[..i] {
      assert prior[..i][k] == prior[k];
    }
  }

  /** find_latest_green_job_sha: the probe loop with its seen set, counter and early exits. It
      computes the rule, fetches at most `limit` times, and fetches for the rule's probes in order. */
  method FindLatestGreenJobSha(runs: seq<Run>, name: string, q: Query, fetched: Fetched, limit: nat := GREEN_JOB_PROBE_LIMIT)
    returns (green: Option<Sha>, fetches: seq<Run>)
    ensures green == LatestGreenJobSha(runs, name, q, fetched, limit)
    ensures |fetches| <= limit
    ensures PriorRunsOf(runs, q).None? ==> fetches == []
    ensures PriorRunsOf(runs, q).Some? ==> fetches <= Probes(PriorRunsOf(runs, q).value, q.sha, limit)
  {
    var prior := PriorRuns(runs, q);
    if prior.None? {
      return None, [];
    }
    green, fetches := ProbeGreenJob(prior.value, name, q.sha, fetched, limit);
  }

  method ProbeGreenJob(prior: seq<Run>, name: string, currentSha: Sha, fetched: Fetched, limit: nat)
    returns (green: Option<Sha>, fetches: seq<Run>)
    ensures green == FirstGreen(Probes(prior, currentSha, limit), name, fetched)
    ensures |fetches| <= limit && fetches <= Probes(prior, currentSha, limit)
  {
    fetches := [];
    var seenShas: set<Sha> := {};
    var probed := 0;
    ghost var probes := Probes(prior, currentSha, limit);
    for i := 0 to |prior|
      invariant seenShas == CommitsSeen(prior[..i], currentSha)
      invariant fetches == Candidates(prior[..i], currentSha) && fetches <= probes
      invariant probed == |fetches| <= limit
      invariant NoneGreen(fetches, name, fetched)
    {
      var run := prior[i];
      var sha := run.sha;
      SeeCommit(prior, i, currentSha);
      if sha == "" || sha == currentSha || sha in seenShas {
        NoProbe(prior, i, currentSha);
        continue;
      }
      seenShas := seenShas + {sha};
      if run.status != Completed {
        NoProbe(prior, i, currentSha);
        continue;
      }
      NextProbe(prior, i, currentSha, limit);
      if probed >= limit {
        assert fetches == probes;
        break;
      }
      probed := probed + 1;
      VerdictAtProbe(fetches, run, probes, name, fetched);
      fetches := fetches + [run];
      if run.id !in fetched {
        return None, fetches;
      }
      if AnyGreen(fetched[run.id], name) {
        return Some(sha), fetches;
      }
    }
    assert fetches == probes by {
      assert prior[..|prior|] == prior;
    }
    VerdictWithoutGreen(probes, name, fetched);
    green := None;
  }

  /** What the rule says of its probes: distinct commits other than the current one, each with
      its newest record, which is completed. */
  lemma ProbesAreFreshAndDistinct(prior: seq<Run>, currentSha: Sha, limit: nat)
    ensures var probes := Probes(prior, currentSha, limit);
      && |probes| <= limit
      && (forall i, j :: 0 <= i < j < |probes| ==> probes[i].sha != probes[j].sha)
      && (forall r :: r in probes ==> r in prior && r.sha != currentSha && r.sha != "" && r.status == Completed)
      && (forall r, k :: r in probes && 0 <= k < |prior| && prior[k].sha == r.sha ==>
            exists i :: 0 <= i <= k && prior[i] == r)
  {
    CandidatesAreExact(prior, currentSha);
    var probes := Probes(prior, currentSha, limit);
    forall r | r in probes
      ensures exists i :: 0 <= i < |prior| && prior[i] == r && IsNewestOfCommit(prior, i, currentSha) && r.status == Completed
    {
      assert r in Candidates(prior, currentSha);
    }
  }

  /** On the records: a job of that name that completed and succeeded, and nothing less. */
  lemma GreenOnRecords(fetched: Fetched, run: Run, name: string)
    ensures Shows(fetched, run, name) <==> run.id in fetched && Job(name, Completed, Success) in fetched[run.id]
  {
    if run.id in fetched && Job(name, Completed, Success) in fetched[run.id] {
      assert IsGreen(Job(name, Completed, Success), name);
    }
  }

  /** When, exactly, a commit is taken as green evidence: it is the first probe whose jobs show the
      job green, and every probe before it was fetched and showed it not green. */
  lemma GreenShaIsFirstGreenProbe(probes: seq<Run>, name: string, fetched: Fetched, sha: Sha)
    ensures FirstGreen(probes, name, fetched) == Some(sha) <==>
      exists i :: && 0 <= i < |probes| && probes[i].sha == sha && Shows(fetched, probes[i], name)
                  && NoneGreen(probes[..i], name, fetched)
  {
    if FirstGreen(probes, name, fetched) == Some(sha) {
      var i := FirstGreenStands(probes, name, fetched);
    }
    if i :| 0 <= i < |probes| && probes[i].sha == sha && Shows(fetched, probes[i], name) && NoneGreen(probes[..i], name, fetched) {
      assert probes[..i] + [probes[i]] <= probes;
      VerdictAtProbe(probes[..i], probes[i], probes, name, fetched);
    }
  }

  lemma {:induction false} FirstGreenStands(probes: seq<Run>, name: string, fetched: Fetched) returns (i: nat)
    requires FirstGreen(probes, name, fetched).Some?
    ensures i < |probes| && FirstGreen(probes, name, fetched) == Some(probes[i].sha)
    ensures Shows(fetched, probes[i], name) && NoneGreen(probes[..i], name, fetched)
  {
    if AnyGreen(fetched[probes[0].id], name) {
      i := 0;
    } else {
      i := FirstGreenStands(probes[1..], name, fetched);
      assert probes[..i + 1] == [probes[0]] + probes[1..][..i];
      i := i + 1;
    }
  }
}

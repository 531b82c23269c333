/** Submitting one command over a lossy channel: readRuntimeCommand of e2e/schema-metadata.ts with the
    transport retries of invokeSettings in e2e/helpers.ts. The backend is assumed to dedupe by
    idempotency key; requests and replies may be lost, delayed and interleaved with other clients'. */
module RuntimeCommand {
  import ErrorCodes

  // ---------- the backend ----------

  type Key = string
  datatype Request = Request(key: Key, command: string)

  /** What the backend would do with a key it has not seen. */
  datatype Verdict = Admit | Refuse(code: string, text: string)

  datatype Answer = Receipt(execution: nat) | Error(code: string, text: string)

  /** The executions in order, and for every admitted key the execution that it stands for. */
  datatype Backend = Backend(executions: seq<Request>, admitted: map<Key, nat>)

  const IDLE_BACKEND := Backend([], map[])

  /** A request arrives. A known key answers with its receipt (or a conflict, for another request) and
      executes nothing. */
  function Arrive(b: Backend, r: Request, verdict: Verdict): (Backend, Answer)
    requires Consistent(b)
  {
    if r.key in b.admitted then
      (b, if b.executions[b.admitted[r.key]] == r then Receipt(b.admitted[r.key])
          else Error("IdempotencyConflict", ""))
    else
      match verdict
      case Admit =>
        (Backend(b.executions + [r], b.admitted[r.key := |b.executions|]), Receipt(|b.executions|))
      case Refuse(code, text) => (b, Error(code, text))
  }

  ghost predicate Consistent(b: Backend) {
    && (forall k :: k in b.admitted ==> b.admitted[k] < |b.executions| && b.executions[b.admitted[k]].key == k)
    && (forall i :: 0 <= i < |b.executions| ==> b.executions[i].key in b.admitted && b.admitted[b.executions[i].key] == i)
  }

  datatype Arrival = Arrival(request: Request, verdict: Verdict)

  lemma ArriveKeepsConsistent(b: Backend, r: Request, verdict: Verdict)
    requires Consistent(b)
    ensures var (b', answer) := Arrive(b, r, verdict);
      && Consistent(b') && b.executions <= b'.executions
      && (answer.Receipt? ==> answer.execution < |b'.executions| && b'.executions[answer.execution] == r)
  {
  }

  ghost function ArriveAll(b: Backend, arrivals: seq<Arrival>): (b': Backend)
    requires Consistent(b)
    ensures Consistent(b') && b.executions <= b'.executions
    decreases |arrivals|
  {
    if arrivals == [] then b
    else
      ArriveKeepsConsistent(b, arrivals[0].request, arrivals[0].verdict);
      ArriveAll(Arrive(b, arrivals[0].request, arrivals[0].verdict).0, arrivals[1..])
  }

  function Count(executions: seq<Request>, key: Key): nat {
    if executions == [] then 0
    else Count(executions[..|executions| - 1], key) + if executions[|executions| - 1].key == key then 1 else 0
  }

  lemma {:induction false} CountIsAtMostOne(executions: seq<Request>, key: Key)
    requires forall i, j :: 0 <= i < j < |executions| ==> executions[i].key != executions[j].key
    ensures Count(executions, key) == if exists i :: 0 <= i < |executions| && executions[i].key == key then 1 else 0
  {
    if executions != [] {
      var n := |executions| - 1;
      CountIsAtMostOne(executions[..n], key);
      if i :| 0 <= i < |executions| && executions[i].key == key {
        assert i < n ==> executions[..n][i].key == key;
      }
    }
  }

  lemma ExecutedAtMostOnce(b: Backend, key: Key)
    requires Consistent(b)
    ensures Count(b.executions, key) == if key in b.admitted then 1 else 0
  {
    CountIsAtMostOne(b.executions, key);
    if key in b.admitted {
      assert b.executions[b.admitted[key]].key == key;
    }
  }

  /** At most once, whatever arrives: any sequence of submissions, repeated, late or of other clients,
      executes a key at most once, and once executed it stays so. */
  lemma AnyArrivalsExecuteAtMostOnce(arrivals: seq<Arrival>, later: seq<Arrival>, key: Key)
    ensures
      var b := ArriveAll(IDLE_BACKEND, arrivals);
      var b' := ArriveAll(b, later);
      Count(b.executions, key) <= Count(b'.executions, key) <= 1
  {
    var b := ArriveAll(IDLE_BACKEND, arrivals);
    var b' := ArriveAll(b, later);
    ExecutedAtMostOnce(b, key);
    ExecutedAtMostOnce(b', key);
    if key in b.admitted {
      assert b'.executions[b.admitted[key]].key == key;
    }
  }

  /** Every execution was asked for by an arrival. */
  lemma {:induction false} ExecutionsWereSubmitted(b: Backend, arrivals: seq<Arrival>, r: Request)
    requires Consistent(b)
    ensures r in ArriveAll(b, arrivals).executions ==> r in b.executions || exists a :: a in arrivals && a.request == r
    decreases |arrivals|
  {
    if arrivals != [] {
      var (request, verdict) := (arrivals[0].request, arrivals[0].verdict);
      ArriveKeepsConsistent(b, request, verdict);
      ExecutionsWereSubmitted(Arrive(b, request, verdict).0, arrivals[1..], r);
      assert arrivals[0] in arrivals;
    }
  }

  /** Why all submissions must carry one request: if every arrival under a key does, then however they
      interleave with others the key never stands for another request, so none is answered by a conflict. */
  lemma OneRequestPerKeyNeverConflicts(arrivals: seq<Arrival>, r: Request)
    requires forall a :: a in arrivals && a.request.key == r.key ==> a.request == r
    ensures
      var b := ArriveAll(IDLE_BACKEND, arrivals);
      r.key in b.admitted ==> b.executions[b.admitted[r.key]] == r
  {
    var b := ArriveAll(IDLE_BACKEND, arrivals);
    if r.key in b.admitted {
      ExecutionsWereSubmitted(IDLE_BACKEND, arrivals, b.executions[b.admitted[r.key]]);
    }
  }

  // ---------- the client ----------

  const IPC_MAX_ATTEMPTS := 3
  const ADMISSION_WINDOW := 10000
  const ADMISSION_PAUSE := 100

  /** What one attempt observes: a receipt, or an error with its message, and whether the message looks
      like a transport failure. */
  datatype Seen = Got(execution: nat) | Failed(message: string, retryable: bool)

  /** What happens to one attempt: what else reaches the backend before it does, whether it gets there
      itself, what it would be answered, and whether the answer gets back. */
  datatype Fate = Fate(before: seq<Arrival>, delivered: bool, verdict: Verdict, replied: bool,
                       lossMessage: string, retryable: bool, delay: nat)

  /** An attempt reaches the backend, or not, and its answer gets back, or not. */
  function Deliver(b: Backend, request: Request, fate: Fate): (Backend, Seen)
    requires Consistent(b)
  {
    var lost := Failed(fate.lossMessage, fate.retryable);
    if !fate.delivered then (b, lost)
    else
      var (after, answer) := Arrive(b, request, fate.verdict);
      (after, if !fate.replied then lost
              else match answer
                case Receipt(execution) => Got(execution)
                case Error(code, text) => Failed(code + ": " + text, fate.retryable))
  }

  /** A request that arrives has its effect whether its answer gets back or not; what is observed is the
      answer only if both got through. */
  lemma LostAnswersHaveEffect(b: Backend, request: Request, fate: Fate)
    requires Consistent(b) && request.key !in b.admitted
    ensures
      var (after, observed) := Deliver(b, request, fate);
      && after.executions == (if fate.delivered && fate.verdict.Admit? then b.executions + [request] else b.executions)
      && (request.key in after.admitted <==> fate.delivered && fate.verdict.Admit?)
      && (observed.Got? <==> fate.delivered && fate.replied && fate.verdict.Admit?)
  {
  }

  /** A busy backend is heard as ResourceBusy by the probe, whatever its text. */
  lemma BusyIsHeard(b: Backend, request: Request, fate: Fate)
    requires Consistent(b) && request.key !in b.admitted
    requires fate.delivered && fate.replied && fate.verdict.Refuse? && fate.verdict.code == "ResourceBusy"
    ensures
      var (after, observed) := Deliver(b, request, fate);
      after == b && observed.Failed? && ErrorCodes.SafeApiErrorCode("", observed.message) == "ResourceBusy"
  {
    ErrorCodes.ResourceBusyIsRecognized(" " + fate.verdict.text);
    assert "ResourceBusy" + ": " + fate.verdict.text == "ResourceBusy" + ":" + (" " + fate.verdict.text);
  }

  /** The time that the attempts from `first` to before `end` take. */
  ghost function Delays(fates: nat -> Fate, first: nat, end: nat): nat {
    if first < end then Delays(fates, first, end - 1) + fates(end - 1).delay else 0
  }

  /** A tenth of a second before every round but the first. */
  function Pauses(rounds: nat): nat { if rounds == 0 then 0 else 100 * (rounds - 1) }

  lemma {:induction false} DelaysJoin(fates: nat -> Fate, first: nat, mid: nat, end: nat)
    requires first <= mid <= end
    ensures Delays(fates, first, end) == Delays(fates, first, mid) + Delays(fates, mid, end)
    decreases end
  {
    if mid < end {
      DelaysJoin(fates, first, mid, end - 1);
    }
  }

  function Last(tries: seq<Seen>): Seen
    requires tries != []
  {
    tries[|tries| - 1]
  }

  function Join(rounds: seq<seq<Seen>>): seq<Seen> {
    if rounds == [] then [] else Join(rounds[..|rounds| - 1]) + rounds[|rounds| - 1]
  }

  lemma JoinAdded(rounds: seq<seq<Seen>>, round: seq<Seen>)
    ensures Join(rounds + [round]) == Join(rounds) + round
  {
    assert (rounds + [round])[..|rounds|] == rounds;
  }

  function Copies(request: Request, n: nat): seq<Request> { seq(n, _ => request) }

  /** The logs grew by the tries of one request. */
  predicate Logged(sent0: seq<Request>, seen0: seq<Seen>, sent: seq<Request>, seen: seq<Seen>, request: Request, tries: seq<Seen>) {
    sent == sent0 + Copies(request, |tries|) && seen == seen0 + tries
  }

  lemma LoggedTwice(sent0: seq<Request>, seen0: seq<Seen>, sent: seq<Request>, seen: seq<Seen>,
                    sent': seq<Request>, seen': seq<Seen>, request: Request, tries: seq<Seen>, more: seq<Seen>)
    requires Logged(sent0, seen0, sent, seen, request, tries) && Logged(sent, seen, sent', seen', request, more)
    ensures Logged(sent0, seen0, sent', seen', request, tries + more)
  {
  }

  /** A receipt names an execution of just this request. */
  predicate Honoured(b: Backend, request: Request, o: Seen) {
    o.Got? ==> o.execution < |b.executions| && b.executions[o.execution] == request
  }

  lemma HonouredMeansOnce(b: Backend, request: Request, o: Seen)
    requires Consistent(b) && Honoured(b, request, o)
    ensures Count(b.executions, request.key) <= 1
    ensures o.Got? ==> Count(b.executions, request.key) == 1
  {
    ExecutedAtMostOnce(b, request.key);
  }

  /** What a client has submitted and observed, against the backend, and the clock. */
  class Client {
    /** How the probe names an error by its message: SafeApiErrorCode in the source, any rule here. */
    const reasonOf: string -> string

    var backend: Backend
    var sent: seq<Request>
    var seen: seq<Seen>
    var clock: nat

    ghost predicate Valid()
      reads this
    {
      |sent| == |seen| && Consistent(backend)
    }

    predicate IsBusy(o: Seen) { o.Failed? && reasonOf(o.message) == "ResourceBusy" }

    /** Only a transport failure or ResourceBusy is followed by another submission. */
    predicate MayResubmit(o: Seen) { IsBusy(o) || (o.Failed? && o.retryable) }

    ghost predicate AllResubmitted(tries: seq<Seen>) {
      forall i :: 0 <= i < |tries| ==> MayResubmit(tries[i])
    }

    /** The attempts of one call of invokeSettings: at most three, each but the last a transport failure,
        and a transport failure is final only after three. */
    ghost predicate IsRound(round: seq<Seen>) {
      && 1 <= |round| <= 3
      && (forall i :: 0 <= i < |round| - 1 ==> round[i].Failed? && round[i].retryable)
      && (Last(round).Failed? && Last(round).retryable ==> |round| == 3)
    }

    /** The rounds of the admission loop: only ResourceBusy is followed by another. */
    ghost predicate AreRounds(rounds: seq<seq<Seen>>) {
      && (forall k :: 0 <= k < |rounds| ==> IsRound(rounds[k]))
      && (forall k :: 0 <= k < |rounds| - 1 ==>
            Last(rounds[k]).Failed? && reasonOf(Last(rounds[k]).message) == "ResourceBusy")
    }

    lemma AddRound(rounds: seq<seq<Seen>>, round: seq<Seen>)
      requires AreRounds(rounds) && IsRound(round) && (rounds != [] ==> IsBusy(Last(rounds[|rounds| - 1])))
      ensures AreRounds(rounds + [round])
    {
      var n, all := |rounds|, rounds + [round];
      forall k | 0 <= k < |all| ensures IsRound(all[k]) && (k < n ==> k == n - 1 || IsBusy(Last(all[k]))) {
        assert k < n ==> all[k] == rounds[k];
      }
      assert n > 0 ==> all[n - 1] == rounds[n - 1];
    }

    lemma {:induction false} JoinedRounds(rounds: seq<seq<Seen>>)
      requires AreRounds(rounds) && rounds != []
      ensures 1 <= |Join(rounds)| <= 3 * |rounds|
      ensures Last(Join(rounds)) == Last(rounds[|rounds| - 1])
      ensures AllResubmitted(Join(rounds)[..|Join(rounds)| - 1])
    {
      var n := |rounds| - 1;
      if n > 0 {
        JoinedRounds(rounds[..n]);
        JoinTries(Join(rounds[..n]), rounds[n]);
      } else {
        assert Join(rounds) == rounds[0];
      }
    }

    lemma JoinTries(earlier: seq<Seen>, later: seq<Seen>)
      requires earlier != [] && later != [] && MayResubmit(Last(earlier))
      requires AllResubmitted(earlier[..|earlier| - 1]) && AllResubmitted(later[..|later| - 1])
      ensures AllResubmitted((earlier + later)[..|earlier + later| - 1])
    {
      assert (earlier + later)[..|earlier + later| - 1] ==
             earlier[..|earlier| - 1] + [Last(earlier)] + later[..|later| - 1];
    }

    constructor (reasonOf: string -> string)
      ensures Valid() && backend == IDLE_BACKEND && sent == [] && seen == [] && clock == 0
      ensures this.reasonOf == reasonOf
    {
      this.reasonOf := reasonOf;
      backend, sent, seen, clock := IDLE_BACKEND, [], [], 0;
    }

    /** One invoke call over the channel, exactly. */
    method Invoke(request: Request, fate: Fate) returns (observed: Seen)
      requires Valid()
      modifies this
      ensures Valid() && clock == old(clock) + fate.delay && old(backend).executions <= backend.executions
      ensures sent == old(sent) + [request] && seen == old(seen) + [observed]
      ensures (backend, observed) == Deliver(ArriveAll(old(backend), fate.before), request, fate)
      ensures Honoured(backend, request, observed)
    {
      var b := ArriveAllNow(backend, fate.before);
      ArriveKeepsConsistent(b, request, fate.verdict);
      sent := sent + [request];
      clock := clock + fate.delay;
      var (after, outcome) := Deliver(b, request, fate);
      backend, observed := after, outcome;
      seen := seen + [observed];
    }

    /** What the retry loops need of it. */
    method Attempt(request: Request, fate: Fate) returns (observed: Seen)
      requires Valid()
      modifies this
      ensures Valid() && clock == old(clock) + fate.delay && old(backend).executions <= backend.executions
      ensures sent == old(sent) + [request] && seen == old(seen) + [observed]
      ensures Honoured(backend, request, observed)
    {
      observed := Invoke(request, fate);
    }

    /** invokeSettings: up to three attempts, repeated only on transport failures. The `tries` are
        what they observed. */
    method InvokeSettings(request: Request, fates: nat -> Fate) returns (result: Seen, ghost tries: seq<Seen>)
      requires Valid()
      modifies this
      ensures Valid() && old(backend).executions <= backend.executions
      ensures clock == old(clock) + Delays(fates, |old(sent)|, |sent|)
      ensures Logged(old(sent), old(seen), sent, seen, request, tries)
      ensures IsRound(tries) && result == Last(tries)
      ensures Honoured(backend, request, result)
    {
      var attempt := 1;
      result := Attempt(request, fates(|sent|));
      tries := [result];
      while attempt < IPC_MAX_ATTEMPTS && result.Failed? && result.retryable
        invariant Valid() && old(backend).executions <= backend.executions
        invariant clock == old(clock) + Delays(fates, |old(sent)|, |sent|)
        invariant 1 <= attempt <= IPC_MAX_ATTEMPTS && |tries| == attempt
        invariant sent == old(sent) + Copies(request, attempt) && seen == old(seen) + tries
        invariant result == tries[attempt - 1] && Honoured(backend, request, result)
        invariant forall i :: 0 <= i < attempt - 1 ==> tries[i].Failed? && tries[i].retryable
      {
        attempt := attempt + 1;
        result := Attempt(request, fates(|sent|));
        tries := tries + [result];
      }
    }

    /** What was submitted and observed, and the time it took, since the logs were `sent0` and `seen0` and
        the clock `clock0`. */
    ghost predicate InRounds(sent0: seq<Request>, seen0: seq<Seen>, clock0: nat, request: Request, fates: nat -> Fate,
                             rounds: seq<seq<Seen>>)
      reads this
    {
      && AreRounds(rounds) && Logged(sent0, seen0, sent, seen, request, Join(rounds))
      && clock == clock0 + Pauses(|rounds|) + Delays(fates, |sent0|, |sent|)
    }

    /** One more call of invokeSettings, after none, or a busy one and a pause. */
    method AnotherRound(request: Request, fates: nat -> Fate, ghost sent0: seq<Request>, ghost seen0: seq<Seen>,
                        ghost clock0: nat, ghost earlier: seq<seq<Seen>>, pause: nat)
      returns (result: Seen, ghost rounds: seq<seq<Seen>>)
      requires Valid() && InRounds(sent0, seen0, clock0, request, fates, earlier)
      requires earlier != [] ==> IsBusy(Last(earlier[|earlier| - 1]))
      requires pause == if earlier == [] then 0 else ADMISSION_PAUSE
      modifies this
      ensures Valid() && clock >= old(clock) + pause && old(backend).executions <= backend.executions
      ensures |rounds| == |earlier| + 1 && InRounds(sent0, seen0, clock0, request, fates, rounds)
      ensures result == Last(rounds[|earlier|]) && Honoured(backend, request, result)
    {
      ghost var tries, sent1, seen1 := [], sent, seen;
      clock := clock + pause;
      result, tries := InvokeSettings(request, fates);
      rounds := earlier + [tries];
      AddRound(earlier, tries);
      JoinAdded(earlier, tries);
      LoggedTwice(sent0, seen0, sent1, seen1, sent, seen, request, Join(earlier), tries);
      DelaysJoin(fates, |sent0|, |sent1|, |sent|);
    }

    /** readRuntimeCommand up to its receipt: one request under one key, submitted in `rounds` of
        invokeSettings, the next only while the backend is busy and the admission window is open. */
    method SubmitUntilAdmitted(request: Request, fates: nat -> Fate)
      returns (result: Seen, ghost tries: seq<Seen>, ghost rounds: seq<seq<Seen>>)
      requires Valid()
      modifies this
      ensures Valid() && old(backend).executions <= backend.executions
      ensures Logged(old(sent), old(seen), sent, seen, request, tries)
      ensures 1 <= |rounds| <= 101 && AreRounds(rounds) && tries == Join(rounds)
      ensures 1 <= |tries| <= 303 && result == Last(tries) == Last(rounds[|rounds| - 1])
      ensures AllResubmitted(tries[..|tries| - 1])
      ensures result.Failed? && reasonOf(result.message) == "ResourceBusy" ==> clock >= old(clock) + 10000
      ensures clock == old(clock) + Pauses(|rounds|) + Delays(fates, |old(sent)|, |sent|)
      ensures Honoured(backend, request, result)
      ensures Count(backend.executions, request.key) <= 1
      ensures result.Got? ==> Count(backend.executions, request.key) == 1
    {
      var admissionDeadline := clock + ADMISSION_WINDOW;
      ghost var sent0, seen0, clock0 := sent, seen, clock;
      result, rounds := AnotherRound(request, fates, sent0, seen0, clock0, [], 0);
      while IsBusy(result) && clock < admissionDeadline
        invariant Valid() && old(backend).executions <= backend.executions
        invariant clock >= clock0 + ADMISSION_PAUSE * (|rounds| - 1) && 1 <= |rounds| <= 101
        invariant InRounds(sent0, seen0, clock0, request, fates, rounds) && result == Last(rounds[|rounds| - 1])
        invariant Honoured(backend, request, result)
        decreases admissionDeadline - clock
      {
        result, rounds := AnotherRound(request, fates, sent0, seen0, clock0, rounds, ADMISSION_PAUSE);
      }
      tries := Join(rounds);
      JoinedRounds(rounds);
      HonouredMeansOnce(backend, request, result);
    }
  }

  /** Arrivals of other submissions, late ones of this client included. */
  method ArriveAllNow(b: Backend, arrivals: seq<Arrival>) returns (b': Backend)
    requires Consistent(b)
    ensures b' == ArriveAll(b, arrivals)
    ensures Consistent(b') && b.executions <= b'.executions
  {
    b' := b;
    for i := 0 to |arrivals|
      invariant Consistent(b') && ArriveAll(b', arrivals[i..]) == ArriveAll(b, arrivals)
      invariant b.executions <= b'.executions
    {
      ArriveKeepsConsistent(b', arrivals[i].request, arrivals[i].verdict);
      assert arrivals[i..][1..] == arrivals[i + 1..];
      b' := Arrive(b', arrivals[i].request, arrivals[i].verdict).0;
    }
    assert arrivals[|arrivals|..] == [];
  }
}

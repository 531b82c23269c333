/** The seeded PostgreSQL session that the E2E harness holds between spec files:
    ensureSeededPgSessionFresh and releaseHeldSeededSession of e2e/helpers.ts. Every backend call may
    fail, with or without having had its effect; which ones do is an input. */
module SeededSession {
  import opened Options

  type Session = nat

  /** `held` is the module variable. `live` are the sessions that bootstraps opened and no disconnect
      closed. Among them, `lost` are those whose disconnect, on being replaced, was refused, and
      `orphans` those whose id never reached the harness. */
  datatype Harness = Harness(held: Option<Session>, live: set<Session>, lost: set<Session>, orphans: set<Session>)

  const IDLE := Harness(None, {}, {}, {})

  /** How a connect ends, over all its attempts: the sessions opened by attempts whose reply was lost,
      and the session answered, or None if the last attempt raised. */
  datatype Connecting = Connecting(unheard: set<Session>, answer: Option<Session>)

  /** A disconnect may raise although the session was closed. */
  datatype Disconnecting = Closed | Refused | ClosedUnheard

  /** How the calls of one bootstrap end, in the order in which they may be made. None stands for a
      probe that raised; `database` is None if the profile is missing or names no database. */
  datatype Replies = Replies(listed: bool, database: Option<string>, first: Connecting, replaced: Disconnecting,
                             probe: Option<string>, stale: Disconnecting, second: Connecting,
                             secondProbe: Option<string>, reloaded: bool)

  datatype End = Skipped | Fresh | Reconnected | Released | Raised

  datatype Op = Bootstrap(replies: Replies) | Release(disconnect: Disconnecting)

  // ---------- backend calls ----------

  function Ids(session: Option<Session>): set<Session> {
    if session.Some? then {session.value} else {}
  }

  /** The answered session becomes the held one; the unheard ones that are new are orphans. */
  function Connect(h: Harness, c: Connecting): Harness {
    var held := if c.answer.Some? then c.answer else h.held;
    Harness(held, h.live + c.unheard + Ids(c.answer), h.lost - Ids(c.answer),
            h.orphans + (c.unheard - h.live) - Ids(held))
  }

  function Close(h: Harness, s: Session): Harness {
    h.(live := h.live - {s}, lost := h.lost - {s}, orphans := h.orphans - {s})
  }

  function Disconnect(h: Harness, s: Session, d: Disconnecting): Harness {
    if d == Refused then h else Close(h, s)
  }

  /** A replaced session that refused to close, if it was open. */
  function Lose(h: Harness, s: Session): Harness {
    h.(lost := h.lost + ({s} * h.live), orphans := h.orphans - {s})
  }

  // ---------- the two operations ----------

  predicate Replaces(h: Harness, r: Replies) {
    h.held.Some? && h.held != r.first.answer
  }

  /** After the first connect answered, and the session it replaces was asked to close. */
  function Taken(h: Harness, r: Replies): Harness {
    if !Replaces(h, r) then Connect(h, r.first)
    else if r.replaced == Refused then Lose(Connect(h, r.first), h.held.value)
    else Close(Connect(h, r.first), h.held.value)
  }

  /** The second half of a bootstrap: the first session answers for another database, or not at all. */
  function Reconnect(h: Harness, stale: Session, r: Replies): (Harness, End) {
    if r.stale != Closed then (Disconnect(h, stale, r.stale), Raised)
    else
      var again := Connect(Close(h, stale), r.second);
      (again, if r.second.answer.Some? && r.secondProbe == r.database && r.reloaded then Reconnected else Raised)
  }

  function EnsureFresh(h: Harness, r: Replies): (Harness, End) {
    if !r.listed then (h, Raised)
    else if r.database.None? then (h, Skipped)
    else if r.first.answer.None? then (Connect(h, r.first), Raised)
    else if Replaces(h, r) && r.replaced != Closed then (Taken(h, r), Raised)
    else if r.probe == r.database then (Taken(h, r), Fresh)
    else Reconnect(Taken(h, r), r.first.answer.value, r)
  }

  function ReleaseHeld(h: Harness, d: Disconnecting): (Harness, End) {
    if h.held.None? then (h, Skipped)
    else if d != Closed then (Disconnect(h, h.held.value, d), Raised)
    else (Close(h, h.held.value).(held := None), Released)
  }

  function Do(h: Harness, op: Op): (Harness, End) {
    match op
    case Bootstrap(r) => EnsureFresh(h, r)
    case Release(d) => ReleaseHeld(h, d)
  }

  function Run(ops: seq<Op>): Harness {
    if ops == [] then IDLE else Do(Run(ops[..|ops| - 1]), ops[|ops| - 1]).0
  }

  // ---------- the module with its variable ----------

  class SessionHolder {
    var held: Option<Session>
    ghost var live: set<Session>
    ghost var lost: set<Session>
    ghost var orphans: set<Session>

    ghost function State(): Harness
      reads this
    {
      Harness(held, live, lost, orphans)
    }

    constructor ()
      ensures State() == IDLE
    {
      held, live, lost, orphans := None, {}, {}, {};
    }

    /** connectConfig; the caller stores the answer, if there is one. */
    method ConnectConfig(c: Connecting) returns (answer: Option<Session>)
      modifies this`live, this`lost, this`orphans
      ensures answer == c.answer
      ensures State().(held := if answer.Some? then answer else held) == Connect(old(State()), c)
    {
      ghost var after := Connect(State(), c);
      live, lost, orphans := after.live, after.lost, after.orphans;
      answer := c.answer;
    }

    method DisconnectSession(s: Session, d: Disconnecting)
      modifies this`live, this`lost, this`orphans
      ensures State() == Disconnect(old(State()), s, d)
    {
      if d != Refused {
        live, lost, orphans := live - {s}, lost - {s}, orphans - {s};
      }
    }

    method ReleaseHeldSeededSession(d: Disconnecting) returns (end: End)
      modifies this
      ensures (State(), end) == ReleaseHeld(old(State()), d)
    {
      if held.None? {
        return Skipped;
      }
      DisconnectSession(held.value, d);
      if d != Closed {
        return Raised;
      }
      held := None;
      end := Released;
    }

    method EnsureSeededPgSessionFresh(r: Replies) returns (end: End)
      modifies this
      ensures (State(), end) == EnsureFresh(old(State()), r)
    {
      if !r.listed {
        return Raised;
      }
      if r.database.None? {
        return Skipped;
      }
      var sessionId := ConnectConfig(r.first);
      if sessionId.None? {
        return Raised;
      }
      var replaced := held;
      held := sessionId;
      if replaced.Some? && replaced != sessionId {
        DisconnectSession(replaced.value, r.replaced);
        if r.replaced == Refused {
          lost, orphans := lost + ({replaced.value} * live), orphans - {replaced.value};
        }
        if r.replaced != Closed {
          return Raised;
        }
      }
      var actual := r.probe;
      if actual == r.database {
        return Fresh;
      }
      DisconnectSession(sessionId.value, r.stale);
      if r.stale != Closed {
        return Raised;
      }
      var freshSessionId := ConnectConfig(r.second);
      if freshSessionId.None? {
        return Raised;
      }
      held := freshSessionId;
      if r.secondProbe != r.database {
        return Raised;
      }
      if !r.reloaded {
        return Raised;
      }
      end := Reconnected;
    }
  }

  // ---------- every run ----------

  /** Every live session is the held one, a lost one or an orphan, and only one of these. */
  predicate Partitioned(h: Harness) {
    && h.live <= h.lost + h.orphans + Ids(h.held)
    && h.lost + h.orphans <= h.live
    && h.lost !! h.orphans && h.lost + h.orphans !! Ids(h.held)
  }

  lemma EnsureFreshKeepsPartition(h: Harness, r: Replies)
    requires Partitioned(h)
    ensures Partitioned(EnsureFresh(h, r).0)
  {
    if r.first.answer.Some? {
      assert Partitioned(Taken(h, r));
    }
  }

  lemma {:induction false} RunsKeepPartition(ops: seq<Op>)
    ensures Partitioned(Run(ops))
  {
    if ops != [] {
      var init, op := ops[..|ops| - 1], ops[|ops| - 1];
      RunsKeepPartition(init);
      if op.Bootstrap? {
        EnsureFreshKeepsPartition(Run(init), op.replies);
      }
    }
  }

  /** In every reachable state the sessions opened and not closed are exactly the lost ones, the
      orphans and at most the held one. */
  lemma SessionsAreAccounted(ops: seq<Op>)
    ensures var h := Run(ops); h.live == h.lost + h.orphans || (h.held.Some? && h.live == h.lost + h.orphans + {h.held.value})
    ensures var h := Run(ops); h.lost !! h.orphans && (h.held.Some? ==> h.held.value !in h.lost + h.orphans)
  {
    RunsKeepPartition(ops);
  }

  /** The sessions a harness can account for: the held one and those whose disconnect was refused. */
  predicate Accounted(h: Harness) {
    forall s :: s in h.live ==> h.held == Some(s) || s in h.lost
  }

  // ---------- connects that lose their reply ----------

  /** The first session is asked to close for not answering as it should. */
  predicate DropsStale(h: Harness, r: Replies) {
    && r.listed && r.database.Some? && r.first.answer.Some?
    && (Replaces(h, r) ==> r.replaced == Closed)
    && r.probe != r.database
  }

  predicate ConnectsAgain(h: Harness, r: Replies) { DropsStale(h, r) && r.stale == Closed }

  function BeforeSecond(h: Harness, r: Replies): Harness
    requires ConnectsAgain(h, r)
  {
    Close(Taken(h, r), r.first.answer.value)
  }

  /** The sessions that connects of this operation opened without being heard. */
  function Unheard(h: Harness, op: Op): set<Session> {
    if op.Release? || !op.replies.listed || op.replies.database.None? then {}
    else op.replies.first.unheard + if ConnectsAgain(h, op.replies) then op.replies.second.unheard else {}
  }

  function AllUnheard(ops: seq<Op>): set<Session> {
    if ops == [] then {} else AllUnheard(ops[..|ops| - 1]) + Unheard(Run(ops[..|ops| - 1]), ops[|ops| - 1])
  }

  /** A session opened unheard is a new one, and no connect hands it out afterwards. */
  predicate OpensNew(h: Harness, c: Connecting) {
    && c.unheard !! h.live + Ids(h.held)
    && Ids(c.answer) !! h.orphans + c.unheard
  }

  predicate DoOpensNew(h: Harness, op: Op) {
    op.Bootstrap? && op.replies.listed && op.replies.database.Some? ==>
      && OpensNew(h, op.replies.first)
      && (ConnectsAgain(h, op.replies) ==> OpensNew(BeforeSecond(h, op.replies), op.replies.second))
  }

  predicate RunOpensNew(ops: seq<Op>) {
    ops == [] || (RunOpensNew(ops[..|ops| - 1]) && DoOpensNew(Run(ops[..|ops| - 1]), ops[|ops| - 1]))
  }

  lemma DoAddsUnheard(h: Harness, op: Op)
    requires Partitioned(h)
    ensures Do(h, op).0.orphans <= h.orphans + Unheard(h, op)
    ensures DoOpensNew(h, op) ==> Do(h, op).0.orphans == h.orphans + Unheard(h, op)
  {
  }

  lemma {:induction false} OrphansAreUnheard(ops: seq<Op>)
    ensures Run(ops).orphans <= AllUnheard(ops)
    ensures RunOpensNew(ops) ==> Run(ops).orphans == AllUnheard(ops)
  {
    if ops != [] {
      OrphansAreUnheard(ops[..|ops| - 1]);
      RunsKeepPartition(ops[..|ops| - 1]);
      DoAddsUnheard(Run(ops[..|ops| - 1]), ops[|ops| - 1]);
    }
  }

  /** The harness can account for every open session if no connect lost the reply of an attempt that
      opened one; and only then, if such a session is a new one that no connect hands out later. */
  lemma AccountedExactlyWhenHeard(ops: seq<Op>)
    ensures Accounted(Run(ops)) <==> Run(ops).orphans == {}
    ensures AllUnheard(ops) == {} ==> Accounted(Run(ops))
    ensures RunOpensNew(ops) ==> (Accounted(Run(ops)) <==> AllUnheard(ops) == {})
  {
    OrphansAreUnheard(ops);
    RunsKeepPartition(ops);
  }

  /** It happens: the first attempt opens session 1 and its reply is lost, the second opens session 2.
      The bootstrap returns as if nothing was left behind. */
  lemma LostReplyLeavesSession()
    ensures
      var r := Replies(true, Some("db"), Connecting({1}, Some(2)), Closed, Some("db"), Closed, Connecting({}, None), None, true);
      var h := Run([Bootstrap(r)]);
      && Do(IDLE, Bootstrap(r)).1 == Fresh && RunOpensNew([Bootstrap(r)])
      && h.live == {1, 2} && h.held == Some(2) && h.lost == {} && !Accounted(h)
  {
    var r := Replies(true, Some("db"), Connecting({1}, Some(2)), Closed, Some("db"), Closed, Connecting({}, None), None, true);
    assert [Bootstrap(r)][..0] == [];
    assert RunOpensNew([]) && DoOpensNew(IDLE, Bootstrap(r));
    assert 1 in Run([Bootstrap(r)]).live;
  }

  /** A later connect can make good for it by handing out the session that was not heard of. */
  lemma HandedOutLater()
    ensures
      var lossy := Replies(true, Some("db"), Connecting({1}, Some(2)), Closed, Some("db"), Closed, Connecting({}, None), None, true);
      var again := Replies(true, Some("db"), Connecting({}, Some(1)), Closed, Some("db"), Closed, Connecting({}, None), None, true);
      var ops := [Bootstrap(lossy), Bootstrap(again)];
      AllUnheard(ops) != {} && Accounted(Run(ops)) && !RunOpensNew(ops)
  {
    var lossy := Replies(true, Some("db"), Connecting({1}, Some(2)), Closed, Some("db"), Closed, Connecting({}, None), None, true);
    var again := Replies(true, Some("db"), Connecting({}, Some(1)), Closed, Some("db"), Closed, Connecting({}, None), None, true);
    var ops := [Bootstrap(lossy), Bootstrap(again)];
    assert ops[..1] == [Bootstrap(lossy)] && ops[..1][..0] == [];
    assert Run(ops[..1]) == Harness(Some(2), {1, 2}, {}, {1});
    assert 1 in Unheard(IDLE, Bootstrap(lossy)) && 1 in AllUnheard(ops[..1]) && 1 in AllUnheard(ops);
    assert Run(ops) == Harness(Some(1), {1}, {}, {});
    assert 1 in Ids(again.first.answer);
    assert !OpensNew(Run(ops[..1]), again.first);
  }

  // ---------- how many sessions there can be ----------

  /** A replaced session was asked to close and refused. */
  predicate Refuses(h: Harness, op: Op) {
    && op.Bootstrap? && op.replies.listed && op.replies.database.Some? && op.replies.first.answer.Some?
    && Replaces(h, op.replies) && op.replies.replaced == Refused
  }

  function Refusals(ops: seq<Op>): nat {
    if ops == [] then 0
    else Refusals(ops[..|ops| - 1]) + if Refuses(Run(ops[..|ops| - 1]), ops[|ops| - 1]) then 1 else 0
  }

  lemma DoLosesOnRefusal(h: Harness, op: Op)
    ensures |Do(h, op).0.lost| <= |h.lost| + if Refuses(h, op) then 1 else 0
  {
    var h' := Do(h, op).0;
    if Refuses(h, op) {
      assert h'.lost <= h.lost + {h.held.value};
      SubsetIsSmaller(h'.lost, h.lost + {h.held.value});
    } else {
      assert h'.lost <= h.lost;
      SubsetIsSmaller(h'.lost, h.lost);
    }
  }

  lemma SubsetIsSmaller(a: set<Session>, b: set<Session>)
    requires a <= b
    ensures |a| <= |b|
  {
    assert b == a + (b - a);
  }

  lemma {:induction false} LostAreBounded(ops: seq<Op>)
    ensures |Run(ops).lost| <= Refusals(ops)
  {
    if ops != [] {
      LostAreBounded(ops[..|ops| - 1]);
      DoLosesOnRefusal(Run(ops[..|ops| - 1]), ops[|ops| - 1]);
    }
  }

  /** The harness cannot pile up sessions otherwise: it keeps at most one alive, plus one for each
      refused disconnect of a replaced session and each session opened unheard. */
  lemma LiveSessionsAreBounded(ops: seq<Op>)
    ensures |Run(ops).lost| <= Refusals(ops)
    ensures |Run(ops).live| <= 1 + Refusals(ops) + |AllUnheard(ops)|
  {
    var h := Run(ops);
    LostAreBounded(ops);
    OrphansAreUnheard(ops);
    RunsKeepPartition(ops);
    SubsetIsSmaller(h.orphans, AllUnheard(ops));
    SubsetIsSmaller(h.live, h.lost + h.orphans + Ids(h.held));
  }

  // ---------- what the harness holds ----------

  /** When, exactly, a bootstrap returns, and how: unless the profile names no database, the first session
      must be answered, a replaced one must close, and the probe must show the configured database; or
      else the stale session must close, and a second one be answered, show it, and the page reload. */
  lemma BootstrapReturnsExactlyWhen(h: Harness, r: Replies)
    ensures
      var end := Do(h, Bootstrap(r)).1;
      var taken := r.listed && r.database.Some? && r.first.answer.Some? &&
                   (h.held.Some? && h.held != r.first.answer ==> r.replaced == Closed);
      && (end == Skipped <==> r.listed && r.database.None?)
      && (end == Fresh <==> taken && r.probe == r.database)
      && (end == Reconnected <==>
            && taken && r.probe != r.database && r.stale == Closed && r.second.answer.Some?
            && r.secondProbe == r.database && r.reloaded)
      && (end == Raised <==> end !in {Skipped, Fresh, Reconnected})
  {
  }

  /** A release returns exactly if there is nothing to release or the disconnect succeeds. */
  lemma ReleaseReturnsExactlyWhen(h: Harness, d: Disconnecting)
    ensures
      var (h', end) := Do(h, Release(d));
      && (end == Skipped <==> h.held.None?) && (end == Released <==> h.held.Some? && d == Closed)
      && (end == Raised <==> h.held.Some? && d != Closed) && (h.held.None? ==> h' == h)
  {
  }

  /** A bootstrap that returns after a probe leaves its session live, held, and answering for the
      configured database, with only lost sessions and orphans beside it. */
  lemma NormalReturnHoldsFreshSession(ops: seq<Op>, r: Replies)
    requires Do(Run(ops), Bootstrap(r)).1 in {Fresh, Reconnected}
    ensures
      var (h, end) := Do(Run(ops), Bootstrap(r));
      && h.held == (if end == Fresh then r.first.answer else r.second.answer) && h.held.Some?
      && h.live == h.lost + h.orphans + {h.held.value} && h.held.value !in h.lost + h.orphans
      && r.database.Some? && (if end == Fresh then r.probe else r.secondProbe) == r.database
  {
    RunsKeepPartition(ops);
    EnsureFreshKeepsPartition(Run(ops), r);
  }

  /** A release that fails keeps the id for the next attempt, and everything else unless the session
      closed all the same; one that succeeds leaves only lost sessions and orphans. */
  lemma ReleaseKeepsIdOnFailure(ops: seq<Op>, d: Disconnecting)
    requires Run(ops).held.Some?
    ensures var (h, end) := Do(Run(ops), Release(d));
      match d
      case Closed => h.held == None && h.live == h.lost + h.orphans && end == Released
      case Refused => h == Run(ops) && end == Raised
      case ClosedUnheard => h.held == Run(ops).held && h.live == h.lost + h.orphans && end == Raised
  {
    RunsKeepPartition(ops);
  }

  /** The harness holds the id of a session that is closed. */
  predicate HoldsStaleId(h: Harness) { h.held.Some? && h.held.value !in h.live }

  /** When, exactly, a bootstrap leaves the id of a closed session: none was answered and the id was
      stale before, or the session answered was closed as stale and that was not heard, or the second
      connect raised. A connect can open the id again unheard. */
  lemma HeldIdIsStaleExactlyWhen(h: Harness, r: Replies)
    ensures HoldsStaleId(Do(h, Bootstrap(r)).0) <==>
      if !r.listed || r.database.None? then HoldsStaleId(h)
      else if r.first.answer.None? then HoldsStaleId(h) && h.held.value !in r.first.unheard
      else
        && DropsStale(h, r)
        && (r.stale == ClosedUnheard ||
            (r.stale == Closed && r.second.answer.None? && r.first.answer.value !in r.second.unheard))
  {
  }

  /** A release leaves the id of a closed session exactly if its disconnect was refused and the id was
      stale before, or closed the session unheard. */
  lemma ReleaseLeavesStaleIdExactlyWhen(h: Harness, d: Disconnecting)
    ensures HoldsStaleId(Do(h, Release(d)).0) <==>
      h.held.Some? && (d == ClosedUnheard || (d == Refused && HoldsStaleId(h)))
  {
  }

  /** It happens: session 1 answers for another database, is closed, and the second connect raises. */
  lemma FailedReconnectHoldsStaleId()
    ensures
      var r := Replies(true, Some("db"), Connecting({}, Some(1)), Closed, Some("old"), Closed, Connecting({}, None), None, true);
      Run([Bootstrap(r)]) == Harness(Some(1), {}, {}, {})
  {
    var r := Replies(true, Some("db"), Connecting({}, Some(1)), Closed, Some("old"), Closed, Connecting({}, None), None, true);
    assert [Bootstrap(r)][..0] == [];
  }
}

/** The polling of expandSchemaCategory over whole runs: calls of `advance`, whose clicks show at once,
    interleaved in any way with rows that load. */
module NavigatorRuns {
  import opened Options
  import opened AriaForest
  import opened NavigatorExpansion
  import opened NavigatorSpine

  datatype Event = Poll | Load(row: nat, kids: Rows)

  /** A call of the harness, whose click shows at once, or rows that appear. */
  function After(rows: Rows, e: Event, t: Target): Rows
    requires e.Load? ==> e.row < |rows|
  {
    match e
    case Load(i, kids) => Expand(rows, i, kids)
    case Poll =>
      match Advance(rows, t).clicked
      case None => rows
      case Some(i) =>
        ClickStaysInBranch(rows, t, i);
        Expand(rows, i, [])
  }

  predicate MayRun(rows: Rows, events: seq<Event>, t: Target)
    decreases |events|
  {
    events == [] ||
    ((events[0].Load? ==> MayLoad(rows, events[0].row, events[0].kids)) && MayRun(After(rows, events[0], t), events[1..], t))
  }

  function AfterAll(rows: Rows, events: seq<Event>, t: Target): Rows
    requires MayRun(rows, events, t)
    decreases |events|
  {
    if events == [] then rows else AfterAll(After(rows, events[0], t), events[1..], t)
  }

  function Clicks(rows: Rows, events: seq<Event>, t: Target): nat
    requires MayRun(rows, events, t)
    decreases |events|
  {
    if events == [] then 0
    else
      (if events[0].Poll? && Advance(rows, t).clicked.Some? then 1 else 0) + Clicks(After(rows, events[0], t), events[1..], t)
  }

  /** The rows of a clicked row are still to come. */
  predicate Waits(spine: Spine) {
    spine == Database(true, Pending) || spine == Database(true, Under(true, Unloaded))
  }

  /** The polls made while nothing was still to come. */
  function SettledPolls(rows: Rows, events: seq<Event>, t: Target): nat
    requires MayRun(rows, events, t)
    decreases |events|
  {
    if events == [] then 0
    else
      (if events[0].Poll? && !Waits(SpineOf(rows, t)) then 1 else 0) + SettledPolls(After(rows, events[0], t), events[1..], t)
  }

  /** How many clicks a spine may still take. */
  function Credit(spine: Spine): nat {
    match spine
    case Database(false, _) => 3
    case Database(true, Pending) => 2
    case Database(true, Under(false, _)) => 2
    case Database(true, Under(true, Unloaded)) => 1
    case Database(true, Under(true, Loaded(Some(false)))) => 1
    case Database(true, Direct(Some(false))) => 1
    case _ => 0
  }

  lemma AfterKeepsShape(rows: Rows, e: Event, t: Target)
    requires Shaped(rows) && (e.Load? ==> MayLoad(rows, e.row, e.kids))
    ensures Shaped(After(rows, e, t))
  {
    match e
    case Load(i, kids) => ExpandKeepsShape(rows, i, kids);
    case Poll =>
      match Advance(rows, t).clicked
      case None =>
      case Some(i) =>
        ClickStaysInBranch(rows, t, i);
        ExpandKeepsShape(rows, i, []);
  }

  lemma PollOnSpine(rows: Rows, t: Target)
    requires Shaped(rows)
    ensures SpineOf(After(rows, Poll, t), t) == Click(SpineOf(rows, t))
  {
    AdvanceOnSpine(rows, t);
    if Advance(rows, t).clicked.Some? {
      ClickStaysInBranch(rows, t, Advance(rows, t).clicked.value);
      ClickOnSpine(rows, t, Advance(rows, t).clicked.value);
    }
  }

  lemma ClickUsesCredit(spine: Spine)
    ensures Credit(Click(spine)) + (if Click(spine) != spine then 1 else 0) <= Credit(spine)
  {
  }

  lemma LoadRestoresNone(rows: Rows, i: nat, kids: Rows, t: Target)
    requires Shaped(rows) && MayLoad(rows, i, kids)
    ensures Credit(SpineOf(Expand(rows, i, kids), t)) <= Credit(SpineOf(rows, t))
  {
    LoadOnSpine(rows, i, kids, t);
  }

  /** Each click uses up credit, and nothing that loads restores any. */
  lemma ClickProgresses(rows: Rows, e: Event, t: Target)
    requires Shaped(rows) && (e.Load? ==> MayLoad(rows, e.row, e.kids))
    ensures (if e.Poll? && Advance(rows, t).clicked.Some? then 1 else 0) + Credit(SpineOf(After(rows, e, t), t))
            <= Credit(SpineOf(rows, t))
  {
    match e
    case Load(i, kids) => LoadRestoresNone(rows, i, kids, t);
    case Poll =>
      AdvanceOnSpine(rows, t);
      PollOnSpine(rows, t);
      ClickUsesCredit(SpineOf(rows, t));
  }

  /** At most three clicks, whatever rows load, whenever they do and however often the harness polls. */
  lemma {:induction false} AtMostThreeClicks(rows: Rows, events: seq<Event>, t: Target)
    requires Shaped(rows) && MayRun(rows, events, t)
    ensures Clicks(rows, events, t) + Credit(SpineOf(AfterAll(rows, events, t), t)) <= Credit(SpineOf(rows, t)) <= 3
    decreases |events|
  {
    if events != [] {
      ClickProgresses(rows, events[0], t);
      AfterKeepsShape(rows, events[0], t);
      AtMostThreeClicks(After(rows, events[0], t), events[1..], t);
    }
  }

  /** Once ready, a call stays ready, and none clicks any more. */
  lemma {:induction false} ReadyIsFinal(rows: Rows, events: seq<Event>, t: Target)
    requires Shaped(rows) && MayRun(rows, events, t) && Advance(rows, t).ready
    ensures Advance(AfterAll(rows, events, t), t).ready && Clicks(rows, events, t) == 0
    decreases |events|
  {
    if events != [] {
      AfterKeepsShape(rows, events[0], t);
      ReadyStays(rows, events[0], t);
      ReadyIsFinal(After(rows, events[0], t), events[1..], t);
    }
  }

  lemma ReadyStays(rows: Rows, e: Event, t: Target)
    requires Shaped(rows) && (e.Load? ==> MayLoad(rows, e.row, e.kids)) && Advance(rows, t).ready
    ensures Advance(After(rows, e, t), t).ready && Advance(rows, t).clicked == None
  {
    AdvanceOnSpine(rows, t);
    AdvanceOnSpine(After(rows, e, t), t);
    match e
    case Load(i, kids) => LoadOnSpine(rows, i, kids, t);
    case Poll => PollOnSpine(rows, t);
  }

  // ---------- the end of polling ----------

  /** A loaded schema shows the category. */
  predicate ScopeSuffices(scope: Scope) { scope.Unloaded? || scope.category.Some? }

  /** A loaded database shows the target schema, or no schemas and the category. */
  predicate BranchSuffices(branch: Branch) {
    match branch
    case Pending => true
    case Direct(category) => category.Some?
    case Elsewhere => false
    case Under(_, scope) => ScopeSuffices(scope)
  }

  predicate Suffices(spine: Spine) { spine.Database? && BranchSuffices(spine.branch) }

  /** The rows that load for the target bring what leads to it. */
  predicate Brings(rows: Rows, e: Event, t: Target) {
    e.Load? ==>
      && (TargetDatabase(rows, t, e.row) ==> BranchSuffices(BranchOf(e.kids, t)))
      && (TargetSchema(rows, t, e.row) ==> ScopeSuffices(ScopeOf(e.kids, t)))
  }

  predicate AllBring(rows: Rows, events: seq<Event>, t: Target)
    requires MayRun(rows, events, t)
    decreases |events|
  {
    events == [] || (Brings(rows, events[0], t) && AllBring(After(rows, events[0], t), events[1..], t))
  }

  /** Then every call is ready, clicks, or was made while rows of a clicked row are to come. */
  lemma EveryPollCounts(rows: Rows, t: Target)
    requires Suffices(SpineOf(rows, t))
    ensures Advance(rows, t).ready || Advance(rows, t).clicked.Some? || Waits(SpineOf(rows, t))
    ensures Advance(rows, t).ready <==> Credit(SpineOf(rows, t)) == 0
  {
    AdvanceOnSpine(rows, t);
  }

  lemma AfterSuffices(rows: Rows, e: Event, t: Target)
    requires Shaped(rows) && (e.Load? ==> MayLoad(rows, e.row, e.kids))
    requires Suffices(SpineOf(rows, t)) && Brings(rows, e, t)
    ensures Suffices(SpineOf(After(rows, e, t), t))
    ensures e.Poll? && !Waits(SpineOf(rows, t)) && Credit(SpineOf(rows, t)) > 0 ==>
      Credit(SpineOf(After(rows, e, t), t)) < Credit(SpineOf(rows, t))
  {
    match e
    case Load(i, kids) => LoadOnSpine(rows, i, kids, t);
    case Poll => PollOnSpine(rows, t);
  }

  lemma {:induction false} CreditAfterSettledPolls(rows: Rows, events: seq<Event>, t: Target)
    requires Shaped(rows) && MayRun(rows, events, t)
    requires Suffices(SpineOf(rows, t)) && AllBring(rows, events, t)
    ensures var spine := SpineOf(AfterAll(rows, events, t), t);
      Suffices(spine) && (Credit(spine) == 0 || SettledPolls(rows, events, t) + Credit(spine) <= Credit(SpineOf(rows, t)))
    decreases |events|
  {
    if events != [] {
      ClickProgresses(rows, events[0], t);
      AfterKeepsShape(rows, events[0], t);
      AfterSuffices(rows, events[0], t);
      CreditAfterSettledPolls(After(rows, events[0], t), events[1..], t);
    }
  }

  /** Polling ends: as soon as three polls were made while no rows were to come, or fewer as the rows
      at the start have it, every call is ready and clicks nothing. */
  lemma ReadyAfterThreePolls(rows: Rows, events: seq<Event>, t: Target)
    requires Shaped(rows) && MayRun(rows, events, t)
    requires Suffices(SpineOf(rows, t)) && AllBring(rows, events, t)
    requires SettledPolls(rows, events, t) >= Credit(SpineOf(rows, t))
    ensures Credit(SpineOf(rows, t)) <= 3
    ensures Advance(AfterAll(rows, events, t), t).ready && Advance(AfterAll(rows, events, t), t).clicked == None
  {
    CreditAfterSettledPolls(rows, events, t);
    EveryPollCounts(AfterAll(rows, events, t), t);
  }
}

/** One-click-at-a-time expansion of database, schema and category in the flattened navigator:
    the `advance` step of expandSchemaCategory in e2e/helpers.ts. */
module NavigatorExpansion {
  import opened Options
  import opened AriaForest

  datatype Kind = Db | Schema | Category | OtherKind

  /** Names are compared and nothing else. */
  type Name(==)

  /** A row element. Elements are distinct, which `id` stands for. */
  datatype Node = Node(id: nat, kind: Kind, name: Name, expanded: bool)

  type Rows = seq<Row<Node>>

  datatype Target = Target(database: Name, schema: Name, category: Name)

  /** What one `advance` reports, and the index of the row it clicked. */
  datatype Outcome = Outcome(databasePresent: bool, ready: bool, clicked: Option<nat>)

  predicate Matches(row: Row<Node>, kind: Kind, name: Name) {
    row.item.kind == kind && row.item.name == name
  }

  /** Array.find, as an index. */
  function Find(rows: Rows, kind: Kind, name: Name): (r: Option<nat>)
    ensures r.Some? ==> r.value < |rows| && Matches(rows[r.value], kind, name)
  {
    if rows == [] then None
    else if Matches(rows[0], kind, name) then Some(0)
    else
      match Find(rows[1..], kind, name)
      case None => None
      case Some(k) => Some(1 + k)
  }

  /** The index is that of the first match, and there is none only if no row matches. */
  lemma {:induction false} FindIsFirst(rows: Rows, kind: Kind, name: Name, k: nat)
    requires k < |rows| && (Find(rows, kind, name).Some? ==> k < Find(rows, kind, name).value)
    ensures !Matches(rows[k], kind, name)
  {
    if k > 0 {
      FindIsFirst(rows[1..], kind, name, k - 1);
    }
  }

  /** On the rows: the first of that kind and name. */
  lemma FindOnRecords(rows: Rows, kind: Kind, name: Name)
    ensures match Find(rows, kind, name)
      case None => forall k :: 0 <= k < |rows| ==> !(rows[k].item.kind == kind && rows[k].item.name == name)
      case Some(f) =>
        && rows[f].item.kind == kind && rows[f].item.name == name
        && forall k :: 0 <= k < f ==> !(rows[k].item.kind == kind && rows[k].item.name == name)
  {
    var found := Find(rows, kind, name);
    forall k | 0 <= k < |rows| && (found.Some? ==> k < found.value) ensures !Matches(rows[k], kind, name) {
      FindIsFirst(rows, kind, name, k);
    }
  }

  predicate HasSchemas(rows: Rows) {
    rows != [] && (rows[0].item.kind == Schema || HasSchemas(rows[1..]))
  }

  /** Array.indexOf: the first position of the element, or -1. */
  function IndexOf(rows: Rows, row: Row<Node>): (i: int)
    ensures -1 <= i < |rows|
    ensures i >= 0 ==> rows[i] == row && row !in rows[..i]
    ensures i == -1 ==> row !in rows
  {
    if rows == [] then -1
    else
      var n := |rows| - 1;
      var i := IndexOf(rows[..n], row);
      if i >= 0 then i else if rows[n] == row then n else -1
  }

  /** The `children` helper: from the row after the parent, count on while rows are deeper. */
  method Children(parent: Row<Node>, candidates: Rows) returns (children: Rows)
    ensures parent in candidates ==> children == Below(candidates, IndexOf(candidates, parent))
    ensures parent !in candidates ==> children == candidates[..Deeper(candidates, parent.level)]
  {
    var start := IndexOf(candidates, parent) + 1;
    var count := CountDeeper(candidates[start..], parent.level);
    children := candidates[start..][..count];
    assert candidates[0..] == candidates;
  }

  /** The counting loop of the helper. */
  method CountDeeper(rows: Rows, level: int) returns (end: nat)
    ensures end == Deeper(rows, level)
  {
    end := 0;
    while end < |rows| && rows[end].level > level
      invariant end <= |rows|
      invariant forall i :: 0 <= i < end ==> rows[i].level > level
    {
      end := end + 1;
    }
    DeeperIsFirstStop(rows, end, level);
  }

  lemma DeeperIsFirstStop(rows: Rows, end: nat, level: int)
    requires end <= |rows| && (end < |rows| ==> rows[end].level <= level)
    requires forall i :: 0 <= i < end ==> rows[i].level > level
    ensures Deeper(rows, level) == end
  {
    DeeperStops(rows, level);
  }

  /** The element that `find` returns is found again by `indexOf` at the same place, so `children` of
      it is what lies below it. */
  lemma FoundRowIsIndexed(rows: Rows, kind: Kind, name: Name)
    ensures var k := Find(rows, kind, name); k.Some? ==> IndexOf(rows, rows[k.value]) == k.value
  {
    var k := Find(rows, kind, name);
    if k.Some? {
      var i := IndexOf(rows, rows[k.value]);
      assert i >= 0 && Matches(rows[i], kind, name);
      if i < k.value {
        FindIsFirst(rows, kind, name, i);
      }
      assert forall j :: 0 <= j < i ==> rows[j] in rows[..i];
    }
  }

  /** The category row of a scope whose first row has index `offset`: missing, clicked or ready. */
  function AdvanceInScope(scope: Rows, offset: nat, category: Name): (o: Outcome)
    ensures o.clicked.Some? ==> !o.ready
  {
    match Find(scope, Category, category)
    case None => Outcome(true, false, None)
    case Some(c) => if scope[c].item.expanded then Outcome(true, true, None) else Outcome(true, false, Some(offset + c))
  }

  /** The rest of a call once the database row is expanded. */
  function AdvanceInDatabase(dbChildren: Rows, offset: nat, t: Target): (o: Outcome)
    ensures o.clicked.Some? ==> !o.ready
  {
    match Find(dbChildren, Schema, t.schema)
    case None =>
      if HasSchemas(dbChildren) then Outcome(true, false, None) else AdvanceInScope(dbChildren, offset, t.category)
    case Some(s) =>
      if !dbChildren[s].item.expanded then Outcome(true, false, Some(offset + s))
      else AdvanceInScope(Below(dbChildren, s), offset + s + 1, t.category)
  }

  /** One call of `advance`. */
  function Advance(rows: Rows, t: Target): (o: Outcome)
    ensures o.clicked.Some? ==> !o.ready && o.databasePresent
  {
    match Find(rows, Db, t.database)
    case None => Outcome(false, false, None)
    case Some(db) =>
      if !rows[db].item.expanded then Outcome(true, false, Some(db))
      else AdvanceInDatabase(Below(rows, db), db + 1, t)
  }

  // ---------- the same call on the full list ----------

  /** Row `j` lies below row `i`. */
  predicate IsBelow(rows: Rows, i: nat, j: nat) {
    i < |rows| && i < j <= i + |Below(rows, i)|
  }

  /** The first matching row below row `i`, as an index into the full list. */
  function FindBelow(rows: Rows, i: nat, kind: Kind, name: Name): (r: Option<nat>)
    requires i < |rows|
    ensures r.Some? ==> IsBelow(rows, i, r.value) && Matches(rows[r.value], kind, name)
  {
    match Find(Below(rows, i), kind, name)
    case None => None
    case Some(k) => Some(i + 1 + k)
  }

  /** The scope of the category search: the target schema's row if one shows, or the database's. */
  function Top(db: nat, schema: Option<nat>): nat { if schema.Some? then schema.value else db }

  function AdvanceBelow(rows: Rows, top: nat, category: Name): Outcome
    requires top < |rows|
  {
    match FindBelow(rows, top, Category, category)
    case None => Outcome(true, false, None)
    case Some(c) => if rows[c].item.expanded then Outcome(true, true, None) else Outcome(true, false, Some(c))
  }

  function AdvanceBelowDatabase(rows: Rows, db: nat, t: Target): Outcome
    requires db < |rows|
  {
    match FindBelow(rows, db, Schema, t.schema)
    case None => if HasSchemas(Below(rows, db)) then Outcome(true, false, None) else AdvanceBelow(rows, db, t.category)
    case Some(s) => if !rows[s].item.expanded then Outcome(true, false, Some(s)) else AdvanceBelow(rows, s, t.category)
  }

  lemma BelowAt(rows: Rows, i: nat, j: nat)
    requires IsBelow(rows, i, j)
    ensures j < |rows| && rows[j] == Below(rows, i)[j - i - 1] && rows[j].level > rows[i].level
  {
    DeeperStops(rows[i + 1..], rows[i].level);
  }

  lemma ScopeInFullList(rows: Rows, top: nat, category: Name)
    requires top < |rows|
    ensures AdvanceInScope(Below(rows, top), top + 1, category) == AdvanceBelow(rows, top, category)
  {
    var found := FindBelow(rows, top, Category, category);
    if found.Some? {
      BelowAt(rows, top, found.value);
    }
  }

  lemma SchemaInFullList(rows: Rows, db: nat, s: nat, category: Name)
    requires db < |rows| && s < |Below(rows, db)|
    ensures db + 1 + s < |rows| && Below(rows, db)[s] == rows[db + 1 + s]
    ensures AdvanceInScope(Below(Below(rows, db), s), db + 1 + s + 1, category) == AdvanceBelow(rows, db + 1 + s, category)
  {
    SliceOfSlice(rows, db, s);
    ScopeInFullList(rows, db + 1 + s, category);
  }

  lemma NoSchemaInFullList(rows: Rows, db: nat, t: Target)
    requires db < |rows| && Find(Below(rows, db), Schema, t.schema) == None
    ensures AdvanceInDatabase(Below(rows, db), db + 1, t) == AdvanceBelowDatabase(rows, db, t)
  {
    ScopeInFullList(rows, db, t.category);
  }

  lemma TargetInFullList(rows: Rows, db: nat, s: nat, t: Target)
    requires db < |rows| && Find(Below(rows, db), Schema, t.schema) == Some(s)
    ensures AdvanceInDatabase(Below(rows, db), db + 1, t) == AdvanceBelowDatabase(rows, db, t)
  {
    assert FindBelow(rows, db, Schema, t.schema) == Some(db + 1 + s);
    SchemaInFullList(rows, db, s, t.category);
  }

  /** Slicing the schema inside the database's slice, as the source does, is slicing the full list. */
  lemma DatabaseInFullList(rows: Rows, db: nat, t: Target)
    requires db < |rows|
    ensures AdvanceInDatabase(Below(rows, db), db + 1, t) == AdvanceBelowDatabase(rows, db, t)
  {
    match Find(Below(rows, db), Schema, t.schema)
    case None => NoSchemaInFullList(rows, db, t);
    case Some(s) => TargetInFullList(rows, db, s, t);
  }

  // ---------- what one call does ----------

  /** The rows a call goes by: the first database row of that name, the first schema row of that name
      below it unless it shows no schemas, and the first category row below those. */
  predicate IsPath(rows: Rows, t: Target, db: nat, schema: Option<nat>, category: nat) {
    && Find(rows, Db, t.database) == Some(db)
    && schema == FindBelow(rows, db, Schema, t.schema)
    && (schema.None? ==> !HasSchemas(Below(rows, db)))
    && FindBelow(rows, Top(db, schema), Category, t.category) == Some(category)
  }

  predicate IsOpenPath(rows: Rows, t: Target, db: nat, schema: Option<nat>, category: nat) {
    && IsPath(rows, t, db, schema, category)
    && rows[db].item.expanded && rows[category].item.expanded
    && (schema.Some? ==> rows[schema.value].item.expanded)
  }

  /** Ready means exactly that a path to the target shows and every row on it is expanded. */
  lemma ReadyIffPathIsOpen(rows: Rows, t: Target)
    ensures Advance(rows, t).ready <==>
      exists db: nat, schema: Option<nat>, category: nat :: IsOpenPath(rows, t, db, schema, category)
  {
    var db := Find(rows, Db, t.database);
    if db.Some? {
      DatabaseInFullList(rows, db.value, t);
      if Advance(rows, t).ready {
        var schema := FindBelow(rows, db.value, Schema, t.schema);
        var category := FindBelow(rows, Top(db.value, schema), Category, t.category).value;
        assert IsOpenPath(rows, t, db.value, schema, category);
      }
    }
  }

  lemma BelowIsTransitive(rows: Rows, i: nat, j: nat, k: nat)
    requires IsBelow(rows, i, j) && IsBelow(rows, j, k)
    ensures IsBelow(rows, i, k)
  {
    SliceOfSlice(rows, i, j - i - 1);
  }

  /** A category row on a path lies in the branch of the target database, and of the target schema. */
  lemma PathStaysInBranch(rows: Rows, t: Target, db: nat, schema: Option<nat>, category: nat)
    requires IsPath(rows, t, db, schema, category)
    ensures Matches(rows[db], Db, t.database) && Matches(rows[category], Category, t.category)
    ensures rows[db].item.kind == Db && rows[db].item.name == t.database
    ensures rows[category].item.kind == Category && rows[category].item.name == t.category
    ensures IsBelow(rows, db, category)
    ensures schema.Some? ==>
      && rows[schema.value].item.kind == Schema && rows[schema.value].item.name == t.schema
      && IsBelow(rows, db, schema.value) && IsBelow(rows, schema.value, category)
  {
    if schema.Some? {
      BelowIsTransitive(rows, db, schema.value, category);
    }
  }

  lemma ClickBelowDatabase(rows: Rows, db: nat, t: Target, i: nat)
    requires db < |rows| && AdvanceBelowDatabase(rows, db, t).clicked == Some(i)
    ensures IsBelow(rows, db, i) && i < |rows| && !rows[i].item.expanded
  {
    var schema := FindBelow(rows, db, Schema, t.schema);
    if schema.Some? && rows[schema.value].item.expanded {
      assert IsBelow(rows, schema.value, i);
      BelowIsTransitive(rows, db, schema.value, i);
    }
  }

  lemma ClickIsOnDatabaseOrBelow(rows: Rows, t: Target, i: nat)
    requires Advance(rows, t).clicked == Some(i)
    ensures Find(rows, Db, t.database).Some?
    ensures var db := Find(rows, Db, t.database).value;
      if rows[db].item.expanded then AdvanceBelowDatabase(rows, db, t).clicked == Some(i) else i == db
  {
    var db := Find(rows, Db, t.database).value;
    DatabaseInFullList(rows, db, t);
  }

  /** A call clicks at most one row: never an expanded one, and only the target's database row or,
      once that is expanded, a row in its branch. */
  lemma ClickStaysInBranch(rows: Rows, t: Target, i: nat)
    requires Advance(rows, t).clicked == Some(i)
    ensures i < |rows| && !rows[i].item.expanded
    ensures Find(rows, Db, t.database).Some?
    ensures var db := Find(rows, Db, t.database).value; i == db || (rows[db].item.expanded && IsBelow(rows, db, i))
  {
    ClickIsOnDatabaseOrBelow(rows, t, i);
    var db := Find(rows, Db, t.database).value;
    if rows[db].item.expanded {
      ClickBelowDatabase(rows, db, t, i);
    }
  }
}

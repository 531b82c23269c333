/** What a change to the rows of the navigator does to the few facts that a call of `advance` depends
    on: the spine of the target. Rows change when one of them shows expanded and when rows appear below
    an expanded one. */
module NavigatorSpine {
  import opened Options
  import opened AriaForest
  import opened NavigatorExpansion

  // ---------- expanding and loading ----------

  /** The row at place `k` once row `i` shows expanded, with `kids` inserted right below it. */
  function RowAfter(rows: Rows, i: nat, kids: Rows, k: nat): Row<Node>
    requires i < |rows| && k < |rows| + |kids|
  {
    if k < i then rows[k]
    else if k == i then Row(rows[i].item.(expanded := true), rows[i].level)
    else if k <= i + |kids| then kids[k - i - 1]
    else rows[k - |kids|]
  }

  function Expand(rows: Rows, i: nat, kids: Rows): Rows
    requires i < |rows|
  {
    seq(|rows| + |kids|, k requires 0 <= k < |rows| + |kids| => RowAfter(rows, i, kids, k))
  }

  function Rank(kind: Kind): nat {
    match kind
    case Db => 0
    case Schema => 1
    case Category => 2
    case OtherKind => 3
  }

  /** Databases hold schemas, these hold categories, and other rows may be anywhere below. */
  predicate MayHold(parent: Kind, kid: Kind) { kid == OtherKind || Rank(parent) < Rank(kid) }

  predicate AllHeld(parent: Kind, kids: Rows) {
    forall k :: 0 <= k < |kids| ==> MayHold(parent, kids[k].item.kind)
  }

  predicate HeldAt(rows: Rows, i: nat)
    requires i < |rows|
  {
    AllHeld(rows[i].item.kind, Below(rows, i))
  }

  predicate Shaped(rows: Rows) {
    forall i :: 0 <= i < |rows| ==> HeldAt(rows, i)
  }

  predicate AllDeeper(kids: Rows, level: int) {
    forall k :: 0 <= k < |kids| ==> kids[k].level > level
  }

  /** Rows that may appear below row `i`, if nothing is below it yet. */
  predicate MayShow(rows: Rows, i: nat, kids: Rows) {
    && i < |rows| && (kids == [] || Below(rows, i) == [])
    && AllDeeper(kids, rows[i].level) && AllHeld(rows[i].item.kind, kids) && Shaped(kids)
  }

  lemma ExpandFrom(rows: Rows, i: nat, kids: Rows, k: nat)
    requires k <= i < |rows|
    ensures Expand(rows, i, kids)[k..] == Expand(rows[k..], i - k, kids)
  {
  }

  lemma ExpandAfter(rows: Rows, i: nat, kids: Rows)
    requires i < |rows|
    ensures Expand(rows, i, kids)[i + 1..] == kids + rows[i + 1..]
  {
  }

  lemma ExpandInKids(rows: Rows, i: nat, kids: Rows, k: nat)
    requires i < |rows| && k < |kids|
    ensures Expand(rows, i, kids)[i + 1 + k] == kids[k]
    ensures Expand(rows, i, kids)[i + 1 + k + 1..] == kids[k + 1..] + rows[i + 1..]
  {
  }

  lemma ExpandAfterKids(rows: Rows, i: nat, kids: Rows, k: nat)
    requires i < k <= |rows|
    ensures Expand(rows, i, kids)[k + |kids|..] == rows[k..]
  {
  }

  /** The leading rows of an expansion, as long as they include the expanded one. */
  lemma ExpandPrefix(rows: Rows, i: nat, kids: Rows, n: nat)
    requires i < n <= |rows|
    ensures Expand(rows, i, kids)[..n + |kids|] == Expand(rows[..n], i, kids)
  {
  }

  lemma ExpandSparesPrefix(rows: Rows, i: nat, kids: Rows, n: nat)
    requires n <= i < |rows|
    ensures Expand(rows, i, kids)[..n] == rows[..n]
  {
  }

  lemma {:induction false} DeeperAfterPrefix(a: Rows, b: Rows, level: int)
    requires AllDeeper(a, level)
    ensures Deeper(a + b, level) == |a| + Deeper(b, level)
  {
    if a == [] {
      assert a + b == b;
    } else {
      assert (a + b)[1..] == a[1..] + b;
      DeeperAfterPrefix(a[1..], b, level);
    }
  }

  lemma {:induction false} DeeperBeforeStop(a: Rows, b: Rows, level: int)
    requires b == [] || b[0].level <= level
    ensures Deeper(a + b, level) == Deeper(a, level)
  {
    if a == [] {
      assert a + b == b;
    } else {
      assert (a + b)[1..] == a[1..] + b;
      DeeperBeforeStop(a[1..], b, level);
    }
  }

  lemma {:induction false} DeeperAfterExpand(rows: Rows, i: nat, kids: Rows, level: int)
    requires i < |rows| && AllDeeper(kids, rows[i].level)
    ensures Deeper(Expand(rows, i, kids), level) == Deeper(rows, level) + if i < Deeper(rows, level) then |kids| else 0
  {
    var rows', rest := Expand(rows, i, kids), rows[1..];
    assert rows'[0].level == rows[0].level by {
      assert rows'[0] == RowAfter(rows, i, kids, 0);
    }
    if rows[0].level > level {
      if i == 0 {
        assert rows'[1..] == kids + rest by {
          ExpandAfter(rows, i, kids);
        }
        DeeperAfterPrefix(kids, rest, level);
      } else {
        assert rows'[1..] == Expand(rest, i - 1, kids) by {
          ExpandFrom(rows, i, kids, 1);
        }
        DeeperAfterExpand(rest, i - 1, kids, level);
      }
    }
  }

  /** A branch that row `i` is in shows the same change; one that it comes after does not. */
  lemma BelowBeforeExpand(rows: Rows, top: nat, i: nat, kids: Rows)
    requires top < i < |rows| && AllDeeper(kids, rows[i].level)
    ensures Below(Expand(rows, i, kids), top) ==
      if IsBelow(rows, top, i) then Expand(Below(rows, top), i - top - 1, kids) else Below(rows, top)
  {
    var rest, k := rows[top + 1..], i - top - 1;
    ExpandFrom(rows, i, kids, top + 1);
    DeeperAfterExpand(rest, k, kids, rows[top].level);
    var n := Deeper(rest, rows[top].level);
    if k < n {
      ExpandPrefix(rest, k, kids, n);
    } else {
      ExpandSparesPrefix(rest, k, kids, n);
    }
  }

  lemma BelowOfExpanded(rows: Rows, i: nat, kids: Rows)
    requires i < |rows| && AllDeeper(kids, rows[i].level)
    ensures Below(Expand(rows, i, kids), i) == kids + Below(rows, i)
  {
    assert Expand(rows, i, kids)[i] == RowAfter(rows, i, kids, i);
    ExpandAfter(rows, i, kids);
    DeeperAfterPrefix(kids, rows[i + 1..], rows[i].level);
  }

  /** What lies below a row is decided by its level and the rows after it. */
  lemma BelowByRest(rows: Rows, i: nat, rows': Rows, i': nat, more: Rows)
    requires i < |rows| && i' < |rows'| && rows'[i'].level == rows[i].level
    requires rows'[i' + 1..] == rows[i + 1..] + more && (more == [] || more[0].level <= rows[i].level)
    ensures Below(rows', i') == Below(rows, i)
  {
    DeeperBeforeStop(rows[i + 1..], more, rows[i].level);
  }

  lemma BelowInKids(rows: Rows, i: nat, kids: Rows, k: nat)
    requires MayShow(rows, i, kids) && k < |kids|
    ensures Below(Expand(rows, i, kids), i + 1 + k) == Below(kids, k)
  {
    ExpandInKids(rows, i, kids, k);
    BelowByRest(kids, k, Expand(rows, i, kids), i + 1 + k, rows[i + 1..]);
  }

  lemma BelowAfterExpand(rows: Rows, top: nat, i: nat, kids: Rows)
    requires i < top < |rows|
    ensures Expand(rows, i, kids)[top + |kids|] == rows[top]
    ensures Below(Expand(rows, i, kids), top + |kids|) == Below(rows, top)
  {
    var rows' := Expand(rows, i, kids);
    assert rows'[top + |kids|] == RowAfter(rows, i, kids, top + |kids|);
    assert rows'[top + |kids| + 1..] == rows[top + 1..] + [] by {
      ExpandAfterKids(rows, i, kids, top + 1);
    }
    BelowByRest(rows, top, rows', top + |kids|, []);
  }

  lemma BelowElsewhere(rows: Rows, top: nat, top': nat, i: nat, kids: Rows)
    requires top < |rows| && i < |rows| && i != top && !IsBelow(rows, top, i) && AllDeeper(kids, rows[i].level)
    requires top' == if top <= i then top else top + |kids|
    ensures Below(Expand(rows, i, kids), top') == Below(rows, top)
  {
    if i < top {
      BelowAfterExpand(rows, top, i, kids);
    } else {
      BelowBeforeExpand(rows, top, i, kids);
    }
  }

  lemma HeldAfterExpand(parent: Kind, rows: Rows, i: nat, kids: Rows)
    requires i < |rows| && AllHeld(parent, rows) && AllHeld(rows[i].item.kind, kids)
    ensures AllHeld(parent, Expand(rows, i, kids))
  {
    var rows' := Expand(rows, i, kids);
    assert MayHold(parent, rows[i].item.kind);
    forall k | 0 <= k < |rows'| ensures MayHold(parent, rows'[k].item.kind) {
      assert rows'[k] == RowAfter(rows, i, kids, k);
    }
  }

  lemma ShapedSelf(rows: Rows, i: nat, kids: Rows)
    requires MayShow(rows, i, kids) && HeldAt(rows, i)
    ensures HeldAt(Expand(rows, i, kids), i)
  {
    assert Expand(rows, i, kids)[i] == RowAfter(rows, i, kids, i);
    BelowOfExpanded(rows, i, kids);
  }

  lemma ShapedInKids(rows: Rows, i: nat, kids: Rows, j: nat)
    requires MayShow(rows, i, kids) && i < j <= i + |kids|
    ensures HeldAt(Expand(rows, i, kids), j)
  {
    var k := j - i - 1;
    assert HeldAt(kids, k);
    ExpandInKids(rows, i, kids, k);
    BelowInKids(rows, i, kids, k);
  }

  lemma ShapedAfter(rows: Rows, i: nat, kids: Rows, j: nat)
    requires i < |rows| && i + |kids| < j < |rows| + |kids| && HeldAt(rows, j - |kids|)
    ensures HeldAt(Expand(rows, i, kids), j)
  {
    BelowAfterExpand(rows, j - |kids|, i, kids);
  }

  lemma ShapedBefore(rows: Rows, i: nat, j: nat, kids: Rows)
    requires j < i < |rows| && HeldAt(rows, j)
    requires AllDeeper(kids, rows[i].level) && AllHeld(rows[i].item.kind, kids)
    ensures HeldAt(Expand(rows, i, kids), j)
  {
    assert Expand(rows, i, kids)[j] == RowAfter(rows, i, kids, j);
    BelowBeforeExpand(rows, j, i, kids);
    if IsBelow(rows, j, i) {
      BelowAt(rows, j, i);
      HeldAfterExpand(rows[j].item.kind, Below(rows, j), i - j - 1, kids);
    }
  }

  lemma ShapedAt(rows: Rows, i: nat, kids: Rows, j: nat)
    requires Shaped(rows) && MayShow(rows, i, kids) && j < |Expand(rows, i, kids)|
    ensures HeldAt(Expand(rows, i, kids), j)
  {
    if j < i {
      ShapedBefore(rows, i, j, kids);
    } else if j == i {
      ShapedSelf(rows, i, kids);
    } else if j <= i + |kids| {
      ShapedInKids(rows, i, kids, j);
    } else {
      ShapedAfter(rows, i, kids, j);
    }
  }

  lemma ExpandKeepsShape(rows: Rows, i: nat, kids: Rows)
    requires Shaped(rows) && MayShow(rows, i, kids)
    ensures Shaped(Expand(rows, i, kids))
  {
    forall j | 0 <= j < |Expand(rows, i, kids)| ensures HeldAt(Expand(rows, i, kids), j) {
      ShapedAt(rows, i, kids, j);
    }
  }

  // ---------- what is found after a change ----------

  function Shifted(found: Option<nat>, i: nat, n: nat): Option<nat> {
    match found
    case None => None
    case Some(k) => Some(if k <= i then k else k + n)
  }

  function Onward(found: Option<nat>, n: nat): Option<nat> {
    match found
    case None => None
    case Some(k) => Some(n + k)
  }

  lemma {:induction false} FindAfterPrefix(a: Rows, b: Rows, kind: Kind, name: Name)
    requires Find(a, kind, name) == None
    ensures Find(a + b, kind, name) == Onward(Find(b, kind, name), |a|)
  {
    if a == [] {
      assert a + b == b;
    } else {
      assert (a + b)[1..] == a[1..] + b;
      FindAfterPrefix(a[1..], b, kind, name);
    }
  }

  lemma FindAfterHead(rows: Rows, rows': Rows, kids: Rows, kind: Kind, name: Name)
    requires rows != [] && rows' != [] && rows'[1..] == kids + rows[1..] && Find(kids, kind, name) == None
    requires Matches(rows'[0], kind, name) == Matches(rows[0], kind, name)
    ensures Find(rows', kind, name) == Shifted(Find(rows, kind, name), 0, |kids|)
  {
    FindAfterRest(rows, rows', |kids|, kind, name) by {
      FindAfterPrefix(kids, rows[1..], kind, name);
    }
  }

  lemma FindStep(rows: Rows, kind: Kind, name: Name)
    requires rows != []
    ensures Find(rows, kind, name) == if Matches(rows[0], kind, name) then Some(0) else Onward(Find(rows[1..], kind, name), 1)
  {
  }

  lemma ShiftedOnward(found: Option<nat>, i: nat, n: nat)
    ensures Onward(Shifted(found, i, n), 1) == Shifted(Onward(found, 1), i + 1, n)
    ensures Onward(Onward(found, n), 1) == Shifted(Onward(found, 1), 0, n)
  {
  }

  lemma FindAfterRest(rows: Rows, rows': Rows, n: nat, kind: Kind, name: Name)
    requires rows != [] && rows' != []
    requires Find(rows'[1..], kind, name) == Onward(Find(rows[1..], kind, name), n)
    requires Matches(rows'[0], kind, name) == Matches(rows[0], kind, name)
    ensures Find(rows', kind, name) == Shifted(Find(rows, kind, name), 0, n)
  {
    FindStep(rows, kind, name);
    FindStep(rows', kind, name);
    ShiftedOnward(Find(rows[1..], kind, name), 0, n);
  }

  lemma FindAfterTail(rows: Rows, rows': Rows, i: nat, n: nat, kind: Kind, name: Name)
    requires rows != [] && rows' != []
    requires Find(rows'[1..], kind, name) == Shifted(Find(rows[1..], kind, name), i, n)
    requires Matches(rows'[0], kind, name) == Matches(rows[0], kind, name)
    ensures Find(rows', kind, name) == Shifted(Find(rows, kind, name), i + 1, n)
  {
    FindStep(rows, kind, name);
    FindStep(rows', kind, name);
    ShiftedOnward(Find(rows[1..], kind, name), i, n);
  }

  lemma {:induction false} FindAfterExpand(rows: Rows, i: nat, kids: Rows, kind: Kind, name: Name)
    requires i < |rows| && Find(kids, kind, name) == None
    ensures Find(Expand(rows, i, kids), kind, name) == Shifted(Find(rows, kind, name), i, |kids|)
  {
    var rows', rest := Expand(rows, i, kids), rows[1..];
    assert Matches(rows'[0], kind, name) == Matches(rows[0], kind, name) by {
      assert rows'[0] == RowAfter(rows, i, kids, 0);
    }
    if i == 0 {
      FindAfterHead(rows, rows', kids, kind, name) by {
        ExpandAfter(rows, i, kids);
      }
    } else {
      FindAfterTail(rows, rows', i - 1, |kids|, kind, name) by {
        ExpandFrom(rows, i, kids, 1);
        FindAfterExpand(rest, i - 1, kids, kind, name);
      }
    }
  }

  /** Whether the first matching row is expanded, if there is one. */
  function Flag(rows: Rows, kind: Kind, name: Name): Option<bool> {
    match Find(rows, kind, name)
    case None => None
    case Some(k) => Some(rows[k].item.expanded)
  }

  lemma FlagIs(rows: Rows, kind: Kind, name: Name, k: nat, expanded: bool)
    requires Find(rows, kind, name) == Some(k) && rows[k].item.expanded == expanded
    ensures Flag(rows, kind, name) == Some(expanded)
  {
  }

  lemma FoundAfterExpand(rows: Rows, i: nat, kids: Rows, kind: Kind, name: Name, k: nat, k': nat, expanded: bool)
    requires i < |rows| && Find(kids, kind, name) == None && Find(rows, kind, name) == Some(k)
    requires k' == (if k <= i then k else k + |kids|) && expanded == (i == k || rows[k].item.expanded)
    ensures Find(Expand(rows, i, kids), kind, name) == Some(k')
    ensures Flag(Expand(rows, i, kids), kind, name) == Some(expanded)
  {
    var rows' := Expand(rows, i, kids);
    assert Find(rows', kind, name) == Some(k') by {
      FindAfterExpand(rows, i, kids, kind, name);
    }
    assert rows'[k'].item.expanded == expanded by {
      assert rows'[k'] == RowAfter(rows, i, kids, k');
    }
    FlagIs(rows', kind, name, k', expanded);
  }

  lemma FlagAfterExpand(rows: Rows, i: nat, kids: Rows, kind: Kind, name: Name)
    requires i < |rows| && Find(kids, kind, name) == None
    ensures Flag(Expand(rows, i, kids), kind, name) ==
      if Find(rows, kind, name) == Some(i) then Some(true) else Flag(rows, kind, name)
  {
    match Find(rows, kind, name)
    case None =>
      FindAfterExpand(rows, i, kids, kind, name);
    case Some(k) =>
      FoundAfterExpand(rows, i, kids, kind, name, k, if k <= i then k else k + |kids|, i == k || rows[k].item.expanded);
  }

  lemma HeldKindsOnly(parent: Kind, kids: Rows, kind: Kind, name: Name)
    requires AllHeld(parent, kids) && !MayHold(parent, kind)
    ensures Find(kids, kind, name) == None
  {
  }

  lemma {:induction false} SchemasShow(rows: Rows)
    ensures HasSchemas(rows) <==> exists k :: 0 <= k < |rows| && rows[k].item.kind == Schema
  {
    if rows != [] {
      SchemasShow(rows[1..]);
      if k :| 0 <= k < |rows| && rows[k].item.kind == Schema {
        assert k > 0 ==> rows[1..][k - 1].item.kind == Schema;
      }
    }
  }

  lemma {:induction false} SchemasOfParts(a: Rows, b: Rows)
    ensures HasSchemas(a + b) <==> HasSchemas(a) || HasSchemas(b)
  {
    if a == [] {
      assert a + b == b;
    } else {
      assert (a + b)[1..] == a[1..] + b;
      SchemasOfParts(a[1..], b);
    }
  }

  lemma {:induction false} SchemasAfterExpand(rows: Rows, i: nat, kids: Rows)
    requires i < |rows| && !HasSchemas(kids)
    ensures HasSchemas(Expand(rows, i, kids)) <==> HasSchemas(rows)
  {
    var rows' := Expand(rows, i, kids);
    assert rows'[0].item.kind == rows[0].item.kind by {
      assert rows'[0] == RowAfter(rows, i, kids, 0);
    }
    if i == 0 {
      ExpandAfter(rows, i, kids);
      SchemasOfParts(kids, rows[1..]);
    } else {
      ExpandFrom(rows, i, kids, 1);
      SchemasAfterExpand(rows[1..], i - 1, kids);
    }
  }

  // ---------- the spine: what a call depends on ----------

  /** The rows below the target schema, and the category among them with whether it is expanded. */
  datatype Scope = Unloaded | Loaded(category: Option<bool>)

  /** The rows below the target database: none yet, no schemas at all, other schemas only, or the
      target schema with whether it is expanded. */
  datatype Branch = Pending | Direct(category: Option<bool>) | Elsewhere | Under(expanded: bool, scope: Scope)

  datatype Spine = NoDatabase | Database(expanded: bool, branch: Branch)

  function ScopeOf(rows: Rows, t: Target): Scope {
    if rows == [] then Unloaded else Loaded(Flag(rows, Category, t.category))
  }

  function BranchOf(rows: Rows, t: Target): Branch {
    if rows == [] then Pending
    else
      match Find(rows, Schema, t.schema)
      case None => if HasSchemas(rows) then Elsewhere else Direct(Flag(rows, Category, t.category))
      case Some(s) => Under(rows[s].item.expanded, ScopeOf(Below(rows, s), t))
  }

  function SpineOf(rows: Rows, t: Target): Spine {
    match Find(rows, Db, t.database)
    case None => NoDatabase
    case Some(db) => Database(rows[db].item.expanded, BranchOf(Below(rows, db), t))
  }

  /** What a click does to the spine. */
  function Click(spine: Spine): Spine {
    match spine
    case Database(false, branch) => Database(true, branch)
    case Database(true, Under(false, scope)) => Database(true, Under(true, scope))
    case Database(true, Under(true, Loaded(Some(false)))) => Database(true, Under(true, Loaded(Some(true))))
    case Database(true, Direct(Some(false))) => Database(true, Direct(Some(true)))
    case _ => spine
  }

  predicate IsOpen(spine: Spine) {
    spine == Database(true, Direct(Some(true))) || spine == Database(true, Under(true, Loaded(Some(true))))
  }

  /** The target schema's scope, with the change that expanding its row `i` makes. */
  function ScopeAfter(scope: Rows, t: Target, i: nat): Scope {
    Loaded(if Find(scope, Category, t.category) == Some(i) then Some(true) else Flag(scope, Category, t.category))
  }

  lemma BranchWithoutTarget(rows: Rows, i: nat, kids: Rows, t: Target)
    requires i < |rows| && AllHeld(Db, rows) && AllHeld(rows[i].item.kind, kids)
    requires Find(rows, Schema, t.schema) == None
    ensures BranchOf(Expand(rows, i, kids), t) ==
      if HasSchemas(rows) then Elsewhere else Direct(ScopeAfter(rows, t, i).category)
  {
    NoSchemasInKids(rows, i, kids, t.schema);
    FindAfterExpand(rows, i, kids, Schema, t.schema);
    SchemasAfterExpand(rows, i, kids);
    if !HasSchemas(rows) {
      HeldKindsOnly(rows[i].item.kind, kids, Category, t.category) by {
        SchemasShow(rows);
        assert MayHold(Db, rows[i].item.kind) && rows[i].item.kind != Schema;
      }
      FlagAfterExpand(rows, i, kids, Category, t.category);
    }
  }

  lemma BranchIs(rows: Rows, s: nat, expanded: bool, scope: Scope, t: Target)
    requires Find(rows, Schema, t.schema) == Some(s) && Flag(rows, Schema, t.schema) == Some(expanded)
    requires ScopeOf(Below(rows, s), t) == scope
    ensures BranchOf(rows, t) == Under(expanded, scope)
  {
  }

  lemma NoSchemasInKids(rows: Rows, i: nat, kids: Rows, name: Name)
    requires i < |rows| && AllHeld(Db, rows) && AllHeld(rows[i].item.kind, kids)
    ensures Find(kids, Schema, name) == None && !HasSchemas(kids)
  {
    assert MayHold(Db, rows[i].item.kind);
    HeldKindsOnly(rows[i].item.kind, kids, Schema, name);
    SchemasShow(kids);
  }

  lemma BranchAtTarget(rows: Rows, s: nat, kids: Rows, t: Target)
    requires Find(rows, Schema, t.schema) == Some(s) && AllHeld(Db, rows)
    requires AllDeeper(kids, rows[s].level) && AllHeld(rows[s].item.kind, kids)
    ensures BranchOf(Expand(rows, s, kids), t) == Under(true, ScopeOf(kids + Below(rows, s), t))
  {
    BranchIs(Expand(rows, s, kids), s, true, ScopeOf(kids + Below(rows, s), t), t) by {
      NoSchemasInKids(rows, s, kids, t.schema);
      FoundAfterExpand(rows, s, kids, Schema, t.schema, s, s, true);
      BelowOfExpanded(rows, s, kids);
    }
  }

  lemma BranchInTarget(rows: Rows, s: nat, i: nat, kids: Rows, expanded: bool, scope: Scope, t: Target)
    requires Find(rows, Schema, t.schema) == Some(s) && AllHeld(Db, rows) && IsBelow(rows, s, i) && i < |rows|
    requires AllDeeper(kids, rows[i].level) && AllHeld(rows[i].item.kind, kids) && AllHeld(Schema, Below(rows, s))
    requires expanded == rows[s].item.expanded && scope == ScopeAfter(Below(rows, s), t, i - s - 1)
    ensures BranchOf(Expand(rows, i, kids), t) == Under(expanded, scope)
  {
    ScopeInTarget(rows, s, i, kids, t);
    BranchIs(Expand(rows, i, kids), s, expanded, scope, t) by {
      NoSchemasInKids(rows, i, kids, t.schema);
      FoundAfterExpand(rows, i, kids, Schema, t.schema, s, s, expanded);
    }
  }

  lemma ScopeInTarget(rows: Rows, s: nat, i: nat, kids: Rows, t: Target)
    requires s < |rows| && IsBelow(rows, s, i) && i < |rows| && AllHeld(Schema, Below(rows, s))
    requires AllDeeper(kids, rows[i].level) && AllHeld(rows[i].item.kind, kids)
    ensures ScopeOf(Below(Expand(rows, i, kids), s), t) == ScopeAfter(Below(rows, s), t, i - s - 1)
  {
    var k := i - s - 1;
    ScopeAfterExpand(Below(rows, s), k, kids, t) by {
      BelowAt(rows, s, i);
    }
    assert Below(Expand(rows, i, kids), s) == Expand(Below(rows, s), k, kids) by {
      BelowBeforeExpand(rows, s, i, kids);
    }
  }

  lemma ScopeAfterExpand(scope: Rows, i: nat, kids: Rows, t: Target)
    requires i < |scope| && AllHeld(Schema, scope) && AllHeld(scope[i].item.kind, kids)
    ensures ScopeOf(Expand(scope, i, kids), t) == ScopeAfter(scope, t, i)
  {
    assert MayHold(Schema, scope[i].item.kind);
    HeldKindsOnly(scope[i].item.kind, kids, Category, t.category);
    FlagAfterExpand(scope, i, kids, Category, t.category);
  }

  lemma BranchElsewhere(rows: Rows, s: nat, i: nat, kids: Rows, t: Target)
    requires Find(rows, Schema, t.schema) == Some(s) && AllHeld(Db, rows) && i != s && !IsBelow(rows, s, i) && i < |rows|
    requires AllDeeper(kids, rows[i].level) && AllHeld(rows[i].item.kind, kids)
    ensures BranchOf(Expand(rows, i, kids), t) == BranchOf(rows, t)
  {
    var s' := if s <= i then s else s + |kids|;
    BranchIs(Expand(rows, i, kids), s', rows[s].item.expanded, ScopeOf(Below(rows, s), t), t) by {
      NoSchemasInKids(rows, i, kids, t.schema);
      FoundAfterExpand(rows, i, kids, Schema, t.schema, s, s', rows[s].item.expanded);
      BelowElsewhere(rows, s, s', i, kids);
    }
    BranchIs(rows, s, rows[s].item.expanded, ScopeOf(Below(rows, s), t), t);
  }

  lemma SpineIs(rows: Rows, db: nat, expanded: bool, branch: Branch, t: Target)
    requires Find(rows, Db, t.database) == Some(db) && Flag(rows, Db, t.database) == Some(expanded)
    requires BranchOf(Below(rows, db), t) == branch
    ensures SpineOf(rows, t) == Database(expanded, branch)
  {
  }

  lemma SpineAtDatabase(rows: Rows, db: nat, kids: Rows, t: Target)
    requires Find(rows, Db, t.database) == Some(db)
    requires AllDeeper(kids, rows[db].level) && AllHeld(rows[db].item.kind, kids)
    ensures SpineOf(Expand(rows, db, kids), t) == Database(true, BranchOf(kids + Below(rows, db), t))
  {
    SpineIs(Expand(rows, db, kids), db, true, BranchOf(kids + Below(rows, db), t), t) by {
      HeldKindsOnly(rows[db].item.kind, kids, Db, t.database);
      FoundAfterExpand(rows, db, kids, Db, t.database, db, db, true);
      BelowOfExpanded(rows, db, kids);
    }
  }

  lemma SpineInBranch(rows: Rows, db: nat, i: nat, kids: Rows, t: Target)
    requires Find(rows, Db, t.database) == Some(db) && IsBelow(rows, db, i) && i < |rows|
    requires AllDeeper(kids, rows[i].level) && AllHeld(rows[i].item.kind, kids)
    ensures SpineOf(Expand(rows, i, kids), t) ==
      Database(rows[db].item.expanded, BranchOf(Expand(Below(rows, db), i - db - 1, kids), t))
  {
    SpineIs(Expand(rows, i, kids), db, rows[db].item.expanded, BranchOf(Expand(Below(rows, db), i - db - 1, kids), t), t) by {
      HeldKindsOnly(rows[i].item.kind, kids, Db, t.database);
      FoundAfterExpand(rows, i, kids, Db, t.database, db, db, rows[db].item.expanded);
      BelowBeforeExpand(rows, db, i, kids);
    }
  }

  lemma SpineElsewhere(rows: Rows, db: nat, i: nat, kids: Rows, t: Target)
    requires Find(rows, Db, t.database) == Some(db) && i != db && !IsBelow(rows, db, i) && i < |rows|
    requires AllDeeper(kids, rows[i].level) && AllHeld(rows[i].item.kind, kids)
    ensures SpineOf(Expand(rows, i, kids), t) == SpineOf(rows, t)
  {
    var db' := if db <= i then db else db + |kids|;
    SpineIs(Expand(rows, i, kids), db', rows[db].item.expanded, BranchOf(Below(rows, db), t), t) by {
      HeldKindsOnly(rows[i].item.kind, kids, Db, t.database);
      FoundAfterExpand(rows, i, kids, Db, t.database, db, db', rows[db].item.expanded);
      BelowElsewhere(rows, db, db', i, kids);
    }
    SpineIs(rows, db, rows[db].item.expanded, BranchOf(Below(rows, db), t), t);
  }

  lemma NoDatabaseAfterExpand(rows: Rows, i: nat, kids: Rows, t: Target)
    requires Find(rows, Db, t.database) == None && i < |rows| && AllHeld(rows[i].item.kind, kids)
    ensures SpineOf(Expand(rows, i, kids), t) == NoDatabase
  {
    HeldKindsOnly(rows[i].item.kind, kids, Db, t.database);
    FindAfterExpand(rows, i, kids, Db, t.database);
  }

  /** What the shape of the rows says of the target's branch. */
  lemma BranchIsShaped(rows: Rows, db: nat, t: Target)
    requires Shaped(rows) && Find(rows, Db, t.database) == Some(db)
    ensures AllHeld(Db, Below(rows, db))
    ensures var s := Find(Below(rows, db), Schema, t.schema);
      s.Some? ==> AllHeld(Schema, Below(Below(rows, db), s.value))
  {
    assert HeldAt(rows, db);
    var s := Find(Below(rows, db), Schema, t.schema);
    if s.Some? {
      SliceOfSlice(rows, db, s.value);
      assert HeldAt(rows, db + 1 + s.value);
    }
  }

  // ---------- a click ----------

  /** What a call reports is read off the spine. */
  lemma AdvanceOnSpine(rows: Rows, t: Target)
    ensures Advance(rows, t).databasePresent <==> SpineOf(rows, t).Database?
    ensures Advance(rows, t).ready <==> IsOpen(SpineOf(rows, t))
    ensures Advance(rows, t).clicked.Some? <==> Click(SpineOf(rows, t)) != SpineOf(rows, t)
  {
  }

  /** The row that a call clicks in the target database's own rows. */
  predicate ClicksRow(rows: Rows, i: nat, t: Target) {
    match Find(rows, Schema, t.schema)
    case None => !HasSchemas(rows) && Find(rows, Category, t.category) == Some(i) && !rows[i].item.expanded
    case Some(s) =>
      if !rows[s].item.expanded then i == s
      else IsBelow(rows, s, i) && Find(Below(rows, s), Category, t.category) == Some(i - s - 1)
           && !Below(rows, s)[i - s - 1].item.expanded
  }

  lemma ClickedInDatabase(rows: Rows, offset: nat, i: nat, t: Target)
    requires AdvanceInDatabase(rows, offset, t).clicked == Some(offset + i)
    ensures ClicksRow(rows, i, t)
  {
  }

  /** The branch goes one click further. */
  predicate GoesOn(before: Branch, after: Branch) {
    Database(true, after) == Click(Database(true, before))
  }

  lemma ClickDirect(rows: Rows, i: nat, t: Target)
    requires i < |rows| && ClicksRow(rows, i, t) && Find(rows, Schema, t.schema) == None && AllHeld(Db, rows)
    ensures GoesOn(BranchOf(rows, t), BranchOf(Expand(rows, i, []), t))
  {
    assert BranchOf(rows, t) == Direct(Some(false));
    BranchWithoutTarget(rows, i, [], t);
  }

  lemma ClickTarget(rows: Rows, s: nat, t: Target)
    requires Find(rows, Schema, t.schema) == Some(s) && !rows[s].item.expanded && AllHeld(Db, rows)
    ensures GoesOn(BranchOf(rows, t), BranchOf(Expand(rows, s, []), t))
  {
    BranchIs(rows, s, false, ScopeOf(Below(rows, s), t), t);
    BranchAtTarget(rows, s, [], t);
    assert [] + Below(rows, s) == Below(rows, s);
  }

  lemma CategoryIsCollapsed(rows: Rows, s: nat, i: nat, t: Target)
    requires ClicksRow(rows, i, t) && Find(rows, Schema, t.schema) == Some(s) && rows[s].item.expanded
    ensures BranchOf(rows, t) == Under(true, Loaded(Some(false)))
    ensures ScopeAfter(Below(rows, s), t, i - s - 1) == Loaded(Some(true))
  {
    BranchIs(rows, s, true, Loaded(Some(false)), t);
  }

  lemma CategoryOpens(before: Branch, after: Branch)
    requires before == Under(true, Loaded(Some(false))) && after == Under(true, Loaded(Some(true)))
    ensures GoesOn(before, after)
  {
  }

  lemma ClickUnderTarget(rows: Rows, s: nat, i: nat, t: Target)
    requires Find(rows, Schema, t.schema) == Some(s) && rows[s].item.expanded && i < |rows| && IsBelow(rows, s, i)
    requires AllHeld(Db, rows) && AllHeld(Schema, Below(rows, s))
    requires ScopeAfter(Below(rows, s), t, i - s - 1) == Loaded(Some(true))
    ensures BranchOf(Expand(rows, i, []), t) == Under(true, Loaded(Some(true)))
  {
    BranchInTarget(rows, s, i, [], true, Loaded(Some(true)), t);
  }

  lemma ClickInBranch(rows: Rows, i: nat, t: Target)
    requires i < |rows| && ClicksRow(rows, i, t) && AllHeld(Db, rows)
    requires Find(rows, Schema, t.schema).Some? ==> AllHeld(Schema, Below(rows, Find(rows, Schema, t.schema).value))
    ensures GoesOn(BranchOf(rows, t), BranchOf(Expand(rows, i, []), t))
  {
    var s := Find(rows, Schema, t.schema);
    if s == None {
      ClickDirect(rows, i, t);
    } else if rows[s.value].item.expanded {
      CategoryIsCollapsed(rows, s.value, i, t);
      ClickUnderTarget(rows, s.value, i, t);
      CategoryOpens(BranchOf(rows, t), BranchOf(Expand(rows, i, []), t));
    } else {
      ClickTarget(rows, s.value, t);
    }
  }

  /** The clicked row, found in the target database's own rows. */
  lemma ClickedInBranch(rows: Rows, db: nat, t: Target, i: nat)
    requires Find(rows, Db, t.database) == Some(db) && rows[db].item.expanded && Advance(rows, t).clicked == Some(i)
    ensures IsBelow(rows, db, i) && ClicksRow(Below(rows, db), i - db - 1, t)
  {
    ClickIsOnDatabaseOrBelow(rows, t, i);
    ClickBelowDatabase(rows, db, t, i);
    ClickedInDatabase(Below(rows, db), db + 1, i - db - 1, t);
  }

  /** A click does to the spine just what it should. */
  lemma ClickOnSpine(rows: Rows, t: Target, i: nat)
    requires Shaped(rows) && Advance(rows, t).clicked == Some(i) && i < |rows|
    ensures SpineOf(Expand(rows, i, []), t) == Click(SpineOf(rows, t))
  {
    ClickStaysInBranch(rows, t, i);
    var db := Find(rows, Db, t.database).value;
    if rows[db].item.expanded {
      var before, after := BranchOf(Below(rows, db), t), BranchOf(Expand(Below(rows, db), i - db - 1, []), t);
      assert GoesOn(before, after) by {
        ClickedInBranch(rows, db, t, i);
        BranchIsShaped(rows, db, t);
        ClickInBranch(Below(rows, db), i - db - 1, t);
      }
      SpineInBranch(rows, db, i, [], t);
    } else {
      SpineAtDatabase(rows, db, [], t);
      assert [] + Below(rows, db) == Below(rows, db);
    }
  }

  // ---------- loading ----------

  predicate TargetDatabase(rows: Rows, t: Target, i: nat) { Find(rows, Db, t.database) == Some(i) }

  predicate TargetSchema(rows: Rows, t: Target, i: nat) {
    match Find(rows, Db, t.database)
    case None => false
    case Some(db) => db < i && Find(Below(rows, db), Schema, t.schema) == Some(i - db - 1)
  }

  /** The rows of an expanded row appear below it. */
  predicate MayLoad(rows: Rows, i: nat, kids: Rows) {
    MayShow(rows, i, kids) && rows[i].item.expanded && Below(rows, i) == []
  }

  lemma LoadTarget(rows: Rows, s: nat, kids: Rows, t: Target)
    requires Find(rows, Schema, t.schema) == Some(s) && rows[s].item.expanded && Below(rows, s) == []
    requires AllDeeper(kids, rows[s].level) && AllHeld(Db, rows) && AllHeld(rows[s].item.kind, kids)
    ensures BranchOf(rows, t) == Under(true, Unloaded) && BranchOf(Expand(rows, s, kids), t) == Under(true, ScopeOf(kids, t))
  {
    BranchAtTarget(rows, s, kids, t);
    assert kids + [] == kids;
  }

  lemma ScopeIsKept(scope: Rows, i: nat, t: Target)
    requires i < |scope| && scope[i].item.expanded
    ensures ScopeAfter(scope, t, i) == ScopeOf(scope, t)
  {
  }

  lemma LoadBelowTarget(rows: Rows, s: nat, i: nat, kids: Rows, t: Target)
    requires i < |rows| && rows[i].item.expanded && Find(rows, Schema, t.schema) == Some(s) && IsBelow(rows, s, i)
    requires AllDeeper(kids, rows[i].level) && AllHeld(Db, rows) && AllHeld(rows[i].item.kind, kids)
    requires AllHeld(Schema, Below(rows, s))
    ensures BranchOf(Expand(rows, i, kids), t) == BranchOf(rows, t)
  {
    var expanded, scope := rows[s].item.expanded, ScopeOf(Below(rows, s), t);
    ScopeIsKept(Below(rows, s), i - s - 1, t);
    assert BranchOf(Expand(rows, i, kids), t) == Under(expanded, scope) by {
      BranchInTarget(rows, s, i, kids, expanded, scope, t);
    }
    assert BranchOf(rows, t) == Under(expanded, scope) by {
      BranchIs(rows, s, expanded, scope, t);
    }
  }

  lemma LoadInBranch(rows: Rows, i: nat, kids: Rows, t: Target)
    requires i < |rows| && rows[i].item.expanded && Find(rows, Schema, t.schema) != Some(i)
    requires AllDeeper(kids, rows[i].level) && AllHeld(Db, rows) && AllHeld(rows[i].item.kind, kids)
    requires Find(rows, Schema, t.schema).Some? ==> AllHeld(Schema, Below(rows, Find(rows, Schema, t.schema).value))
    ensures BranchOf(Expand(rows, i, kids), t) == BranchOf(rows, t)
  {
    var s := Find(rows, Schema, t.schema);
    if s == None {
      BranchWithoutTarget(rows, i, kids, t);
    } else if IsBelow(rows, s.value, i) {
      LoadBelowTarget(rows, s.value, i, kids, t);
    } else {
      BranchElsewhere(rows, s.value, i, kids, t);
    }
  }

  lemma LoadBelowDatabase(rows: Rows, db: nat, i: nat, kids: Rows, t: Target)
    requires Shaped(rows) && MayLoad(rows, i, kids) && Find(rows, Db, t.database) == Some(db) && IsBelow(rows, db, i)
    ensures
      var spine, spine' := SpineOf(rows, t), SpineOf(Expand(rows, i, kids), t);
      if Find(Below(rows, db), Schema, t.schema) == Some(i - db - 1) then
        spine == Database(rows[db].item.expanded, Under(true, Unloaded)) &&
        spine' == Database(rows[db].item.expanded, Under(true, ScopeOf(kids, t)))
      else spine' == spine
  {
    var below, k := Below(rows, db), i - db - 1;
    SpineIs(rows, db, rows[db].item.expanded, BranchOf(below, t), t);
    SpineInBranch(rows, db, i, kids, t);
    assert below[k] == rows[i] && Below(below, k) == [] by {
      SliceOfSlice(rows, db, k);
    }
    if Find(below, Schema, t.schema) == Some(k) {
      LoadTarget(below, k, kids, t) by {
        BranchIsShaped(rows, db, t);
      }
    } else {
      LoadInBranch(below, k, kids, t) by {
        BranchIsShaped(rows, db, t);
      }
    }
  }

  /** Loading the target database's rows or the target schema's settles what they bring; all other
      loading leaves the spine alone. */
  lemma LoadOnSpine(rows: Rows, i: nat, kids: Rows, t: Target)
    requires Shaped(rows) && MayLoad(rows, i, kids)
    ensures
      var spine, spine' := SpineOf(rows, t), SpineOf(Expand(rows, i, kids), t);
      if TargetDatabase(rows, t, i) then spine == Database(true, Pending) && spine' == Database(true, BranchOf(kids, t))
      else if TargetSchema(rows, t, i) then
        spine.Database? && spine.branch == Under(true, Unloaded) && spine' == spine.(branch := Under(true, ScopeOf(kids, t)))
      else spine' == spine
  {
    match Find(rows, Db, t.database)
    case None => NoDatabaseAfterExpand(rows, i, kids, t);
    case Some(db) =>
      if i == db {
        SpineAtDatabase(rows, db, kids, t);
        assert kids + [] == kids;
      } else if IsBelow(rows, db, i) {
        LoadBelowDatabase(rows, db, i, kids, t);
      } else {
        SpineElsewhere(rows, db, i, kids, t);
      }
  }
}

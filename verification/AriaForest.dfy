/** Trees shown as flat lists of levelled rows, and the ancestor-stack check of
    e2e/specs/connection-navigator-aria-tree.ts. */
module AriaForest {
  import opened Options

  /** An ordered forest: the first root, its children, and the other roots. */
  datatype Forest<T> = Empty | Grow(item: T, children: Forest<T>, siblings: Forest<T>)

  datatype Row<T> = Row(item: T, level: int)

  /** The document order of a forest whose roots have level `d`. */
  function Flatten<T>(f: Forest<T>, d: int): seq<Row<T>> {
    match f
    case Empty => []
    case Grow(item, children, siblings) => [Row(item, d)] + Flatten(children, d + 1) + Flatten(siblings, d)
  }

  /** Level rules of a flat list: it starts at `d`, never leaves it, and descends one level at a time. */
  predicate Nested<T>(rows: seq<Row<T>>, d: int) {
    && (rows != [] ==> rows[0].level == d)
    && (forall i :: 0 <= i < |rows| ==> rows[i].level >= d)
    && (forall i :: 0 < i < |rows| ==> rows[i].level <= rows[i - 1].level + 1)
  }

  /** How many leading rows are deeper than `level`. */
  function Deeper<T>(rows: seq<Row<T>>, level: int): (n: nat)
    ensures n <= |rows|
  {
    if rows == [] || rows[0].level <= level then 0 else 1 + Deeper(rows[1..], level)
  }

  lemma {:induction false} DeeperStops<T>(rows: seq<Row<T>>, level: int)
    ensures var n := Deeper(rows, level);
      && (forall i :: 0 <= i < n ==> rows[i].level > level)
      && (n < |rows| ==> rows[n].level <= level)
  {
    if rows != [] {
      DeeperStops(rows[1..], level);
    }
  }

  /** The forest of a nested list. */
  function Parse<T>(rows: seq<Row<T>>, d: int): Forest<T>
    requires Nested(rows, d)
    decreases |rows|
  {
    if rows == [] then Empty
    else
      var rest := rows[1..];
      var n := Deeper(rest, d);
      PartsAreNested(rows, d);
      Grow(rows[0].item, Parse(rest[..n], d + 1), Parse(rest[n..], d))
  }

  lemma {:induction false} FlattenIsNested<T>(f: Forest<T>, d: int)
    ensures Nested(Flatten(f, d), d)
  {
    match f
    case Empty =>
    case Grow(item, children, siblings) =>
      FlattenIsNested(children, d + 1);
      FlattenIsNested(siblings, d);
  }

  lemma {:induction false} DeeperOfParts<T>(a: seq<Row<T>>, b: seq<Row<T>>, level: int)
    requires forall i :: 0 <= i < |a| ==> a[i].level > level
    requires b != [] ==> b[0].level <= level
    ensures Deeper(a + b, level) == |a|
  {
    if a == [] {
      assert a + b == b;
    } else {
      assert (a + b)[1..] == a[1..] + b;
      DeeperOfParts(a[1..], b, level);
    }
  }

  /** A root, the rows of its children and the rows of its siblings. */
  lemma NestedOfParts<T>(item: T, a: seq<Row<T>>, b: seq<Row<T>>, d: int)
    requires Nested(a, d + 1) && Nested(b, d)
    ensures Nested([Row(item, d)] + a + b, d)
  {
    var rows := [Row(item, d)] + a + b;
    forall i | 0 < i < |rows| ensures rows[i].level >= d && rows[i].level <= rows[i - 1].level + 1 {
      if i <= |a| {
        assert rows[i] == a[i - 1];
        assert i > 1 ==> rows[i - 1] == a[i - 2];
      } else {
        assert rows[i] == b[i - 1 - |a|];
        assert i > 1 + |a| ==> rows[i - 1] == b[i - 2 - |a|];
      }
    }
  }

  lemma DeeperSplitsParts<T>(a: seq<Row<T>>, b: seq<Row<T>>, d: int)
    requires Nested(a, d + 1) && Nested(b, d)
    ensures var n := Deeper(a + b, d); (a + b)[..n] == a && (a + b)[n..] == b
  {
    DeeperOfParts(a, b, d);
  }

  lemma ParseOfParts<T>(item: T, a: seq<Row<T>>, b: seq<Row<T>>, d: int)
    requires Nested(a, d + 1) && Nested(b, d)
    ensures Nested([Row(item, d)] + a + b, d)
    ensures Parse([Row(item, d)] + a + b, d) == Grow(item, Parse(a, d + 1), Parse(b, d))
  {
    NestedOfParts(item, a, b, d);
    var rows := [Row(item, d)] + a + b;
    assert rows[1..] == a + b && rows[0].item == item;
    DeeperSplitsParts(a, b, d);
  }

  lemma {:induction false} ParseUndoesFlatten<T>(f: Forest<T>, d: int)
    ensures Nested(Flatten(f, d), d) && Parse(Flatten(f, d), d) == f
  {
    match f
    case Empty =>
    case Grow(item, children, siblings) =>
      ParseUndoesFlatten(children, d + 1);
      ParseUndoesFlatten(siblings, d);
      ParseOfParts(item, Flatten(children, d + 1), Flatten(siblings, d), d);
  }

  lemma PartsAreNested<T>(rows: seq<Row<T>>, d: int)
    requires Nested(rows, d) && rows != []
    ensures var rest, n := rows[1..], Deeper(rows[1..], d); Nested(rest[..n], d + 1) && Nested(rest[n..], d)
  {
    var rest := rows[1..];
    DeeperStops(rest, d);
    assert forall i :: 0 <= i < |rest| ==> rest[i] == rows[i + 1];
  }

  lemma {:induction false} FlattenUndoesParse<T>(rows: seq<Row<T>>, d: int)
    requires Nested(rows, d)
    ensures Flatten(Parse(rows, d), d) == rows
    decreases |rows|
  {
    if rows != [] {
      var rest, n := rows[1..], Deeper(rows[1..], d);
      PartsAreNested(rows, d);
      FlattenUndoesParse(rest[..n], d + 1);
      FlattenUndoesParse(rest[n..], d);
      Reassemble(rows, n);
    }
  }

  lemma Reassemble<T>(rows: seq<Row<T>>, n: nat)
    requires rows != [] && n <= |rows| - 1
    ensures [rows[0]] + rows[1..][..n] + rows[1..][n..] == rows
  {
  }

  ghost predicate IsForestOrder<T(!new)>(rows: seq<Row<T>>, d: int) {
    exists f :: Flatten(f, d) == rows
  }

  /** A flat list is nested exactly when it is the document order of a forest. */
  lemma NestedIffForest<T(!new)>(rows: seq<Row<T>>, d: int)
    ensures Nested(rows, d) <==> IsForestOrder(rows, d)
  {
    if Nested(rows, d) {
      FlattenUndoesParse(rows, d);
    }
    if f :| Flatten(f, d) == rows {
      FlattenIsNested(f, d);
    }
  }

  lemma ForestIsUnique<T>(f: Forest<T>, g: Forest<T>, d: int)
    requires Flatten(f, d) == Flatten(g, d)
    ensures f == g
  {
    ParseUndoesFlatten(f, d);
    ParseUndoesFlatten(g, d);
  }

  /** A virtualized slice of an accepted list is accepted exactly when it is empty or starts at a root. */
  lemma WindowIsNested<T>(rows: seq<Row<T>>, d: int, from: nat, to: nat)
    requires Nested(rows, d) && from <= to <= |rows|
    ensures Nested(rows[from..to], d) <==> from == to || rows[from].level == d
  {
    var window := rows[from..to];
    assert forall i :: 0 <= i < |window| ==> window[i] == rows[from + i];
    if from < to && rows[from].level == d {
      forall i | 0 < i < |window| ensures window[i].level <= window[i - 1].level + 1 {
        assert window[i] == rows[from + i] && window[i - 1] == rows[from + i - 1];
      }
    }
  }

  // ---------- the rows below a row ----------

  /** The rows after row `i` that are deeper than it, up to the first that is not. */
  function Below<T>(rows: seq<Row<T>>, i: nat): seq<Row<T>>
    requires i < |rows|
  {
    rows[i + 1..][..Deeper(rows[i + 1..], rows[i].level)]
  }

  function Size<T>(f: Forest<T>): nat {
    match f
    case Empty => 0
    case Grow(_, children, siblings) => 1 + Size(children) + Size(siblings)
  }

  /** The children of the node that document order numbers `i`. */
  function ChildrenAt<T>(f: Forest<T>, i: nat): Forest<T>
    requires i < Size(f)
  {
    if i == 0 then f.children
    else if i - 1 < Size(f.children) then ChildrenAt(f.children, i - 1)
    else ChildrenAt(f.siblings, i - 1 - Size(f.children))
  }

  lemma {:induction false} FlattenSize<T>(f: Forest<T>, d: int)
    ensures |Flatten(f, d)| == Size(f)
  {
    match f
    case Empty =>
    case Grow(_, children, siblings) =>
      FlattenSize(children, d + 1);
      FlattenSize(siblings, d);
  }

  /** What lies below a row depends only on the block around it. */
  lemma BelowInBlock<T>(before: seq<Row<T>>, block: seq<Row<T>>, after: seq<Row<T>>, i: nat)
    requires i < |block| && (after != [] ==> after[0].level <= block[i].level)
    ensures Below(before + block + after, |before| + i) == Below(block, i)
  {
    var all, k := before + block + after, |before| + i;
    var below := Below(block, i);
    var rest := block[i + 1..][|below|..];
    assert all[k] == block[i];
    assert all[k + 1..] == below + (rest + after);
    assert rest != [] ==> (rest + after)[0] == block[i + 1..][|below|];
    DeeperStops(block[i + 1..], block[i].level);
    DeeperOfParts(below, rest + after, block[i].level);
  }

  lemma BelowRoot<T>(f: Forest<T>, d: int)
    requires f.Grow?
    ensures Below(Flatten(f, d), 0) == Flatten(f.children, d + 1)
  {
    var a, b := Flatten(f.children, d + 1), Flatten(f.siblings, d);
    FlattenIsNested(f.children, d + 1);
    FlattenIsNested(f.siblings, d);
    assert ([Row(f.item, d)] + a + b)[1..] == a + b;
    DeeperOfParts(a, b, d);
  }

  lemma BelowInChildren<T>(f: Forest<T>, d: int, i: nat)
    requires f.Grow? && i < |Flatten(f.children, d + 1)|
    ensures
      var rows, a := Flatten(f, d), Flatten(f.children, d + 1);
      1 + i < |rows| && rows[1 + i] == a[i] && Below(rows, 1 + i) == Below(a, i)
  {
    FlattenIsNested(f.children, d + 1);
    FlattenIsNested(f.siblings, d);
    BelowInBlock([Row(f.item, d)], Flatten(f.children, d + 1), Flatten(f.siblings, d), i);
  }

  lemma BelowInSiblings<T>(f: Forest<T>, d: int, i: nat)
    requires f.Grow? && i < |Flatten(f.siblings, d)|
    ensures
      var rows, b := Flatten(f, d), Flatten(f.siblings, d);
      var k := 1 + |Flatten(f.children, d + 1)| + i;
      k < |rows| && rows[k] == b[i] && Below(rows, k) == Below(b, i)
  {
    var before, b := [Row(f.item, d)] + Flatten(f.children, d + 1), Flatten(f.siblings, d);
    BelowInBlock(before, b, [], i);
    assert before + b + [] == before + b;
  }

  /** The rows below row `i` are the document order of the children of node `i`. */
  ghost predicate ShowsChildren<T>(f: Forest<T>, d: int, i: nat) {
    var rows := Flatten(f, d);
    i < Size(f) && i < |rows| && Below(rows, i) == Flatten(ChildrenAt(f, i), rows[i].level + 1)
  }

  lemma RootShows<T>(f: Forest<T>, d: int)
    requires f.Grow?
    ensures ShowsChildren(f, d, 0)
  {
    BelowRoot(f, d);
    assert Flatten(f, d)[0] == Row(f.item, d);
  }

  lemma ChildShows<T>(f: Forest<T>, d: int, i: nat, k: nat)
    requires f.Grow? && k < Size(f.children) && i == 1 + k && ShowsChildren(f.children, d + 1, k)
    ensures ShowsChildren(f, d, i)
  {
    BelowInChildren(f, d, k);
    assert ChildrenAt(f, i) == ChildrenAt(f.children, k) by {
      assert i - 1 == k;
    }
    var rows, a := Flatten(f, d), Flatten(f.children, d + 1);
    assert rows[i] == a[k] && Below(rows, i) == Below(a, k);
  }

  lemma SiblingShows<T>(f: Forest<T>, d: int, i: nat, k: nat)
    requires f.Grow? && k < Size(f.siblings) && i == 1 + Size(f.children) + k && ShowsChildren(f.siblings, d, k)
    ensures ShowsChildren(f, d, i)
  {
    FlattenSize(f.children, d + 1);
    BelowInSiblings(f, d, k);
    assert ChildrenAt(f, i) == ChildrenAt(f.siblings, k) by {
      assert i - 1 - Size(f.children) == k;
    }
    var rows, b := Flatten(f, d), Flatten(f.siblings, d);
    assert rows[i] == b[k] && Below(rows, i) == Below(b, k);
  }

  /** On the rows of a forest, what lies below a row is exactly its node's proper descendants, in order. */
  lemma {:induction false} BelowIsDescendants<T>(f: Forest<T>, d: int, i: nat)
    requires i < Size(f)
    ensures ShowsChildren(f, d, i)
    decreases f
  {
    if i == 0 {
      RootShows(f, d);
    } else if i <= Size(f.children) {
      BelowIsDescendants(f.children, d + 1, i - 1);
      ChildShows(f, d, i, i - 1);
    } else {
      BelowIsDescendants(f.siblings, d, i - 1 - Size(f.children));
      SiblingShows(f, d, i, i - 1 - Size(f.children));
    }
  }

  /** Slicing inside a slice is slicing the whole list: below a row that lies below row `i`, both
      lists show the same rows. Holds of any rows, nested or not. */
  lemma SliceOfSlice<T>(rows: seq<Row<T>>, i: nat, k: nat)
    requires i < |rows| && k < |Below(rows, i)|
    ensures i + 1 + k < |rows| && rows[i + 1 + k] == Below(rows, i)[k]
    ensures Below(Below(rows, i), k) == Below(rows, i + 1 + k)
  {
    var below := Below(rows, i);
    var after := rows[i + 1..][|below|..];
    DeeperStops(rows[i + 1..], rows[i].level);
    assert rows == rows[..i + 1] + below + after;
    BelowInBlock(rows[..i + 1], below, after, k);
  }

  // ---------- the structural check ----------

  /** A navigator row as the DOM gives it; `level` is None when aria-level is absent or no integer. */
  datatype DomRow = DomRow(name: string, role: Option<string>, level: Option<int>)

  datatype Violation =
    | TreeCount(found: nat)
    | NotTreeitem(name: string, role: Option<string>)
    | BadLevel(name: string)
    | NoAncestor(name: string, level: int, open: seq<Option<int>>)

  predicate IsTreeitem(r: DomRow) { r.role == Some("treeitem") }

  predicate HasLevel(r: DomRow) { r.level.Some? && r.level.value >= 1 }

  /** The rows that take part in the walk, with their levels. */
  function Walked(rows: seq<DomRow>): seq<Row<string>> {
    if rows == [] then []
    else
      var init, r := Walked(rows[..|rows| - 1]), rows[|rows| - 1];
      if IsTreeitem(r) && HasLevel(r) then init + [Row(r.name, r.level.value)] else init
  }

  function LastLevel(walked: seq<Row<string>>): int {
    if walked == [] then 0 else walked[|walked| - 1].level
  }

  /** Level `v` is open: looking back, a row of that level comes before any row above it. */
  predicate IsOpen(walked: seq<Row<string>>, v: int) {
    && walked != []
    && (var n := |walked| - 1;
        walked[n].level == v || (walked[n].level > v && IsOpen(walked[..n], v)))
  }

  /** The ancestors a row may hang from, level by level; a skipped level leaves a hole. */
  ghost function OpenAncestors(walked: seq<Row<string>>): seq<Option<int>> {
    seq(if LastLevel(walked) > 0 then LastLevel(walked) else 0,
        k requires k >= 0 => if IsOpen(walked, k + 1) then Some(k + 1) else None)
  }

  /** What one row is charged with: a walked row only if it is more than one level below the row
      walked before it. */
  ghost function Charge(walked: seq<Row<string>>, r: DomRow): seq<Violation> {
    if !IsTreeitem(r) then [NotTreeitem(r.name, r.role)]
    else if !HasLevel(r) then [BadLevel(r.name)]
    else if r.level.value > LastLevel(walked) + 1 then [NoAncestor(r.name, r.level.value, OpenAncestors(walked))]
    else []
  }

  ghost function Charges(rows: seq<DomRow>): seq<Violation> {
    if rows == [] then []
    else Charges(rows[..|rows| - 1]) + Charge(Walked(rows[..|rows| - 1]), rows[|rows| - 1])
  }

  /** The JavaScript write `open[level - 1] = level`: it lengthens the array if need be, with holes. */
  function Write(open: seq<Option<int>>, level: nat): (r: seq<Option<int>>)
    requires level >= 1
    ensures level > |open| ==> |r| == level
    ensures level <= |open| ==> |r| == |open|
    ensures forall k :: 0 <= k < |r| ==>
              r[k] == if k == level - 1 then Some(level) else if k < |open| then open[k] else None
  {
    if level <= |open| then open[level - 1 := Some(level)]
    else open + seq(level - 1 - |open|, _ => None) + [Some(level)]
  }

  /** The stack after one more walked row. */
  lemma StackAfterRow(walked: seq<Row<string>>, name: string, level: int)
    requires level >= 1 && forall i :: 0 <= i < |walked| ==> walked[i].level >= 1
    ensures
      var open := OpenAncestors(walked);
      var kept := if |open| > level - 1 then open[..level - 1] else open;
      Write(kept, level) == OpenAncestors(walked + [Row(name, level)])
  {
    var walked' := walked + [Row(name, level)];
    var open, open' := OpenAncestors(walked), OpenAncestors(walked');
    var kept := if |open| > level - 1 then open[..level - 1] else open;
    assert walked'[..|walked|] == walked;
    forall k | 0 <= k < level ensures Write(kept, level)[k] == open'[k] {
      assert IsOpen(walked', k + 1) <==> k + 1 == level || IsOpen(walked, k + 1);
    }
  }

  lemma {:induction false} WalkedLevels(rows: seq<DomRow>)
    ensures forall i :: 0 <= i < |Walked(rows)| ==> Walked(rows)[i].level >= 1
  {
    if rows != [] {
      WalkedLevels(rows[..|rows| - 1]);
    }
  }

  /** The inner loop: pop until at most `n` levels are open. */
  method PopTo(stack: seq<Option<int>>, n: nat) returns (open: seq<Option<int>>)
    ensures open == if |stack| > n then stack[..n] else stack
  {
    open := stack;
    while |open| > n
      invariant |open| <= |stack| && open == stack[..|open|]
      invariant |stack| > n ==> |open| >= n
      invariant |stack| <= n ==> open == stack
    {
      open := open[..|open| - 1];
    }
  }

  lemma OneMoreRow(rows: seq<DomRow>, i: nat)
    requires i < |rows|
    ensures Charges(rows[..i + 1]) == Charges(rows[..i]) + Charge(Walked(rows[..i]), rows[i])
    ensures Walked(rows[..i + 1]) ==
      if IsTreeitem(rows[i]) && HasLevel(rows[i]) then Walked(rows[..i]) + [Row(rows[i].name, rows[i].level.value)]
      else Walked(rows[..i])
  {
    assert rows[..i + 1][..i] == rows[..i];
  }

  /** What the walk does for a row with a level: close the levels it ends, compare, open its own. */
  method OpenLevel(stack: seq<Option<int>>, name: string, level: int, ghost walked: seq<Row<string>>)
    returns (open: seq<Option<int>>, charge: seq<Violation>)
    requires level >= 1 && forall i :: 0 <= i < |walked| ==> walked[i].level >= 1
    requires stack == OpenAncestors(walked)
    ensures open == OpenAncestors(walked + [Row(name, level)])
    ensures charge == if level > LastLevel(walked) + 1 then [NoAncestor(name, level, stack)] else []
  {
    StackAfterRow(walked, name, level);
    open := PopTo(stack, level - 1);
    charge := if |open| != level - 1 then [NoAncestor(name, level, open)] else [];
    open := Write(open, level);
  }

  /** structuralViolations: the walk with its stack of open levels. */
  method StructuralViolations(treeCount: nat, rows: seq<DomRow>) returns (violations: seq<Violation>)
    ensures violations == Report(treeCount, rows)
  {
    if treeCount != 1 {
      return [TreeCount(treeCount)];
    }
    violations := [];
    var open: seq<Option<int>> := [];
    for i := 0 to |rows|
      invariant violations == Charges(rows[..i])
      invariant open == OpenAncestors(Walked(rows[..i]))
    {
      var el := rows[i];
      ghost var walked := Walked(rows[..i]);
      OneMoreRow(rows, i);
      WalkedLevels(rows[..i]);
      if !IsTreeitem(el) {
        violations := violations + [NotTreeitem(el.name, el.role)];
        continue;
      }
      if !HasLevel(el) {
        violations := violations + [BadLevel(el.name)];
        continue;
      }
      var level := el.level.value;
      var charge;
      open, charge := OpenLevel(open, el.name, level, walked);
      violations := violations + charge;
    }
    assert rows[..|rows|] == rows;
  }

  ghost predicate AllWellFormed(rows: seq<DomRow>) {
    forall i :: 0 <= i < |rows| ==> IsTreeitem(rows[i]) && HasLevel(rows[i])
  }

  lemma NestedWithOneMore(walked: seq<Row<string>>, r: Row<string>)
    requires forall i :: 0 <= i < |walked| ==> walked[i].level >= 1
    requires r.level >= 1
    ensures Nested(walked + [r], 1) <==> Nested(walked, 1) && r.level <= LastLevel(walked) + 1
  {
    var longer := walked + [r];
    assert forall i :: 0 <= i < |walked| ==> longer[i] == walked[i];
    if walked == [] {
      assert longer == [r];
    } else {
      assert longer[0] == walked[0];
      assert longer[|walked|] == r && longer[|walked| - 1] == walked[|walked| - 1];
    }
  }

  lemma {:induction false} NoChargesIffNested(rows: seq<DomRow>)
    ensures Charges(rows) == [] <==> AllWellFormed(rows) && Nested(Walked(rows), 1)
  {
    if rows != [] {
      var init, r := rows[..|rows| - 1], rows[|rows| - 1];
      NoChargesIffNested(init);
      assert rows == init + [r];
      assert AllWellFormed(rows) <==> AllWellFormed(init) && IsTreeitem(r) && HasLevel(r);
      if IsTreeitem(r) && HasLevel(r) {
        WalkedLevels(init);
        NestedWithOneMore(Walked(init), Row(r.name, r.level.value));
      }
    }
  }

  /** What the check reports. */
  ghost function Report(treeCount: nat, rows: seq<DomRow>): seq<Violation> {
    if treeCount != 1 then [TreeCount(treeCount)] else Charges(rows)
  }

  predicate IsLevelled(r: DomRow) { r.role == Some("treeitem") && r.level.Some? && r.level.value >= 1 }

  function LevelsOf(rows: seq<DomRow>): seq<Row<string>>
    requires forall i :: 0 <= i < |rows| ==> IsLevelled(rows[i])
  {
    seq(|rows|, i requires 0 <= i < |rows| && IsLevelled(rows[i]) => Row(rows[i].name, rows[i].level.value))
  }

  lemma {:induction false} AllAreWalked(rows: seq<DomRow>)
    requires forall i :: 0 <= i < |rows| ==> IsLevelled(rows[i])
    ensures Walked(rows) == LevelsOf(rows)
  {
    if rows != [] {
      var init := rows[..|rows| - 1];
      AllAreWalked(init);
      assert LevelsOf(rows) == LevelsOf(init) + [LevelsOf(rows)[|rows| - 1]];
    }
  }

  /** The check accepts a page exactly when it has one tree, every row is a treeitem with a positive level,
      and the rows are the document order of an ordered forest with roots at level 1. */
  lemma AcceptedIffForest(treeCount: nat, rows: seq<DomRow>)
    ensures Report(treeCount, rows) == [] <==>
      treeCount == 1 && (forall i :: 0 <= i < |rows| ==> IsLevelled(rows[i])) && IsForestOrder(LevelsOf(rows), 1)
  {
    NoChargesIffNested(rows);
    if forall i :: 0 <= i < |rows| ==> IsLevelled(rows[i]) {
      AllAreWalked(rows);
      NestedIffForest(LevelsOf(rows), 1);
    }
  }

  /** What row `i` is charged with: a role that is not treeitem, or else a level that is not positive, or
      else a level that skips one below the row walked before. */
  predicate IsCharge(rows: seq<DomRow>, i: nat, v: Violation)
    requires i < |rows|
  {
    var r, before := rows[i], LastLevel(Walked(rows[..i]));
    if r.role != Some("treeitem") then v == NotTreeitem(r.name, r.role)
    else if r.level.None? || r.level.value < 1 then v == BadLevel(r.name)
    else r.level.value > before + 1 && v.NoAncestor? && v.name == r.name && v.level == r.level.value
  }

  lemma ChargeIsExact(rows: seq<DomRow>, i: nat)
    requires i < |rows|
    ensures var charge := Charge(Walked(rows[..i]), rows[i]);
      if charge == [] then forall v :: !IsCharge(rows, i, v) else |charge| == 1 && IsCharge(rows, i, charge[0])
  {
  }

  /** The report is exact row by row, at most one violation each, in order. */
  lemma {:induction false} ReportIsExact(rows: seq<DomRow>) returns (charged: seq<nat>)
    ensures |charged| == |Report(1, rows)|
    ensures forall k :: 0 <= k < |charged| ==> charged[k] < |rows| && IsCharge(rows, charged[k], Report(1, rows)[k])
    ensures forall k, l :: 0 <= k < l < |charged| ==> charged[k] < charged[l]
    ensures forall i :: 0 <= i < |rows| && i !in charged ==> forall v :: !IsCharge(rows, i, v)
  {
    charged := [];
    if rows != [] {
      var n := |rows| - 1;
      var init := rows[..n];
      charged := ReportIsExact(init);
      forall i | 0 <= i < n ensures init[..i] == rows[..i] && init[i] == rows[i] {
      }
      ChargeIsExact(rows, n);
      forall i, v | 0 <= i < n && i !in charged ensures !IsCharge(rows, i, v) {
        assert !IsCharge(init, i, v);
      }
      if Charge(Walked(init), rows[n]) != [] {
        charged := charged + [n];
      }
    }
  }
}

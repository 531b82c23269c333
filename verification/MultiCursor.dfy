/** Typing at several selections at once: typeAtSelections of e2e/helpers.ts. Positions count
    UTF-16 code units, so a `char` stands for one unit. */
module MultiCursor {
  datatype Range = Range(from: int, to: int)

  /** Ranges in document order, disjoint, between `pos` and `end`. */
  ghost predicate Fits(ranges: seq<Range>, pos: int, end: int) {
    if ranges == [] then pos <= end
    else pos <= ranges[0].from <= ranges[0].to && Fits(ranges[1..], ranges[0].to, end)
  }

  /** The simultaneous replacement, from position `pos` on: text outside the ranges is kept in
      order and each range becomes one copy of `t`. */
  ghost function EditFrom(doc: string, pos: int, ranges: seq<Range>, t: string): string
    requires 0 <= pos && Fits(ranges, pos, |doc|)
    decreases |ranges|
  {
    FitsWithin(ranges, pos, |doc|);
    if ranges == [] then doc[pos..]
    else doc[pos..ranges[0].from] + t + EditFrom(doc, ranges[0].to, ranges[1..], t)
  }

  ghost function Edit(doc: string, ranges: seq<Range>, t: string): string
    requires Fits(ranges, 0, |doc|)
  {
    EditFrom(doc, 0, ranges, t)
  }

  /** The running sum of the source: every cursor is placed after its own copy, moved by what the
      changes before it added. */
  function AnchorsFrom(ranges: seq<Range>, shift: int, n: nat): seq<int> {
    if ranges == [] then []
    else
      var r := ranges[0];
      [r.from + shift + n] + AnchorsFrom(ranges[1..], shift + n - (r.to - r.from), n)
  }

  /** The change list and the cursors of the transaction. */
  method TypeAtSelections(ranges: seq<Range>, t: string) returns (changes: seq<(int, int, string)>, anchors: seq<int>)
    ensures |changes| == |ranges| && forall i :: 0 <= i < |ranges| ==> changes[i] == (ranges[i].from, ranges[i].to, t)
    ensures anchors == AnchorsFrom(ranges, 0, |t|)
  {
    changes := seq(|ranges|, i requires 0 <= i < |ranges| => (ranges[i].from, ranges[i].to, t));
    anchors := [];
    var shift := 0;
    for i := 0 to |ranges|
      invariant anchors + AnchorsFrom(ranges[i..], shift, |t|) == AnchorsFrom(ranges, 0, |t|)
    {
      var range := ranges[i];
      assert ranges[i..][1..] == ranges[i + 1..];
      var at := range.from + shift + |t|;
      anchors := anchors + [at];
      shift := shift + |t| - (range.to - range.from);
    }
    assert ranges[|ranges|..] == [];
  }

  // ---------- ranges ----------

  lemma {:induction false} FitsWithin(ranges: seq<Range>, pos: int, end: int)
    requires Fits(ranges, pos, end)
    ensures pos <= end
    ensures ranges != [] ==> ranges[0].to <= end
  {
    if ranges != [] {
      FitsWithin(ranges[1..], ranges[0].to, end);
    }
  }

  /** `Fits` is what CodeMirror promises of a selection: ranges sorted, disjoint and in the document. */
  lemma {:induction false} FitsIsSortedDisjoint(ranges: seq<Range>, pos: int, end: int)
    requires pos <= end
    ensures Fits(ranges, pos, end) <==>
      && (forall i :: 0 <= i < |ranges| ==> pos <= ranges[i].from <= ranges[i].to <= end)
      && (forall i, j :: 0 <= i < j < |ranges| ==> ranges[i].to <= ranges[j].from)
  {
    if ranges != [] {
      var r, rest := ranges[0], ranges[1..];
      if pos <= r.from <= r.to <= end {
        FitsIsSortedDisjoint(rest, r.to, end);
        assert forall i :: 0 <= i < |rest| ==> rest[i] == ranges[i + 1];
        assert forall i :: 0 < i < |ranges| ==> ranges[i] == rest[i - 1];
      } else if Fits(ranges, pos, end) {
        FitsWithin(rest, r.to, end);
      }
    }
  }

  // ---------- retyping the tail of every copy ----------

  /** The last `k` units before each cursor. With k = 0 these are the cursors themselves, with the
      text's length they are the inserted copies. */
  function Tails(anchors: seq<int>, k: nat): seq<Range> {
    if anchors == [] then [] else [Range(anchors[0] - k, anchors[0])] + Tails(anchors[1..], k)
  }

  lemma TailsUnfold(ranges: seq<Range>, shift: int, n: nat, k: nat)
    requires ranges != []
    ensures
      var at := ranges[0].from + shift + n;
      Tails(AnchorsFrom(ranges, shift, n), k) ==
        [Range(at - k, at)] + Tails(AnchorsFrom(ranges[1..], shift + n - (ranges[0].to - ranges[0].from), n), k)
  {
    var rest := AnchorsFrom(ranges[1..], shift + n - (ranges[0].to - ranges[0].from), n);
    assert AnchorsFrom(ranges, shift, n)[1..] == rest;
  }

  lemma EditUnfold(doc: string, pos: nat, r: Range, rest: seq<Range>, t: string)
    requires pos <= r.from <= r.to <= |doc| && Fits(rest, r.to, |doc|)
    ensures Fits([r] + rest, pos, |doc|)
    ensures EditFrom(doc, pos, [r] + rest, t) == doc[pos..r.from] + t + EditFrom(doc, r.to, rest, t)
  {
    assert ([r] + rest)[1..] == rest;
  }

  lemma Regroup(a: string, b: string, c: string, d: string)
    ensures (a + b) + c + d == a + (b + c) + d
  {
  }

  lemma PieceAt(s: string, off: nat, piece: string, after: string)
    requires off <= |s| && s[off..] == piece + after
    ensures off + |piece| <= |s| && s[off..off + |piece|] == piece && s[off + |piece|..] == after
  {
    assert s[off..off + |piece|] == s[off..][..|piece|];
    assert s[off + |piece|..] == s[off..][|piece|..];
  }

  /** One copy, found in the typed text at its place. */
  lemma CopyAt(s: string, off: nat, kept: string, head: string, tail: string, after: string)
    requires off <= |s| && s[off..] == kept + (head + tail) + after
    ensures
      var at := off + |kept| + |head| + |tail|;
      at <= |s| && s[off..at - |tail|] == kept + head && s[at..] == after
  {
    assert kept + (head + tail) + after == (kept + head) + (tail + after);
    PieceAt(s, off, kept + head, tail + after);
    PieceAt(s, off + |kept + head|, tail, after);
  }

  /** One copy's share: the last |tail| units before the cursor `at` become `u`, then the rest follows. */
  lemma RetypeOne(typed: string, off: nat, kept: string, head: string, tail: string, after: string,
                  tails: seq<Range>, u: string, again: string)
    requires off <= |typed| && typed[off..] == kept + (head + tail) + after
    requires var at := off + |kept| + |head| + |tail|;
      at <= |typed| && Fits(tails, at, |typed|) && EditFrom(typed, at, tails, u) == again
    ensures
      var at := off + |kept| + |head| + |tail|;
      var all := [Range(at - |tail|, at)] + tails;
      && Fits(all, off, |typed|)
      && EditFrom(typed, off, all, u) == kept + (head + u) + again
  {
    var at := off + |kept| + |head| + |tail|;
    CopyAt(typed, off, kept, head, tail, after);
    EditUnfold(typed, off, Range(at - |tail|, at), tails, u);
    Regroup(kept, head, u, again);
  }

  /** Where the first copy ends. */
  function FirstEnd(pos: int, ranges: seq<Range>, n: nat, off: int): int
    requires ranges != []
  {
    off + (ranges[0].from - pos) + n
  }

  ghost function RetypeRanges(pos: int, ranges: seq<Range>, n: nat, k: nat, off: int): seq<Range> {
    Tails(AnchorsFrom(ranges, off - pos, n), k)
  }

  lemma RetypeRangesUnfold(pos: int, ranges: seq<Range>, n: nat, k: nat, off: int)
    requires ranges != []
    ensures var at := FirstEnd(pos, ranges, n, off);
      RetypeRanges(pos, ranges, n, k, off) == [Range(at - k, at)] + RetypeRanges(ranges[0].to, ranges[1..], n, k, at)
  {
    TailsUnfold(ranges, off - pos, n, k);
    assert off - pos + n - (ranges[0].to - ranges[0].from) == FirstEnd(pos, ranges, n, off) - ranges[0].to;
  }

  lemma RetypeStep(doc: string, pos: nat, ranges: seq<Range>, head: string, tail: string, u: string, typed: string, off: nat)
    requires Fits(ranges, pos, |doc|) && ranges != [] && ranges[0].to <= |doc|
    requires off <= |typed| && typed[off..] == EditFrom(doc, pos, ranges, head + tail)
    requires var at := FirstEnd(pos, ranges, |head + tail|, off);
      var tails := RetypeRanges(ranges[0].to, ranges[1..], |head + tail|, |tail|, at);
      && at <= |typed| && Fits(tails, at, |typed|)
      && EditFrom(typed, at, tails, u) == EditFrom(doc, ranges[0].to, ranges[1..], head + u)
    ensures var tails := RetypeRanges(pos, ranges, |head + tail|, |tail|, off);
      && Fits(tails, off, |typed|)
      && EditFrom(typed, off, tails, u) == EditFrom(doc, pos, ranges, head + u)
  {
    var r, rest, n := ranges[0], ranges[1..], |head + tail|;
    var kept, at := doc[pos..r.from], FirstEnd(pos, ranges, n, off);
    var after, again := EditFrom(doc, r.to, rest, head + tail), EditFrom(doc, r.to, rest, head + u);
    var tails := RetypeRanges(r.to, rest, n, |tail|, at);
    RetypeOne(typed, off, kept, head, tail, after, tails, u, again);
    RetypeRangesUnfold(pos, ranges, n, |tail|, off);
  }

  /** Replacing by `u` the last |tail| units before every cursor is the same as having typed `head + u`
      in place of `head + tail`. Stated for a text that holds the edit from position `off` on. */
  lemma {:induction false} RetypeFrom(doc: string, pos: nat, ranges: seq<Range>, head: string, tail: string, u: string,
                                      typed: string, off: nat)
    requires Fits(ranges, pos, |doc|)
    requires off <= |typed| && typed[off..] == EditFrom(doc, pos, ranges, head + tail)
    ensures var tails := RetypeRanges(pos, ranges, |head + tail|, |tail|, off);
      && Fits(tails, off, |typed|)
      && EditFrom(typed, off, tails, u) == EditFrom(doc, pos, ranges, head + u)
    decreases |ranges|
  {
    FitsWithin(ranges, pos, |doc|);
    if ranges != [] {
      var r, rest := ranges[0], ranges[1..];
      CopyAt(typed, off, doc[pos..r.from], head, tail, EditFrom(doc, r.to, rest, head + tail));
      RetypeFrom(doc, r.to, rest, head, tail, u, typed, FirstEnd(pos, ranges, |head + tail|, off));
      RetypeStep(doc, pos, ranges, head, tail, u, typed, off);
    }
  }

  lemma {:induction false} RetypedAnchors(ranges: seq<Range>, shift: int, shift': int, n: nat, k: nat, m: nat)
    requires k <= n
    ensures AnchorsFrom(Tails(AnchorsFrom(ranges, shift, n), k), shift', m) == AnchorsFrom(ranges, shift + shift', n - k + m)
  {
    if ranges != [] {
      var r := ranges[0];
      RetypedAnchors(ranges[1..], shift + n - (r.to - r.from), shift' + m - k, n, k, m);
      var tails := Tails(AnchorsFrom(ranges, shift, n), k);
      assert tails[1..] == Tails(AnchorsFrom(ranges[1..], shift + n - (r.to - r.from), n), k);
    }
  }

  lemma RetypeTails(doc: string, ranges: seq<Range>, head: string, tail: string, u: string)
    requires Fits(ranges, 0, |doc|)
    ensures
      var typed := Edit(doc, ranges, head + tail);
      var tails := Tails(AnchorsFrom(ranges, 0, |head + tail|), |tail|);
      && Fits(tails, 0, |typed|)
      && Edit(typed, tails, u) == Edit(doc, ranges, head + u)
  {
    RetypeFrom(doc, 0, ranges, head, tail, u, Edit(doc, ranges, head + tail), 0);
  }

  // ---------- main results ----------

  /** Typing composes: `t1` at the ranges and then `t2` at the resulting cursors leaves the same
      document and the same cursors as typing `t1 + t2` once. */
  lemma TypingComposes(doc: string, ranges: seq<Range>, t1: string, t2: string)
    requires Fits(ranges, 0, |doc|)
    ensures
      var once := Edit(doc, ranges, t1);
      var cursors := Tails(AnchorsFrom(ranges, 0, |t1|), 0);
      && Fits(cursors, 0, |once|)
      && Edit(once, cursors, t2) == Edit(doc, ranges, t1 + t2)
      && AnchorsFrom(cursors, 0, |t2|) == AnchorsFrom(ranges, 0, |t1 + t2|)
  {
    RetypeTails(doc, ranges, t1, "", t2);
    assert t1 + "" == t1;
    RetypedAnchors(ranges, 0, 0, |t1|, 0, |t2|);
  }

  /** The inserted copies can be found again from the cursors alone: replacing them by any `u` gives
      what typing `u` would have given. With u = "" nothing but the text outside the ranges is left. */
  lemma CopiesAreReplaceable(doc: string, ranges: seq<Range>, t: string, u: string)
    requires Fits(ranges, 0, |doc|)
    ensures
      var typed := Edit(doc, ranges, t);
      var copies := Tails(AnchorsFrom(ranges, 0, |t|), |t|);
      && Fits(copies, 0, |typed|)
      && Edit(typed, copies, u) == Edit(doc, ranges, u)
  {
    RetypeTails(doc, ranges, "", t, u);
    assert "" + t == t && "" + u == u;
  }

  /** Cutting the document at the end of range `i` cuts the edit right behind that range's copy. */
  lemma {:induction false} EditSplits(doc: string, pos: int, ranges: seq<Range>, t: string, i: nat)
    requires 0 <= pos && Fits(ranges, pos, |doc|) && i < |ranges|
    ensures
      var cut := ranges[i].to;
      && 0 <= cut <= |doc| && Fits(ranges[..i + 1], pos, cut) && Fits(ranges[i + 1..], cut, |doc|)
      && EditFrom(doc, pos, ranges, t) ==
           EditFrom(doc[..cut], pos, ranges[..i + 1], t) + EditFrom(doc, cut, ranges[i + 1..], t)
    decreases |ranges|
  {
    FitsWithin(ranges, pos, |doc|);
    var r, rest := ranges[0], ranges[1..];
    var kept := doc[pos..r.from];
    if i == 0 {
      assert ranges[..1] == [r] && [r][1..] == [];
      assert doc[..r.to][pos..r.from] == kept && doc[..r.to][r.to..] == "";
      assert EditFrom(doc[..r.to], pos, [r], t) == kept + t + "";
      assert kept + t + "" == kept + t;
    } else {
      EditSplits(doc, r.to, rest, t, i - 1);
      var cut := ranges[i].to;
      assert ranges[..i + 1][1..] == rest[..i] && ranges[i + 1..] == rest[i..];
      FitsWithin(rest[..i], r.to, cut);
      assert doc[..cut][pos..r.from] == kept;
      var left, right := EditFrom(doc[..cut], r.to, rest[..i], t), EditFrom(doc, cut, ranges[i + 1..], t);
      assert kept + t + (left + right) == kept + t + left + right;
    }
  }

  /** The cursor of the last range is the end of the edit of the text up to that range, which ends
      with the range's copy. */
  lemma {:induction false} LastCopyEndsEdit(doc: string, pos: int, ranges: seq<Range>, t: string, shift: int)
    requires 0 <= pos && Fits(ranges, pos, |doc|) && ranges != [] && ranges[|ranges| - 1].to == |doc|
    ensures
      var typed := EditFrom(doc, pos, ranges, t);
      && |AnchorsFrom(ranges, shift, |t|)| == |ranges|
      && AnchorsFrom(ranges, shift, |t|)[|ranges| - 1] == pos + shift + |typed|
      && |t| <= |typed| && typed[|typed| - |t|..] == t
    decreases |ranges|
  {
    FitsWithin(ranges, pos, |doc|);
    AnchorCount(ranges, shift, |t|);
    var r, rest := ranges[0], ranges[1..];
    var typed, kept := EditFrom(doc, pos, ranges, t), doc[pos..r.from];
    if rest == [] {
      assert doc[r.to..] == "";
      assert typed == kept + t;
    } else {
      assert rest[|rest| - 1] == ranges[|ranges| - 1];
      LastCopyEndsEdit(doc, r.to, rest, t, shift + |t| - (r.to - r.from));
    }
  }

  lemma {:induction false} AnchorsOfPrefix(ranges: seq<Range>, shift: int, n: nat, i: nat)
    requires i < |ranges|
    ensures |AnchorsFrom(ranges, shift, n)| == |ranges| && |AnchorsFrom(ranges[..i + 1], shift, n)| == i + 1
    ensures AnchorsFrom(ranges, shift, n)[i] == AnchorsFrom(ranges[..i + 1], shift, n)[i]
  {
    AnchorCount(ranges, shift, n);
    AnchorCount(ranges[..i + 1], shift, n);
    if i > 0 {
      assert ranges[..i + 1][1..] == ranges[1..][..i];
      AnchorsOfPrefix(ranges[1..], shift + n - (ranges[0].to - ranges[0].from), n, i - 1);
    }
  }

  /** Each cursor is in the new document and sits right after its range's own copy: before it is the
      edit of the old text up to the range's end, after it the edit of the rest. */
  lemma AnchorFollowsItsCopy(doc: string, ranges: seq<Range>, t: string, i: nat)
    requires Fits(ranges, 0, |doc|) && i < |ranges|
    ensures
      var typed := Edit(doc, ranges, t);
      var anchors := AnchorsFrom(ranges, 0, |t|);
      && |anchors| == |ranges|
      && |t| <= anchors[i] <= |typed|
      && typed[anchors[i] - |t|..anchors[i]] == t
      && 0 <= ranges[i].to <= |doc|
      && Fits(ranges[..i + 1], 0, ranges[i].to) && Fits(ranges[i + 1..], ranges[i].to, |doc|)
      && typed[..anchors[i]] == Edit(doc[..ranges[i].to], ranges[..i + 1], t)
      && typed[anchors[i]..] == EditFrom(doc, ranges[i].to, ranges[i + 1..], t)
  {
    EditSplits(doc, 0, ranges, t, i);
    LastCopyEndsEdit(doc[..ranges[i].to], 0, ranges[..i + 1], t, 0);
    AnchorsOfPrefix(ranges, 0, |t|, i);
    var left, right := Edit(doc[..ranges[i].to], ranges[..i + 1], t), EditFrom(doc, ranges[i].to, ranges[i + 1..], t);
    assert Edit(doc, ranges, t) == left + right;
    assert (left + right)[|left| - |t|..|left|] == left[|left| - |t|..];
  }

  lemma {:induction false} AnchorCount(ranges: seq<Range>, shift: int, n: nat)
    ensures |AnchorsFrom(ranges, shift, n)| == |ranges|
  {
    if ranges != [] {
      AnchorCount(ranges[1..], shift + n - (ranges[0].to - ranges[0].from), n);
    }
  }

  /** Two neighbouring cursors stay apart exactly when the text is nonempty or text was kept between
      their ranges; so after typing nonempty text the cursors are strictly increasing. */
  lemma {:induction false} AnchorsStayApart(ranges: seq<Range>, shift: int, n: nat, i: nat)
    requires i + 1 < |ranges| && ranges[i].to <= ranges[i + 1].from
    ensures
      var anchors := AnchorsFrom(ranges, shift, n);
      && |anchors| == |ranges|
      && (anchors[i] < anchors[i + 1] <==> n > 0 || ranges[i].to < ranges[i + 1].from)
  {
    AnchorCount(ranges, shift, n);
    var shift' := shift + n - (ranges[0].to - ranges[0].from);
    if i == 0 {
      AnchorCount(ranges[1..], shift', n);
    } else {
      AnchorsStayApart(ranges[1..], shift', n, i - 1);
    }
  }

  // ---------- one replacement at a time ----------

  function ReplaceOne(doc: string, r: Range, t: string): string
    requires 0 <= r.from <= r.to <= |doc|
  {
    doc[..r.from] + t + doc[r.to..]
  }

  /** The replacements applied one after the other, last range first. */
  ghost function ReplaceBackwards(doc: string, pos: int, ranges: seq<Range>, t: string): (s: string)
    requires 0 <= pos <= |doc| && Fits(ranges, pos, |doc|)
    ensures |s| >= pos && s[..pos] == doc[..pos]
    decreases |ranges|
  {
    FitsWithin(ranges, pos, |doc|);
    if ranges == [] then doc
    else
      var s := ReplaceBackwards(doc, ranges[0].to, ranges[1..], t);
      assert s[..ranges[0].to][..pos] == doc[..ranges[0].to][..pos] == doc[..pos];
      ReplaceOne(s, ranges[0], t)
  }

  lemma ReplaceBeforeRest(doc: string, pos: nat, r: Range, t: string, rest: string)
    requires pos <= r.from <= r.to <= |doc|
    ensures ReplaceOne(doc[..r.to] + rest, r, t) == doc[..pos] + (doc[pos..r.from] + t + rest)
  {
    var s := doc[..r.to] + rest;
    assert s[..r.from] == doc[..pos] + doc[pos..r.from];
    assert s[r.to..] == rest;
  }

  /** Simultaneous replacement equals sequential replacement from right to left, where no change
      moves a range that is still to be replaced. */
  lemma {:induction false} EditIsBackwardsReplacement(doc: string, pos: int, ranges: seq<Range>, t: string)
    requires 0 <= pos <= |doc| && Fits(ranges, pos, |doc|)
    ensures ReplaceBackwards(doc, pos, ranges, t) == doc[..pos] + EditFrom(doc, pos, ranges, t)
    decreases |ranges|
  {
    FitsWithin(ranges, pos, |doc|);
    if ranges != [] {
      var r := ranges[0];
      var rest := EditFrom(doc, r.to, ranges[1..], t);
      EditIsBackwardsReplacement(doc, r.to, ranges[1..], t);
      ReplaceBeforeRest(doc, pos, r, t, rest);
    }
  }

  // ---------- the abandoned formula ----------

  function ShiftBefore(ranges: seq<Range>, n: nat): int {
    if ranges == [] then 0 else n - (ranges[0].to - ranges[0].from) + ShiftBefore(ranges[1..], n)
  }

  lemma {:induction false} LastAnchor(ranges: seq<Range>, shift: int, n: nat)
    requires ranges != []
    ensures
      var last := |ranges| - 1;
      && |AnchorsFrom(ranges, shift, n)| == |ranges|
      && AnchorsFrom(ranges, shift, n)[last] == ranges[last].from + shift + ShiftBefore(ranges[..last], n) + n
  {
    AnchorCount(ranges, shift, n);
    if |ranges| > 1 {
      LastAnchor(ranges[1..], shift + n - (ranges[0].to - ranges[0].from), n);
      assert ranges[1..][..|ranges| - 2] == ranges[..|ranges| - 1][1..];
    } else {
      assert ranges[..0] == [];
    }
  }

  lemma AnchorAt(ranges: seq<Range>, n: nat, i: nat)
    requires i < |ranges|
    ensures |AnchorsFrom(ranges, 0, n)| == |ranges|
    ensures AnchorsFrom(ranges, 0, n)[i] == ranges[i].from + ShiftBefore(ranges[..i], n) + n
  {
    AnchorsOfPrefix(ranges, 0, n, i);
    LastAnchor(ranges[..i + 1], 0, n);
    assert ranges[..i + 1][..i] == ranges[..i];
  }

  /** The first version used `range.to + shift`. For every range it is right exactly when the text is as
      long as what it replaces, and it falls outside the document, which CodeMirror rejects, exactly
      when what is replaced is longer than the text by more than all that follows the cursor. */
  lemma OldFormulaForRange(doc: string, ranges: seq<Range>, t: string, i: nat)
    requires Fits(ranges, 0, |doc|) && i < |ranges|
    ensures
      var r := ranges[i];
      var abandoned := r.to + ShiftBefore(ranges[..i], |t|);
      var anchors := AnchorsFrom(ranges, 0, |t|);
      && |anchors| == |ranges|
      && 0 <= r.to && Fits(ranges[i + 1..], r.to, |doc|)
      && (abandoned == anchors[i] <==> |t| == r.to - r.from)
      && (abandoned > |Edit(doc, ranges, t)| <==>
            (r.to - r.from) - |t| > |EditFrom(doc, r.to, ranges[i + 1..], t)|)
  {
    AnchorAt(ranges, |t|, i);
    AnchorFollowsItsCopy(doc, ranges, t, i);
  }

  /** For the last range all that follows the cursor is the old text behind the range. */
  lemma OldFormulaForLastRange(doc: string, ranges: seq<Range>, t: string)
    requires ranges != [] && Fits(ranges, 0, |doc|)
    ensures
      var r := ranges[|ranges| - 1];
      var abandoned := r.to + ShiftBefore(ranges[..|ranges| - 1], |t|);
      var anchors := AnchorsFrom(ranges, 0, |t|);
      && |anchors| == |ranges|
      && (abandoned == anchors[|ranges| - 1] <==> |t| == r.to - r.from)
      && (abandoned > |Edit(doc, ranges, t)| <==> (r.to - r.from) - |t| > |doc| - r.to)
  {
    var last := |ranges| - 1;
    OldFormulaForRange(doc, ranges, t, last);
    assert ranges[last + 1..] == [];
    AnchorFollowsItsCopy(doc, ranges, t, last);
    assert |EditFrom(doc, ranges[last].to, [], t)| == |doc| - ranges[last].to;
  }
}

/** Journey screenshots of e2e/lib/screenshotTrace.ts: numbering and duplicate removal, over any
    sequence of suites, tests and captures. Labels are taken after sanitizing, and a picture is its
    digest. */
module ScreenshotTrace {
  import opened Options

  type Digest = string

  /** An output path: directory by spec and test, file by number and step. */
  datatype File = File(spec: string, test: string, num: int, step: string)

  /** A frame that was kept. */
  datatype Frame = Frame(file: File, digest: Digest, fail: bool)

  /** The module variables and the files, and three observers that the code does not have: the frames
      kept since the last suite began, the numbers kept since the last test began, and how many
      captures raised since then. */
  datatype Journal = Journal(spec: string, test: string, stepSeq: int, lastDigest: Option<Digest>,
                             specDigests: set<Digest>, files: map<File, Digest>,
                             kept: seq<Frame>, numbers: seq<int>, torn: nat)

  const FRESH := Journal("unknown", "", 0, None, {}, map[], [], [], 0)

  datatype Op =
    | BeginSuite
    | BeginTest(spec: string, title: string)
    | Save(step: string, force: bool, shot: Option<Digest>)  // None: the capture raised

  function BeginJourneySuite(j: Journal): Journal {
    j.(specDigests := {}, kept := [])
  }

  function BeginJourneyTest(j: Journal, spec: string, title: string): Journal {
    j.(spec := spec, test := title, stepSeq := 0, lastDigest := None, numbers := [], torn := 0)
  }

  function NextFile(j: Journal, step: string): File {
    File(j.spec, if j.test == "" then "unknown" else j.test, j.stepSeq + 1, step)
  }

  predicate Captures(j: Journal, force: bool) { j.test != "" || force }

  /** Seen earlier in the spec file. */
  predicate Repeats(j: Journal, step: string, digest: Digest) {
    step != "fail" && digest in j.specDigests
  }

  /** The consecutive-frame guard. */
  predicate GuardFires(j: Journal, step: string, force: bool, digest: Digest) {
    !force && step != "fail" && j.lastDigest == Some(digest)
  }

  /** What a capture leaves behind. A discard removes the file just written. */
  function SaveJourneyScreenshot(j: Journal, step: string, force: bool, shot: Option<Digest>): Journal {
    if !Captures(j, force) then j
    else
      var out := NextFile(j, step);
      match shot
      case None => j.(stepSeq := j.stepSeq + 1, torn := j.torn + 1)
      case Some(digest) =>
        if Repeats(j, step, digest) || GuardFires(j, step, force, digest) then j.(files := j.files - {out})
        else j.(stepSeq := j.stepSeq + 1, lastDigest := Some(digest), specDigests := j.specDigests + {digest},
                files := j.files[out := digest],
                kept := j.kept + [Frame(out, digest, step == "fail")], numbers := j.numbers + [j.stepSeq + 1])
  }

  function Do(j: Journal, op: Op): Journal {
    match op
    case BeginSuite => BeginJourneySuite(j)
    case BeginTest(spec, title) => BeginJourneyTest(j, spec, title)
    case Save(step, force, shot) => SaveJourneyScreenshot(j, step, force, shot)
  }

  function Run(ops: seq<Op>): Journal {
    if ops == [] then FRESH else Do(Run(ops[..|ops| - 1]), ops[|ops| - 1])
  }

  // ---------- the module with its variables ----------

  class ScreenshotTracer {
    var spec: string
    var test: string
    var stepSeq: int
    var lastDigest: Option<Digest>
    var specDigests: set<Digest>
    var files: map<File, Digest>
    ghost var kept: seq<Frame>
    ghost var numbers: seq<int>
    ghost var torn: nat

    ghost function State(): Journal
      reads this
    {
      Journal(spec, test, stepSeq, lastDigest, specDigests, files, kept, numbers, torn)
    }

    constructor ()
      ensures State() == FRESH
    {
      spec, test, stepSeq, lastDigest, specDigests, files := "unknown", "", 0, None, {}, map[];
      kept, numbers, torn := [], [], 0;
    }

    method BeginJourneySuite()
      modifies this
      ensures State() == Do(old(State()), BeginSuite)
    {
      specDigests := {};
      kept := [];
    }

    method BeginJourneyTest(specFile: string, title: string)
      modifies this
      ensures State() == Do(old(State()), BeginTest(specFile, title))
    {
      spec := specFile;
      test := title;
      stepSeq := 0;
      lastDigest := None;
      numbers, torn := [], 0;
    }

    method DiscardScreenshot(out: File)
      modifies this`files, this`stepSeq
      ensures files == old(files) - {out} && stepSeq == old(stepSeq) - 1
    {
      files := files - {out};
      stepSeq := stepSeq - 1;
    }

    /** The path of the kept frame, if one is kept. */
    method SaveJourneyScreenshot(step: string, force: bool, shot: Option<Digest>) returns (path: Option<File>)
      modifies this
      ensures State() == Do(old(State()), Save(step, force, shot))
      ensures path.Some? <==> |numbers| > |old(numbers)|
      ensures path.Some? ==> path.value == NextFile(old(State()), step)
    {
      if test == "" && !force {
        return None;
      }
      stepSeq := stepSeq + 1;
      var out := File(spec, if test == "" then "unknown" else test, stepSeq, step);
      if shot.None? {
        torn := torn + 1;
        return None;
      }
      var digest := shot.value;
      files := files[out := digest];
      var isFailFrame := step == "fail";
      if !isFailFrame && digest in specDigests {
        DiscardScreenshot(out);
        assert files == old(files) - {out};
        return None;
      }
      if !force && !isFailFrame && lastDigest == Some(digest) {
        DiscardScreenshot(out);
        assert files == old(files) - {out};
        return None;
      }
      lastDigest := Some(digest);
      specDigests := specDigests + {digest};
      kept := kept + [Frame(out, digest, isFailFrame)];
      numbers := numbers + [stepSeq];
      path := Some(out);
    }
  }

  // ---------- invariants of every run ----------

  /** The digest set is that of the kept frames, and a kept frame repeats an earlier one only if it
      is a fail frame. */
  ghost predicate NoRepeats(j: Journal) {
    && (forall d :: d in j.specDigests <==> exists i :: 0 <= i < |j.kept| && j.kept[i].digest == d)
    && (forall a, b :: 0 <= a < b < |j.kept| && !j.kept[b].fail ==> j.kept[a].digest != j.kept[b].digest)
  }

  /** Numbers only grow within a test, and fall behind the counter by exactly the captures that raised. */
  ghost predicate Numbered(j: Journal) {
    && j.stepSeq == |j.numbers| + j.torn
    && (forall i :: 0 <= i < |j.numbers| ==> 1 <= j.numbers[i] <= j.stepSeq)
    && (forall a, b :: 0 <= a < b < |j.numbers| ==> j.numbers[a] < j.numbers[b])
  }

  lemma SaveKeepsNoRepeats(j: Journal, step: string, force: bool, shot: Option<Digest>)
    requires NoRepeats(j)
    ensures NoRepeats(SaveJourneyScreenshot(j, step, force, shot))
  {
    var j' := SaveJourneyScreenshot(j, step, force, shot);
    if j'.kept != j.kept {
      var n, digest := |j.kept|, shot.value;
      forall d ensures d in j'.specDigests <==> exists i :: 0 <= i < |j'.kept| && j'.kept[i].digest == d {
        if d == digest {
          assert j'.kept[n].digest == d;
        } else if d in j.specDigests {
          var i :| 0 <= i < n && j.kept[i].digest == d;
          assert j'.kept[i].digest == d;
        }
      }
    }
  }

  lemma {:induction false} RunsKeepInvariants(ops: seq<Op>)
    ensures NoRepeats(Run(ops)) && Numbered(Run(ops))
  {
    if ops != [] {
      var init, op := ops[..|ops| - 1], ops[|ops| - 1];
      RunsKeepInvariants(init);
      if op.Save? {
        SaveKeepsNoRepeats(Run(init), op.step, op.force, op.shot);
      }
    }
  }

  // ---------- main results ----------

  /** In every reachable state the frames kept since the suite began show pairwise different pictures,
      except that a fail frame may repeat an earlier one. */
  lemma KeptFramesDiffer(ops: seq<Op>, a: nat, b: nat)
    requires a < b < |Run(ops).kept|
    ensures Run(ops).kept[a].digest == Run(ops).kept[b].digest ==> Run(ops).kept[b].fail
  {
    RunsKeepInvariants(ops);
  }

  /** For each frame kept in the current test, how many captures had raised before it in that test. */
  function RaisedBefore(ops: seq<Op>): seq<nat> {
    if ops == [] then []
    else
      var init, op := ops[..|ops| - 1], ops[|ops| - 1];
      if op.BeginTest? then []
      else if |Run(ops).numbers| > |Run(init).numbers| then RaisedBefore(init) + [Run(init).torn]
      else RaisedBefore(init)
  }

  /** Those counts belong to the kept frames one by one, and never fall. */
  ghost predicate CountsRaised(j: Journal, raised: seq<nat>) {
    && |raised| == |j.numbers|
    && (forall i :: 0 <= i < |raised| ==> raised[i] <= j.torn)
    && (forall a, b :: 0 <= a <= b < |raised| ==> raised[a] <= raised[b])
    && (forall i :: 0 <= i < |raised| ==> j.numbers[i] == i + 1 + raised[i])
  }

  lemma KeptFrameCounts(j: Journal, j': Journal, raised: seq<nat>)
    requires CountsRaised(j, raised) && j'.torn == j.torn
    requires j'.numbers == j.numbers + [|j.numbers| + 1 + j.torn]
    ensures CountsRaised(j', raised + [j.torn])
  {
    var raised' := raised + [j.torn];
    forall i | 0 <= i < |raised'| ensures raised'[i] <= j.torn && j'.numbers[i] == i + 1 + raised'[i] {
      assert i < |raised| ==> raised'[i] == raised[i] && j'.numbers[i] == j.numbers[i];
    }
  }

  lemma {:induction false} RunsCountRaised(ops: seq<Op>)
    ensures CountsRaised(Run(ops), RaisedBefore(ops))
  {
    if ops != [] {
      var init := ops[..|ops| - 1];
      RunsCountRaised(init);
      RunsKeepInvariants(init);
      if |Run(ops).numbers| > |Run(init).numbers| {
        KeptFrameCounts(Run(init), Run(ops), RaisedBefore(init));
      }
    }
  }

  /** The number of a kept frame is its place among the kept frames of its test, plus the captures
      that raised before it. */
  lemma NumberIsPlacePlusRaised(ops: seq<Op>, i: nat)
    requires i < |Run(ops).numbers|
    ensures |RaisedBefore(ops)| == |Run(ops).numbers|
    ensures Run(ops).numbers[i] == i + 1 + RaisedBefore(ops)[i]
    ensures RaisedBefore(ops)[i] <= Run(ops).torn
  {
    RunsCountRaised(ops);
  }

  /** Which captures are kept: those that did not raise, of a test or forced, and either of a failure or
      of a picture that was not seen in the suite and is not that of the last kept frame, unless forced. */
  lemma KeptExactlyWhen(j: Journal, step: string, force: bool, shot: Option<Digest>)
    ensures
      var j' := Do(j, Save(step, force, shot));
      if (j.test != "" || force) && shot.Some? &&
         (step == "fail" || (shot.value !in j.specDigests && (force || j.lastDigest != shot))) then
        && j'.numbers == j.numbers + [j.stepSeq + 1] && j'.stepSeq == j.stepSeq + 1
        && j'.files == j.files[File(j.spec, if j.test == "" then "unknown" else j.test, j.stepSeq + 1, step) := shot.value]
        && j'.specDigests == j.specDigests + {shot.value} && j'.lastDigest == shot
      else
        j'.numbers == j.numbers && j'.specDigests == j.specDigests && j'.lastDigest == j.lastDigest
  {
  }

  /** A forced capture before any test goes to the directory of unknown tests. */
  lemma ForcedCaptureBeforeTests(step: string, digest: Digest)
    ensures Run([Save(step, true, Some(digest))]).files == map[File("unknown", "unknown", 1, step) := digest]
    ensures Run([Save(step, false, Some(digest))]) == Run([])
  {
    assert [Save(step, true, Some(digest))][..0] == [] && [Save(step, false, Some(digest))][..0] == [];
  }

  /** A failing test always leaves a picture of its failure, even if it shows what was seen before. */
  lemma FailFrameIsKept(j: Journal, force: bool, digest: Digest)
    requires j.test != "" || force
    ensures
      var j' := Do(j, Save("fail", force, Some(digest)));
      && j'.numbers == j.numbers + [j.stepSeq + 1]
      && j'.files == j.files[NextFile(j, "fail") := digest]
  {
    KeptExactlyWhen(j, "fail", force, Some(digest));
  }

  /** During a test, unless a suite began since it did, a picture is kept exactly if no frame kept since
      the suite began shows it, or it is of a failure. */
  lemma NewPicturesAreKept(ops: seq<Op>, step: string, force: bool, digest: Digest)
    requires NoSuiteSinceTest(ops) && Run(ops).test != ""
    ensures
      var j, j' := Run(ops), Run(ops + [Save(step, force, Some(digest))]);
      if step == "fail" || forall i :: 0 <= i < |j.kept| ==> j.kept[i].digest != digest then
        j'.kept == j.kept + [Frame(NextFile(j, step), digest, step == "fail")]
      else j'.kept == j.kept
  {
    assert (ops + [Save(step, force, Some(digest))])[..|ops|] == ops;
    RunsKeepInvariants(ops);
    LastDigestIsInSet(ops);
  }

  /** The frames of a test are numbered 1 to n exactly if no capture raised before the last of them. */
  lemma NumbersHaveNoGaps(ops: seq<Op>)
    requires Run(ops).numbers != []
    ensures RaisedBefore(ops) != []
    ensures (forall i :: 0 <= i < |Run(ops).numbers| ==> Run(ops).numbers[i] == i + 1) <==>
      RaisedBefore(ops)[|RaisedBefore(ops)| - 1] == 0
  {
    RunsCountRaised(ops);
    var n := |Run(ops).numbers|;
    assert Run(ops).numbers[n - 1] == n + RaisedBefore(ops)[n - 1];
  }

  /** There are gaps: a step raises, so its test fails, and the frame of the failure is number 2. A
      capture that raises after the last kept frame leaves none. */
  lemma RaisedCaptureLeavesGap()
    ensures Run([BeginTest("s", "t"), Save("a", false, None), Save("fail", true, Some("x"))]).numbers == [2]
    ensures var later := Run([BeginTest("s", "t"), Save("a", false, Some("x")), Save("b", false, None)]);
      later.numbers == [1] && later.torn == 1
  {
    var o1 := [BeginTest("s", "t")];
    var gap := o1 + [Save("a", false, None)] + [Save("fail", true, Some("x"))];
    assert gap[..2] == o1 + [Save("a", false, None)] && gap[..2][..1] == o1 && o1[..0] == [];
    assert gap == [BeginTest("s", "t"), Save("a", false, None), Save("fail", true, Some("x"))];
    var none := o1 + [Save("a", false, Some("x"))] + [Save("b", false, None)];
    assert none[..2] == o1 + [Save("a", false, Some("x"))] && none[..2][..1] == o1;
    assert none == [BeginTest("s", "t"), Save("a", false, Some("x")), Save("b", false, None)];
  }

  /** A capture that is not kept touches no file of the current test that is: its own number is above
      all numbers kept since the test began. */
  lemma DiscardSparesCurrentTest(ops: seq<Op>, step: string, force: bool, shot: Option<Digest>, file: File)
    requires var j, j' := Run(ops), Run(ops + [Save(step, force, shot)]);
      j'.numbers == j.numbers && file in j.files && file.num in j.numbers
    ensures var j, j' := Run(ops), Run(ops + [Save(step, force, shot)]);
      file in j'.files && j'.files[file] == j.files[file]
  {
    RunsKeepInvariants(ops);
    assert (ops + [Save(step, force, shot)])[..|ops|] == ops;
  }

  /** No suite began since the last test did (or since the start). */
  predicate NoSuiteSinceTest(ops: seq<Op>) {
    ops == [] || ops[|ops| - 1].BeginTest? || (!ops[|ops| - 1].BeginSuite? && NoSuiteSinceTest(ops[..|ops| - 1]))
  }

  lemma {:induction false} LastDigestIsInSet(ops: seq<Op>)
    requires NoSuiteSinceTest(ops)
    ensures Run(ops).lastDigest.Some? ==> Run(ops).lastDigest.value in Run(ops).specDigests
  {
    if ops != [] && !ops[|ops| - 1].BeginTest? {
      LastDigestIsInSet(ops[..|ops| - 1]);
    }
  }

  /** Unless a suite began after the current test, the guard never decides, so during a test `force`
      changes nothing about what is kept. */
  lemma ForceIsIrrelevantWithinTest(ops: seq<Op>, step: string, shot: Option<Digest>)
    requires NoSuiteSinceTest(ops) && Run(ops).test != ""
    ensures Run(ops + [Save(step, true, shot)]) == Run(ops + [Save(step, false, shot)])
  {
    LastDigestIsInSet(ops);
    assert (ops + [Save(step, true, shot)])[..|ops|] == ops;
    assert (ops + [Save(step, false, shot)])[..|ops|] == ops;
  }

  /** When, exactly, `force` changes what a capture in a test leaves behind: the picture is that of the
      last kept frame, a suite has since forgotten it, and the step is not a failure. */
  lemma ForceMattersExactlyWhen(j: Journal, step: string, shot: Option<Digest>)
    requires j.test != ""
    ensures SaveJourneyScreenshot(j, step, true, shot) == SaveJourneyScreenshot(j, step, false, shot) <==>
      !(shot.Some? && step != "fail" && j.lastDigest == shot && shot.value !in j.specDigests)
  {
    var forced, plain := SaveJourneyScreenshot(j, step, true, shot), SaveJourneyScreenshot(j, step, false, shot);
    if shot.Some? && step != "fail" && j.lastDigest == shot && shot.value !in j.specDigests {
      assert |forced.numbers| == |plain.numbers| + 1;
    }
  }

  /** With a suite beginning in between, `force` does matter: the same picture again is kept only
      with it. */
  lemma ForceMattersAfterSuite()
    ensures
      var ops := [BeginTest("s", "t"), Save("a", false, Some("x")), BeginSuite];
      && Run(ops + [Save("b", true, Some("x"))]).numbers == [1, 2]
      && Run(ops + [Save("b", false, Some("x"))]).numbers == [1]
  {
    var o1 := [BeginTest("s", "t")];
    var o2 := o1 + [Save("a", false, Some("x"))];
    var o3 := o2 + [BeginSuite];
    assert Run(o1) == Do(FRESH, o1[0]) by {
      assert o1[..0] == [];
    }
    assert Run(o2) == Do(Run(o1), Save("a", false, Some("x"))) by {
      assert o2[..1] == o1;
    }
    assert Run(o3) == Do(Run(o2), BeginSuite) by {
      assert o3[..2] == o2;
    }
    assert (o3 + [Save("b", true, Some("x"))])[..3] == o3;
    assert (o3 + [Save("b", false, Some("x"))])[..3] == o3;
    assert o3 == [BeginTest("s", "t"), Save("a", false, Some("x")), BeginSuite];
  }

  /** Which file a discard costs: the frame kept under the same spec, test, number and step, which
      can only be one from before the current test began. */
  lemma DiscardCostsSameNameOnly(j: Journal, step: string, force: bool, shot: Option<Digest>, file: File)
    requires SaveJourneyScreenshot(j, step, force, shot).numbers == j.numbers && file in j.files
    ensures file !in SaveJourneyScreenshot(j, step, force, shot).files <==>
      && Captures(j, force) && shot.Some? && file == NextFile(j, step)
      && (Repeats(j, step, shot.value) || GuardFires(j, step, force, shot.value))
  {
  }

  /** It happens: a test run again under its title, showing the same picture, loses the frame that its
      first run kept. */
  lemma RetriedTestLosesItsFrame()
    ensures
      var first := [BeginTest("s", "t"), Save("a", false, Some("x"))];
      var again := first + [BeginTest("s", "t"), Save("a", false, Some("x"))];
      && Run(first).files == map[File("s", "t", 1, "a") := "x"]
      && Run(again).files == map[]
  {
    var o1 := [BeginTest("s", "t")];
    var o2 := o1 + [Save("a", false, Some("x"))];
    var o3 := o2 + [BeginTest("s", "t")];
    var o4 := o3 + [Save("a", false, Some("x"))];
    assert Run(o1) == Do(FRESH, o1[0]) by {
      assert o1[..0] == [];
    }
    assert Run(o2) == Do(Run(o1), Save("a", false, Some("x"))) by {
      assert o2[..1] == o1;
    }
    assert Run(o3) == Do(Run(o2), BeginTest("s", "t")) by {
      assert o3[..2] == o2;
    }
    assert Run(o4) == Do(Run(o3), Save("a", false, Some("x"))) by {
      assert o4[..3] == o3;
    }
    assert o2 == [BeginTest("s", "t"), Save("a", false, Some("x"))];
    assert o4 == o2 + [BeginTest("s", "t"), Save("a", false, Some("x"))];
  }
}

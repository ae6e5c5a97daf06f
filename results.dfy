/**
 * Aggregation of training-run checkpoints by augmentation method
 * (results.py): filename stripping, first-match classification against an
 * ordered prefix registry, grouping of accuracies per method, the mean used
 * for the confidence interval, and the two-model comparison rows.
 */
module Results {

  datatype Option<T> = None | Some(value: T)

  // ---------------------------------------------------------------------------
  // Method registry
  // ---------------------------------------------------------------------------

  /** One registry entry: a display label and the filename prefix of its runs. */
  datatype Entry = Entry(methodName: string, prefix: string)

  /** The registry is ordered: the first entry whose prefix matches wins. */
  type Registry = seq<Entry>

  /** The registry of results.py, in its insertion (and so iteration) order. */
  const AugMethods: Registry := [
    Entry("FAA (RA)", "expFAA"),
    Entry("UA (UA)", "expUAua"),
    Entry("UA (RA)", "expUAra"),
    Entry("TA (RA)", "expTAra"),
    Entry("TA (Wide)", "expTAwide")
  ]

  /** The labels are the keys of a dictionary, hence pairwise distinct. */
  predicate LabelsDistinct(reg: Registry) {
    forall i, j :: 0 <= i < j < |reg| ==> reg[i].methodName != reg[j].methodName
  }

  function Labels(reg: Registry): set<string> {
    set e | e in reg :: e.methodName
  }

  lemma AugMethodsWellFormed()
    ensures LabelsDistinct(AugMethods)
    ensures |AugMethods| == 5
  {
  }

  // ---------------------------------------------------------------------------
  // Filename stripping
  // ---------------------------------------------------------------------------

  predicate IsSuffix(r: string, s: string) {
    |r| <= |s| && s[|s| - |r|..] == r
  }

  /** `s.split(sep)[-1]`: the part of `s` after its last `sep`. */
  function AfterLast(s: string, sep: char): string {
    if s == [] then []
    else if s[|s| - 1] == sep then []
    else AfterLast(s[..|s| - 1], sep) + [s[|s| - 1]]
  }

  lemma {:induction false} AfterLastHasNoSeparator(s: string, sep: char)
    ensures sep !in AfterLast(s, sep)
  {
    if s != [] && s[|s| - 1] != sep {
      AfterLastHasNoSeparator(s[..|s| - 1], sep);
      assert AfterLast(s, sep) == AfterLast(s[..|s| - 1], sep) + [s[|s| - 1]];
    }
  }

  lemma {:induction false} AfterLastIsSuffix(s: string, sep: char)
    ensures var r := AfterLast(s, sep);
      IsSuffix(r, s) && (r == s || (|r| < |s| && s[|s| - |r| - 1] == sep))
  {
    if s != [] && s[|s| - 1] != sep {
      var init, x := s[..|s| - 1], s[|s| - 1];
      AfterLastIsSuffix(init, sep);
      var r0 := AfterLast(init, sep);
      assert AfterLast(s, sep) == r0 + [x];
      assert s == init + [x];
      SnocKeepsSuffix(r0, init, x);
    }
  }

  /** Appending the same character to a suffix and to its sequence keeps it a suffix
      with the same preceding character. */
  lemma SnocKeepsSuffix(r: string, s: string, x: char)
    requires IsSuffix(r, s)
    ensures IsSuffix(r + [x], s + [x])
    ensures |r| < |s| ==> (s + [x])[|s + [x]| - |r + [x]| - 1] == s[|s| - |r| - 1]
    ensures r == s <==> r + [x] == s + [x]
  {
    var a := |s| - |r|;
    assert (s + [x])[a..] == s[a..] + [x];
    if r + [x] == s + [x] {
      assert r == (r + [x])[..|r|] == (s + [x])[..|s|] == s;
    }
  }

  /** The part after the last separator holds no separator, ends `s`, and is either
      all of `s` or preceded in `s` by a separator. */
  lemma AfterLastSpec(s: string, sep: char)
    ensures var r := AfterLast(s, sep);
      sep !in r && IsSuffix(r, s) && (r == s || (|r| < |s| && s[|s| - |r| - 1] == sep))
  {
    AfterLastHasNoSeparator(s, sep);
    AfterLastIsSuffix(s, sep);
  }

  lemma SuffixTransitive(r: string, a: string, s: string)
    requires IsSuffix(r, a) && IsSuffix(a, s)
    ensures IsSuffix(r, s)
  {
    forall k | 0 <= k < |r|
      ensures s[|s| - |r| + k] == r[k]
    {
      assert a[|a| - |r| + k] == r[k];
      assert s[|s| - |a| + (|a| - |r| + k)] == a[|a| - |r| + k];
    }
  }

  lemma SuffixKeepsAbsence(r: string, s: string, x: char)
    requires IsSuffix(r, s) && x !in s
    ensures x !in r
  {
    forall k | 0 <= k < |r|
      ensures r[k] != x
    {
      assert r[k] == s[|s| - |r| + k];
    }
  }

  /** The bare filename: split on '/' and then on '\\', keeping the last part. */
  function BareFilename(path: string): string {
    AfterLast(AfterLast(path, '/'), '\\')
  }

  /** The bare filename holds neither separator and is a suffix of the path. */
  lemma BareFilenameSpec(path: string)
    ensures '/' !in BareFilename(path) && '\\' !in BareFilename(path)
    ensures IsSuffix(BareFilename(path), path)
  {
    var afterSlash := AfterLast(path, '/');
    AfterLastSpec(path, '/');
    AfterLastSpec(afterSlash, '\\');
    SuffixTransitive(AfterLast(afterSlash, '\\'), afterSlash, path);
    SuffixKeepsAbsence(AfterLast(afterSlash, '\\'), afterSlash, '/');
  }

  lemma {:induction false} AfterLastNoSeparator(s: string, sep: char)
    requires sep !in s
    ensures AfterLast(s, sep) == s
  {
    if s != [] {
      AfterLastNoSeparator(s[..|s| - 1], sep);
    }
  }

  lemma {:induction false} AfterLastOfJoin(dir: string, sep: char, name: string)
    requires sep !in name
    ensures AfterLast(dir + [sep] + name, sep) == name
  {
    var s := dir + [sep] + name;
    if name == [] {
    } else {
      assert s[..|s| - 1] == dir + [sep] + name[..|name| - 1];
      AfterLastOfJoin(dir, sep, name[..|name| - 1]);
      assert name == name[..|name| - 1] + [name[|name| - 1]];
    }
  }

  /** A path `dir/name` strips to `name` when `name` has no separator. */
  lemma BareFilenameOfPath(dir: string, name: string)
    requires '/' !in name && '\\' !in name
    ensures BareFilename(dir + "/" + name) == name
  {
    AfterLastOfJoin(dir, '/', name);
    AfterLastNoSeparator(name, '\\');
  }

  /** Stripping twice changes nothing. */
  lemma BareFilenameIdempotent(path: string)
    ensures BareFilename(BareFilename(path)) == BareFilename(path)
  {
    var b := BareFilename(path);
    BareFilenameSpec(path);
    AfterLastNoSeparator(b, '/');
    AfterLastNoSeparator(b, '\\');
  }

  // ---------------------------------------------------------------------------
  // Classification
  // ---------------------------------------------------------------------------

  /** Python's `str.startswith`. */
  predicate StartsWith(s: string, prefix: string) {
    |prefix| <= |s| && s[..|prefix|] == prefix
  }

  /** First registry index at or after `i` whose prefix starts `name`. */
  function ClassifyFrom(reg: Registry, name: string, i: nat): (r: Option<nat>)
    requires i <= |reg|
    ensures r.Some? ==> i <= r.value < |reg| && StartsWith(name, reg[r.value].prefix)
    ensures r.Some? ==> forall j :: i <= j < r.value ==> !StartsWith(name, reg[j].prefix)
    ensures r.None? ==> forall j :: i <= j < |reg| ==> !StartsWith(name, reg[j].prefix)
    decreases |reg| - i
  {
    if i == |reg| then None
    else if StartsWith(name, reg[i].prefix) then Some(i)
    else ClassifyFrom(reg, name, i + 1)
  }

  /** The index of the method a filename belongs to; the first match wins. */
  function Classify(reg: Registry, name: string): (r: Option<nat>)
    ensures r.Some? ==> r.value < |reg| && StartsWith(name, reg[r.value].prefix)
    ensures r.Some? ==> forall j :: 0 <= j < r.value ==> !StartsWith(name, reg[j].prefix)
    ensures r.None? <==> forall j :: 0 <= j < |reg| ==> !StartsWith(name, reg[j].prefix)
  {
    ClassifyFrom(reg, name, 0)
  }

  /** A single differing character rules a prefix out. */
  lemma NotStartsWithAt(s: string, prefix: string, k: nat)
    requires k < |prefix| && k < |s| && s[k] != prefix[k]
    ensures !StartsWith(s, prefix)
  {

  }

  /** The first matching entry is the classification (uniqueness of first match). */
  lemma ClassifyIsFirstMatch(reg: Registry, name: string, i: nat)
    requires i < |reg| && StartsWith(name, reg[i].prefix)
    requires forall j :: 0 <= j < i ==> !StartsWith(name, reg[j].prefix)
    ensures Classify(reg, name) == Some(i)
  {
  }

  /** When an earlier prefix is a prefix of a later one, the later entry never wins. */
  lemma EarlierPrefixShadows(reg: Registry, i: nat, j: nat, name: string)
    requires i < j < |reg| && StartsWith(reg[j].prefix, reg[i].prefix)
    ensures Classify(reg, name) != Some(j)
  {
    if Classify(reg, name) == Some(j) {
      assert false;
    }
  }

  /** Every entry of the registry is reachable: a filename that starts with the prefix of
      entry `i` is classified as entry `i`, because each earlier prefix differs from it at a
      position both of them have. */
  lemma ClassifyRegisteredPrefix(i: nat, rest: string)
    requires i < |AugMethods|
    ensures Classify(AugMethods, AugMethods[i].prefix + rest) == Some(i)
  {
    var p := AugMethods[i].prefix;
    var name := p + rest;
    assert name[..|p|] == p;
    forall j | 0 <= j < i
      ensures !StartsWith(name, AugMethods[j].prefix)
    {
      var k := if (j == 1 && i == 2) || (j == 3 && i == 4) then 5 else 3;
      assert name[k] == p[k];
      NotStartsWithAt(name, AugMethods[j].prefix, k);
    }
    ClassifyIsFirstMatch(AugMethods, name, i);
  }

  /** Every registered prefix starts with "exp", so a filename that does not start with
      "exp" (a checkpoint saved under some other name) is assigned to no method. */
  lemma ClassifyUnknown(name: string)
    requires !StartsWith(name, "exp")
    ensures Classify(AugMethods, name) == None
  {
    forall j | 0 <= j < |AugMethods|
      ensures !StartsWith(name, AugMethods[j].prefix)
    {
      var p := AugMethods[j].prefix;
      assert p[..3] == "exp";
    }
  }

  /** An ambiguous registry: "expUA" registered before "expUAua" takes every "expUAua" file. */
  lemma AmbiguousRegistryEarlierWins(rest: string)
    ensures Classify([Entry("UA", "expUA"), Entry("UA (UA)", "expUAua")], "expUAua" + rest) == Some(0)
    ensures Classify([Entry("UA (UA)", "expUAua"), Entry("UA", "expUA")], "expUAua" + rest) == Some(0)
    ensures Classify([Entry("UA (UA)", "expUAua"), Entry("UA", "expUA")], "expUAra" + rest) == Some(1)
  {
    var ua, ra := "expUAua" + rest, "expUAra" + rest;
    assert ua[..5] == "expUA" && ua[..7] == "expUAua";
    assert ra[..5] == "expUA" && ra[5] == 'r';
    ClassifyIsFirstMatch([Entry("UA", "expUA"), Entry("UA (UA)", "expUAua")], ua, 0);
    ClassifyIsFirstMatch([Entry("UA (UA)", "expUAua"), Entry("UA", "expUA")], ua, 0);
    NotStartsWithAt(ra, "expUAua", 5);
    ClassifyIsFirstMatch([Entry("UA (UA)", "expUAua"), Entry("UA", "expUA")], ra, 1);
  }


  // ---------------------------------------------------------------------------
  // Checkpoints and what each contributes
  // ---------------------------------------------------------------------------

  /** The result of deserialising one checkpoint file. */
  datatype LoadOutcome =
    | Failed
    | Loaded(hasLog: bool, hasTest: bool, top1: Option<real>, epoch: Option<int>)

  datatype Checkpoint = Checkpoint(path: string, outcome: LoadOutcome)

  datatype Epoch = EpochNumber(n: int) | NotAvailable

  /** One row of the per-run table; accuracy and error in percent. */
  datatype RunRecord = RunRecord(checkpoint: string, epoch: Epoch, accuracyPct: real, errorPct: real)

  /** What one checkpoint does to the scan: it is accepted with its top-1 accuracy,
      silently skipped (no log/test), or reported as an error (load failure or no top1). */
  datatype Contribution = Accepted(top1: real, epoch: Epoch) | Skipped | Reported

  function Inspect(c: Checkpoint): Contribution {
    match c.outcome
    case Failed => Reported
    case Loaded(hasLog, hasTest, top1, epoch) =>
      if !(hasLog && hasTest) then Skipped
      else if top1.None? then Reported
      else Accepted(top1.value, if epoch.Some? then EpochNumber(epoch.value) else NotAvailable)
  }

  /** A checkpoint counts exactly when it loaded with log, test and top1; a load failure
      and a missing top1 are reported; the epoch is the stored one or "not available". */
  lemma InspectCases(c: Checkpoint)
    ensures Inspect(c).Accepted? <==> c.outcome.Loaded? && c.outcome.hasLog && c.outcome.hasTest && c.outcome.top1.Some?
    ensures Inspect(c).Reported? <==> c.outcome.Failed? || (c.outcome.hasLog && c.outcome.hasTest && c.outcome.top1.None?)
    ensures Inspect(c).Accepted? ==> Inspect(c).top1 == c.outcome.top1.value
    ensures Inspect(c).Accepted? ==> (Inspect(c).epoch.NotAvailable? <==> c.outcome.epoch.None?)
    ensures Inspect(c).Accepted? && Inspect(c).epoch.EpochNumber? ==> c.outcome.epoch == Some(Inspect(c).epoch.n)
  {
  }

  /** What the scan sees of one checkpoint: its path, its bare filename and its contribution. */
  datatype View = View(path: string, filename: string, contribution: Contribution)

  function ViewOf(c: Checkpoint): View {
    View(c.path, BareFilename(c.path), Inspect(c))
  }

  /** The views of a directory listing, in listing order. */
  function Views(cs: seq<Checkpoint>): seq<View> {
    if cs == [] then [] else Views(cs[..|cs| - 1]) + [ViewOf(cs[|cs| - 1])]
  }

  lemma ViewsSnoc(cs: seq<Checkpoint>, c: Checkpoint)
    ensures Views(cs + [c]) == Views(cs) + [ViewOf(c)]
  {
    assert (cs + [c])[..|cs|] == cs;
  }

  /** The views are element-wise: view `k` is the view of checkpoint `k`. */
  lemma {:induction false} ViewsPointwise(cs: seq<Checkpoint>)
    ensures |Views(cs)| == |cs|
    ensures forall k :: 0 <= k < |cs| ==> Views(cs)[k] == ViewOf(cs[k])
  {
    if cs != [] {
      var init := cs[..|cs| - 1];
      ViewsPointwise(init);
      assert forall k :: 0 <= k < |init| ==> init[k] == cs[k];
    }
  }

  function RunOf(v: View): seq<RunRecord> {
    match v.contribution
    case Accepted(acc, epoch) => [RunRecord(v.filename, epoch, acc * 100.0, (1.0 - acc) * 100.0)]
    case _ => []
  }

  function ErrorOf(v: View): seq<string> {
    if v.contribution.Reported? then [v.path] else []
  }

  /** The sample, if any, that view `v` adds to the method labelled `l`. */
  function SampleOf(reg: Registry, v: View, l: string): seq<real> {
    match v.contribution
    case Accepted(acc, _) =>
      var m := Classify(reg, v.filename);
      if m.Some? && reg[m.value].methodName == l then [acc * 100.0] else []
    case _ => []
  }

  /** The per-run list after scanning `vs` in order. */
  function Runs(vs: seq<View>): seq<RunRecord> {
    if vs == [] then [] else Runs(vs[..|vs| - 1]) + RunOf(vs[|vs| - 1])
  }

  /** The paths reported as load errors, in scan order. */
  function Errors(vs: seq<View>): seq<string> {
    if vs == [] then [] else Errors(vs[..|vs| - 1]) + ErrorOf(vs[|vs| - 1])
  }

  /** The accuracies (in percent) collected for label `l`, in scan order. */
  function Samples(reg: Registry, vs: seq<View>, l: string): seq<real> {
    if vs == [] then [] else Samples(reg, vs[..|vs| - 1], l) + SampleOf(reg, vs[|vs| - 1], l)
  }

  /** `results_by_method`: every registry label mapped to its samples. */
  function Grouping(reg: Registry, vs: seq<View>): map<string, seq<real>> {
    map l | l in Labels(reg) :: Samples(reg, vs, l)
  }

  // ---------------------------------------------------------------------------
  // process_checkpoint_dir
  // ---------------------------------------------------------------------------

  /** Scans the checkpoints in order. Returns the grouping (None when nothing loaded),
      the per-run records and the paths whose loading was reported as failed. */
  method ProcessCheckpointDir(reg: Registry, checkpoints: seq<Checkpoint>)
    returns (result: Option<map<string, seq<real>>>, allResults: seq<RunRecord>, errors: seq<string>)
    ensures allResults == Runs(Views(checkpoints))
    ensures errors == Errors(Views(checkpoints))
    ensures result.None? <==> allResults == []
    ensures result.Some? ==> result.value == Grouping(reg, Views(checkpoints))
  {
    var resultsByMethod: map<string, seq<real>> := map l | l in Labels(reg) :: [];
    allResults := [];
    errors := [];
    ghost var done: seq<View> := [];
    for k := 0 to |checkpoints|
      invariant done == Views(checkpoints[..k])
      invariant allResults == Runs(done)
      invariant errors == Errors(done)
      invariant GroupsSamples(reg, done, resultsByMethod)
    {
      var c := checkpoints[k];
      RunsSnoc(done, ViewOf(c));
      resultsByMethod, allResults, errors := ScanCheckpoint(reg, c, resultsByMethod, allResults, errors, done);
      assert checkpoints[..k + 1] == checkpoints[..k] + [c];
      ViewsSnoc(checkpoints[..k], c);
      done := done + [ViewOf(c)];
    }
    assert checkpoints[..|checkpoints|] == checkpoints;
    GroupingFromSamples(reg, done, resultsByMethod);
    if allResults != [] {
      result := Some(resultsByMethod);
    } else {
      result := None;
    }
  }

  /** One pass of the scan loop: load checkpoint `c` and, when it holds a top-1 accuracy,
      record its run and add the accuracy to the first method whose prefix its filename
      starts with; a load failure or a missing top1 is reported. `done` is what was
      scanned before. */
  method ScanCheckpoint(reg: Registry, c: Checkpoint, resultsByMethod: map<string, seq<real>>,
                        allResults: seq<RunRecord>, errors: seq<string>, ghost done: seq<View>)
    returns (resultsByMethod': map<string, seq<real>>, allResults': seq<RunRecord>, errors': seq<string>)
    requires GroupsSamples(reg, done, resultsByMethod)
    ensures allResults' == allResults + RunOf(ViewOf(c))
    ensures errors' == errors + ErrorOf(ViewOf(c))
    ensures GroupsSamples(reg, done + [ViewOf(c)], resultsByMethod')
  {
    ghost var v := ViewOf(c);
    resultsByMethod', allResults', errors' := resultsByMethod, allResults, errors;
    match c.outcome {
      case Failed =>
        RejectedStep(reg, done, v, resultsByMethod);
        errors' := errors + [c.path];
      case Loaded(hasLog, hasTest, top1, epoch) =>
        if !(hasLog && hasTest) {
          RejectedStep(reg, done, v, resultsByMethod);
        } else if top1.None? {
          RejectedStep(reg, done, v, resultsByMethod);
          errors' := errors + [c.path];
        } else {
          var testAcc := top1.value;
          var testError := 1.0 - testAcc;
          var ep := if epoch.Some? then EpochNumber(epoch.value) else NotAvailable;
          var filename := BareFilename(c.path);
          assert v == View(c.path, filename, Accepted(testAcc, ep));
          var m := FirstMatch(reg, filename);
          if m.Some? {
            var i := m.value;
            ClassifiedStep(reg, done, v, testAcc, ep, resultsByMethod, i);
            resultsByMethod' := resultsByMethod[reg[i].methodName := resultsByMethod[reg[i].methodName] + [testAcc * 100.0]];
          } else {
            UnclassifiedStep(reg, done, v, testAcc, ep, resultsByMethod);
          }
          allResults' := allResults + [RunRecord(filename, ep, testAcc * 100.0, testError * 100.0)];
        }
    }
  }

  /** The registry loop of the scan: the index of the first entry whose prefix starts
      `filename`, found by walking the registry in order and stopping at the first match. */
  method FirstMatch(reg: Registry, filename: string) returns (m: Option<nat>)
    ensures m == Classify(reg, filename)
  {
    m := None;
    for i := 0 to |reg|
      invariant m.None?
      invariant forall j :: 0 <= j < i ==> !StartsWith(filename, reg[j].prefix)
    {
      if StartsWith(filename, reg[i].prefix) {
        ClassifyIsFirstMatch(reg, filename, i);
        m := Some(i);
        break;
      }
    }
  }

  lemma SamplesSnoc(reg: Registry, vs: seq<View>, v: View, l: string)
    ensures Samples(reg, vs + [v], l) == Samples(reg, vs, l) + SampleOf(reg, v, l)
  {
    assert (vs + [v])[..|vs|] == vs;
  }

  lemma RunsSnoc(vs: seq<View>, v: View)
    ensures Runs(vs + [v]) == Runs(vs) + RunOf(v)
    ensures Errors(vs + [v]) == Errors(vs) + ErrorOf(v)
  {
    assert (vs + [v])[..|vs|] == vs;
  }

  /** `g` holds, for every registry label and nothing else, the samples of `vs`. */
  predicate GroupsSamples(reg: Registry, vs: seq<View>, g: map<string, seq<real>>) {
    g.Keys == Labels(reg) && forall l :: l in g ==> g[l] == Samples(reg, vs, l)
  }

  /** A skipped or reported checkpoint leaves runs and grouping as they were;
      a reported one adds its path to the errors. */
  lemma RejectedStep(reg: Registry, vs: seq<View>, v: View, g: map<string, seq<real>>)
    requires !v.contribution.Accepted?
    requires GroupsSamples(reg, vs, g)
    ensures GroupsSamples(reg, vs + [v], g)
    ensures Runs(vs + [v]) == Runs(vs)
    ensures Errors(vs + [v]) == Errors(vs) + (if v.contribution.Reported? then [v.path] else [])
  {
    RunsSnoc(vs, v);
    forall l | l in g
      ensures g[l] == Samples(reg, vs + [v], l)
    {
      SamplesSnoc(reg, vs, v, l);
    }
  }

  /** An accepted checkpoint that no prefix matches adds no sample. */
  lemma UnclassifiedStep(reg: Registry, vs: seq<View>, v: View, acc: real, epoch: Epoch,
                         g: map<string, seq<real>>)
    requires v.contribution == Accepted(acc, epoch)
    requires Classify(reg, v.filename).None?
    requires GroupsSamples(reg, vs, g)
    ensures GroupsSamples(reg, vs + [v], g)
  {
    forall l | l in g
      ensures g[l] == Samples(reg, vs + [v], l)
    {
      SamplesSnoc(reg, vs, v, l);
    }
  }

  /** An accepted checkpoint whose first matching prefix is entry `i` appends its
      accuracy to that entry's samples only. */
  lemma ClassifiedStep(reg: Registry, vs: seq<View>, v: View, acc: real, epoch: Epoch,
                       g: map<string, seq<real>>, i: nat)
    requires v.contribution == Accepted(acc, epoch)
    requires Classify(reg, v.filename) == Some(i)
    requires GroupsSamples(reg, vs, g)
    ensures i < |reg| && reg[i].methodName in g
    ensures GroupsSamples(reg, vs + [v], g[reg[i].methodName := g[reg[i].methodName] + [acc * 100.0]])
  {
    assert reg[i] in reg;
    var l0 := reg[i].methodName;
    var g' := g[l0 := g[l0] + [acc * 100.0]];
    forall l | l in g'
      ensures g'[l] == Samples(reg, vs + [v], l)
    {
      SamplesSnoc(reg, vs, v, l);
    }
  }

  lemma GroupingFromSamples(reg: Registry, vs: seq<View>, g: map<string, seq<real>>)
    requires GroupsSamples(reg, vs, g)
    ensures g == Grouping(reg, vs)
  {
  }

  /** How one more checkpoint changes the grouping: at most the first matching label grows. */
  lemma GroupingStep(reg: Registry, vs: seq<View>, v: View)
    ensures v.contribution.Accepted? && Classify(reg, v.filename).Some? ==>
      var l := reg[Classify(reg, v.filename).value].methodName;
      l in Grouping(reg, vs) &&
      Grouping(reg, vs + [v]) == Grouping(reg, vs)[l := Grouping(reg, vs)[l] + [v.contribution.top1 * 100.0]]
    ensures !(v.contribution.Accepted? && Classify(reg, v.filename).Some?) ==>
      Grouping(reg, vs + [v]) == Grouping(reg, vs)
  {
    var g, g' := Grouping(reg, vs), Grouping(reg, vs + [v]);
    forall l | l in Labels(reg)
      ensures g'[l] == g[l] + SampleOf(reg, v, l)
    {
      SamplesSnoc(reg, vs, v, l);
    }
    var m := Classify(reg, v.filename);
    if v.contribution.Accepted? && m.Some? {
      var l := reg[m.value].methodName;
      assert reg[m.value] in reg;
      var h := g[l := g[l] + [v.contribution.top1 * 100.0]];
      forall l' | l' in Labels(reg)
        ensures g'[l'] == h[l']
      {
      }
      assert g'.Keys == h.Keys;
    } else {
      forall l' | l' in Labels(reg)
        ensures g'[l'] == g[l']
      {
        assert SampleOf(reg, v, l') == [];
      }
    }
  }

  // ---------------------------------------------------------------------------
  // Properties of the scan
  // ---------------------------------------------------------------------------

  /** The grouping always has exactly the registry's labels, and starts empty. */
  lemma GroupingShape(reg: Registry, vs: seq<View>)
    ensures Grouping(reg, vs).Keys == Labels(reg)
    ensures forall l :: l in Labels(reg) ==> Grouping(reg, [])[l] == []
  {
  }

  /** Viewing a listing is element-wise: the views of two listings concatenate. */
  lemma {:induction false} ViewsAppend(cs1: seq<Checkpoint>, cs2: seq<Checkpoint>)
    ensures Views(cs1 + cs2) == Views(cs1) + Views(cs2)
  {
    if cs2 == [] {
      assert cs1 + cs2 == cs1;
    } else {
      var init := cs2[..|cs2| - 1];
      assert cs1 + cs2 == (cs1 + init) + [cs2[|cs2| - 1]];
      ViewsSnoc(cs1 + init, cs2[|cs2| - 1]);
      ViewsSnoc(init, cs2[|cs2| - 1]);
      assert cs2 == init + [cs2[|cs2| - 1]];
      ViewsAppend(cs1, init);
    }
  }

  /** Scanning is compositional in the order of the checkpoints. */
  lemma {:induction false} RunsAppend(vs1: seq<View>, vs2: seq<View>)
    ensures Runs(vs1 + vs2) == Runs(vs1) + Runs(vs2)
  {
    if vs2 == [] {
      assert vs1 + vs2 == vs1;
    } else {
      var init := vs2[..|vs2| - 1];
      assert (vs1 + vs2)[..|vs1 + vs2| - 1] == vs1 + init;
      assert (vs1 + vs2)[|vs1 + vs2| - 1] == vs2[|vs2| - 1];
      RunsAppend(vs1, init);
    }
  }

  lemma {:induction false} ErrorsAppend(vs1: seq<View>, vs2: seq<View>)
    ensures Errors(vs1 + vs2) == Errors(vs1) + Errors(vs2)
  {
    if vs2 == [] {
      assert vs1 + vs2 == vs1;
    } else {
      var init := vs2[..|vs2| - 1];
      assert (vs1 + vs2)[..|vs1 + vs2| - 1] == vs1 + init;
      assert (vs1 + vs2)[|vs1 + vs2| - 1] == vs2[|vs2| - 1];
      ErrorsAppend(vs1, init);
    }
  }

  /** Each method's samples keep scan order: scanning more checkpoints only appends. */
  lemma {:induction false} SamplesAppend(reg: Registry, vs1: seq<View>, vs2: seq<View>, l: string)
    ensures Samples(reg, vs1 + vs2, l) == Samples(reg, vs1, l) + Samples(reg, vs2, l)
  {
    if vs2 == [] {
      assert vs1 + vs2 == vs1;
    } else {
      var init := vs2[..|vs2| - 1];
      assert (vs1 + vs2)[..|vs1 + vs2| - 1] == vs1 + init;
      assert (vs1 + vs2)[|vs1 + vs2| - 1] == vs2[|vs2| - 1];
      SamplesAppend(reg, vs1, init, l);
    }
  }

  /** A checkpoint that was not accepted adds nothing anywhere, and the scan goes on. */
  lemma RejectedCheckpointIgnored(reg: Registry, vs1: seq<View>, v: View, vs2: seq<View>, l: string)
    requires !v.contribution.Accepted?
    ensures Runs(vs1 + [v] + vs2) == Runs(vs1 + vs2)
    ensures Samples(reg, vs1 + [v] + vs2, l) == Samples(reg, vs1 + vs2, l)
  {
    calc {
      Runs(vs1 + [v] + vs2);
      { RunsAppend(vs1 + [v], vs2); }
      Runs(vs1 + [v]) + Runs(vs2);
      { RunsSnoc(vs1, v); }
      Runs(vs1) + Runs(vs2);
      { RunsAppend(vs1, vs2); }
      Runs(vs1 + vs2);
    }
    calc {
      Samples(reg, vs1 + [v] + vs2, l);
      { SamplesAppend(reg, vs1 + [v], vs2, l); }
      Samples(reg, vs1 + [v], l) + Samples(reg, vs2, l);
      { SamplesSnoc(reg, vs1, v, l); }
      Samples(reg, vs1, l) + Samples(reg, vs2, l);
      { SamplesAppend(reg, vs1, vs2, l); }
      Samples(reg, vs1 + vs2, l);
    }
  }

  function AcceptedCount(vs: seq<View>): nat {
    if vs == [] then 0 else AcceptedCount(vs[..|vs| - 1]) + (if vs[|vs| - 1].contribution.Accepted? then 1 else 0)
  }

  /** Each accepted checkpoint adds exactly one run, the others none. */
  lemma {:induction false} RunsCount(vs: seq<View>)
    ensures |Runs(vs)| == AcceptedCount(vs)
  {
    if vs != [] {
      RunsCount(vs[..|vs| - 1]);
    }
  }

  lemma {:induction false} AcceptedCountZero(vs: seq<View>)
    ensures AcceptedCount(vs) == 0 <==> forall k :: 0 <= k < |vs| ==> !vs[k].contribution.Accepted?
  {
    if vs != [] {
      var init := vs[..|vs| - 1];
      AcceptedCountZero(init);
      assert forall k :: 0 <= k < |init| ==> init[k] == vs[k];
    }
  }

  /** `process_checkpoint_dir` returns None exactly when no checkpoint was accepted. */
  lemma NoneIffNothingLoaded(cs: seq<Checkpoint>)
    ensures (Runs(Views(cs)) == []) <==> (forall k :: 0 <= k < |cs| ==> !Inspect(cs[k]).Accepted?)
  {
    var vs := Views(cs);
    RunsCount(vs);
    AcceptedCountZero(vs);
    ViewsPointwise(cs);
  }

  /** Number of runs that were accepted and classified into some method. */
  function ClassifiedCount(reg: Registry, vs: seq<View>): nat {
    if vs == [] then 0
    else
      var v := vs[|vs| - 1];
      ClassifiedCount(reg, vs[..|vs| - 1])
        + (if v.contribution.Accepted? && Classify(reg, v.filename).Some? then 1 else 0)
  }

  /** Sum of sample-list lengths over the registry entries `reg[..n]`. */
  function TotalFor(reg: Registry, vs: seq<View>, n: nat): nat
    requires n <= |reg|
  {
    if n == 0 then 0 else TotalFor(reg, vs, n - 1) + |Samples(reg, vs, reg[n - 1].methodName)|
  }

  lemma {:induction false} TotalForStep(reg: Registry, vs: seq<View>, v: View, n: nat)
    requires LabelsDistinct(reg) && n <= |reg|
    ensures
      var m := Classify(reg, v.filename);
      TotalFor(reg, vs + [v], n) == TotalFor(reg, vs, n)
        + (if v.contribution.Accepted? && m.Some? && m.value < n then 1 else 0)
  {
    if n > 0 {
      TotalForStep(reg, vs, v, n - 1);
      var l := reg[n - 1].methodName;
      SamplesSnoc(reg, vs, v, l);
      var m := Classify(reg, v.filename);
      assert |SampleOf(reg, v, l)| == if v.contribution.Accepted? && m.Some? && m.value == n - 1 then 1 else 0;
    }
  }

  lemma {:induction false} ClassifiedAtMostAccepted(reg: Registry, vs: seq<View>)
    ensures ClassifiedCount(reg, vs) <= AcceptedCount(vs)
  {
    if vs != [] {
      ClassifiedAtMostAccepted(reg, vs[..|vs| - 1]);
    }
  }

  /** Every classified run is one sample of exactly one method, so the samples
      add up to the classified runs, never more than all runs. */
  lemma SamplesAccountForClassifiedRuns(reg: Registry, vs: seq<View>)
    requires LabelsDistinct(reg)
    ensures TotalFor(reg, vs, |reg|) == ClassifiedCount(reg, vs)
    ensures ClassifiedCount(reg, vs) <= |Runs(vs)|
  {
    RunsCount(vs);
    ClassifiedAtMostAccepted(reg, vs);
    TotalMatchesClassified(reg, vs);
  }

  lemma {:induction false} TotalMatchesClassified(reg: Registry, vs: seq<View>)
    requires LabelsDistinct(reg)
    ensures TotalFor(reg, vs, |reg|) == ClassifiedCount(reg, vs)
  {
    if vs == [] {
      TotalForEmpty(reg, |reg|);
    } else {
      var init, v := vs[..|vs| - 1], vs[|vs| - 1];
      TotalMatchesClassified(reg, init);
      assert vs == init + [v];
      TotalForStep(reg, init, v, |reg|);
    }
  }

  lemma {:induction false} TotalForEmpty(reg: Registry, n: nat)
    requires n <= |reg|
    ensures TotalFor(reg, [], n) == 0
  {
    if n > 0 {
      TotalForEmpty(reg, n - 1);
    }
  }

  /** A grouping can hold no samples at all and still be returned: an accepted checkpoint
      that no prefix matches adds a run (so the result is not None) and no sample. */
  lemma UnclassifiedStillReturnsGrouping(reg: Registry, v: View)
    requires v.contribution.Accepted? && Classify(reg, v.filename).None?
    ensures Runs([v]) == [RunRecord(v.filename, v.contribution.epoch, v.contribution.top1 * 100.0,
                                    (1.0 - v.contribution.top1) * 100.0)]
    ensures forall l :: l in Labels(reg) ==> Grouping(reg, [v])[l] == []
  {
    RunsSnoc([], v);
    assert [] + [v] == [v];
    forall l | l in Labels(reg)
      ensures Samples(reg, [v], l) == []
    {
      SamplesSnoc(reg, [], v, l);
    }
  }

  // ---------------------------------------------------------------------------
  // compute_95_ci: the mean (the t-based half-width is a parameter)
  // ---------------------------------------------------------------------------

  function Sum(xs: seq<real>): real {
    if xs == [] then 0.0 else Sum(xs[..|xs| - 1]) + xs[|xs| - 1]
  }

  /** `np.mean`: the arithmetic mean of a non-empty sample. */
  function Mean(xs: seq<real>): (r: real)
    requires |xs| > 0
    ensures r * (|xs| as real) == Sum(xs)
  {
    Sum(xs) / (|xs| as real)
  }

  /** `compute_95_ci`: the mean and the half-width given by `halfWidth`. */
  function ConfidenceInterval(xs: seq<real>, halfWidth: seq<real> -> real): (r: (real, real))
    requires |xs| > 0
    ensures r.0 * (|xs| as real) == Sum(xs)
    ensures r.1 == halfWidth(xs)
  {
    (Mean(xs), halfWidth(xs))
  }

  lemma {:induction false} SumBounds(xs: seq<real>, lo: real, hi: real)
    requires forall k :: 0 <= k < |xs| ==> lo <= xs[k] <= hi
    ensures lo * (|xs| as real) <= Sum(xs) <= hi * (|xs| as real)
  {
    if xs != [] {
      SumBounds(xs[..|xs| - 1], lo, hi);
    }
  }

  /** The mean lies between any lower and upper bound of the sample. */
  lemma MeanBounds(xs: seq<real>, lo: real, hi: real)
    requires |xs| > 0
    requires forall k :: 0 <= k < |xs| ==> lo <= xs[k] <= hi
    ensures lo <= Mean(xs) <= hi
  {
    SumBounds(xs, lo, hi);
    var n := |xs| as real;
    assert Mean(xs) * n == Sum(xs);
  }

  /** A sample of identical values has that value as its mean. */
  lemma MeanOfConstant(xs: seq<real>, v: real)
    requires |xs| > 0
    requires forall k :: 0 <= k < |xs| ==> xs[k] == v
    ensures Mean(xs) == v
  {
    MeanBounds(xs, v, v);
  }

  /** A checkpoint `dir/name` that loaded with a log, a test section and a top-1
      accuracy is seen as accepted under its bare name. */
  lemma ViewOfAccepted(dir: string, name: string, acc: real, epoch: Option<int>)
    requires '/' !in name && '\\' !in name
    ensures ViewOf(Checkpoint(dir + "/" + name, Loaded(true, true, Some(acc), epoch)))
      == View(dir + "/" + name, name, Accepted(acc, if epoch.Some? then EpochNumber(epoch.value) else NotAvailable))
  {
    BareFilenameOfPath(dir, name);
  }

  /** What the scan sees of a directory `d` with two FAA runs and one UA (UA) run,
      with top-1 accuracies `accA`, `accB` and `accC` (each view as `ViewOfAccepted` gives it). */
  function ExampleViews(accA: real, accB: real, accC: real): seq<View> {
    [View("d/expFAA_a.pth", "expFAA_a.pth", Accepted(accA, EpochNumber(200))),
     View("d/expFAA_b.pth", "expFAA_b.pth", Accepted(accB, EpochNumber(200))),
     View("d/expUAua_c.pth", "expUAua_c.pth", Accepted(accC, NotAvailable))]
  }

  /** The example's files classify as FAA (RA), FAA (RA) and UA (UA). */
  lemma ExampleClassification()
    ensures Classify(AugMethods, "expFAA_a.pth") == Some(0)
    ensures Classify(AugMethods, "expFAA_b.pth") == Some(0)
    ensures Classify(AugMethods, "expUAua_c.pth") == Some(1)
  {
    ClassifyIsFirstMatch(AugMethods, "expFAA_a.pth", 0);
    ClassifyIsFirstMatch(AugMethods, "expFAA_b.pth", 0);
    NotStartsWithAt("expUAua_c.pth", "expFAA", 3);
    ClassifyIsFirstMatch(AugMethods, "expUAua_c.pth", 1);
  }

  /** The sample a classified, accepted view adds to label `l`. */
  lemma SampleOfClassified(reg: Registry, v: View, i: nat, l: string)
    requires v.contribution.Accepted? && Classify(reg, v.filename) == Some(i)
    ensures SampleOf(reg, v, l) == if l == reg[i].methodName then [v.contribution.top1 * 100.0] else []
  {
  }

  /** Two views of one method and one of another: the first method collects both
      accuracies in scan order, the second the third accuracy, every other label none. */
  lemma TwoMethodsGrouped(reg: Registry, a: View, b: View, c: View, i: nat, j: nat, l: string)
    requires a.contribution.Accepted? && b.contribution.Accepted? && c.contribution.Accepted?
    requires Classify(reg, a.filename) == Some(i) && Classify(reg, b.filename) == Some(i)
    requires Classify(reg, c.filename) == Some(j)
    ensures l == reg[i].methodName && l != reg[j].methodName ==>
      Samples(reg, [a, b, c], l) == [a.contribution.top1 * 100.0, b.contribution.top1 * 100.0]
    ensures l != reg[i].methodName && l == reg[j].methodName ==>
      Samples(reg, [a, b, c], l) == [c.contribution.top1 * 100.0]
    ensures l != reg[i].methodName && l != reg[j].methodName ==> Samples(reg, [a, b, c], l) == []
  {
    assert [] + [a] == [a] && [a] + [b] == [a, b] && [a, b] + [c] == [a, b, c];
    SamplesSnoc(reg, [], a, l);
    SamplesSnoc(reg, [a], b, l);
    SamplesSnoc(reg, [a, b], c, l);
    SampleOfClassified(reg, a, i, l);
    SampleOfClassified(reg, b, i, l);
    SampleOfClassified(reg, c, j, l);
  }

  /** FAA (RA) collects the two FAA accuracies in scan order. */
  lemma EndToEndFaa(accA: real, accB: real, accC: real)
    ensures Samples(AugMethods, ExampleViews(accA, accB, accC), "FAA (RA)") == [accA * 100.0, accB * 100.0]
  {
    var vs := ExampleViews(accA, accB, accC);
    ExampleClassification();
    TwoMethodsGrouped(AugMethods, vs[0], vs[1], vs[2], 0, 1, "FAA (RA)");
  }

  /** UA (UA) collects the accuracy of the one UA run. */
  lemma EndToEndUa(accA: real, accB: real, accC: real)
    ensures Samples(AugMethods, ExampleViews(accA, accB, accC), "UA (UA)") == [accC * 100.0]
  {
    var vs := ExampleViews(accA, accB, accC);
    ExampleClassification();
    TwoMethodsGrouped(AugMethods, vs[0], vs[1], vs[2], 0, 1, "UA (UA)");
  }

  /** TA (RA), with no matching file, collects nothing. */
  lemma EndToEndTa(accA: real, accB: real, accC: real)
    ensures Samples(AugMethods, ExampleViews(accA, accB, accC), "TA (RA)") == []
  {
    var vs := ExampleViews(accA, accB, accC);
    ExampleClassification();
    TwoMethodsGrouped(AugMethods, vs[0], vs[1], vs[2], 0, 1, "TA (RA)");
  }

  /** The FAA (RA) mean of the end-to-end example. */
  lemma EndToEndMean()
    ensures Mean([96.4, 96.3]) == 96.35
  {
    assert [96.4, 96.3][..1] == [96.4];
    assert [96.4][..0] == [];
    assert Sum([96.4, 96.3]) == 192.7;
  }

  // ---------------------------------------------------------------------------
  // Comparison of two models
  // ---------------------------------------------------------------------------

  /** One comparison row; `difference` is the first model's mean minus the second's. */
  datatype Row = Row(methodName: string, mean40: real, ci40: real, mean28: real, ci28: real, difference: real)

  /** Both groupings can be indexed by every registry label. */
  predicate Covers(reg: Registry, g: map<string, seq<real>>) {
    forall i :: 0 <= i < |reg| ==> reg[i].methodName in g
  }

  /** Python truthiness of a `process_checkpoint_dir` result: not None, not an empty dict. */
  predicate Truthy(r: Option<map<string, seq<real>>>) {
    r.Some? && r.value != map[]
  }

  function RowFor(l: string, g40: map<string, seq<real>>, g28: map<string, seq<real>>,
                  halfWidth: seq<real> -> real): seq<Row>
    requires l in g40 && l in g28
  {
    if |g40[l]| > 0 && |g28[l]| > 0 then
      var (m40, c40) := ConfidenceInterval(g40[l], halfWidth);
      var (m28, c28) := ConfidenceInterval(g28[l], halfWidth);
      [Row(l, m40, c40, m28, c28, m40 - m28)]
    else []
  }

  /** The comparison rows for the registry entries, in registry order. */
  function ComparisonRows(reg: Registry, g40: map<string, seq<real>>, g28: map<string, seq<real>>,
                          halfWidth: seq<real> -> real): seq<Row>
    requires Covers(reg, g40) && Covers(reg, g28)
  {
    if reg == [] then []
    else ComparisonRows(reg[..|reg| - 1], g40, g28, halfWidth) + RowFor(reg[|reg| - 1].methodName, g40, g28, halfWidth)
  }

  /** The comparison block: nothing unless both results are truthy, else one row per
      method that has samples in both groupings. */
  method CompareModels(reg: Registry, results40: Option<map<string, seq<real>>>,
                       results28: Option<map<string, seq<real>>>, halfWidth: seq<real> -> real)
    returns (rows: Option<seq<Row>>)
    requires results40.Some? ==> Covers(reg, results40.value)
    requires results28.Some? ==> Covers(reg, results28.value)
    ensures rows.Some? <==> Truthy(results40) && Truthy(results28)
    ensures rows.Some? ==> rows.value == ComparisonRows(reg, results40.value, results28.value, halfWidth)
  {
    if !(Truthy(results40) && Truthy(results28)) {
      return None;
    }
    var g40, g28 := results40.value, results28.value;
    var out: seq<Row> := [];
    for i := 0 to |reg|
      invariant out == ComparisonRows(reg[..i], g40, g28, halfWidth)
    {
      assert reg[..i + 1][..i] == reg[..i];
      var l := reg[i].methodName;
      var accs40, accs28 := g40[l], g28[l];
      if |accs40| > 0 && |accs28| > 0 {
        var (mean40, ci40) := ConfidenceInterval(accs40, halfWidth);
        var (mean28, ci28) := ConfidenceInterval(accs28, halfWidth);
        var diff := mean40 - mean28;
        out := out + [Row(l, mean40, ci40, mean28, ci28, diff)];
      }
    }
    assert reg[..|reg|] == reg;
    rows := Some(out);
  }

  /** Every row is for a label with samples on both sides and carries both means,
      both half-widths and the difference of the means. */
  lemma {:induction false} ComparisonRowValues(reg: Registry, g40: map<string, seq<real>>,
                                               g28: map<string, seq<real>>, halfWidth: seq<real> -> real)
    requires Covers(reg, g40) && Covers(reg, g28)
    ensures forall r :: r in ComparisonRows(reg, g40, g28, halfWidth) ==>
      r.methodName in g40 && r.methodName in g28 &&
      |g40[r.methodName]| > 0 && |g28[r.methodName]| > 0 &&
      r.mean40 == Mean(g40[r.methodName]) && r.ci40 == halfWidth(g40[r.methodName]) &&
      r.mean28 == Mean(g28[r.methodName]) && r.ci28 == halfWidth(g28[r.methodName]) &&
      r.difference == r.mean40 - r.mean28
  {
    if reg != [] {
      var init := reg[..|reg| - 1];
      assert Covers(init, g40) && Covers(init, g28);
      ComparisonRowValues(init, g40, g28, halfWidth);
    }
  }

  /** Rows follow registry order: row `k` is for entry `idx[k]`, and `idx` increases. */
  lemma {:induction false} ComparisonRowsInOrder(reg: Registry, g40: map<string, seq<real>>,
                                                 g28: map<string, seq<real>>, halfWidth: seq<real> -> real)
    returns (idx: seq<nat>)
    requires Covers(reg, g40) && Covers(reg, g28)
    ensures |idx| == |ComparisonRows(reg, g40, g28, halfWidth)|
    ensures forall k :: 0 <= k < |idx| ==>
      idx[k] < |reg| && ComparisonRows(reg, g40, g28, halfWidth)[k].methodName == reg[idx[k]].methodName
    ensures forall k1, k2 :: 0 <= k1 < k2 < |idx| ==> idx[k1] < idx[k2]
  {
    if reg == [] {
      idx := [];
    } else {
      var init := reg[..|reg| - 1];
      assert Covers(init, g40) && Covers(init, g28);
      var idx0 := ComparisonRowsInOrder(init, g40, g28, halfWidth);
      var l := reg[|reg| - 1].methodName;
      if |g40[l]| > 0 && |g28[l]| > 0 {
        idx := idx0 + [|reg| - 1];
      } else {
        idx := idx0;
      }
    }
  }

  /** A registry label yields a row exactly when both groupings have samples for it. */
  lemma {:induction false} ComparisonRowPresence(reg: Registry, g40: map<string, seq<real>>,
                                                 g28: map<string, seq<real>>, halfWidth: seq<real> -> real, i: nat)
    requires Covers(reg, g40) && Covers(reg, g28) && i < |reg|
    ensures (exists r :: r in ComparisonRows(reg, g40, g28, halfWidth) && r.methodName == reg[i].methodName)
      <==> |g40[reg[i].methodName]| > 0 && |g28[reg[i].methodName]| > 0
  {
    var l := reg[i].methodName;
    ComparisonRowValues(reg, g40, g28, halfWidth);
    if |g40[l]| > 0 && |g28[l]| > 0 {
      var init := reg[..|reg| - 1];
      assert Covers(init, g40) && Covers(init, g28);
      var prev := ComparisonRows(init, g40, g28, halfWidth);
      if i == |reg| - 1 {
        var last := RowFor(l, g40, g28, halfWidth);
        assert last[0] in prev + last;
      } else {
        ComparisonRowPresence(init, g40, g28, halfWidth, i);
        var r :| r in prev && r.methodName == l;
        assert r in prev + RowFor(reg[|reg| - 1].methodName, g40, g28, halfWidth);
      }
    }
  }

  /** Groupings produced by the scan can always be compared. */
  lemma GroupingCovers(reg: Registry, vs: seq<View>)
    ensures Covers(reg, Grouping(reg, vs))
  {
    forall i | 0 <= i < |reg|
      ensures reg[i].methodName in Grouping(reg, vs)
    {
      assert reg[i] in reg;
    }
  }

  /** An example: with a one-entry registry, FAA (RA) gets no comparison row when the
      second model has no FAA (RA) samples. */
  lemma OneSidedMethodOmitted()
    ensures
      var reg := [Entry("FAA (RA)", "expFAA")];
      var g40 := map["FAA (RA)" := [96.0, 96.4]];
      var g28 := map["FAA (RA)" := []];
      ComparisonRows(reg, g40, g28, (xs: seq<real>) => 0.0) == []
  {
    var reg := [Entry("FAA (RA)", "expFAA")];
    assert reg[..0] == [];
  }
}

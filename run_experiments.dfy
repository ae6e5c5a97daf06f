/**
 * The repeated-experiment runner (run_experiments.py): run numbering, the tag and
 * checkpoint name given to each training run, the sequential batch loop that stops
 * only after a failure answered with "2", the success count and the closing report.
 * The training subprocess and the operator's console answers are inputs: run `n`
 * exits with `exitCodes[n - 1]`, and `answers[n - 1]` is what the operator types if
 * run `n` fails.
 */
module RunExperiments {
  import Results

  const ConfigPath: string := "confs/wrn40x2/wresnet40x2_cifar10_b128_maxlr.1_ua_uasesp_nowarmup_200epochs.yaml"
  const NumRuns: nat := 10
  const LocalDir: string := "wrn_40x2"

  // ---------------------------------------------------------------------------
  // Decimal run numbers
  // ---------------------------------------------------------------------------

  predicate IsDigit(c: char) {
    '0' <= c <= '9'
  }

  function DigitChar(d: nat): (c: char)
    requires d < 10
    ensures IsDigit(c) && (c as int) - ('0' as int) == d
  {
    (('0' as int) + d) as char
  }

  /** `f"{n}"` for a natural number: its decimal digits, most significant first. */
  function NatToString(n: nat): string
    decreases n
  {
    if n < 10 then [DigitChar(n)] else NatToString(n / 10) + [DigitChar(n % 10)]
  }

  function DigitValue(c: char): (d: nat)
    requires IsDigit(c)
    ensures d < 10
  {
    (c as int) - ('0' as int)
  }

  /** The value of a string of decimal digits. */
  function DecimalValue(s: string): nat
    requires forall k :: 0 <= k < |s| ==> IsDigit(s[k])
  {
    if s == [] then 0 else 10 * DecimalValue(s[..|s| - 1]) + DigitValue(s[|s| - 1])
  }

  /** The rendering consists of digits, is never empty, has no leading zero unless it
      is "0" itself, and reads back as `n`: it is the canonical decimal form. */
  lemma {:induction false} NatToStringRoundTrip(n: nat)
    ensures |NatToString(n)| > 0
    ensures forall k :: 0 <= k < |NatToString(n)| ==> IsDigit(NatToString(n)[k])
    ensures NatToString(n)[0] == '0' ==> n == 0
    ensures DecimalValue(NatToString(n)) == n
    decreases n
  {
    if n >= 10 {
      NatToStringRoundTrip(n / 10);
      var s := NatToString(n);
      assert s[..|s| - 1] == NatToString(n / 10);
      assert s[0] == NatToString(n / 10)[0];
    }
  }

  /** Distinct run numbers render differently. */
  lemma NatToStringInjective(a: nat, b: nat)
    requires NatToString(a) == NatToString(b)
    ensures a == b
  {
    NatToStringRoundTrip(a);
    NatToStringRoundTrip(b);
  }

  // ---------------------------------------------------------------------------
  // Names and the training command of one run (run_experiment)
  // ---------------------------------------------------------------------------

  const TagStem: string := "expUAua_wrn40x2_"

  /** The `--tag` of run `n`. */
  function Tag(n: nat): string {
    TagStem + NatToString(n)
  }

  /** The checkpoint file name of run `n`: the tag plus `.pth`. */
  function CheckpointFile(n: nat): string {
    Tag(n) + ".pth"
  }

  /** `str(Path("wrn_40x2") / file)` on POSIX, where `Path` joins with `/`. */
  function CheckpointPath(n: nat): string {
    LocalDir + "/" + CheckpointFile(n)
  }

  /** The argument vector of run `n`, with `python` the running interpreter. */
  function Command(python: string, n: nat): seq<string> {
    [python, "-m", "TrivialAugment.train", "-c", ConfigPath, "--dataroot", "data",
     "--tag", Tag(n), "--save", CheckpointPath(n)]
  }

  /** Each run gets its own tag, so no two runs of a batch share a tag or a checkpoint. */
  lemma TagInjective(a: nat, b: nat)
    requires Tag(a) == Tag(b)
    ensures a == b
  {
    assert NatToString(a) == Tag(a)[|TagStem|..];
    assert NatToString(b) == Tag(b)[|TagStem|..];
    NatToStringInjective(a, b);
  }

  lemma CheckpointFileInjective(a: nat, b: nat)
    requires CheckpointFile(a) == CheckpointFile(b)
    ensures a == b
  {
    NatToStringRoundTrip(a);
    NatToStringRoundTrip(b);
    assert Tag(a) == CheckpointFile(a)[..|CheckpointFile(a)| - 4];
    assert Tag(b) == CheckpointFile(b)[..|CheckpointFile(b)| - 4];
    TagInjective(a, b);
  }

  /** The checkpoint name holds no directory separator. */
  lemma CheckpointFileHasNoSeparator(n: nat)
    ensures '/' !in CheckpointFile(n) && '\\' !in CheckpointFile(n)
  {
    NatToStringRoundTrip(n);
    var f := CheckpointFile(n);
    forall k | 0 <= k < |f|
      ensures f[k] != '/' && f[k] != '\\'
    {
      if k >= |TagStem| && k < |Tag(n)| {
        assert f[k] == NatToString(n)[k - |TagStem|];
      }
    }
  }

  /** The checkpoint saved by run `n` strips to its file name, and the aggregation
      classifies that file as "UA (UA)", the registry entry with prefix `expUAua`. */
  lemma SavedCheckpointIsUaUa(n: nat)
    ensures Results.BareFilename(CheckpointPath(n)) == CheckpointFile(n)
    ensures Results.Classify(Results.AugMethods, CheckpointFile(n)) == Results.Some(1)
    ensures Results.AugMethods[1].methodName == "UA (UA)"
  {
    CheckpointFileHasNoSeparator(n);
    Results.BareFilenameOfPath(LocalDir, CheckpointFile(n));
    var f := CheckpointFile(n);
    assert f[..7] == "expUAua";
    Results.NotStartsWithAt(f, "expFAA", 3);
    Results.ClassifyIsFirstMatch(Results.AugMethods, f, 1);
  }

  /** The command trains with the fixed configuration and passes the run's tag and
      checkpoint path after `--tag` and `--save`; the file saved under `--save` is named
      after the `--tag` argument and is aggregated as "UA (UA)". */
  lemma CommandArguments(python: string, n: nat)
    ensures var cmd := Command(python, n);
      |cmd| == 11 && cmd[0] == python &&
      cmd[3] == "-c" && cmd[4] == ConfigPath &&
      cmd[7] == "--tag" && cmd[8] == Tag(n) && cmd[9] == "--save" && cmd[10] == CheckpointPath(n)
    ensures var cmd := Command(python, n);
      Results.BareFilename(cmd[10]) == cmd[8] + ".pth" &&
      Results.Classify(Results.AugMethods, Results.BareFilename(cmd[10])) == Results.Some(1)
  {
    SavedCheckpointIsUaUa(n);
  }

  /** Distinct runs are given distinct commands. */
  lemma CommandInjective(python: string, a: nat, b: nat)
    requires Command(python, a) == Command(python, b)
    ensures a == b
  {
    assert Tag(a) == Command(python, a)[8];
    assert Tag(b) == Command(python, b)[8];
    TagInjective(a, b);
  }

  // ---------------------------------------------------------------------------
  // Elapsed time
  // ---------------------------------------------------------------------------

  /** `divmod(elapsed, 3600)` and then `divmod(remainder, 60)`, on whole seconds. */
  function SplitElapsed(elapsed: nat): (r: (nat, nat, nat))
    ensures r.0 * 3600 + r.1 * 60 + r.2 == elapsed
    ensures r.1 < 60 && r.2 < 60
  {
    var hours, remainder := elapsed / 3600, elapsed % 3600;
    (hours, remainder / 60, remainder % 60)
  }

  /** Hours, minutes and seconds with minutes and seconds below 60 are unique. */
  lemma SplitElapsedUnique(elapsed: nat, h: nat, m: nat, s: nat)
    requires h * 3600 + m * 60 + s == elapsed && m < 60 && s < 60
    ensures SplitElapsed(elapsed) == (h, m, s)
  {
    var r := SplitElapsed(elapsed);
    assert m * 60 + s < 3600;
    assert r.1 * 60 + r.2 < 3600;
    if r.0 < h {
      assert false;
    } else if r.0 > h {
      assert false;
    }
    assert r.1 * 60 + r.2 == m * 60 + s;
    if r.1 < m {
      assert false;
    } else if r.1 > m {
      assert false;
    }
  }

  // ---------------------------------------------------------------------------
  // The operator's answer
  // ---------------------------------------------------------------------------

  /** The ASCII characters `str.strip()` removes: space, tab through carriage return,
      and the four information separators U+001C to U+001F. */
  predicate IsSpace(c: char) {
    c == ' ' || '\t' <= c <= '\r' || '\U{001C}' <= c <= '\U{001F}'
  }

  function StripLeft(s: string): string {
    if s != [] && IsSpace(s[0]) then StripLeft(s[1..]) else s
  }

  function StripRight(s: string): string {
    if s != [] && IsSpace(s[|s| - 1]) then StripRight(s[..|s| - 1]) else s
  }

  /** `str.strip()`. */
  function Strip(s: string): string {
    StripRight(StripLeft(s))
  }

  lemma {:induction false} StripLeftSpec(s: string)
    ensures var r := StripLeft(s);
      Results.IsSuffix(r, s) && (r == [] || !IsSpace(r[0])) &&
      forall k :: 0 <= k < |s| - |r| ==> IsSpace(s[k])
  {
    if s != [] && IsSpace(s[0]) {
      StripLeftSpec(s[1..]);
      var r := StripLeft(s[1..]);
      assert s[1..][|s[1..]| - |r|..] == s[|s| - |r|..];
      forall k | 0 <= k < |s| - |r|
        ensures IsSpace(s[k])
      {
        if k > 0 {
          assert s[k] == s[1..][k - 1];
        }
      }
    }
  }

  lemma {:induction false} StripRightSpec(s: string)
    ensures var r := StripRight(s);
      Results.StartsWith(s, r) && (r == [] || !IsSpace(r[|r| - 1])) &&
      forall k :: |r| <= k < |s| ==> IsSpace(s[k])
  {
    if s != [] && IsSpace(s[|s| - 1]) {
      var init := s[..|s| - 1];
      StripRightSpec(init);
      var r := StripRight(init);
      assert s[..|r|] == init[..|r|];
      forall k | |r| <= k < |s|
        ensures IsSpace(s[k])
      {
        if k < |init| {
          assert s[k] == init[k];
        }
      }
    }
  }

  /** `strip` cuts whitespace off both ends and nothing else: the result is the slice
      `s[i..j]`, everything outside it is whitespace, and it neither starts nor ends
      with whitespace. */
  lemma StripSpec(s: string) returns (i: nat, j: nat)
    ensures i <= j <= |s| && Strip(s) == s[i..j]
    ensures forall k :: 0 <= k < i ==> IsSpace(s[k])
    ensures forall k :: j <= k < |s| ==> IsSpace(s[k])
    ensures Strip(s) == [] || (!IsSpace(Strip(s)[0]) && !IsSpace(Strip(s)[|Strip(s)| - 1]))
  {
    var l := StripLeft(s);
    StripLeftSpec(s);
    var r := StripRight(l);
    StripRightSpec(l);
    i, j := TrimmedSlice(s, l, r);
  }

  /** Cutting a whitespace prefix off `s` leaves `l`, and cutting a whitespace suffix off
      `l` leaves `r`: then `r` is the slice `s[i..j]` with whitespace outside it, and it
      neither starts nor ends with whitespace. */
  lemma TrimmedSlice(s: string, l: string, r: string) returns (i: nat, j: nat)
    requires Results.IsSuffix(l, s) && (l == [] || !IsSpace(l[0]))
    requires forall k :: 0 <= k < |s| - |l| ==> IsSpace(s[k])
    requires Results.StartsWith(l, r) && (r == [] || !IsSpace(r[|r| - 1]))
    requires forall k :: |r| <= k < |l| ==> IsSpace(l[k])
    ensures i <= j <= |s| && r == s[i..j]
    ensures forall k :: 0 <= k < i ==> IsSpace(s[k])
    ensures forall k :: j <= k < |s| ==> IsSpace(s[k])
    ensures r == [] || (!IsSpace(r[0]) && !IsSpace(r[|r| - 1]))
  {
    i := |s| - |l|;
    j := i + |r|;
    assert l == s[i..];
    assert r == s[i..j];
    forall k | j <= k < |s|
      ensures IsSpace(s[k])
    {
      assert s[k] == l[k - i];
    }
    if r != [] {
      assert r[0] == l[0];
    }
  }

  /** A line consisting of "2" and surrounding whitespace stops the batch; "1", "12"
      and the empty line do not. */
  lemma StripExamples()
    ensures Strip(" 2\n") == "2"
    ensures Strip("2") == "2"
    ensures Strip("1") != "2" && Strip("12") != "2" && Strip("") != "2"
    ensures Strip("\U{001F}2") == "2"
  {
    assert " 2\n"[1..] == "2\n";
    assert "2\n"[..1] == "2";
    assert "\U{001F}2"[1..] == "2";
  }

  // ---------------------------------------------------------------------------
  // The batch loop of main
  // ---------------------------------------------------------------------------

  /** `subprocess.run(cmd, check=True)` returns normally exactly on exit code 0;
      any other exit code raises CalledProcessError, which marks the run failed. */
  predicate Succeeded(exitCode: int) {
    exitCode == 0
  }

  /** The batch stops after run `k + 1`: it failed and the operator answered "2". */
  predicate StopsAfter(exitCodes: seq<int>, answers: seq<string>, k: nat)
    requires k < |exitCodes| && k < |answers|
  {
    !Succeeded(exitCodes[k]) && Strip(answers[k]) == "2"
  }

  /** The number of runs recorded when runs `from + 1`, ... are still to go. */
  function RecordedFrom(exitCodes: seq<int>, answers: seq<string>, from: nat): (n: nat)
    requires from <= NumRuns <= |exitCodes| && NumRuns <= |answers|
    ensures from < n <= NumRuns || (from == n == NumRuns)
    ensures n < NumRuns ==> StopsAfter(exitCodes, answers, n - 1)
    ensures forall j :: from <= j < n - 1 ==> !StopsAfter(exitCodes, answers, j)
    decreases NumRuns - from
  {
    if from == NumRuns then NumRuns
    else if StopsAfter(exitCodes, answers, from) then from + 1
    else RecordedFrom(exitCodes, answers, from + 1)
  }

  /** How many runs `main` records: up to and including the first failed run answered
      with "2", or all `NumRuns` runs if there is none. */
  function RecordedCount(exitCodes: seq<int>, answers: seq<string>): (n: nat)
    requires NumRuns <= |exitCodes| && NumRuns <= |answers|
    ensures 1 <= n <= NumRuns
    ensures n < NumRuns ==> StopsAfter(exitCodes, answers, n - 1)
    ensures forall j :: 0 <= j < n - 1 ==> !StopsAfter(exitCodes, answers, j)
  {
    RecordedFrom(exitCodes, answers, 0)
  }

  /** The recorded count is the only count that stops where the batch stops. */
  lemma RecordedCountUnique(exitCodes: seq<int>, answers: seq<string>, n: nat)
    requires NumRuns <= |exitCodes| && NumRuns <= |answers|
    requires 1 <= n <= NumRuns
    requires n == NumRuns || StopsAfter(exitCodes, answers, n - 1)
    requires forall j :: 0 <= j < n - 1 ==> !StopsAfter(exitCodes, answers, j)
    ensures n == RecordedCount(exitCodes, answers)
  {
    var m := RecordedCount(exitCodes, answers);
    if m < n {
      assert false;
    } else if n < m {
      assert false;
    }
  }

  /** A failure answered with anything but "2" does not end the batch. */
  lemma OtherAnswerContinues(exitCodes: seq<int>, answers: seq<string>, k: nat)
    requires NumRuns <= |exitCodes| && NumRuns <= |answers|
    requires k + 1 < NumRuns && k + 1 <= RecordedCount(exitCodes, answers)
    requires Strip(answers[k]) != "2"
    ensures k + 1 < RecordedCount(exitCodes, answers)
  {
  }

  /** The number of successful entries of the results list. */
  function CountSuccesses(results: seq<(nat, bool)>): nat {
    if results == [] then 0
    else CountSuccesses(results[..|results| - 1]) + (if results[|results| - 1].1 then 1 else 0)
  }

  /** At most every run succeeded, and all did exactly when the count is the length. */
  lemma {:induction false} CountSuccessesBounds(results: seq<(nat, bool)>)
    ensures CountSuccesses(results) <= |results|
    ensures CountSuccesses(results) == |results| <==> forall k :: 0 <= k < |results| ==> results[k].1
  {
    if results != [] {
      var init := results[..|results| - 1];
      CountSuccessesBounds(init);
      assert forall k :: 0 <= k < |init| ==> init[k] == results[k];
    }
  }

  /** The closing message: all runs completed, or how many recorded runs did not succeed. */
  datatype Report = AllCompleted | SomeFailed(count: nat)

  /** The entries `(run number, success)` of the first `n` runs. */
  function Entries(exitCodes: seq<int>, n: nat): (r: seq<(nat, bool)>)
    requires n <= |exitCodes|
    ensures |r| == n
  {
    if n == 0 then [] else Entries(exitCodes, n - 1) + [(n, Succeeded(exitCodes[n - 1]))]
  }

  lemma {:induction false} EntriesPointwise(exitCodes: seq<int>, n: nat)
    requires n <= |exitCodes|
    ensures forall k :: 0 <= k < n ==> Entries(exitCodes, n)[k] == (k + 1, Succeeded(exitCodes[k]))
  {
    if n > 0 {
      EntriesPointwise(exitCodes, n - 1);
    }
  }

  /** The typed line is "2" with nothing but whitespace around it. */
  predicate PaddedTwo(answer: string) {
    exists i: nat, j: nat :: i <= j <= |answer| && answer[i..j] == "2" &&
      (forall k :: 0 <= k < i ==> IsSpace(answer[k])) &&
      (forall k :: j <= k < |answer| ==> IsSpace(answer[k]))
  }

  /** The stripped answer is "2" exactly when the line is "2" padded with whitespace. */
  lemma StripIsTwo(answer: string)
    ensures Strip(answer) == "2" <==> PaddedTwo(answer)
  {
    var i', j' := StripSpec(answer);
    if Strip(answer) == "2" {
      assert answer[i'..j'] == "2";
    }
    if PaddedTwo(answer) {
      var i: nat, j: nat :| i <= j <= |answer| && answer[i..j] == "2" &&
        (forall k :: 0 <= k < i ==> IsSpace(answer[k])) &&
        (forall k :: j <= k < |answer| ==> IsSpace(answer[k]));
      assert answer[i] == answer[i..j][0] == '2';
      assert j == i + 1;
      assert i' <= i;
      assert Strip(answer) != [];
      assert i <= i' by {
        assert answer[i'] == Strip(answer)[0];
      }
      assert j' == j by {
        assert answer[j' - 1] == Strip(answer)[|Strip(answer)| - 1];
      }
    }
  }

  /** The prompt after a failed run: the batch stops exactly when the operator typed
      "2", possibly with whitespace around it. */
  method AskToStop(answer: string) returns (stop: bool)
    ensures stop <==> PaddedTwo(answer)
  {
    var choice := Strip(answer);
    stop := choice == "2";
    StripIsTwo(answer);
  }


  /** The run loop of `main`: `results` holds `(run number, success)` for each recorded
      run, in order, up to the first failure answered with "2". */
  method RunBatch(exitCodes: seq<int>, answers: seq<string>) returns (results: seq<(nat, bool)>)
    requires NumRuns <= |exitCodes| && NumRuns <= |answers|
    ensures |results| == RecordedCount(exitCodes, answers)
    ensures forall k :: 0 <= k < |results| ==> results[k] == (k + 1, Succeeded(exitCodes[k]))
  {
    results := [];
    for runNum := 1 to NumRuns + 1
      invariant results == Entries(exitCodes, runNum - 1)
      invariant forall j :: 0 <= j < runNum - 1 ==> !StopsAfter(exitCodes, answers, j)
    {
      var success := Succeeded(exitCodes[runNum - 1]);
      results := results + [(runNum, success)];
      if !success {
        var stop := AskToStop(answers[runNum - 1]);
        StripIsTwo(answers[runNum - 1]);
        if stop {
          assert StopsAfter(exitCodes, answers, runNum - 1);
          break;
        }
      }
      assert !StopsAfter(exitCodes, answers, runNum - 1);
    }
    RecordedCountUnique(exitCodes, answers, |results|);
    EntriesPointwise(exitCodes, |results|);
  }

  /** The summary of `main`: `successCount` counts the successful entries and `report`
      is the closing message. */
  method Summarize(results: seq<(nat, bool)>) returns (successCount: nat, report: Report)
    ensures successCount == CountSuccesses(results)
    ensures report == AllCompleted <==> successCount == NumRuns
    ensures report.SomeFailed? ==> report.count == |results| - successCount
  {
    successCount := 0;
    for i := 0 to |results|
      invariant successCount == CountSuccesses(results[..i])
    {
      assert results[..i + 1][..i] == results[..i];
      if results[i].1 {
        successCount := successCount + 1;
      }
    }
    assert results[..|results|] == results;
    CountSuccessesBounds(results);
    if successCount == NumRuns {
      report := AllCompleted;
    } else {
      report := SomeFailed(|results| - successCount);
    }
  }

  /** "All runs completed" is reported exactly when every one of the `NumRuns` runs ran
      and succeeded. */
  lemma AllCompletedIffEveryRunSucceeded(exitCodes: seq<int>, answers: seq<string>,
                                         results: seq<(nat, bool)>)
    requires NumRuns <= |exitCodes| && NumRuns <= |answers|
    requires |results| == RecordedCount(exitCodes, answers)
    requires forall k :: 0 <= k < |results| ==> results[k] == (k + 1, Succeeded(exitCodes[k]))
    ensures CountSuccesses(results) == NumRuns <==> forall k :: 0 <= k < NumRuns ==> Succeeded(exitCodes[k])
  {
    CountSuccessesBounds(results);
    if forall k :: 0 <= k < NumRuns ==> Succeeded(exitCodes[k]) {
      if |results| < NumRuns {
        assert false;
      }
      assert forall k :: 0 <= k < |results| ==> results[k].1;
    }
  }

  /** The failure count covers only recorded runs. When run 2 fails and the operator
      answers "2", the loop's results (as `RunBatch` promises them) are runs 1 and 2, one
      success is counted and one failure is reported, while 9 of the 10 runs did not
      succeed. */
  lemma FailureCountExcludesSkippedRuns(results: seq<(nat, bool)>)
    requires var exitCodes := [0, 1, 0, 0, 0, 0, 0, 0, 0, 0];
      var answers := ["", "2", "", "", "", "", "", "", "", ""];
      |results| == RecordedCount(exitCodes, answers) &&
      forall k :: 0 <= k < |results| ==> results[k] == (k + 1, Succeeded(exitCodes[k]))
    ensures results == [(1, true), (2, false)]
    ensures CountSuccesses(results) == 1 && |results| - CountSuccesses(results) == 1
    ensures NumRuns - CountSuccesses(results) == 9
  {
    var exitCodes := [0, 1, 0, 0, 0, 0, 0, 0, 0, 0];
    var answers := ["", "2", "", "", "", "", "", "", "", ""];
    assert Strip("2") == "2";
    assert !StopsAfter(exitCodes, answers, 0);
    assert StopsAfter(exitCodes, answers, 1);
    RecordedCountUnique(exitCodes, answers, 2);
    assert results[0] == (1, true) && results[1] == (2, false);
    assert results == [(1, true), (2, false)];
    assert results[..1] == [(1, true)] && results[..1][..0] == [];
    assert CountSuccesses(results[..1]) == CountSuccesses([]) + 1;
  }
}

# TrivialAugment result aggregation and batch runner, in Dafny

This project models the two scripts that drive and evaluate repeated WideResNet
training runs on CIFAR-10 with different augmentation methods:

- `results.py` scans a directory of training checkpoints. For each one it:
  - loads it and reads its final top-1 test accuracy;
  - strips the path down to a bare filename;
  - assigns the file to the first augmentation method, in registry order, whose prefix
    starts the filename;
  - collects the accuracies, in percent, per method, next to a per-run table.

  It then reports each method's mean with a 95 % confidence interval. Finally it compares
  the two models (WRN-40-2 and WRN-28-2), one row per method that has results for both.
- `run_experiments.py` runs the training program ten times in sequence. Each run gets its
  own tag and checkpoint path. After a failed run the operator is asked whether to go on,
  and the answer "2" stops the batch. In the end the script counts the successful runs and
  says whether every run completed.

Module `Results` (`results.dfy`) holds the first script:

- The registry is `AugMethods`, an ordered sequence of (label, prefix) entries. It is
  ordered because Python dictionaries iterate in insertion order and the first match
  wins.
- A checkpoint is its path plus the outcome of loading it (`LoadOutcome`).
- `Inspect` decides what a checkpoint contributes:
  - accepted: it has log, test and top1;
  - silently skipped: it has no log or no test;
  - reported as an error: the load failed, or top1 is missing, which in Python is a
    `KeyError` caught by the same handler.
- `Views` pairs each checkpoint with its bare filename and its contribution.
- The method `ProcessCheckpointDir` is the loop of `process_checkpoint_dir`. It is proved
  against specification functions over those views:
  - `Runs` is the per-run table;
  - `Errors` is the reported paths;
  - `Samples` and `Grouping` are `results_by_method`.
- Its loop body is factored out as `ScanCheckpoint`, and the inner prefix loop, with its
  `break`, as `FirstMatch`.
- `CompareModels` is the comparison block. It is proved against `ComparisonRows`.

Module `RunExperiments` (`run_experiments.dfy`) holds the second script:

- How a run number is written in decimal (`NatToString`).
- The tag, the checkpoint name and the command line of run `n`.
- The `divmod` split of elapsed seconds.
- `str.strip` on the operator's answer.
- The run loop of `main` (`RunBatch`) and its summary (`Summarize`).

The training subprocess and the console are inputs: run `n` exits with
`exitCodes[n - 1]`, and `answers[n - 1]` is the line the operator types if run `n` fails.
`RecordedCount` is the number of runs the batch records: runs go on up to and including
the first failure answered with "2", or all ten runs if there is none.

Three behaviours of the code are modelled as written:

- Not every unusable checkpoint is reported. A checkpoint without `log`/`test` is
  skipped silently; for a real-valued `top1`, an error is printed only when loading fails
  or `top1` is missing. `Inspect` has exactly these three cases (an exception after the
  sample is appended is under "Left out").
- There is no special case for a method with a single sample. With `n = 1`,
  `np.std(ddof=1)` and `t.ppf(df=0)` give NaN. The half-width is a parameter of the
  model (see "Left out").
- The closing message says that `len(results) - success_count` runs "failed or were
  skipped", but the count covers recorded runs only. Runs never started after a stop are
  not included. `FailureCountExcludesSkippedRuns` shows this for a stop after a failed
  second run: the results are runs 1 and 2, one success is counted, and one failure is
  reported, although nine of the ten runs did not succeed.

## Model

| member | source | states |
|---|---|---|
| Results.AugMethodsWellFormed | results.py:8-14 | The registry has five entries with pairwise distinct labels. |
| Results.AfterLastSpec | results.py:42 | `split(sep)[-1]` contains no `sep`, is a suffix of its input, and is either the whole input or starts right after an occurrence of `sep`. |
| Results.AfterLastIsSuffix | results.py:42 | The part after the last separator is a suffix, either the whole string or preceded by the separator. |
| Results.AfterLastHasNoSeparator | results.py:42 | The part after the last separator contains no separator. |
| Results.BareFilenameSpec | results.py:42 | The bare filename contains neither `/` nor `\` and is a suffix of the path. |
| Results.AfterLastNoSeparator | results.py:42 | Splitting a string without the separator leaves it unchanged. |
| Results.AfterLastOfJoin | results.py:42 | Splitting `dir + sep + name` returns `name` when `name` has no `sep`. |
| Results.BareFilenameOfPath | results.py:42 | A file joined under any directory with `/` is stripped back to its own name. |
| Results.BareFilenameIdempotent | results.py:42 | Stripping a bare filename again changes nothing. |
| Results.ClassifyFrom | results.py:45-48 | A match found from index `i` has a matching prefix and no matching entry between `i` and it; no match means no entry from `i` on matches. |
| Results.Labels | results.py:32 | Definition: the set of registry labels, the keys of `results_by_method`. |
| Results.AfterLast | results.py:42 | Definition: `s.split(sep)[-1]`, the characters after the last `sep`, or all of `s` without one. |
| Results.BareFilename | results.py:42 | Definition: split on `/`, then on `\`, keeping the last part each time. |
| Results.StartsWith | results.py:46 | Definition: `str.startswith`, the string begins with the whole prefix. |
| Results.Inspect | results.py:36-41 | Definition: what a checkpoint contributes. A load failure is reported; a missing log or test is skipped; a missing top1 is reported; otherwise it is accepted with top1 and the epoch or "N/A". |
| Results.ViewOf | results.py:35-42 | Definition: a checkpoint's path, bare filename and contribution. |
| Results.Views | results.py:35 | Definition: the views of the listing, in listing order. |
| Results.RunOf | results.py:50-55 | Definition: an accepted checkpoint gives one record with filename, epoch, accuracy times 100 and `(1 - accuracy)` times 100; others give none. |
| Results.Runs | results.py:33-55 | Definition: `all_results`, the records of the views in scan order. |
| Results.ErrorOf | results.py:56-57 | Definition: a reported checkpoint gives its path as an error line; others give none. |
| Results.Errors | results.py:56-57 | Definition: the error paths in scan order. |
| Results.SampleOf | results.py:45-48 | Definition: an accepted checkpoint gives accuracy times 100 to the label of its first matching prefix, and nothing otherwise. |
| Results.Samples | results.py:47 | Definition: one label's list in `results_by_method`, the samples in scan order. |
| Results.Grouping | results.py:32-47 | Definition: `results_by_method`, every registry label mapped to its samples. |
| Results.AcceptedCount | results.py:38-39 | Definition: the number of accepted checkpoints. |
| Results.ClassifiedCount | results.py:45-48 | Definition: the number of accepted checkpoints whose filename matches some prefix. |
| Results.TotalFor | results.py:47 | Definition: the total length of the lists of the first `n` labels. |
| Results.Sum | results.py:19 | Definition: the sum of a sample. |
| Results.Covers | results.py:133-134 | Definition: a grouping has a key for every registry label. |
| Results.Truthy | results.py:125 | Definition: Python truthiness of a scan result, which must be neither `None` nor an empty dict. |
| Results.RowFor | results.py:136-139 | Definition: when both lists are non-empty, one row with both means, both half-widths and the first mean minus the second; otherwise none. |
| Results.ComparisonRows | results.py:132-139 | Definition: the rows for the registry labels, in registry order. |
| Results.Classify | results.py:45-48 | The result is the first entry whose prefix starts the filename; `None` exactly when no prefix does. |
| Results.FirstMatch | results.py:45-48 | The loop with `break` returns exactly `Classify`. |
| Results.ClassifyIsFirstMatch | results.py:45-48 | Any index that matches, with no earlier index matching, is the classification. |
| Results.EarlierPrefixShadows | results.py:45-48 | An entry whose prefix extends an earlier entry's prefix is never chosen. |
| Results.ClassifyRegisteredPrefix | results.py:8-14 | Every name that starts with the prefix of entry `i` of the actual registry is classified as entry `i`: no entry is shadowed. |
| Results.ClassifyUnknown | results.py:8-14 | Every registered prefix starts with "exp", so a filename that does not start with "exp" is assigned to no method. |
| Results.AmbiguousRegistryEarlierWins | results.py:45-48 | In a two-entry registry with overlapping prefixes, order decides. With "expUA" listed first, every name starting with "expUAua" goes to "expUA". With "expUAua" first, those names go to it and names starting with "expUAra" to "expUA". |
| Results.InspectCases | results.py:36-41 | A checkpoint is accepted exactly when it loaded with log, test and top1, and is reported exactly on a load failure or a missing top1. The accepted accuracy is the stored top1, and the epoch is the stored one or "N/A". |
| Results.ViewsPointwise | results.py:35 | There is one view per checkpoint, in listing order. |
| Results.ProcessCheckpointDir | results.py:27-92 | The records, the reported paths and the grouping equal `Runs`, `Errors` and `Grouping` of the listing; the result is `None` exactly when no run record was produced. |
| Results.ScanCheckpoint | results.py:36-57 | One checkpoint appends its run record and its error, if any, and keeps the grouping invariant for the listing extended by it. |
| Results.RejectedStep | results.py:36-57 | A skipped or reported checkpoint changes neither runs nor grouping; a reported one adds its path to the errors. |
| Results.UnclassifiedStep | results.py:45-55 | An accepted file with no matching prefix leaves every method's list unchanged. |
| Results.ClassifiedStep | results.py:45-48 | An accepted, classified file appends its accuracy times 100 to its method's list and no other. |
| Results.GroupingFromSamples | results.py:32-47 | A map that agrees with `Samples` on every label is the grouping. |
| Results.GroupingStep | results.py:45-48 | One more view extends exactly the list of its method, or changes nothing. |
| Results.GroupingShape | results.py:32 | The grouping has exactly the registry labels as keys, each starting empty. |
| Results.ViewsAppend | results.py:35 | The views of a concatenated listing are the concatenated views. |
| Results.RunsAppend | results.py:50-55 | The run table of a concatenation is the concatenation of the tables. |
| Results.ErrorsAppend | results.py:56-57 | The error paths of a concatenation are the concatenated error paths. |
| Results.SamplesAppend | results.py:47 | Each method's accuracies over a concatenation are the concatenated accuracies. |
| Results.RejectedCheckpointIgnored | results.py:36-57 | Removing a checkpoint that was not accepted changes neither the run table nor any method's accuracies. |
| Results.RunsCount | results.py:50-55 | The run table has one row per accepted checkpoint. |
| Results.AcceptedCountZero | results.py:59 | No checkpoint is accepted exactly when the accepted count is zero. |
| Results.NoneIffNothingLoaded | results.py:59-92 | The run table is empty, so the scan returns `None`, exactly when no checkpoint was accepted. |
| Results.TotalForStep | results.py:47 | One more view adds one sample over the first `n` labels exactly when it is accepted and classified to one of them. |
| Results.ClassifiedAtMostAccepted | results.py:45-50 | No more checkpoints are classified than accepted. |
| Results.TotalMatchesClassified | results.py:47 | The samples over all labels number exactly the classified checkpoints. |
| Results.SamplesAccountForClassifiedRuns | results.py:47-55 | All samples together number the classified runs, which are at most the run table's rows, for a real-valued `top1` (see "Left out"). |
| Results.UnclassifiedStillReturnsGrouping | results.py:50-59 | A lone accepted but unclassified checkpoint still yields a run record, and so a grouping with every list empty. |
| Results.Mean | results.py:19 | The mean times the sample size is the sum. |
| Results.ConfidenceInterval | results.py:16-25 | The first component is the mean of the sample and the second is the given half-width for it. |
| Results.SumBounds | results.py:19 | Elementwise bounds bound the sum by size times the bound. |
| Results.MeanBounds | results.py:19 | The mean lies between any lower and upper bound of the samples. |
| Results.MeanOfConstant | results.py:19 | The mean of a constant sample is that constant. |
| Results.ViewOfAccepted | results.py:37-42 | A fully loaded checkpoint at `dir/name` is accepted with its accuracy and epoch under the bare name. |
| Results.ExampleClassification | results.py:45-48 | Two FAA files classify as FAA (RA) and one UA file as UA (UA). |
| Results.SampleOfClassified | results.py:47 | An accepted file classified as entry `i` gives one sample to label `i` and none to the others. |
| Results.TwoMethodsGrouped | results.py:45-47 | Three accepted files, two of method `i` and one of method `j`, are grouped in order under their labels. |
| Results.EndToEndFaa | results.py:35-47 | In the three-file example, FAA (RA) collects both FAA accuracies, in percent and in order. |
| Results.EndToEndUa | results.py:35-47 | In the example, UA (UA) collects the one UA accuracy. |
| Results.EndToEndTa | results.py:35-47 | In the example, TA (RA) collects nothing. |
| Results.EndToEndMean | results.py:19 | The mean of 96.4 and 96.3 is 96.35. |
| Results.CompareModels | results.py:125-140 | The comparison runs exactly when both results are truthy, and then yields `ComparisonRows`. |
| Results.ComparisonRowValues | results.py:136-139 | Every row is for a method with samples in both models and carries both means, both half-widths and the difference of the means. |
| Results.ComparisonRowsInOrder | results.py:132 | Rows follow strictly increasing registry positions. |
| Results.ComparisonRowPresence | results.py:136 | A method has a row exactly when both models have samples for it. |
| Results.GroupingCovers | results.py:133-134 | A scan's grouping can be indexed by every label, so the comparison never misses a key. |
| Results.OneSidedMethodOmitted | results.py:136 | Example: with a one-entry registry, FAA (RA) gets no row when the second model has no FAA (RA) samples. |
| RunExperiments.NatToString | run_experiments.py:32 | Definition: the decimal digits of `n`, most significant first. |
| RunExperiments.DecimalValue | run_experiments.py:32 | Definition: the number a digit string denotes, the reading used to check the rendering. |
| RunExperiments.Tag | run_experiments.py:32 | Definition: `expUAua_wrn40x2_` followed by the run number. |
| RunExperiments.CheckpointFile | run_experiments.py:33 | Definition: the tag followed by `.pth`. |
| RunExperiments.CheckpointPath | run_experiments.py:29-33 | Definition: `wrn_40x2/` followed by the checkpoint file. |
| RunExperiments.Command | run_experiments.py:35-42 | Definition: the eleven-element argument vector of the training run. |
| RunExperiments.IsSpace | run_experiments.py:90 | Definition: the ASCII characters `str.strip()` removes: space, U+0009 to U+000D and U+001C to U+001F. |
| RunExperiments.StripLeft | run_experiments.py:90 | Definition: drops leading whitespace. |
| RunExperiments.StripRight | run_experiments.py:90 | Definition: drops trailing whitespace. |
| RunExperiments.Strip | run_experiments.py:90 | Definition: `str.strip()`, both ends. |
| RunExperiments.Succeeded | run_experiments.py:46-62 | Definition: `subprocess.run(check=True)` returns normally, and the run succeeds, exactly on exit code 0. |
| RunExperiments.StopsAfter | run_experiments.py:86-94 | Definition: the batch stops after run `k + 1` when it failed and the stripped answer is "2". |
| RunExperiments.CountSuccesses | run_experiments.py:107-112 | Definition: the number of successful entries of the results list. |
| RunExperiments.DigitChar | run_experiments.py:32 | The character for a digit below 10 is a decimal digit of that value. |
| RunExperiments.DigitValue | run_experiments.py:32 | A decimal digit has a value below 10. |
| RunExperiments.NatToStringRoundTrip | run_experiments.py:32 | The decimal form of a run number is a non-empty digit string with no leading zero (unless it is "0") that reads back as the number: the canonical form `f"{n}"` writes. |
| RunExperiments.NatToStringInjective | run_experiments.py:32 | Distinct numbers have distinct decimal forms. |
| RunExperiments.TagInjective | run_experiments.py:32 | Distinct runs get distinct tags. |
| RunExperiments.CheckpointFileInjective | run_experiments.py:33 | Distinct runs write distinct checkpoint files. |
| RunExperiments.CheckpointFileHasNoSeparator | run_experiments.py:33 | The checkpoint file name contains no path separator. |
| RunExperiments.SavedCheckpointIsUaUa | run_experiments.py:29-33 | The checkpoint a run saves is stripped by the scan to its file name and classified as "UA (UA)". |
| RunExperiments.CommandArguments | run_experiments.py:32-42 | The command has eleven arguments: the interpreter, `-c` with the config path, `--tag` with the run's tag and `--save` with its checkpoint path. The file saved under `--save` is named after the `--tag` argument plus `.pth`, and the aggregation classifies it as "UA (UA)". |
| RunExperiments.CommandInjective | run_experiments.py:32-42 | Distinct runs are given distinct commands. |
| RunExperiments.SplitElapsed | run_experiments.py:49-50 | Hours, minutes and seconds recombine to the elapsed time, with minutes and seconds below 60. |
| RunExperiments.SplitElapsedUnique | run_experiments.py:98-99 | Any split with minutes and seconds below 60 is the one `divmod` computes. |
| RunExperiments.StripLeftSpec | run_experiments.py:90 | Left stripping removes only a leading run of whitespace and leaves a result that does not start with whitespace. |
| RunExperiments.StripRightSpec | run_experiments.py:90 | Right stripping removes only a trailing run of whitespace and leaves a result that does not end with whitespace. |
| RunExperiments.StripSpec | run_experiments.py:90 | The stripped answer is a slice whose outside is all whitespace and whose ends are not. |
| RunExperiments.TrimmedSlice | run_experiments.py:90 | Cutting a whitespace prefix and then a whitespace suffix leaves a slice with whitespace outside it and non-whitespace ends. |
| RunExperiments.PaddedTwo | run_experiments.py:90-92 | Definition: the typed line is "2" with only whitespace before and after it. |
| RunExperiments.StripIsTwo | run_experiments.py:90-92 | The stripped answer equals "2" exactly when the line is "2" padded with whitespace, in both directions. |
| RunExperiments.StripExamples | run_experiments.py:90-92 | " 2\n", "2" and U+001F followed by "2" strip to "2"; "1", "12" and "" do not. |
| RunExperiments.RecordedFrom | run_experiments.py:81-94 | Counting from run `from`, the batch stops at the first stop point or after run ten. |
| RunExperiments.RecordedCount | run_experiments.py:81-94 | Between one and ten runs are recorded. Fewer than ten means the last one failed and was answered "2"; no earlier run stopped the batch. |
| RunExperiments.RecordedCountUnique | run_experiments.py:81-94 | Only one count satisfies this stop description. |
| RunExperiments.OtherAnswerContinues | run_experiments.py:86-94 | A failure answered with anything other than "2" lets the next run start. |
| RunExperiments.Entries | run_experiments.py:81-83 | The list of the first `n` `(run number, success)` entries has length `n`. |
| RunExperiments.EntriesPointwise | run_experiments.py:81-83 | Entry `k` of that list is run `k + 1` with its success. |
| RunExperiments.AskToStop | run_experiments.py:86-94 | After a failure the batch stops exactly when the operator typed "2" with nothing but whitespace around it. |
| RunExperiments.RunBatch | run_experiments.py:81-94 | The loop records exactly `RecordedCount` runs, entry `k` being run `k + 1` with its success. |
| RunExperiments.CountSuccessesBounds | run_experiments.py:107-112 | The success count is at most the number of recorded runs and equals it exactly when every recorded run succeeded. |
| RunExperiments.Summarize | run_experiments.py:107-120 | The count is the number of successful entries. "All completed" is reported exactly when it is ten; otherwise the report gives recorded runs minus successes. |
| RunExperiments.AllCompletedIffEveryRunSucceeded | run_experiments.py:117-118 | The success count is ten exactly when all ten runs succeeded. |
| RunExperiments.FailureCountExcludesSkippedRuns | run_experiments.py:114-120 | When run 2 fails and is answered "2", any results meeting `RunBatch`'s contract are runs 1 and 2. They give one success and a reported failure count of one, while nine of the ten runs did not succeed. |

## Left out

- Directory listing and deserialisation (`glob.glob`, `torch.load`): the checkpoints are
  an input sequence of (path, load outcome) pairs, in listing order. Which exception a
  load raises does not matter; only that one was raised.
- The `try` in `process_checkpoint_dir` also catches exceptions that a malformed `log` or
  `test` value would raise (a non-dict, a non-numeric `top1`). Those raised at
  results.py:38-46, before the sample is appended, are folded into the two booleans and
  the optional accuracy of `Loaded`.
- SamplesAccountForClassifiedRuns: an exception raised at results.py:50-55, after line 47
  has appended the sample, is not modelled. A `top1` for which `1 - top1` and `top1 * 100`
  work but the `.2f` format fails (a one-element tensor or array, say) is printed as an
  error and leaves a sample in `results_by_method` with no row in `all_results`. Since
  `top1` is a real here, every appended sample has its row, and the bound "samples at most
  rows" holds only for such values.
- Sorting the table by checkpoint name, and all printing, including the paper's expected
  results (results.py:59-87): they produce output only.
- The per-run table keeps accuracy and error as numbers, not as the `.2f`-formatted
  strings of results.py:53-54.
- The epoch is the stored integer or "not available". Other stored types are not
  modelled.
- ConfidenceInterval: the half-width `t.ppf(0.975, n-1) * std / sqrt(n)` is a parameter,
  because there is no t-distribution or square root on reals here. Only the mean is
  computed. For `n = 1` the source's NaN is not modelled.
- Accuracies are mathematical reals, so floating-point rounding in `test_acc * 100`,
  `1 - test_acc` and `np.mean` is not modelled.
- SplitElapsed works on whole seconds, whereas `time.time()` differences are floats. The
  printed `int(...)` parts agree for non-negative times.
- The wall clock, `subprocess.run`, `mkdir`, `datetime.now`, `sys.executable` and
  `input` are not modelled. The exit codes, the answers and the interpreter path are
  parameters instead.
- Exceptions from `subprocess.run` other than `CalledProcessError` (a missing
  interpreter, for example) would end the script. They are not modelled.
- The `KeyboardInterrupt` handler (run_experiments.py:123-128) is not modelled.
- Strip removes only the ASCII characters `str.strip()` removes (space, U+0009 to U+000D,
  U+001C to U+001F). The non-ASCII whitespace it also removes (U+0085, U+00A0, U+2000 to
  U+200A and others) is not modelled.
- RunBatch requires an answer for every run. `input()` at end of input raises `EOFError`
  (run_experiments.py:90), which ends `main` before the summary; this is not modelled.
- `Path.mkdir(exist_ok=True)` raises `FileExistsError` when `wrn_40x2` exists as a file
  (run_experiments.py:30), which also ends `main`; this is not modelled.
- The module-level script of results.py (lines 97-120) is not modelled as one step. It
  calls `process_checkpoint_dir` once per model directory, which is `ProcessCheckpointDir`
  applied to each listing, and `CompareModels` takes the two results.

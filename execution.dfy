/**
 * The execution half of `Minifier`: `_execute` on one task and the second
 * loop of `minify`, over a filesystem that maps regular files to their text.
 */
module Execution {
  import opened Wrappers
  import opened Strings
  import opened Minifier
  import opened TaskTable

  /** The regular files and their contents; `os.path.isfile(p)` is `p in files`. */
  type Files = map<Path, string>

  /** The exceptions that end a run. */
  datatype Error =
    | UnexpectedKeyword      // TypeError: `**settings` passed a keyword other than `in_place`
    | ReadFailed(path: Path) // `open(path)` on a path that is not a regular file

  /** What `_execute` prints for one file. */
  datatype Report =
    | EmptyFile(path: Path)
    | Written(path: Path, target: Path, sourceLength: nat, minifiedLength: nat, tenths: nat)

  /** The `in_place` argument: False unless the settings give it a true value. */
  function InPlaceValue(settings: Settings): bool
  {
    "in_place" in settings && settings["in_place"]
  }

  /** Binding `**settings` to `_execute(cls, path, handler, in_place=False)`. */
  function InPlaceArg(settings: Settings): (r: Result<bool, Error>)
    ensures r.Failure? <==> exists k :: k in settings && k != "in_place"
    ensures r.Failure? ==> r.error == UnexpectedKeyword
    ensures r.Success? ==> (r.value <==> "in_place" in settings && settings["in_place"])
  {
    if settings.Keys <= {"in_place"} then Success(InPlaceValue(settings)) else Failure(UnexpectedKeyword)
  }

  /** `int(1000 * len(minified) / len(content))`: the ratio in tenths of a percent, rounded down. */
  function Tenths(minified: nat, source: nat): nat
    requires source > 0
  {
    1000 * minified / source
  }

  /** The tenths are the ratio rounded down: the largest `t` with `t * source <= 1000 * minified`. */
  lemma {:induction false} TenthsFloor(minified: nat, source: nat)
    requires source > 0
    ensures var t := Tenths(minified, source);
      t * source <= 1000 * minified < (t + 1) * source
  {
    var t := Tenths(minified, source);
    var rem := 1000 * minified % source;
    assert 1000 * minified == t * source + rem;
    assert (t + 1) * source == t * source + source;
  }

  /** The filesystem after one `_execute`, and what it printed or raised. */
  datatype Step = Step(files: Files, outcome: Result<Report, Error>)

  /** `_execute(path, handler, **settings)` as a function of the filesystem before it. */
  function ExecuteSpec(files: Files, path: Path, task: Task, tr: Transforms): Step
  {
    match InPlaceArg(task.settings)
    case Failure(e) => Step(files, Failure(e))
    case Success(inPlace) =>
      if path !in files then Step(files, Failure(ReadFailed(path)))
      else if |files[path]| == 0 then Step(files, Success(EmptyFile(path)))
      else
        var content := files[path];
        var minified := Apply(task.handler, tr, content);
        var target := Target(files.Keys, path, inPlace);
        Step(files[target := minified],
             Success(Written(path, target, |content|, |minified|, Tenths(|minified|, |content|))))
  }

  /**
   * What `_execute` does in each case: it raises, with nothing written, when the
   * settings do not bind or the path is no file, and a bad keyword is raised
   * before the path is opened; an empty file is reported and
   * nothing is written; otherwise exactly the target is written, and the report
   * carries both lengths and their ratio.
   */
  lemma {:induction false} ExecuteOutcomes(files: Files, path: Path, task: Task, tr: Transforms)
    ensures var step := ExecuteSpec(files, path, task, tr);
      && (step.outcome.Failure? <==> InPlaceArg(task.settings).Failure? || path !in files)
      && (step.outcome.Failure? ==> step.files == files)
      && (InPlaceArg(task.settings).Failure? ==> step.outcome == Failure(UnexpectedKeyword))
      && (step.outcome.Failure? && InPlaceArg(task.settings).Success? ==> step.outcome.error == ReadFailed(path))
      && (step.outcome.Success? ==> step.outcome.value.path == path)
      && (step.outcome.Success? && step.outcome.value.EmptyFile? <==>
            InPlaceArg(task.settings).Success? && path in files && |files[path]| == 0)
      && (step.outcome.Success? && step.outcome.value.EmptyFile? ==> step.files == files)
  {
  }

  /** A written report names the target, the two lengths and their ratio, and the target holds the output. */
  lemma {:induction false} ExecuteWrites(files: Files, path: Path, task: Task, tr: Transforms)
    requires ExecuteSpec(files, path, task, tr).outcome.Success?
    requires ExecuteSpec(files, path, task, tr).outcome.value.Written?
    ensures var step := ExecuteSpec(files, path, task, tr);
      var report := step.outcome.value;
      && path in files && |files[path]| > 0
      && report.target == Target(files.Keys, path, InPlaceValue(task.settings))
      && step.files == files[report.target := Apply(task.handler, tr, files[path])]
      && report.sourceLength == |files[path]|
      && report.minifiedLength == |Apply(task.handler, tr, files[path])|
      && report.tenths == Tenths(report.minifiedLength, report.sourceLength)
  {
  }

  /** The filesystem after a run, the reports printed, and the exception that ended it, if any. */
  datatype Run = Run(files: Files, log: seq<Report>, error: Option<Error>)

  /** The second loop of `minify`: execute the items in order, stopping at the first exception. */
  function RunTasks(files: Files, items: seq<Found>, tr: Transforms): Run
    decreases |items|
  {
    if |items| == 0 then Run(files, [], None)
    else
      var step := ExecuteSpec(files, items[0].path, items[0].task, tr);
      match step.outcome
      case Failure(e) => Run(step.files, [], Some(e))
      case Success(report) =>
        var rest := RunTasks(step.files, items[1..], tr);
        Run(rest.files, [report] + rest.log, rest.error)
  }

  /** Items as `minify` produces them: distinct selected files whose settings bind. */
  predicate Runnable(files: Files, items: seq<Found>)
  {
    && (forall i, j :: 0 <= i < j < |items| ==> items[i].path != items[j].path)
    && (forall i :: 0 <= i < |items| ==>
          items[i].path in files && Eligible(items[i].path) && InPlaceArg(items[i].task.settings).Success?)
  }

  /** Where `_execute` writes the output of one item. */
  function TaskTarget(isFile: set<Path>, f: Found): Path
  {
    Target(isFile, f.path, InPlaceValue(f.task.settings))
  }

  /** What `_execute` prints for an item whose non-empty source it minified: the target, both lengths and their ratio. */
  function WriteReport(files: Files, f: Found, tr: Transforms): Report
    requires f.path in files && |files[f.path]| > 0
  {
    var content := files[f.path];
    var minified := Apply(f.task.handler, tr, content);
    Written(f.path, TaskTarget(files.Keys, f), |content|, |minified|, Tenths(|minified|, |content|))
  }

  /** The paths a run writes: one per item whose source is not empty. */
  function Targets(files: Files, items: seq<Found>): set<Path>
  {
    set f | f in items && f.path in files && |files[f.path]| > 0 :: TaskTarget(files.Keys, f)
  }

  /**
   * A run that executed every item, reported each non-empty source with its
   * target, both lengths and their ratio, wrote its transform to that target,
   * all computed from the contents the sources had when the run began, and
   * left every other path as it was.
   */
  ghost predicate Completes(files: Files, items: seq<Found>, tr: Transforms, r: Run)
  {
    && r.error == None
    && |r.log| == |items|
    && (forall i :: 0 <= i < |items| ==> r.log[i].path == items[i].path)
    && (forall i :: 0 <= i < |items| && items[i].path in files ==>
          (r.log[i].EmptyFile? <==> |files[items[i].path]| == 0))
    && (forall i :: 0 <= i < |items| && items[i].path in files && |files[items[i].path]| > 0 ==>
          r.log[i] == WriteReport(files, items[i], tr))
    && (forall f :: f in items && f.path in files && |files[f.path]| > 0 ==>
          TaskTarget(files.Keys, f) in r.files
          && r.files[TaskTarget(files.Keys, f)] == Apply(f.task.handler, tr, files[f.path]))
    && (forall k :: k !in Targets(files, items) ==>
          (k in r.files <==> k in files) && (k in files ==> r.files[k] == files[k]))
  }

  /** One runnable item succeeds; it writes its target exactly when its source is not empty. */
  lemma {:induction false} StepOfRunnable(files: Files, f: Found, tr: Transforms)
    requires f.path in files && InPlaceArg(f.task.settings).Success?
    ensures var step := ExecuteSpec(files, f.path, f.task, tr);
      && step.outcome.Success?
      && step.outcome.value.path == f.path
      && (step.outcome.value.EmptyFile? <==> |files[f.path]| == 0)
      && (|files[f.path]| == 0 ==> step.files == files)
      && (|files[f.path]| > 0 ==>
            step.files == files[TaskTarget(files.Keys, f) := Apply(f.task.handler, tr, files[f.path])])
      && (|files[f.path]| > 0 ==> step.outcome.value == WriteReport(files, f, tr))
  {
  }

  /** Executing one item leaves another item's source, and its target, as they were. */
  lemma {:induction false} OtherItemUnaffected(files: Files, f: Found, g: Found, tr: Transforms)
    requires f.path in files && Eligible(f.path) && InPlaceArg(f.task.settings).Success?
    requires g.path in files && Eligible(g.path) && f.path != g.path
    ensures var after := ExecuteSpec(files, f.path, f.task, tr).files;
      && g.path in after && after[g.path] == files[g.path]
      && TaskTarget(after.Keys, g) == TaskTarget(files.Keys, g)
      && TaskTarget(files.Keys, g) != TaskTarget(files.Keys, f)
  {
    var after := ExecuteSpec(files, f.path, f.task, tr).files;
    StepOfRunnable(files, f, tr);
    TargetsApart(files.Keys, f.path, g.path, InPlaceValue(f.task.settings), InPlaceValue(g.task.settings));
    WriteElsewhere(files, after, f, g, tr);
    TargetFrame(files.Keys, after.Keys, g.path, InPlaceValue(g.task.settings));
  }

  /** A step that writes at most the first item's target keeps another source that is not that target. */
  lemma {:induction false} WriteElsewhere(files: Files, after: Files, f: Found, g: Found, tr: Transforms)
    requires f.path in files && g.path in files && TaskTarget(files.Keys, f) != g.path
    requires |files[f.path]| == 0 ==> after == files
    requires |files[f.path]| > 0 ==> after == files[TaskTarget(files.Keys, f) := Apply(f.task.handler, tr, files[f.path])]
    ensures g.path in after && after[g.path] == files[g.path]
  {
  }

  /** Executing the first item leaves the sources of the later items, and their targets, as they were. */
  lemma {:induction false} LaterItemsUnaffected(files: Files, items: seq<Found>, tr: Transforms, after: Files)
    requires Runnable(files, items) && |items| > 0
    requires after == ExecuteSpec(files, items[0].path, items[0].task, tr).files
    ensures forall j :: 1 <= j < |items| ==>
      items[j].path in after && after[items[j].path] == files[items[j].path]
      && TaskTarget(after.Keys, items[j]) == TaskTarget(files.Keys, items[j])
      && TaskTarget(files.Keys, items[j]) != TaskTarget(files.Keys, items[0])
    ensures Runnable(after, items[1..])
  {
    forall j | 1 <= j < |items|
      ensures items[j].path in after && after[items[j].path] == files[items[j].path]
      ensures TaskTarget(after.Keys, items[j]) == TaskTarget(files.Keys, items[j])
      ensures TaskTarget(files.Keys, items[j]) != TaskTarget(files.Keys, items[0])
    {
      OtherItemUnaffected(files, items[0], items[j], tr);
    }
    RestRunnable(files, items, after);
  }

  /** The later items stay runnable once their sources are still files. */
  lemma {:induction false} RestRunnable(files: Files, items: seq<Found>, after: Files)
    requires Runnable(files, items) && |items| > 0
    requires forall j :: 1 <= j < |items| ==> items[j].path in after
    ensures Runnable(after, items[1..])
  {
    var rest := items[1..];
    forall j | 0 <= j < |rest| ensures rest[j] == items[j + 1] {
    }
  }

  /** The targets of a run are the first item's, if it is not empty, and those of the rest. */
  lemma {:induction false} TargetsSplit(files: Files, items: seq<Found>, after: Files)
    requires |items| > 0
    requires forall j :: 1 <= j < |items| ==>
      items[j].path in after && items[j].path in files && after[items[j].path] == files[items[j].path]
      && TaskTarget(after.Keys, items[j]) == TaskTarget(files.Keys, items[j])
    ensures Targets(files, items) ==
      Targets(after, items[1..]) + (if items[0].path in files && |files[items[0].path]| > 0 then {TaskTarget(files.Keys, items[0])} else {})
  {
    var rest := items[1..];
    forall f | f in rest ensures f.path in after && f.path in files && after[f.path] == files[f.path]
      && TaskTarget(after.Keys, f) == TaskTarget(files.Keys, f)
    {
      var j :| 0 <= j < |rest| && rest[j] == f;
      assert items[j + 1] == f;
    }
    assert forall f :: f in items <==> f == items[0] || f in rest;
  }

  /**
   * A run over runnable items never fails, reports every item in order, and
   * writes each non-empty source's transform to its target, read from the
   * contents the run started with: no item sees another item's output.
   */
  lemma {:induction false} RunCompletes(files: Files, items: seq<Found>, tr: Transforms)
    requires Runnable(files, items)
    ensures Completes(files, items, tr, RunTasks(files, items, tr))
    decreases |items|
  {
    if |items| > 0 {
      var f := items[0];
      var rest := items[1..];
      var step := ExecuteSpec(files, f.path, f.task, tr);
      StepOfRunnable(files, f, tr);
      LaterItemsUnaffected(files, items, tr, step.files);
      RunCompletes(step.files, rest, tr);
      TargetsSplit(files, items, step.files);
      var r := RunTasks(step.files, rest, tr);
      assert RunTasks(files, items, tr) == Run(r.files, [step.outcome.value] + r.log, r.error);
      RunCompletesCombine(files, items, tr, step, r);
    }
  }

  /** The inductive step of `RunCompletes`, stated over the first step and the run of the rest. */
  lemma {:induction false} RunCompletesCombine(files: Files, items: seq<Found>, tr: Transforms, step: Step, r: Run)
    requires Runnable(files, items) && |items| > 0
    requires step == ExecuteSpec(files, items[0].path, items[0].task, tr)
    requires step.outcome.Success? && step.outcome.value.path == items[0].path
    requires step.outcome.value.EmptyFile? <==> |files[items[0].path]| == 0
    requires |files[items[0].path]| == 0 ==> step.files == files
    requires |files[items[0].path]| > 0 ==>
      step.files == files[TaskTarget(files.Keys, items[0]) := Apply(items[0].task.handler, tr, files[items[0].path])]
    requires |files[items[0].path]| > 0 ==> step.outcome.value == WriteReport(files, items[0], tr)
    requires forall j :: 1 <= j < |items| ==>
      items[j].path in step.files && step.files[items[j].path] == files[items[j].path]
      && TaskTarget(step.files.Keys, items[j]) == TaskTarget(files.Keys, items[j])
      && TaskTarget(files.Keys, items[j]) != TaskTarget(files.Keys, items[0])
    requires Targets(files, items) ==
      Targets(step.files, items[1..]) + (if |files[items[0].path]| > 0 then {TaskTarget(files.Keys, items[0])} else {})
    requires Completes(step.files, items[1..], tr, r)
    ensures Completes(files, items, tr, Run(r.files, [step.outcome.value] + r.log, r.error))
  {
    CombineLog(files, items, step.outcome.value, r.log);
    CombineReports(files, step.files, items, tr, step.outcome.value, r.log);
    CombineWrites(files, items, tr, step, r);
  }

  /** The written reports of the first item and of the rest are those the sources at the start call for. */
  lemma {:induction false} CombineReports(files: Files, after: Files, items: seq<Found>, tr: Transforms, first: Report, rest: seq<Report>)
    requires |items| > 0 && |rest| == |items| - 1
    requires items[0].path in files && |files[items[0].path]| > 0 ==> first == WriteReport(files, items[0], tr)
    requires forall j :: 1 <= j < |items| ==>
      items[j].path in after && items[j].path in files && after[items[j].path] == files[items[j].path]
      && TaskTarget(after.Keys, items[j]) == TaskTarget(files.Keys, items[j])
    requires forall i :: 0 <= i < |rest| && items[1..][i].path in after && |after[items[1..][i].path]| > 0 ==>
      rest[i] == WriteReport(after, items[1..][i], tr)
    ensures forall i :: 0 <= i < |items| && items[i].path in files && |files[items[i].path]| > 0 ==>
      ([first] + rest)[i] == WriteReport(files, items[i], tr)
  {
    forall i | 0 < i < |items| && items[i].path in files && |files[items[i].path]| > 0
      ensures ([first] + rest)[i] == WriteReport(files, items[i], tr)
    {
      assert ([first] + rest)[i] == rest[i - 1] && items[1..][i - 1] == items[i];
      SameReport(files, after, items[i], tr);
    }
  }

  /** An item whose source and target are unchanged gets the same written report. */
  lemma {:induction false} SameReport(files: Files, after: Files, f: Found, tr: Transforms)
    requires f.path in files && |files[f.path]| > 0
    requires f.path in after && after[f.path] == files[f.path]
    requires TaskTarget(after.Keys, f) == TaskTarget(files.Keys, f)
    ensures WriteReport(after, f, tr) == WriteReport(files, f, tr)
  {
  }

  /** The reports of the first item and of the rest line up with the items. */
  lemma {:induction false} CombineLog(files: Files, items: seq<Found>, first: Report, rest: seq<Report>)
    requires |items| > 0 && |rest| == |items| - 1
    requires first.path == items[0].path
    requires items[0].path in files ==> (first.EmptyFile? <==> |files[items[0].path]| == 0)
    requires forall i :: 0 <= i < |rest| ==> rest[i].path == items[1..][i].path
    requires forall i :: 0 <= i < |rest| && items[1..][i].path in files ==>
      (rest[i].EmptyFile? <==> |files[items[1..][i].path]| == 0)
    ensures forall i :: 0 <= i < |items| ==> ([first] + rest)[i].path == items[i].path
    ensures forall i :: 0 <= i < |items| && items[i].path in files ==>
      (([first] + rest)[i].EmptyFile? <==> |files[items[i].path]| == 0)
  {
    forall i | 0 < i < |items| ensures ([first] + rest)[i] == rest[i - 1] && items[1..][i - 1] == items[i] {
    }
  }

  /** Each non-empty source's transform is at its target after the first step and the rest. */
  lemma {:induction false} CombineWrites(files: Files, items: seq<Found>, tr: Transforms, step: Step, r: Run)
    requires Runnable(files, items) && |items| > 0
    requires |files[items[0].path]| > 0 ==>
      step.files == files[TaskTarget(files.Keys, items[0]) := Apply(items[0].task.handler, tr, files[items[0].path])]
    requires forall j :: 1 <= j < |items| ==>
      items[j].path in step.files && step.files[items[j].path] == files[items[j].path]
      && TaskTarget(step.files.Keys, items[j]) == TaskTarget(files.Keys, items[j])
      && TaskTarget(files.Keys, items[j]) != TaskTarget(files.Keys, items[0])
    requires Completes(step.files, items[1..], tr, r)
    ensures forall g :: g in items && g.path in files && |files[g.path]| > 0 ==>
      TaskTarget(files.Keys, g) in r.files && r.files[TaskTarget(files.Keys, g)] == Apply(g.task.handler, tr, files[g.path])
  {
    var rest := items[1..];
    var t0 := TaskTarget(files.Keys, items[0]);
    forall g | g in items && g.path in files && |files[g.path]| > 0
      ensures TaskTarget(files.Keys, g) in r.files && r.files[TaskTarget(files.Keys, g)] == Apply(g.task.handler, tr, files[g.path])
    {
      var j :| 0 <= j < |items| && items[j] == g;
      if j > 0 {
        assert rest[j - 1] == g;
      } else {
        assert t0 !in Targets(step.files, rest);
      }
    }
  }

  /**
   * An item whose settings hold a key other than `in_place` ends the run with
   * `UnexpectedKeyword`. The items before it have been reported, and what they
   * wrote stays: the run is the run of those items, followed by the error.
   */
  lemma {:induction false} RunStopsAtBadKeyword(files: Files, items: seq<Found>, tr: Transforms, k: nat)
    requires k < |items| && Runnable(files, items[..k])
    requires InPlaceArg(items[k].task.settings).Failure?
    ensures var r := RunTasks(files, items, tr);
      var done := RunTasks(files, items[..k], tr);
      && r == Run(done.files, done.log, Some(UnexpectedKeyword))
      && |r.log| == k
      && (forall i :: 0 <= i < k ==> r.log[i].path == items[i].path)
  {
    StopsAfterPrefix(files, items, tr, k);
    RunCompletes(files, items[..k], tr);
    forall i | 0 <= i < k ensures items[..k][i] == items[i] {
    }
  }

  /** The run up to a bad keyword is the run of the items before it, followed by the error. */
  lemma {:induction false} StopsAfterPrefix(files: Files, items: seq<Found>, tr: Transforms, k: nat)
    requires k < |items| && Runnable(files, items[..k])
    requires InPlaceArg(items[k].task.settings).Failure?
    ensures var done := RunTasks(files, items[..k], tr);
      RunTasks(files, items, tr) == Run(done.files, done.log, Some(UnexpectedKeyword))
    decreases k
  {
    if k == 0 {
      assert items[..0] == [];
    } else {
      var step := ExecuteSpec(files, items[0].path, items[0].task, tr);
      PrefixStepRunnable(files, items, tr, k);
      StopsAfterPrefix(step.files, items[1..], tr, k - 1);
      FirstStepResumes(files, items, tr, k);
      PrefixResumes(files, items, tr, k);
      ResumeStopped(step.outcome.value, RunTasks(step.files, items[1..][..k - 1], tr), UnexpectedKeyword);
    }
  }

  /** The run of the first `k` items is the first item's report followed by the run of the next `k - 1`. */
  lemma {:induction false} PrefixResumes(files: Files, items: seq<Found>, tr: Transforms, k: nat)
    requires 0 < k < |items| && Runnable(files, items[..k])
    ensures var step := ExecuteSpec(files, items[0].path, items[0].task, tr);
      && step.outcome.Success?
      && RunTasks(files, items[..k], tr) == Resume([step.outcome.value], RunTasks(step.files, items[1..][..k - 1], tr))
  {
    assert items[..k][0] == items[0] && items[..k][1..] == items[1..][..k - 1];
    StepOfRunnable(files, items[0], tr);
  }

  /** A report followed by a run that stops is the run with that report, followed by the stop. */
  lemma {:induction false} ResumeStopped(report: Report, done: Run, e: Error)
    ensures var r := Resume([report], done);
      Resume([report], Run(done.files, done.log, Some(e))) == Run(r.files, r.log, Some(e))
  {
  }

  /** The first of some runnable items succeeds, and the rest of them are still runnable after it. */
  lemma {:induction false} PrefixStepRunnable(files: Files, items: seq<Found>, tr: Transforms, k: nat)
    requires 0 < k < |items| && Runnable(files, items[..k])
    ensures Runnable(ExecuteSpec(files, items[0].path, items[0].task, tr).files, items[1..][..k - 1])
  {
    StepKeepsRunnable(files, items[..k], tr);
    assert items[..k][1..] == items[1..][..k - 1];
    assert items[..k][0] == items[0];
  }

  /** A run whose first item is runnable is that item's report followed by the run of the rest. */
  lemma {:induction false} FirstStepResumes(files: Files, items: seq<Found>, tr: Transforms, k: nat)
    requires 0 < k < |items| && Runnable(files, items[..k])
    ensures var step := ExecuteSpec(files, items[0].path, items[0].task, tr);
      && step.outcome.Success? && step.outcome.value.path == items[0].path
      && RunTasks(files, items, tr) == Resume([step.outcome.value], RunTasks(step.files, items[1..], tr))
  {
    assert items[..k][0] == items[0];
    StepOfRunnable(files, items[0], tr);
  }

  /** After the first of some runnable items has run, the others are still runnable. */
  lemma {:induction false} StepKeepsRunnable(files: Files, items: seq<Found>, tr: Transforms)
    requires Runnable(files, items) && |items| > 0
    ensures Runnable(ExecuteSpec(files, items[0].path, items[0].task, tr).files, items[1..])
  {
    LaterItemsUnaffected(files, items, tr, ExecuteSpec(files, items[0].path, items[0].task, tr).files);
  }

  /** The first `k` items of the `tasks` table are runnable once their settings bind. */
  lemma {:induction false} SelectedItemsRunnable(files: Files, instructions: seq<Instruction>, glob: string -> seq<Path>, k: nat)
    requires var items := Items(Tabulate(FindFiles(files.Keys, instructions, glob)));
      k <= |items| && forall i :: 0 <= i < k ==> InPlaceArg(items[i].task.settings).Success?
    ensures Runnable(files, Items(Tabulate(FindFiles(files.Keys, instructions, glob)))[..k])
  {
    var table := Tabulate(FindFiles(files.Keys, instructions, glob));
    var items := Items(table);
    forall i | 0 <= i < k ensures items[i].path in files && Eligible(items[i].path) {
      SelectedItem(files, instructions, glob, i);
    }
    assert Distinct(table.order);
    PrefixRunnable(files, items, k);
  }

  /** A prefix of items with distinct paths, selected and binding, is runnable. */
  lemma {:induction false} PrefixRunnable(files: Files, items: seq<Found>, k: nat)
    requires k <= |items|
    requires forall i, j :: 0 <= i < j < |items| ==> items[i].path != items[j].path
    requires forall i :: 0 <= i < k ==>
      items[i].path in files && Eligible(items[i].path) && InPlaceArg(items[i].task.settings).Success?
    ensures Runnable(files, items[..k])
  {
    assert forall i :: 0 <= i < k ==> items[..k][i] == items[i];
  }

  /** One item of the `tasks` table is a selected file. */
  lemma {:induction false} SelectedItem(files: Files, instructions: seq<Instruction>, glob: string -> seq<Path>, k: nat)
    requires k < |Items(Tabulate(FindFiles(files.Keys, instructions, glob)))|
    ensures var f := Items(Tabulate(FindFiles(files.Keys, instructions, glob)))[k];
      f.path in files && Eligible(f.path)
  {
    var found := FindFiles(files.Keys, instructions, glob);
    var table := Tabulate(found);
    var f := StoredTriple(found, table.order[k]);
    assert Items(table)[k] == f;
    FindFilesMembers(files.Keys, instructions, glob);
  }

  /** Each stored task, with its path, is one of the triples it was built from. */
  lemma {:induction false} StoredTriple(found: seq<Found>, p: Path) returns (f: Found)
    requires p in Tabulate(found).entries
    ensures f in found && f == Found(p, Tabulate(found).entries[p])
  {
    TabulateLastWins(found, p);
    var j :| 0 <= j < |found| && found[j].path == p && Tabulate(found).entries[p] == found[j].task;
    f := found[j];
  }

  /**
   * When the settings of every entry of the `tasks` table bind, `minify`
   * executes every selected file once, in first-match order, with the handler
   * and settings of its last match, and its outputs all land: it is the run
   * `RunCompletes` describes. Settings of patterns whose files are all
   * matched again later, or that select nothing, play no part.
   */
  lemma {:induction false} MinifyCompletes(files: Files, instructions: seq<Instruction>, glob: string -> seq<Path>, tr: Transforms)
    requires forall f :: f in Items(Tabulate(FindFiles(files.Keys, instructions, glob))) ==>
      InPlaceArg(f.task.settings).Success?
    ensures var items := Items(Tabulate(FindFiles(files.Keys, instructions, glob)));
      Completes(files, items, tr, RunTasks(files, items, tr))
  {
    var items := Items(Tabulate(FindFiles(files.Keys, instructions, glob)));
    AllBind(items);
    SelectedItemsRunnable(files, instructions, glob, |items|);
    assert items[..|items|] == items;
    RunCompletes(files, items, tr);
  }

  /** Settings that bind for every item bind for each index. */
  lemma {:induction false} AllBind(items: seq<Found>)
    requires forall f :: f in items ==> InPlaceArg(f.task.settings).Success?
    ensures forall i :: 0 <= i < |items| ==> InPlaceArg(items[i].task.settings).Success?
  {
    forall i | 0 <= i < |items| ensures InPlaceArg(items[i].task.settings).Success? {
      assert items[i] in items;
    }
  }

  /**
   * When the `k`-th entry of the `tasks` table is the first whose settings do
   * not bind, `minify` raises `UnexpectedKeyword` there, after the earlier
   * entries ran as `RunCompletes` describes; what they wrote is not undone.
   */
  lemma {:induction false} MinifyStopsAtBadKeyword(files: Files, instructions: seq<Instruction>, glob: string -> seq<Path>,
                                                   tr: Transforms, k: nat)
    requires var items := Items(Tabulate(FindFiles(files.Keys, instructions, glob)));
      && k < |items|
      && (forall i :: 0 <= i < k ==> InPlaceArg(items[i].task.settings).Success?)
      && InPlaceArg(items[k].task.settings).Failure?
    ensures var items := Items(Tabulate(FindFiles(files.Keys, instructions, glob)));
      var done := RunTasks(files, items[..k], tr);
      && RunTasks(files, items, tr) == Run(done.files, done.log, Some(UnexpectedKeyword))
      && Completes(files, items[..k], tr, done)
  {
    var items := Items(Tabulate(FindFiles(files.Keys, instructions, glob)));
    SelectedItemsRunnable(files, instructions, glob, k);
    StopsAfterPrefix(files, items, tr, k);
    RunCompletes(files, items[..k], tr);
  }

  /** The filesystem that `Minifier.minify` and `_execute` read and write. */
  class Disk {
    var files: Files

    constructor (initial: Files)
      ensures files == initial
    {
      files := initial;
    }

    /** `Minifier._execute(path, handler, **settings)`. */
    method Execute(path: Path, handler: Handler, settings: Settings, tr: Transforms) returns (r: Result<Report, Error>)
      modifies this
      ensures Step(files, r) == ExecuteSpec(old(files), path, Task(handler, settings), tr)
    {
      var arg := InPlaceArg(settings);
      if arg.Failure? {
        return Failure(arg.error);
      }
      if path !in files {
        return Failure(ReadFailed(path));
      }
      var content := files[path];
      if |content| == 0 {
        return Success(EmptyFile(path));
      }
      var minified := Apply(handler, tr, content);
      var target := path;
      if !arg.value {
        var ext := Ext(files.Keys, target);
        target := DerivedName(target, ext);
      }
      var tenths := Tenths(|minified|, |content|);
      files := files[target := minified];
      r := Success(Written(path, target, |content|, |minified|, tenths));
    }

    /** Runs the items in order, stopping at the first failure. */
    method RunItems(items: seq<Found>, tr: Transforms) returns (log: seq<Report>, error: Option<Error>)
      modifies this
      ensures Run(files, log, error) == RunTasks(old(files), items, tr)
    {
      ghost var whole := RunTasks(files, items, tr);
      log, error := [], None;
      var i := 0;
      ResumeStart(whole, files, items, tr);
      while i < |items|
        invariant 0 <= i <= |items|
        invariant error == None
        invariant whole == Resume(log, RunTasks(files, items[i..], tr))
      {
        log, error := Advance(items, i, tr, whole, log);
        if error.Some? {
          return;
        }
        i := i + 1;
      }
      ResumeEnd(whole, log, files, items, tr);
    }

    /**
     * One iteration of the second loop of `minify`: execute item `i` of the
     * run `whole` under way, and add its report to the log or stop.
     */
    method Advance(items: seq<Found>, i: nat, tr: Transforms, ghost whole: Run, log: seq<Report>)
      returns (log': seq<Report>, error: Option<Error>)
      modifies this
      requires i < |items| && whole == Resume(log, RunTasks(files, items[i..], tr))
      ensures error.Some? ==> whole == Run(files, log', error)
      ensures error.None? ==> whole == Resume(log', RunTasks(files, items[i + 1..], tr))
    {
      ghost var before := files;
      var r := Execute(items[i].path, items[i].task.handler, items[i].task.settings, tr);
      ResumeStep(whole, log, before, items, i, tr, Step(files, r));
      if r.Failure? {
        return log, Some(r.error);
      }
      return log + [r.value], None;
    }

    /** `Minifier.minify(instructions)`: build the `tasks` table, then execute its items in order. */
    method Minify(instructions: seq<Instruction>, glob: string -> seq<Path>, tr: Transforms)
      returns (log: seq<Report>, error: Option<Error>)
      modifies this
      ensures Run(files, log, error)
        == RunTasks(old(files), Items(Tabulate(FindFiles(old(files).Keys, instructions, glob))), tr)
    {
      var found := FindFiles(files.Keys, instructions, glob);
      var tasks := BuildTable(found);
      log, error := RunItems(Items(tasks), tr);
    }
  }

  /** Builds the `tasks` table by inserting each found file in turn. */
  method BuildTable(found: seq<Found>) returns (tasks: Table)
    ensures tasks == Tabulate(found)
  {
    tasks := Table([], map[]);
    var k := 0;
    while k < |found|
      invariant 0 <= k <= |found|
      invariant tasks == Tabulate(found[..k])
    {
      assert found[..k + 1][..k] == found[..k];
      tasks := Put(tasks, found[k].path, found[k].task);
      k := k + 1;
    }
    assert found[..k] == found;
  }

  /** Running the items from `i` is one step followed by running the items from `i + 1`. */
  lemma {:induction false} RunResumes(files: Files, items: seq<Found>, i: nat, tr: Transforms, step: Step)
    requires i < |items|
    requires step == ExecuteSpec(files, items[i].path, items[i].task, tr)
    ensures step.outcome.Failure? ==> RunTasks(files, items[i..], tr) == Run(files, [], Some(step.outcome.error))
    ensures step.outcome.Success? ==>
      RunTasks(files, items[i..], tr) == Resume([step.outcome.value], RunTasks(step.files, items[i + 1..], tr))
  {
    assert items[i..][0] == items[i];
    assert items[i..][1..] == items[i + 1..];
  }

  /** One more step of the second loop of `minify` keeps the run it is carrying out. */
  lemma {:induction false} ResumeStep(whole: Run, log: seq<Report>, files: Files, items: seq<Found>, i: nat,
                                      tr: Transforms, step: Step)
    requires i < |items| && whole == Resume(log, RunTasks(files, items[i..], tr))
    requires step == ExecuteSpec(files, items[i].path, items[i].task, tr)
    ensures step.outcome.Failure? ==> whole == Run(step.files, log, Some(step.outcome.error))
    ensures step.outcome.Success? ==>
      whole == Resume(log + [step.outcome.value], RunTasks(step.files, items[i + 1..], tr))
  {
    RunResumes(files, items, i, tr, step);
    if step.outcome.Success? {
      ResumeAppend(log, step.outcome.value, RunTasks(step.files, items[i + 1..], tr));
    } else {
      ResumeStop(log, step.files, step.outcome.error);
    }
  }

  /** Resuming after one more report is resuming with that report appended to the log. */
  lemma {:induction false} ResumeAppend(log: seq<Report>, report: Report, rest: Run)
    ensures Resume(log, Resume([report], rest)) == Resume(log + [report], rest)
  {
    assert log + ([report] + rest.log) == (log + [report]) + rest.log;
  }

  /** Resuming a run that stops at once keeps the log and records the error. */
  lemma {:induction false} ResumeStop(log: seq<Report>, files: Files, e: Error)
    ensures Resume(log, Run(files, [], Some(e))) == Run(files, log, Some(e))
  {
    assert log + [] == log;
  }

  /** Before the first item, the run carried out is the whole run. */
  lemma {:induction false} ResumeStart(whole: Run, files: Files, items: seq<Found>, tr: Transforms)
    requires whole == RunTasks(files, items, tr)
    ensures whole == Resume([], RunTasks(files, items[0..], tr))
  {
    assert items[0..] == items;
    assert [] + whole.log == whole.log;
  }

  /** When no items are left, the run carried out is the one recorded. */
  lemma {:induction false} ResumeEnd(whole: Run, log: seq<Report>, files: Files, items: seq<Found>, tr: Transforms)
    requires whole == Resume(log, RunTasks(files, items[|items|..], tr))
    ensures whole == Run(files, log, None)
  {
    assert items[|items|..] == [];
    assert log + [] == log;
  }

  /** A run whose first reports are `log`, continuing as `rest`. */
  function Resume(log: seq<Report>, rest: Run): Run
  {
    Run(rest.files, log + rest.log, rest.error)
  }
}

/** Cases, concrete or over symbolic names, that the script's behaviour turns on. */
module Scenarios {
  import opened Wrappers
  import opened Strings
  import opened Minifier
  import opened TaskTable
  import opened Execution
  import opened Selection

  /** A hidden file such as `.bashrc` has its whole name after the dot as extension. */
  lemma DotfileExample(e: string)
    requires '.' !in e && '/' !in e
    ensures ExtOfName("." + e) == Some(e)
  {
    var name := "" + "." + e;
    assert name == "." + e;
    ExtOfNameOf("", e);
  }

  /** A name with a trailing dot, such as `foo.`, has the empty extension. */
  lemma TrailingDotExample(stem: string)
    ensures ExtOfName(stem + ".") == Some("")
  {
    var name := stem + "." + "";
    assert name == stem + ".";
    ExtOfNameOf(stem, "");
  }

  /** The extension keys are matched exactly, without case folding. */
  lemma LookupExamples()
    ensures Lookup(Some("JS")) == None
    ensures Lookup(Some("jinja2")) == Some(HtmlMin)
    ensures Lookup(None) == None
  {
  }

  /** Two patterns matching the same file `p`: the later settings win, and `p` keeps its first position. */
  lemma LastWinsExample(p: Path, q: Path, s1: Settings, s2: Settings, s3: Settings)
    requires p != q
    ensures Tabulate([Found(p, Task(JsMin, s1)), Found(q, Task(CssMin, s2)), Found(p, Task(JsMin, s3))])
      == Table([p, q], map[p := Task(JsMin, s3), q := Task(CssMin, s2)])
  {
    var a, b, c := Found(p, Task(JsMin, s1)), Found(q, Task(CssMin, s2)), Found(p, Task(JsMin, s3));
    var t0 := Table([], map[]);
    assert [a][..0] == [];
    var t1 := Put(t0, p, a.task);
    assert Tabulate([a]) == t1;
    assert [a, b][..1] == [a];
    var t2 := Put(t1, q, b.task);
    assert Tabulate([a, b]) == t2;
    assert [a, b, c][..2] == [a, b];
    var t3 := Put(t2, p, c.task);
    assert Tabulate([a, b, c]) == t3;
    assert t3.order == [p, q];
    assert t3.entries == map[p := c.task, q := b.task];
  }

  /** Two patterns match the same selected file: the later pattern's settings are stored. */
  lemma OverlapExample(isFile: set<Path>, glob: string -> seq<Path>, first: string, second: string,
                       s1: Settings, s2: Settings, p: Path)
    requires p in glob(first) && p in glob(second) && Classify(isFile, p).Some?
    ensures var t := Tabulate(FindFiles(isFile, [Instruction(first, s1), Instruction(second, s2)], glob));
      p in t.entries && t.entries[p].settings == s2
  {
    var instructions := [Instruction(first, s1), Instruction(second, s2)];
    TableKeys(isFile, instructions, glob, p);
    LastPatternWins(isFile, instructions, glob, p);
  }

  /**
   * The first pattern says `in_place` false, the second `in_place` true: the
   * file they both match is minified in place.
   */
  lemma OverlapInPlace(isFile: set<Path>, glob: string -> seq<Path>, first: string, second: string, p: Path)
    requires p in glob(first) && p in glob(second) && Classify(isFile, p).Some?
    ensures var instructions := [Instruction(first, map["in_place" := false]), Instruction(second, map["in_place" := true])];
      var t := Tabulate(FindFiles(isFile, instructions, glob));
      p in t.entries && InPlaceArg(t.entries[p].settings) == Success(true)
  {
    var s2 := map["in_place" := true];
    assert s2.Keys == {"in_place"};
    OverlapExample(isFile, glob, first, second, map["in_place" := false], s2, p);
  }

  /** A pattern with a bad keyword that matches nothing leaves nothing to run, so `minify` completes. */
  lemma UnusedBadSettings(files: Files, pattern: string, glob: string -> seq<Path>, tr: Transforms)
    requires glob(pattern) == []
    ensures RunTasks(files, Items(Tabulate(FindFiles(files.Keys, [Instruction(pattern, map["bogus" := true])], glob))), tr)
      == Run(files, [], None)
  {
    SingleInstruction(files.Keys, Instruction(pattern, map["bogus" := true]), glob);
    assert FindInMatches(files.Keys, [], map["bogus" := true]) == [];
  }

  /** The ratios 567 of 1000 and 2 of 3, in tenths of a percent. */
  lemma TenthsExamples()
    ensures Tenths(567, 1000) == 567
    ensures Tenths(2, 3) == 666
  {
  }

  /** A settings key other than `in_place` makes the call fail. */
  lemma KeywordExamples()
    ensures InPlaceArg(map["inplace" := true]) == Failure(UnexpectedKeyword)
    ensures InPlaceArg(map["in_place" := false]) == Success(false)
    ensures InPlaceArg(map[]) == Success(false)
  {
    var s := map["inplace" := true];
    assert "inplace" in s.Keys && "inplace" != "in_place";
    assert !(s.Keys <= {"in_place"});
  }

  /** An empty source is reported and nothing is written. */
  lemma EmptyExample(tr: Transforms)
    ensures ExecuteSpec(map["a.js" := ""], "a.js", Task(JsMin, map[]), tr)
      == Step(map["a.js" := ""], Success(EmptyFile("a.js")))
  {
  }

  /** The source and an earlier output are both matched; only the source is selected. */
  lemma SelectsOnlySource(isFile: set<Path>, stem: string, e: string, pattern: string, s: Settings,
                          glob: string -> seq<Path>)
    requires '.' !in e && '/' !in e && e in Handlers
    requires stem + "." + e in isFile && !EndsWith(stem, ".min")
    requires glob(pattern) == [stem + "." + e, stem + ".min." + e]
    ensures FindFiles(isFile, [Instruction(pattern, s)], glob) == [Found(stem + "." + e, Task(Handlers[e], s))]
  {
    SourceSelected(isFile, stem, e);
    OutputSkipped(isFile, stem, e);
    TwoMatches(isFile, stem + "." + e, stem + ".min." + e, Handlers[e], s);
    SingleInstruction(isFile, Instruction(pattern, s), glob);
  }

  /** A source `<stem>.<e>` with a handled extension and a stem without `.min` is selected. */
  lemma SourceSelected(isFile: set<Path>, stem: string, e: string)
    requires '.' !in e && '/' !in e && e in Handlers
    requires stem + "." + e in isFile && !EndsWith(stem, ".min")
    ensures Classify(isFile, stem + "." + e) == Some(Handlers[e])
  {
    ClassifyDotted(isFile, stem, e);
  }

  /** An output `<stem>.min.<e>` is skipped, whether or not it exists. */
  lemma OutputSkipped(isFile: set<Path>, stem: string, e: string)
    requires '.' !in e && '/' !in e
    ensures Classify(isFile, stem + ".min." + e) == None
  {
    MinDotAssoc(stem, e);
    EndsWithConcat(stem, ".min");
    ClassifyDotted(isFile, stem + ".min", e);
  }

  /** Of two matches, the selected one is yielded and the skipped one is not. */
  lemma TwoMatches(isFile: set<Path>, p: Path, q: Path, h: Handler, s: Settings)
    requires Classify(isFile, p) == Some(h) && Classify(isFile, q) == None
    ensures FindInMatches(isFile, [p, q], s) == [Found(p, Task(h, s))]
  {
    OneSkipped(isFile, q, s);
    assert [p, q][1..] == [q];
  }

  /** A single skipped match yields nothing. */
  lemma OneSkipped(isFile: set<Path>, q: Path, s: Settings)
    requires Classify(isFile, q) == None
    ensures FindInMatches(isFile, [q], s) == []
  {
    assert [q][1..] == [];
  }

  /** A configuration of one pattern yields what that pattern's matches yield. */
  lemma SingleInstruction(isFile: set<Path>, i: Instruction, glob: string -> seq<Path>)
    ensures FindFiles(isFile, [i], glob) == FindInMatches(isFile, glob(i.pattern), i.settings)
  {
    assert [i][1..] == [];
  }

  /**
   * One pattern over a directory holding `<stem>.<e>` and an earlier
   * `<stem>.min.<e>`: the source alone is minified, and its output replaces
   * the earlier one.
   */
  lemma EndToEndExample(stem: string, e: string, content: string, previous: string, pattern: string,
                        glob: string -> seq<Path>, tr: Transforms)
    requires '.' !in e && '/' !in e && e in Handlers
    requires !EndsWith(stem, ".min") && |content| > 0
    requires glob(pattern) == [stem + "." + e, stem + ".min." + e]
    ensures var files := map[stem + "." + e := content, stem + ".min." + e := previous];
      var minified := Apply(Handlers[e], tr, content);
      RunTasks(files, Items(Tabulate(FindFiles(files.Keys, [Instruction(pattern, map[])], glob))), tr)
        == Run(files[stem + ".min." + e := minified],
               [Written(stem + "." + e, stem + ".min." + e, |content|, |minified|, Tenths(|minified|, |content|))], None)
  {
    var files := map[stem + "." + e := content, stem + ".min." + e := previous];
    var f := Found(stem + "." + e, Task(Handlers[e], map[]));
    SelectsOnlySource(files.Keys, stem, e, pattern, map[], glob);
    SingleItem(f);
    TargetOfDotted(files.Keys, stem, e);
    OneRun(files, f, tr);
  }

  /** Running one item is its single step. */
  lemma OneRun(files: Files, f: Found, tr: Transforms)
    ensures var step := ExecuteSpec(files, f.path, f.task, tr);
      RunTasks(files, [f], tr)
        == if step.outcome.Success? then Run(step.files, [step.outcome.value], None) else Run(step.files, [], Some(step.outcome.error))
  {
    assert [f][1..] == [];
  }

  /** One triple makes a table with one item. */
  lemma SingleItem(f: Found)
    ensures Items(Tabulate([f])) == [f]
  {
    assert [f][..0] == [];
    assert Tabulate([f]) == Table([f.path], map[f.path := f.task]);
  }
}

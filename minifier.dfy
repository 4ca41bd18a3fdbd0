/**
 * The selection half of `Minifier` in bin/minify_assets.py: the handlers table,
 * `_ext`, the `.min.<ext>` guard, `_find_files`, and the output name that
 * `_execute` derives from a source path.
 */
module Minifier {
  import opened Wrappers
  import opened Strings

  type Path = string

  /** Settings of one pattern: each key of the JSON object with the truth value Python gives its value. */
  type Settings = map<string, bool>

  /** The three minifiers the table refers to; `html` and `jinja2` share `_htmlmin`. */
  datatype Handler = JsMin | CssMin | HtmlMin

  /** The external minifiers (`rjsmin.jsmin`, `rcssmin.cssmin`, `htmlmin.minify`), left uninterpreted. */
  datatype Transforms = Transforms(jsmin: string -> string, cssmin: string -> string, htmlmin: string -> string)

  /** Calling `handler(content)`. */
  function Apply(h: Handler, tr: Transforms, content: string): string
  {
    match h
    case JsMin => tr.jsmin(content)
    case CssMin => tr.cssmin(content)
    case HtmlMin => tr.htmlmin(content)
  }

  /** `Minifier.handlers`: exact, case-sensitive extension keys. */
  const Handlers: map<string, Handler> :=
    map["js" := JsMin, "css" := CssMin, "html" := HtmlMin, "jinja2" := HtmlMin]

  /** `handlers.get(ext)`, where `ext` may be None. */
  function Lookup(ext: Option<string>): (h: Option<Handler>)
    ensures h.Some? <==> ext.Some? && ext.value in {"js", "css", "html", "jinja2"}
    ensures h == Some(JsMin) <==> ext == Some("js")
    ensures h == Some(CssMin) <==> ext == Some("css")
    ensures h == Some(HtmlMin) <==> ext == Some("html") || ext == Some("jinja2")
  {
    if ext.Some? && ext.value in Handlers then Some(Handlers[ext.value]) else None
  }

  /** The part of `_ext` that looks only at the name: the text after the last `.` of the base name. */
  function ExtOfName(p: Path): Option<string>
  {
    var b := Basename(p);
    match LastIndex(b, '.')
    case None => None
    case Some(i) => Some(b[i + 1..])
  }

  /** The extension exists iff the base name has a dot; it is dot- and slash-free and ends the name after a dot. */
  lemma {:induction false} ExtOfNameSpec(p: Path)
    ensures ExtOfName(p).Some? <==> '.' in Basename(p)
    ensures ExtOfName(p).Some? ==> '.' !in ExtOfName(p).value && '/' !in ExtOfName(p).value
    ensures ExtOfName(p).Some? ==>
      EndsWith(Basename(p), "." + ExtOfName(p).value) && EndsWith(p, "." + ExtOfName(p).value)
  {
    var b := Basename(p);
    var li := LastIndex(b, '.');
    if li.Some? {
      var i := li.value;
      DotSuffix(b, i);
      EndsWithTrans(p, b, "." + b[i + 1..]);
      assert ExtOfName(p) == Some(b[i + 1..]);
    } else {
      assert ExtOfName(p) == None;
    }
  }

  /** `_ext(filename)`: None unless the path is a regular file whose base name has a dot. */
  function Ext(isFile: set<Path>, p: Path): Option<string>
  {
    if p !in isFile then None else ExtOfName(p)
  }

  /** `_ext` is None exactly for a path that is no regular file or whose base name has no dot. */
  lemma {:induction false} ExtSpec(isFile: set<Path>, p: Path)
    ensures Ext(isFile, p).Some? <==> p in isFile && '.' in Basename(p)
    ensures Ext(isFile, p).Some? ==> Ext(isFile, p) == ExtOfName(p)
  {
    ExtOfNameSpec(p);
  }

  /** How an f-string renders `ext`: Python writes a None as `None`. */
  function ExtText(ext: Option<string>): string
  {
    match ext
    case None => "None"
    case Some(e) => e
  }

  /** A path that a pattern match yields, once it is known to be a regular file. */
  predicate Eligible(p: Path)
  {
    match ExtOfName(p)
    case None => false
    case Some(e) => e in Handlers && !EndsWith(p, ".min." + e)
  }

  /** The body of the inner loop of `_find_files`: the guard, then the table lookup. */
  function Classify(isFile: set<Path>, p: Path): (h: Option<Handler>)
    ensures h.Some? <==> p in isFile && Eligible(p)
    ensures h.Some? ==> h == Lookup(ExtOfName(p))
  {
    var ext := Ext(isFile, p);
    if EndsWith(p, ".min." + ExtText(ext)) then None else Lookup(ext)
  }

  /** The value stored in the `tasks` table: `(handler, settings)`. */
  datatype Task = Task(handler: Handler, settings: Settings)

  /** One triple yielded by `_find_files`. */
  datatype Found = Found(path: Path, task: Task)

  /** One `pattern: settings` entry of the configuration, in document order. */
  datatype Instruction = Instruction(pattern: string, settings: Settings)

  /** What the inner loop of `_find_files` yields for the matches of one pattern. */
  function FindInMatches(isFile: set<Path>, matches: seq<Path>, settings: Settings): seq<Found>
  {
    if |matches| == 0 then []
    else
      var here := match Classify(isFile, matches[0])
        case None => []
        case Some(h) => [Found(matches[0], Task(h, settings))];
      here + FindInMatches(isFile, matches[1..], settings)
  }

  /** A triple is yielded for one pattern iff its path is a match, with the pattern's settings and the handler `Classify` picks. */
  lemma {:induction false} FindInMatchesMembers(isFile: set<Path>, matches: seq<Path>, settings: Settings)
    ensures forall f :: f in FindInMatches(isFile, matches, settings) <==>
      f.path in matches && f.task.settings == settings && Classify(isFile, f.path) == Some(f.task.handler)
    decreases |matches|
  {
    if |matches| > 0 {
      FindInMatchesMembers(isFile, matches[1..], settings);
      assert forall p :: p in matches <==> p == matches[0] || p in matches[1..];
    }
  }

  /** `_find_files(instructions)`: every selected match of every pattern, patterns in order. */
  function FindFiles(isFile: set<Path>, instructions: seq<Instruction>, glob: string -> seq<Path>): seq<Found>
    decreases |instructions|
  {
    if |instructions| == 0 then []
    else FindInMatches(isFile, glob(instructions[0].pattern), instructions[0].settings) + FindFiles(isFile, instructions[1..], glob)
  }

  /** A triple is yielded iff some pattern matches its path, with that pattern's settings and the handler `Classify` picks. */
  lemma {:induction false} FindFilesMembers(isFile: set<Path>, instructions: seq<Instruction>, glob: string -> seq<Path>)
    ensures forall f :: f in FindFiles(isFile, instructions, glob) <==>
      exists i :: 0 <= i < |instructions| && f.path in glob(instructions[i].pattern)
        && f.task.settings == instructions[i].settings && Classify(isFile, f.path) == Some(f.task.handler)
    decreases |instructions|
  {
    if |instructions| > 0 {
      FindInMatchesMembers(isFile, glob(instructions[0].pattern), instructions[0].settings);
      FindFilesMembers(isFile, instructions[1..], glob);
      assert forall i :: 0 < i < |instructions| ==> instructions[i] == instructions[1..][i - 1];
    }
  }

  /** `re.sub(f"\\.{ext}$", f".min.{ext}", path)` for an extension without regex metacharacters. */
  function DerivedName(p: Path, ext: Option<string>): Path
  {
    var suffix := "." + ExtText(ext);
    if EndsWith(p, suffix) then p[..|p| - |suffix|] + ".min." + ExtText(ext) else p
  }

  /** The output path of `_execute`: the source itself, or the name `DerivedName` gives it. */
  function Target(isFile: set<Path>, p: Path, inPlace: bool): (t: Path)
    ensures inPlace ==> t == p
  {
    if inPlace then p else DerivedName(p, Ext(isFile, p))
  }

  /** The target of a file depends on the filesystem only through that file being there. */
  lemma {:induction false} TargetFrame(a: set<Path>, b: set<Path>, p: Path, inPlace: bool)
    requires p in a && p in b
    ensures Target(a, p, inPlace) == Target(b, p, inPlace)
  {
    assert Ext(a, p) == Ext(b, p);
  }

  /** Out of place, the trailing `.<ext>` of a file becomes `.min.<ext>` and nothing before it changes. */
  lemma {:induction false} TargetOutOfPlace(isFile: set<Path>, p: Path, e: string)
    requires Ext(isFile, p) == Some(e)
    ensures EndsWith(p, "." + e)
    ensures Target(isFile, p, false) == p[..|p| - |e| - 1] + ".min." + e
  {
    ExtOfNameSpec(p);
    SplitExt(p, e);
  }

  /** Replacing the trailing `.<e>` keeps everything before it. */
  lemma {:induction false} SplitExt(p: Path, e: string)
    requires EndsWith(p, "." + e)
    ensures |e| + 1 <= |p|
    ensures DerivedName(p, Some(e)) == p[..|p| - |e| - 1] + ".min." + e
  {
  }

  /** A name ending in `.` and a dot-free, slash-free `e` has extension `e`. */
  lemma {:induction false} ExtOfNameOf(stem: string, e: string)
    requires '.' !in e && '/' !in e
    ensures ExtOfName(stem + "." + e) == Some(e)
  {
    var b := Basename(stem);
    BasenameOfDotted(stem, e);
    LastIndexOfDotted(b, e);
    assert (b + "." + e)[|b| + 1..] == e;
  }

  /** The name derived for a path with extension `e` still has extension `e` and ends with `.min.<e>`. */
  lemma {:induction false} DerivedNameShape(p: Path, e: string)
    requires ExtOfName(p) == Some(e)
    ensures ExtOfName(DerivedName(p, Some(e))) == Some(e)
    ensures EndsWith(DerivedName(p, Some(e)), ".min." + e)
  {
    ExtOfNameSpec(p);
    SplitExt(p, e);
    var stem := p[..|p| - |e| - 1];
    MinDotAssoc(stem, e);
    ExtOfNameOf(stem + ".min", e);
    EndsWithConcat(stem, ".min." + e);
  }

  lemma {:induction false} MinDotAssoc(stem: string, e: string)
    ensures stem + ".min." + e == stem + ".min" + "." + e
    ensures stem + ".min." + e == stem + (".min." + e)
  {
    assert ".min." == ".min" + ".";
  }

  /**
   * The name derived for a path with an extension is never selected on a later
   * run, whatever the filesystem then holds.
   */
  lemma {:induction false} DerivedNameRejected(p: Path, isFile: set<Path>)
    requires ExtOfName(p).Some?
    ensures !Eligible(DerivedName(p, ExtOfName(p)))
    ensures Classify(isFile, DerivedName(p, ExtOfName(p))) == None
  {
    DerivedNameShape(p, ExtOfName(p).value);
  }

  /** Different source paths with extensions never share a derived name. */
  lemma {:induction false} DerivedNameInjective(p: Path, q: Path)
    requires ExtOfName(p).Some? && ExtOfName(q).Some?
    requires DerivedName(p, ExtOfName(p)) == DerivedName(q, ExtOfName(q))
    ensures p == q
  {
    var e := ExtOfName(p).value;
    ExtOfNameSpec(p);
    ExtOfNameSpec(q);
    DerivedNameShape(p, e);
    DerivedNameShape(q, ExtOfName(q).value);
    assert ExtOfName(q).value == e;
    SplitExt(p, e);
    SplitExt(q, e);
    var sp, sq := p[..|p| - |e| - 1], q[..|q| - |e| - 1];
    MinDotAssoc(sp, e);
    MinDotAssoc(sq, e);
    CancelSuffix(sp, sq, ".min." + e);
    SplitSuffix(p, "." + e);
    SplitSuffix(q, "." + e);
  }

  /** A non-in-place target is never another selected source, and two tasks never share a target. */
  lemma {:induction false} TargetsApart(isFile: set<Path>, p: Path, q: Path, inP: bool, inQ: bool)
    requires p in isFile && q in isFile && Eligible(p) && Eligible(q) && p != q
    ensures Target(isFile, p, inP) != q
    ensures Target(isFile, p, inP) != Target(isFile, q, inQ)
  {
    if !inP {
      DerivedNameRejected(p, isFile);
    }
    if !inQ {
      DerivedNameRejected(q, isFile);
    }
    if !inP && !inQ && Target(isFile, p, inP) == Target(isFile, q, inQ) {
      DerivedNameInjective(p, q);
    }
  }

  /** Directories play no part in the extension: `_ext` looks at the base name only. */
  lemma {:induction false} ExtIgnoresDirectories(d: string, f: string)
    requires '/' !in f
    ensures ExtOfName(d + "/" + f) == ExtOfName(f)
  {
    BasenameInDirectory(d, f);
    assert Basename(f) == f;
  }

  /** A name `<stem>.<e>` carries the `.min.<e>` mark exactly when its stem ends in `.min`. */
  lemma {:induction false} MinGuard(stem: string, e: string)
    ensures EndsWith(stem + "." + e, ".min." + e) <==> EndsWith(stem, ".min")
  {
    assert stem + "." + e == stem + ("." + e);
    assert ".min." + e == ".min" + ("." + e);
    EndsWithCancel(stem, ".min", "." + e);
  }

  /**
   * Which files named `<stem>.<e>` `_find_files` selects: regular files with a
   * handled extension whose stem does not already end in `.min`.
   */
  lemma {:induction false} ClassifyDotted(isFile: set<Path>, stem: string, e: string)
    requires '.' !in e && '/' !in e
    ensures Classify(isFile, stem + "." + e)
      == if stem + "." + e in isFile && e in Handlers && !EndsWith(stem, ".min") then Some(Handlers[e]) else None
  {
    ExtOfNameOf(stem, e);
    MinGuard(stem, e);
  }

  /** Out of place, `<stem>.<e>` is written to `<stem>.min.<e>`. */
  lemma {:induction false} TargetOfDotted(isFile: set<Path>, stem: string, e: string)
    requires '.' !in e && '/' !in e && stem + "." + e in isFile
    ensures Target(isFile, stem + "." + e, false) == stem + ".min." + e
  {
    var p := stem + "." + e;
    ExtOfNameOf(stem, e);
    assert Ext(isFile, p) == Some(e);
    TargetOutOfPlace(isFile, p, e);
    StemOfDotted(stem, e);
  }
}

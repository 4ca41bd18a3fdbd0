/**
 * How the `tasks` table of `Minifier.minify` follows from the configuration.
 * `_find_files` yields pattern by pattern, in configuration order, and within
 * a pattern in `glob` order. So a selected path keeps the handler and the
 * settings of the last pattern that matches it, and the paths run in the order
 * of their first match.
 */
module Selection {
  import opened Wrappers
  import opened Minifier
  import opened TaskTable

  /** The index of the first pattern whose matches include `p`, or |instructions| when none does. */
  function PatternOf(instructions: seq<Instruction>, glob: string -> seq<Path>, p: Path): (i: nat)
    ensures i <= |instructions|
    ensures i < |instructions| ==> p in glob(instructions[i].pattern)
    ensures forall j :: 0 <= j < i ==> p !in glob(instructions[j].pattern)
    decreases |instructions|
  {
    if |instructions| == 0 then 0
    else if p in glob(instructions[0].pattern) then 0
    else
      var i := PatternOf(instructions[1..], glob, p);
      assert forall j :: 0 < j <= i ==> instructions[j] == instructions[1..][j - 1];
      1 + i
  }

  /** The index of the first occurrence of `p` among the matches, or |matches| when there is none. */
  function IndexOf(matches: seq<Path>, p: Path): (i: nat)
    ensures i <= |matches|
    ensures i < |matches| ==> matches[i] == p
    ensures forall j :: 0 <= j < i ==> matches[j] != p
    decreases |matches|
  {
    if |matches| == 0 then 0
    else if matches[0] == p then 0
    else 1 + IndexOf(matches[1..], p)
  }

  /**
   * `p` is first matched before `q`: by an earlier pattern, or by the same
   * pattern at an earlier place in its `glob` order.
   */
  predicate Precedes(instructions: seq<Instruction>, glob: string -> seq<Path>, p: Path, q: Path)
  {
    var i := PatternOf(instructions, glob, p);
    var j := PatternOf(instructions, glob, q);
    i < j || (i == j < |instructions| && IndexOf(glob(instructions[i].pattern), p) < IndexOf(glob(instructions[i].pattern), q))
  }

  /** Exactly the selected files that some pattern matches are keys of the table. */
  lemma {:induction false} TableKeys(isFile: set<Path>, instructions: seq<Instruction>, glob: string -> seq<Path>, p: Path)
    ensures p in Tabulate(FindFiles(isFile, instructions, glob)).entries <==>
      Classify(isFile, p).Some? && PatternOf(instructions, glob, p) < |instructions|
  {
    var found := FindFiles(isFile, instructions, glob);
    if Classify(isFile, p).Some? && PatternOf(instructions, glob, p) < |instructions| {
      MatchedIsKey(isFile, instructions, glob, p);
    }
    if p in Tabulate(found).entries {
      KeyIsMatched(isFile, instructions, glob, p);
    }
  }

  /** A selected file that a pattern matches is a key. */
  lemma {:induction false} MatchedIsKey(isFile: set<Path>, instructions: seq<Instruction>, glob: string -> seq<Path>, p: Path)
    requires Classify(isFile, p).Some? && PatternOf(instructions, glob, p) < |instructions|
    ensures p in Tabulate(FindFiles(isFile, instructions, glob)).entries
  {
    var k := TripleAt(isFile, instructions, glob, p, PatternOf(instructions, glob, p));
    TabulateHasPaths(FindFiles(isFile, instructions, glob));
  }

  /** A key is a selected file that some pattern matches. */
  lemma {:induction false} KeyIsMatched(isFile: set<Path>, instructions: seq<Instruction>, glob: string -> seq<Path>, p: Path)
    requires p in Tabulate(FindFiles(isFile, instructions, glob)).entries
    ensures Classify(isFile, p).Some? && PatternOf(instructions, glob, p) < |instructions|
  {
    FindFilesMembers(isFile, instructions, glob);
    var found := FindFiles(isFile, instructions, glob);
    TabulateOnlyPaths(found);
    var k :| 0 <= k < |found| && found[k].path == p;
    assert found[k] in found;
    var i :| 0 <= i < |instructions| && p in glob(instructions[i].pattern);
    var first := PatternOf(instructions, glob, p);
  }

  /**
   * The entry stored for a path has the handler of its extension and the
   * settings of a pattern that matches it, and no later pattern matches it.
   */
  lemma {:induction false} LastPatternWins(isFile: set<Path>, instructions: seq<Instruction>, glob: string -> seq<Path>, p: Path)
    requires p in Tabulate(FindFiles(isFile, instructions, glob)).entries
    ensures exists i :: (0 <= i < |instructions| && p in glob(instructions[i].pattern)
      && Lookup(ExtOfName(p)) == Some(Tabulate(FindFiles(isFile, instructions, glob)).entries[p].handler)
      && Tabulate(FindFiles(isFile, instructions, glob)).entries[p].settings == instructions[i].settings
      && (forall j :: i < j < |instructions| ==> p !in glob(instructions[j].pattern)))
  {
    var found := FindFiles(isFile, instructions, glob);
    TabulateLastWins(found, p);
    var n :| 0 <= n < |found| && found[n].path == p && Tabulate(found).entries[p] == found[n].task
      && (forall j :: n < j < |found| ==> found[j].path != p);
    assert LastOfPath(found, n);
    HandlerOfFound(isFile, instructions, glob, n);
    var i := LastTripleFrom(isFile, instructions, glob, n);
  }

  /** No triple after the `n`-th has its path. */
  predicate LastOfPath(found: seq<Found>, n: nat)
    requires n < |found|
  {
    forall j :: n < j < |found| ==> found[j].path != found[n].path
  }

  /** Pattern `i` yields `f`, and no pattern after it matches `f`'s path. */
  predicate LastFrom(instructions: seq<Instruction>, glob: string -> seq<Path>, f: Found, i: nat)
  {
    && i < |instructions|
    && f.path in glob(instructions[i].pattern)
    && f.task.settings == instructions[i].settings
    && (forall j :: i < j < |instructions| ==> f.path !in glob(instructions[j].pattern))
  }

  /** The last triple for a path comes from a pattern after which no pattern matches that path. */
  lemma {:induction false} LastTripleFrom(isFile: set<Path>, instructions: seq<Instruction>, glob: string -> seq<Path>, n: nat)
    returns (i: nat)
    requires n < |FindFiles(isFile, instructions, glob)| && LastOfPath(FindFiles(isFile, instructions, glob), n)
    ensures LastFrom(instructions, glob, FindFiles(isFile, instructions, glob)[n], i)
    decreases |instructions|
  {
    var here := FindInMatches(isFile, glob(instructions[0].pattern), instructions[0].settings);
    var rest := FindFiles(isFile, instructions[1..], glob);
    FindFilesCons(isFile, instructions, glob);
    if n < |here| {
      FromFirstPattern(isFile, instructions, glob, n);
      i := 0;
    } else {
      var m := n - |here|;
      LaterPart(here, rest, n);
      var f := rest[m];
      assert FindFiles(isFile, instructions, glob)[n] == f;
      var i' := LastTripleFrom(isFile, instructions[1..], glob, m);
      ShiftLastFrom(instructions, glob, f, i');
      i := i' + 1;
    }
  }

  /** A triple of the first pattern that no later triple repeats is that pattern's last word. */
  lemma {:induction false} FromFirstPattern(isFile: set<Path>, instructions: seq<Instruction>, glob: string -> seq<Path>, n: nat)
    requires 0 < |instructions|
    requires n < |FindInMatches(isFile, glob(instructions[0].pattern), instructions[0].settings)|
    requires n < |FindFiles(isFile, instructions, glob)| && LastOfPath(FindFiles(isFile, instructions, glob), n)
    ensures LastFrom(instructions, glob, FindFiles(isFile, instructions, glob)[n], 0)
  {
    FindInMatchesMembers(isFile, glob(instructions[0].pattern), instructions[0].settings);
    var found := FindFiles(isFile, instructions, glob);
    var here := FindInMatches(isFile, glob(instructions[0].pattern), instructions[0].settings);
    FindFilesCons(isFile, instructions, glob);
    assert here[n] == found[n];
    assert here[n] in here;
    forall j | 0 < j < |instructions| ensures found[n].path !in glob(instructions[j].pattern) {
      NotInLaterPattern(isFile, instructions, glob, n, j);
    }
  }

  /** The tail of the first pattern's triples: its indices, shifted, are those of the later patterns. */
  lemma {:induction false} LaterPart(here: seq<Found>, rest: seq<Found>, n: nat)
    requires |here| <= n < |here + rest| && LastOfPath(here + rest, n)
    ensures rest[n - |here|] == (here + rest)[n] && LastOfPath(rest, n - |here|)
  {
    forall j | n - |here| < j < |rest| ensures rest[j] == (here + rest)[|here| + j] {
    }
  }

  /** A pattern's last word among the later instructions is its last word among all of them. */
  lemma {:induction false} ShiftLastFrom(instructions: seq<Instruction>, glob: string -> seq<Path>, f: Found, i: nat)
    requires 0 < |instructions| && LastFrom(instructions[1..], glob, f, i)
    ensures LastFrom(instructions, glob, f, i + 1)
  {
    assert instructions[1..][i] == instructions[i + 1];
    forall j | i + 1 < j < |instructions| ensures f.path !in glob(instructions[j].pattern) {
      assert instructions[1..][j - 1] == instructions[j];
    }
  }

  /** The triples are those of the first pattern, followed by those of the others. */
  lemma {:induction false} FindFilesCons(isFile: set<Path>, instructions: seq<Instruction>, glob: string -> seq<Path>)
    requires 0 < |instructions|
    ensures FindFiles(isFile, instructions, glob) ==
      FindInMatches(isFile, glob(instructions[0].pattern), instructions[0].settings) + FindFiles(isFile, instructions[1..], glob)
  {
  }

  /** A path of the first pattern that no later triple has is matched by no later pattern. */
  lemma {:induction false} NotInLaterPattern(isFile: set<Path>, instructions: seq<Instruction>, glob: string -> seq<Path>,
                                             n: nat, j: nat)
    requires 0 < j < |instructions|
    requires n < |FindInMatches(isFile, glob(instructions[0].pattern), instructions[0].settings)|
    requires n < |FindFiles(isFile, instructions, glob)| && LastOfPath(FindFiles(isFile, instructions, glob), n)
    ensures FindFiles(isFile, instructions, glob)[n].path !in glob(instructions[j].pattern)
  {
    FindInMatchesMembers(isFile, glob(instructions[0].pattern), instructions[0].settings);
    var found := FindFiles(isFile, instructions, glob);
    var here := FindInMatches(isFile, glob(instructions[0].pattern), instructions[0].settings);
    FindFilesCons(isFile, instructions, glob);
    assert here[n] == found[n];
    assert here[n] in here;
    var p := found[n].path;
    if p in glob(instructions[j].pattern) {
      var k := LaterTriple(isFile, instructions, glob, p, j);
    }
  }

  /** A selected path that a later pattern matches has a triple after those of the first pattern. */
  lemma {:induction false} LaterTriple(isFile: set<Path>, instructions: seq<Instruction>, glob: string -> seq<Path>,
                                       p: Path, j: nat) returns (k: nat)
    requires 0 < j < |instructions| && p in glob(instructions[j].pattern) && Classify(isFile, p).Some?
    ensures |FindInMatches(isFile, glob(instructions[0].pattern), instructions[0].settings)| <= k
    ensures k < |FindFiles(isFile, instructions, glob)| && FindFiles(isFile, instructions, glob)[k].path == p
  {
    assert instructions[1..][j - 1] == instructions[j];
    var r := TripleAt(isFile, instructions[1..], glob, p, j - 1);
    var here := FindInMatches(isFile, glob(instructions[0].pattern), instructions[0].settings);
    FindFilesCons(isFile, instructions, glob);
    ConcatRight(here, FindFiles(isFile, instructions[1..], glob), r);
    k := |here| + r;
  }

  /** Index `r` of the second of two joined sequences is index `|x| + r` of the whole. */
  lemma {:induction false} ConcatRight(x: seq<Found>, y: seq<Found>, r: nat)
    requires r < |y|
    ensures |x| + r < |x + y| && (x + y)[|x| + r] == y[r]
  {
  }

  /** A selected path that pattern `i` matches has a triple with that pattern's settings. */
  lemma {:induction false} TripleAt(isFile: set<Path>, instructions: seq<Instruction>, glob: string -> seq<Path>,
                                    p: Path, i: nat) returns (k: nat)
    requires i < |instructions| && p in glob(instructions[i].pattern) && Classify(isFile, p).Some?
    ensures k < |FindFiles(isFile, instructions, glob)|
    ensures FindFiles(isFile, instructions, glob)[k] == Found(p, Task(Classify(isFile, p).value, instructions[i].settings))
  {
    FindFilesMembers(isFile, instructions, glob);
    var found := FindFiles(isFile, instructions, glob);
    var g := Found(p, Task(Classify(isFile, p).value, instructions[i].settings));
    assert g in found;
    k :| 0 <= k < |found| && found[k] == g;
  }
  /**
   * The keys of the table run in first-match order over the configuration:
   * by the first pattern matching each path, then by its place in that
   * pattern's `glob` order.
   */
  lemma {:induction false} TableOrder(isFile: set<Path>, instructions: seq<Instruction>, glob: string -> seq<Path>)
    ensures var order := Tabulate(FindFiles(isFile, instructions, glob)).order;
      forall a, b :: 0 <= a < b < |order| ==> Precedes(instructions, glob, order[a], order[b])
  {
    var found := FindFiles(isFile, instructions, glob);
    var order := Tabulate(found).order;
    TabulateFirstOrder(found);
    forall a, b | 0 <= a < b < |order| ensures Precedes(instructions, glob, order[a], order[b]) {
      var p, q := order[a], order[b];
      HandlerOfFound(isFile, instructions, glob, FirstMatch(found, p));
      HandlerOfFound(isFile, instructions, glob, FirstMatch(found, q));
      PatternOrder(isFile, instructions, glob, p, q);
    }
  }

  /** Every triple's path is selected, with the handler of its extension. */
  lemma {:induction false} HandlerOfFound(isFile: set<Path>, instructions: seq<Instruction>, glob: string -> seq<Path>, k: nat)
    requires k < |FindFiles(isFile, instructions, glob)|
    ensures var f := FindFiles(isFile, instructions, glob)[k];
      Classify(isFile, f.path) == Some(f.task.handler) && Lookup(ExtOfName(f.path)) == Some(f.task.handler)
  {
    FindFilesMembers(isFile, instructions, glob);
    var found := FindFiles(isFile, instructions, glob);
    assert found[k] in found;
  }

  /** Among selected paths, an earlier first triple means an earlier first match in the configuration. */
  lemma {:induction false} PatternOrder(isFile: set<Path>, instructions: seq<Instruction>, glob: string -> seq<Path>,
                                        p: Path, q: Path)
    requires p != q && Classify(isFile, p).Some? && Classify(isFile, q).Some?
    requires var found := FindFiles(isFile, instructions, glob);
      FirstMatch(found, p) < FirstMatch(found, q) < |found|
    ensures Precedes(instructions, glob, p, q)
    decreases |instructions|
  {
    if |instructions| > 0 {
      var m := glob(instructions[0].pattern);
      var s := instructions[0].settings;
      var here := FindInMatches(isFile, m, s);
      var rest := FindFiles(isFile, instructions[1..], glob);
      assert FindFiles(isFile, instructions, glob) == here + rest;
      FirstMatchConcat(here, rest, p);
      FirstMatchConcat(here, rest, q);
      InMatches(isFile, m, s, p);
      InMatches(isFile, m, s, q);
      if p in m && q in m {
        MatchOrder(isFile, m, s, p, q);
      } else if p !in m {
        PatternOrder(isFile, instructions[1..], glob, p, q);
        PrecedesTail(instructions, glob, p, q);
      }
    }
  }

  /** Within one pattern, an earlier first triple means an earlier place in `glob` order. */
  lemma {:induction false} MatchOrder(isFile: set<Path>, matches: seq<Path>, settings: Settings, p: Path, q: Path)
    requires p != q && Classify(isFile, q).Some? && q in matches
    requires var here := FindInMatches(isFile, matches, settings);
      FirstMatch(here, p) < FirstMatch(here, q)
    ensures IndexOf(matches, p) < IndexOf(matches, q)
    decreases |matches|
  {
    var here := FindInMatches(isFile, matches, settings);
    var rest := FindInMatches(isFile, matches[1..], settings);
    var head := match Classify(isFile, matches[0])
      case None => []
      case Some(h) => [Found(matches[0], Task(h, settings))];
    assert here == head + rest;
    if matches[0] != q && matches[0] != p {
      FirstMatchConcat(head, rest, p);
      FirstMatchConcat(head, rest, q);
      assert q in matches[1..];
      MatchOrder(isFile, matches[1..], settings, p, q);
    }
  }

  /** A selected path has a triple for one pattern exactly when the pattern matches it. */
  lemma {:induction false} InMatches(isFile: set<Path>, matches: seq<Path>, settings: Settings, p: Path)
    requires Classify(isFile, p).Some?
    ensures var here := FindInMatches(isFile, matches, settings);
      FirstMatch(here, p) < |here| <==> p in matches
  {
    FindInMatchesMembers(isFile, matches, settings);
    var here := FindInMatches(isFile, matches, settings);
    if p in matches {
      var f := Found(p, Task(Classify(isFile, p).value, settings));
      assert f in here;
      FirstMatchOfMember(here, f);
    }
    if FirstMatch(here, p) < |here| {
      FirstTripleIn(here, p);
    }
  }

  /** A path with a triple has a first triple. */
  lemma {:induction false} FirstMatchOfMember(found: seq<Found>, f: Found)
    requires f in found
    ensures FirstMatch(found, f.path) < |found|
  {
    var k :| 0 <= k < |found| && found[k] == f;
  }

  /** The first triple for a path is one of the triples. */
  lemma {:induction false} FirstTripleIn(found: seq<Found>, p: Path)
    requires FirstMatch(found, p) < |found|
    ensures found[FirstMatch(found, p)] in found && found[FirstMatch(found, p)].path == p
  {
  }

  /** Two paths the first pattern does not match are ordered as in the later patterns. */
  lemma {:induction false} PrecedesTail(instructions: seq<Instruction>, glob: string -> seq<Path>, p: Path, q: Path)
    requires |instructions| > 0
    requires p !in glob(instructions[0].pattern) && q !in glob(instructions[0].pattern)
    requires Precedes(instructions[1..], glob, p, q)
    ensures Precedes(instructions, glob, p, q)
  {
    var i := PatternOf(instructions[1..], glob, p);
    assert PatternOf(instructions, glob, p) == 1 + i;
    assert PatternOf(instructions, glob, q) == 1 + PatternOf(instructions[1..], glob, q);
    if i < |instructions| - 1 {
      assert instructions[1..][i] == instructions[i + 1];
    }
  }

  /** The first triple for a path in two joined sequences: in the first one, or else in the second one. */
  lemma {:induction false} FirstMatchConcat(x: seq<Found>, y: seq<Found>, p: Path)
    ensures FirstMatch(x + y, p) == if FirstMatch(x, p) < |x| then FirstMatch(x, p) else |x| + FirstMatch(y, p)
    decreases |x|
  {
    if |x| == 0 {
      assert x + y == y;
    } else {
      assert (x + y)[0] == x[0];
      assert (x + y)[1..] == x[1..] + y;
      FirstMatchConcat(x[1..], y, p);
    }
  }
}

/**
 * The `tasks` dict that `Minifier.minify` fills from the triples of
 * `_find_files`: keyed by path, the last assignment wins, and a key keeps the
 * position where it was first inserted.
 */
module TaskTable {
  import opened Minifier

  /** A Python dict from path to task: its keys in iteration order, and its contents. */
  datatype Table = Table(order: seq<Path>, entries: map<Path, Task>)

  predicate Distinct(s: seq<Path>)
  {
    forall i, j :: 0 <= i < j < |s| ==> s[i] != s[j]
  }

  /** Every key is listed once in the order, and only keys are listed. */
  predicate WellFormed(t: Table)
  {
    && Distinct(t.order)
    && (forall p :: p in t.order ==> p in t.entries)
    && (forall p :: p in t.entries ==> p in t.order)
  }

  /** `tasks[path] = task`: an existing key keeps its position, a new one goes last. */
  function Put(t: Table, p: Path, task: Task): (r: Table)
    ensures WellFormed(t) ==> WellFormed(r)
    ensures r.entries == t.entries[p := task]
    ensures p in t.entries ==> r.order == t.order
    ensures p !in t.entries ==> r.order == t.order + [p]
  {
    if p in t.entries then Table(t.order, t.entries[p := task])
    else Table(t.order + [p], t.entries[p := task])
  }

  /** The table after the first loop of `minify` has stored every triple of `found`. */
  function Tabulate(found: seq<Found>): (t: Table)
    ensures WellFormed(t)
  {
    if |found| == 0 then Table([], map[])
    else
      var last := found[|found| - 1];
      Put(Tabulate(found[..|found| - 1]), last.path, last.task)
  }

  /** `tasks.items()`, in iteration order. */
  function Items(t: Table): (r: seq<Found>)
    requires forall p :: p in t.order ==> p in t.entries
    ensures |r| == |t.order|
    ensures forall i :: 0 <= i < |r| ==> r[i] == Found(t.order[i], t.entries[t.order[i]])
    decreases |t.order|
  {
    if |t.order| == 0 then []
    else [Found(t.order[0], t.entries[t.order[0]])] + Items(Table(t.order[1..], t.entries))
  }

  /** The index of the first triple for `p`, or |found| when there is none. */
  function FirstMatch(found: seq<Found>, p: Path): (i: nat)
    ensures i <= |found|
    ensures i < |found| ==> found[i].path == p
    ensures forall j :: 0 <= j < i ==> found[j].path != p
  {
    if |found| == 0 then 0
    else if found[0].path == p then 0
    else 1 + FirstMatch(found[1..], p)
  }

  /** Every path of `found` is stored. */
  lemma {:induction false} TabulateHasPaths(found: seq<Found>)
    ensures forall i :: 0 <= i < |found| ==> found[i].path in Tabulate(found).entries
  {
    if |found| > 0 {
      var n := |found|;
      var init := found[..n - 1];
      TabulateHasPaths(init);
      forall i | 0 <= i < n ensures found[i].path in Tabulate(found).entries {
        if i < n - 1 {
          assert init[i] == found[i];
        }
      }
    }
  }

  /** Only paths of `found` are stored. */
  lemma {:induction false} TabulateOnlyPaths(found: seq<Found>)
    ensures forall p :: p in Tabulate(found).entries ==> exists i :: 0 <= i < |found| && found[i].path == p
  {
    if |found| > 0 {
      var n := |found|;
      var init := found[..n - 1];
      TabulateOnlyPaths(init);
      forall p | p in Tabulate(found).entries ensures exists i :: 0 <= i < n && found[i].path == p {
        if p != found[n - 1].path {
          assert Tabulate(found).entries == Tabulate(init).entries[found[n - 1].path := found[n - 1].task];
          assert p in Tabulate(init).entries;
          var i :| 0 <= i < |init| && init[i].path == p;
          assert found[i].path == p;
        }
      }
    }
  }

  /** The entry stored for a path comes from the last triple for that path. */
  lemma {:induction false} TabulateLastWins(found: seq<Found>, p: Path)
    requires p in Tabulate(found).entries
    ensures exists i :: (0 <= i < |found| && found[i].path == p && Tabulate(found).entries[p] == found[i].task
      && (forall j :: i < j < |found| ==> found[j].path != p))
  {
    var n := |found|;
    if found[n - 1].path == p {
      assert found[n - 1].path == p && Tabulate(found).entries[p] == found[n - 1].task;
    } else {
      var init := found[..n - 1];
      TabulateLastWins(init, p);
      var i :| 0 <= i < |init| && init[i].path == p && Tabulate(init).entries[p] == init[i].task
        && (forall j :: i < j < |init| ==> init[j].path != p);
      LastWinsStep(found, p, i);
    }
  }

  /** A last triple for another path keeps the last triple for `p` and its entry. */
  lemma {:induction false} LastWinsStep(found: seq<Found>, p: Path, i: nat)
    requires 0 < |found| && found[|found| - 1].path != p
    requires var init := found[..|found| - 1];
      i < |init| && init[i].path == p && p in Tabulate(init).entries && Tabulate(init).entries[p] == init[i].task
      && (forall j :: i < j < |init| ==> init[j].path != p)
    ensures found[i].path == p && Tabulate(found).entries[p] == found[i].task
    ensures forall j :: i < j < |found| ==> found[j].path != p
  {
    var init := found[..|found| - 1];
    assert init[i] == found[i];
    forall j | i < j < |found| ensures found[j].path != p {
      if j < |found| - 1 {
        assert init[j] == found[j];
      }
    }
  }

  /** A first match in a prefix is the first match in the whole sequence. */
  lemma {:induction false} FirstMatchPrefix(found: seq<Found>, k: nat, p: Path)
    requires k <= |found| && FirstMatch(found[..k], p) < k
    ensures FirstMatch(found, p) == FirstMatch(found[..k], p)
  {
    var i := FirstMatch(found[..k], p);
    assert found[i].path == p;
  }

  /** `order` lists paths in strictly increasing order of their first match in `found`. */
  predicate InFirstMatchOrder(found: seq<Found>, order: seq<Path>)
  {
    forall a, b :: 0 <= a < b < |order| ==> FirstMatch(found, order[a]) < FirstMatch(found, order[b])
  }

  /** Paths are listed in the order of their first match. */
  lemma {:induction false} TabulateFirstOrder(found: seq<Found>)
    ensures forall p :: p in Tabulate(found).order ==> FirstMatch(found, p) < |found|
    ensures InFirstMatchOrder(found, Tabulate(found).order)
  {
    if |found| > 0 {
      var n := |found|;
      var init := found[..n - 1];
      TabulateFirstOrder(init);
      var before := Tabulate(init).order;
      PrefixMatches(found, init, before);
      var last := found[n - 1].path;
      if last !in Tabulate(init).entries {
        FirstMatchOfNew(found, last);
        AppendKeepsOrder(found, init, before, last);
      } else {
        KeepOrder(found, init, before);
      }
    }
  }

  /** Paths first matched within the prefix `init` have the same first match in `found`. */
  lemma {:induction false} PrefixMatches(found: seq<Found>, init: seq<Found>, before: seq<Path>)
    requires |found| > 0 && init == found[..|found| - 1]
    requires forall p :: p in before ==> FirstMatch(init, p) < |init|
    ensures forall p :: p in before ==> FirstMatch(found, p) == FirstMatch(init, p)
  {
    forall p | p in before ensures FirstMatch(found, p) == FirstMatch(init, p) {
      FirstMatchPrefix(found, |found| - 1, p);
    }
  }

  /** An order of first matches in a prefix is one in the whole sequence. */
  lemma {:induction false} KeepOrder(found: seq<Found>, init: seq<Found>, before: seq<Path>)
    requires |init| < |found| && InFirstMatchOrder(init, before)
    requires forall p :: p in before ==> FirstMatch(init, p) < |init|
    requires forall p :: p in before ==> FirstMatch(found, p) == FirstMatch(init, p)
    ensures InFirstMatchOrder(found, before)
    ensures forall p :: p in before ==> FirstMatch(found, p) < |found|
  {
  }

  /** Appending a path whose first match is the last triple keeps the order. */
  lemma {:induction false} AppendKeepsOrder(found: seq<Found>, init: seq<Found>, before: seq<Path>, last: Path)
    requires InFirstMatchOrder(init, before)
    requires forall p :: p in before ==> FirstMatch(init, p) < |init|
    requires forall p :: p in before ==> FirstMatch(found, p) == FirstMatch(init, p)
    requires FirstMatch(found, last) == |init|
    ensures InFirstMatchOrder(found, before + [last])
  {
    var order := before + [last];
    forall a, b | 0 <= a < b < |order|
      ensures FirstMatch(found, order[a]) < FirstMatch(found, order[b])
    {
      assert order[a] == before[a];
      if b < |before| {
        assert order[b] == before[b];
      }
    }
  }

  /** A path that no earlier triple has is first matched by the last triple. */
  lemma {:induction false} FirstMatchOfNew(found: seq<Found>, p: Path)
    requires |found| > 0 && found[|found| - 1].path == p
    requires p !in Tabulate(found[..|found| - 1]).entries
    ensures FirstMatch(found, p) == |found| - 1
  {
    var init := found[..|found| - 1];
    TabulateHasPaths(init);
    forall j | 0 <= j < |found| - 1 ensures found[j].path != p {
      assert init[j] == found[j];
    }
    FirstMatchAt(found, p, |found| - 1);
  }

  /** The first index holding `p` is its first match. */
  lemma {:induction false} FirstMatchAt(found: seq<Found>, p: Path, k: nat)
    requires k < |found| && found[k].path == p
    requires forall j :: 0 <= j < k ==> found[j].path != p
    ensures FirstMatch(found, p) == k
  {
  }
}

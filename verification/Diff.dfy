/**
 Snapshot diffing: one merge walk over two path-ordered maps must report exactly the
 differing paths, in order, and nothing else.
 */
module Diff {
  import opened Text

  datatype Entry = Entry(path: string, blob: string)
  datatype BlobChange = BlobChange(path: string, before: string, after: string)
  datatype ChangedSet = ChangedSet(added: seq<Entry>, modified: seq<BlobChange>, removed: seq<Entry>)

  /** A `BTreeMap` from paths to blobs, by its iteration order. */
  ghost predicate IsOrdered(files: seq<Entry>) {
    forall i, j :: 0 <= i < j < |files| ==> Less(files[i].path, files[j].path)
  }

  datatype TreeSnapshot = TreeSnapshot(identity: string, commit: Option<string>, files: seq<Entry>)

  datatype Result = Ok(changed: ChangedSet) | SnapshotMismatch(was: string, now: string)

  // ----- what a diff is

  ghost predicate HasPath(files: seq<Entry>, path: string) {
    exists i :: 0 <= i < |files| && files[i].path == path
  }

  ghost predicate InPathOrder<T(!new)>(items: seq<T>, path: T -> string) {
    forall i, j :: 0 <= i < j < |items| ==> Less(path(items[i]), path(items[j]))
  }

  function PathOf(e: Entry): string { e.path }
  function ChangedPath(m: BlobChange): string { m.path }

  /** The differing paths, each once, in strictly increasing order, with both blobs. */
  ghost predicate IsDiff(was: seq<Entry>, now: seq<Entry>, c: ChangedSet) {
    && InPathOrder(c.added, PathOf) && InPathOrder(c.modified, ChangedPath) && InPathOrder(c.removed, PathOf)
    && (forall e :: e in c.added <==> e in now && !HasPath(was, e.path))
    && (forall e :: e in c.removed <==> e in was && !HasPath(now, e.path))
    && (forall m :: m in c.modified <==>
          Entry(m.path, m.before) in was && Entry(m.path, m.after) in now && m.before != m.after)
  }

  // ----- one step of the walk

  ghost predicate Fits(files: seq<Entry>, path: string) {
    forall i :: 0 <= i < |files| ==> Less(files[i].path, path)
  }

  lemma FitsHasNot(files: seq<Entry>, path: string)
    requires Fits(files, path)
    ensures !HasPath(files, path)
  {
    LessIsTotal(path, path);
  }

  lemma HasPathAppend(files: seq<Entry>, e: Entry, path: string)
    ensures HasPath(files + [e], path) <==> HasPath(files, path) || path == e.path
  {
    var longer := files + [e];
    if HasPath(files, path) {
      var i :| 0 <= i < |files| && files[i].path == path;
      assert longer[i].path == path;
    }
    assert longer[|files|] == e;
  }

  /** Everything reported so far concerns paths before `path`. */
  ghost predicate ReportedBefore(c: ChangedSet, path: string) {
    && (forall i :: 0 <= i < |c.added| ==> Less(c.added[i].path, path))
    && (forall i :: 0 <= i < |c.removed| ==> Less(c.removed[i].path, path))
    && (forall i :: 0 <= i < |c.modified| ==> Less(c.modified[i].path, path))
  }

  lemma ReportsAreBefore(was: seq<Entry>, now: seq<Entry>, c: ChangedSet, path: string)
    requires IsDiff(was, now, c) && Fits(was, path) && Fits(now, path)
    ensures ReportedBefore(c, path)
  {
    forall i | 0 <= i < |c.added| ensures Less(c.added[i].path, path) {
      assert c.added[i] in c.added;
    }
    forall i | 0 <= i < |c.removed| ensures Less(c.removed[i].path, path) {
      assert c.removed[i] in c.removed;
    }
    forall i | 0 <= i < |c.modified| ensures Less(c.modified[i].path, path) {
      assert c.modified[i] in c.modified;
      assert Entry(c.modified[i].path, c.modified[i].before) in was;
    }
  }

  lemma StepRemoved(was: seq<Entry>, now: seq<Entry>, c: ChangedSet, e: Entry)
    requires IsDiff(was, now, c) && Fits(was, e.path) && Fits(now, e.path)
    ensures IsDiff(was + [e], now, c.(removed := c.removed + [e]))
  {
    ReportsAreBefore(was, now, c, e.path);
    FitsHasNot(now, e.path);
    forall x | x in now ensures HasPath(was + [e], x.path) <==> HasPath(was, x.path) {
      HasPathAppend(was, e, x.path);
      var i :| 0 <= i < |now| && now[i] == x;
      assert HasPath(now, x.path);
    }
    forall m: BlobChange | m.path == e.path ensures Entry(m.path, m.after) !in now {
      if Entry(m.path, m.after) in now {
        assert HasPath(now, e.path);
      }
    }
  }

  lemma StepAdded(was: seq<Entry>, now: seq<Entry>, c: ChangedSet, e: Entry)
    requires IsDiff(was, now, c) && Fits(was, e.path) && Fits(now, e.path)
    ensures IsDiff(was, now + [e], c.(added := c.added + [e]))
  {
    ReportsAreBefore(was, now, c, e.path);
    FitsHasNot(was, e.path);
    forall x | x in was ensures HasPath(now + [e], x.path) <==> HasPath(now, x.path) {
      HasPathAppend(now, e, x.path);
      assert HasPath(was, x.path);
    }
    forall m: BlobChange | m.path == e.path ensures Entry(m.path, m.before) !in was {
      if Entry(m.path, m.before) in was {
        assert HasPath(was, e.path);
      }
    }
  }

  /** Both walks at the same path: reported only when the blobs differ. */
  lemma StepBoth(was: seq<Entry>, now: seq<Entry>, c: ChangedSet, path: string, before: string, after: string)
    requires IsDiff(was, now, c) && Fits(was, path) && Fits(now, path)
    ensures IsDiff(was + [Entry(path, before)], now + [Entry(path, after)],
                   if before == after then c else c.(modified := c.modified + [BlobChange(path, before, after)]))
  {
    var was', now' := was + [Entry(path, before)], now + [Entry(path, after)];
    ReportsAreBefore(was, now, c, path);
    FitsHasNot(was, path);
    FitsHasNot(now, path);
    forall p ensures HasPath(was', p) <==> HasPath(was, p) || p == path
             ensures HasPath(now', p) <==> HasPath(now, p) || p == path {
      HasPathAppend(was, Entry(path, before), p);
      HasPathAppend(now, Entry(path, after), p);
    }
    forall e | e in was ensures e.path != path {
      assert HasPath(was, e.path);
    }
    forall e | e in now ensures e.path != path {
      assert HasPath(now, e.path);
    }
  }

  // ----- the walk

  /** A path smaller than the first of an ordered tail is smaller than all of it. */
  lemma BeforeTail(files: seq<Entry>, from: nat, path: string)
    requires IsOrdered(files) && from < |files| && Less(path, files[from].path)
    ensures forall k :: from <= k < |files| ==> Less(path, files[k].path)
  {
    forall k | from < k < |files| ensures Less(path, files[k].path) {
      LessIsTransitive(path, files[from].path, files[k].path);
    }
  }

  /** The two walks have consumed the paths up to a common point. */
  ghost predicate Abreast(was: seq<Entry>, i: nat, now: seq<Entry>, j: nat) {
    && i <= |was| && j <= |now|
    && (forall a, b :: 0 <= a < i && j <= b < |now| ==> Less(was[a].path, now[b].path))
    && (forall a, b :: i <= a < |was| && 0 <= b < j ==> Less(now[b].path, was[a].path))
  }

  /** How far a walk has come: what has been consumed is diffed into `c`. */
  ghost predicate Walked(was: seq<Entry>, i: nat, now: seq<Entry>, j: nat, c: ChangedSet) {
    Abreast(was, i, now, j) && IsDiff(was[..i], now[..j], c)
  }

  lemma WalkBoth(was: seq<Entry>, i: nat, now: seq<Entry>, j: nat, c: ChangedSet)
    requires IsOrdered(was) && IsOrdered(now) && Walked(was, i, now, j, c)
    requires i < |was| && j < |now| && was[i].path == now[j].path
    ensures Walked(was, i + 1, now, j + 1,
                   if was[i].blob == now[j].blob then c
                   else c.(modified := c.modified + [BlobChange(now[j].path, was[i].blob, now[j].blob)]))
  {
    assert was[..i + 1] == was[..i] + [was[i]] && now[..j + 1] == now[..j] + [now[j]];
    assert Fits(was[..i], was[i].path) && Fits(now[..j], was[i].path);
    StepBoth(was[..i], now[..j], c, now[j].path, was[i].blob, now[j].blob);
  }

  lemma WalkOld(was: seq<Entry>, i: nat, now: seq<Entry>, j: nat, c: ChangedSet)
    requires IsOrdered(was) && IsOrdered(now) && Walked(was, i, now, j, c)
    requires i < |was| && (j < |now| ==> Less(was[i].path, now[j].path))
    ensures Walked(was, i + 1, now, j, c.(removed := c.removed + [was[i]]))
  {
    assert was[..i + 1] == was[..i] + [was[i]];
    assert Fits(was[..i], was[i].path) && Fits(now[..j], was[i].path);
    StepRemoved(was[..i], now[..j], c, was[i]);
    if j < |now| {
      BeforeTail(now, j, was[i].path);
    }
  }

  lemma WalkNew(was: seq<Entry>, i: nat, now: seq<Entry>, j: nat, c: ChangedSet)
    requires IsOrdered(was) && IsOrdered(now) && Walked(was, i, now, j, c)
    requires j < |now| && (i < |was| ==> Less(now[j].path, was[i].path))
    ensures Walked(was, i, now, j + 1, c.(added := c.added + [now[j]]))
  {
    assert now[..j + 1] == now[..j] + [now[j]];
    assert Fits(was[..i], now[j].path) && Fits(now[..j], now[j].path);
    StepAdded(was[..i], now[..j], c, now[j]);
    if i < |was| {
      BeforeTail(was, i, now[j].path);
    }
  }

  method ComputeDiff(first: TreeSnapshot, second: TreeSnapshot) returns (result: Result)
    requires IsOrdered(first.files) && IsOrdered(second.files)
    ensures first.identity != second.identity ==> result == SnapshotMismatch(first.identity, second.identity)
    ensures first.identity == second.identity ==> result.Ok? && IsDiff(first.files, second.files, result.changed)
  {
    if first.identity != second.identity {
      return SnapshotMismatch(first.identity, second.identity);
    }
    var was, now := first.files, second.files;
    var changed := ChangedSet([], [], []);
    var i, j := 0, 0;
    while i < |was| || j < |now|
      invariant Walked(was, i, now, j, changed)
      decreases |was| - i + |now| - j
    {
      if i < |was| && j < |now| {
        LessIsTotal(was[i].path, now[j].path);
        if was[i].path == now[j].path {
          WalkBoth(was, i, now, j, changed);
          if was[i].blob != now[j].blob {
            changed := changed.(modified := changed.modified + [BlobChange(now[j].path, was[i].blob, now[j].blob)]);
          }
          i, j := i + 1, j + 1;
        } else if Less(was[i].path, now[j].path) {
          WalkOld(was, i, now, j, changed);
          changed := changed.(removed := changed.removed + [was[i]]);
          i := i + 1;
        } else {
          WalkNew(was, i, now, j, changed);
          changed := changed.(added := changed.added + [now[j]]);
          j := j + 1;
        }
      } else if i < |was| {
        WalkOld(was, i, now, j, changed);
        changed := changed.(removed := changed.removed + [was[i]]);
        i := i + 1;
      } else {
        WalkNew(was, i, now, j, changed);
        changed := changed.(added := changed.added + [now[j]]);
        j := j + 1;
      }
    }
    assert was[..i] == was && now[..j] == now;
    result := Ok(changed);
  }

  // ----- what such a diff is worth

  lemma {:induction false} OrderedIsUnique<T(!new)>(a: seq<T>, b: seq<T>, path: T -> string)
    requires InPathOrder(a, path) && InPathOrder(b, path) && forall x :: x in a <==> x in b
    ensures a == b
    decreases |a|
  {
    assert a != [] ==> a[0] in b;
    assert b != [] ==> b[0] in a;
    if a != [] {
      var x, y := a[|a| - 1], b[|b| - 1];
      assert x in b && y in a;
      LastIsGreatest(a, path, y);
      LastIsGreatest(b, path, x);
      LessIsTotal(path(x), path(y));
      assert x == y;
      var a', b' := a[..|a| - 1], b[..|b| - 1];
      forall z ensures z in a' <==> z in b' {
        LastIsOnce(a, path, z);
        LastIsOnce(b, path, z);
      }
      OrderedIsUnique(a', b', path);
      assert a == a' + [x] && b == b' + [y];
    }
  }

  lemma LastIsGreatest<T(!new)>(items: seq<T>, path: T -> string, y: T)
    requires InPathOrder(items, path) && y in items
    ensures y == items[|items| - 1] || Less(path(y), path(items[|items| - 1]))
  {
  }

  lemma LastIsOnce<T(!new)>(items: seq<T>, path: T -> string, z: T)
    requires InPathOrder(items, path) && items != []
    ensures z in items[..|items| - 1] <==> z in items && z != items[|items| - 1]
  {
    var last := items[|items| - 1];
    LessIsTotal(path(last), path(last));
    if z in items && z != last {
      var i :| 0 <= i < |items| && items[i] == z;
      assert items[..|items| - 1][i] == z;
    }
  }

  /** The contract leaves no freedom: a snapshot pair has one diff. */
  lemma DiffIsUnique(was: seq<Entry>, now: seq<Entry>, c: ChangedSet, d: ChangedSet)
    requires IsDiff(was, now, c) && IsDiff(was, now, d)
    ensures c == d
  {
    OrderedIsUnique(c.added, d.added, PathOf);
    OrderedIsUnique(c.removed, d.removed, PathOf);
    OrderedIsUnique(c.modified, d.modified, ChangedPath);
  }

  function Flip(m: BlobChange): BlobChange { BlobChange(m.path, m.after, m.before) }

  function FlipAll(modified: seq<BlobChange>): seq<BlobChange> {
    seq(|modified|, i requires 0 <= i < |modified| => Flip(modified[i]))
  }

  function Reversed(c: ChangedSet): ChangedSet { ChangedSet(c.removed, FlipAll(c.modified), c.added) }

  lemma FlipAllHas(modified: seq<BlobChange>, m: BlobChange)
    ensures m in FlipAll(modified) <==> Flip(m) in modified
  {
    if m in FlipAll(modified) {
      var i :| 0 <= i < |modified| && FlipAll(modified)[i] == m;
      assert modified[i] == Flip(m);
    }
    if Flip(m) in modified {
      var i :| 0 <= i < |modified| && modified[i] == Flip(m);
      assert FlipAll(modified)[i] == m;
    }
  }

  /** Diffing the other way is the same set with added and removed, before and after, exchanged. */
  lemma DiffReverses(was: seq<Entry>, now: seq<Entry>, c: ChangedSet, d: ChangedSet)
    requires IsDiff(was, now, c) && IsDiff(now, was, d)
    ensures d == Reversed(c)
  {
    forall m: BlobChange ensures m in FlipAll(c.modified) <==> Flip(m) in c.modified {
      FlipAllHas(c.modified, m);
    }
    assert IsDiff(now, was, Reversed(c));
    DiffIsUnique(now, was, d, Reversed(c));
  }

  // ----- applying a diff

  ghost function MapOf(files: seq<Entry>): map<string, string> {
    if files == [] then map[]
    else MapOf(files[..|files| - 1])[files[|files| - 1].path := files[|files| - 1].blob]
  }

  lemma {:induction false} MapOfHas(files: seq<Entry>, path: string)
    requires IsOrdered(files)
    ensures path in MapOf(files) <==> HasPath(files, path)
    ensures forall blob :: path in MapOf(files) && MapOf(files)[path] == blob <==> Entry(path, blob) in files
  {
    if files != [] {
      var front, last := files[..|files| - 1], files[|files| - 1];
      assert files == front + [last];
      MapOfHas(front, path);
      HasPathAppend(front, last, path);
      assert Fits(front, last.path);
      FitsHasNot(front, last.path);
      forall e | e in front ensures e.path != last.path {
        assert HasPath(front, e.path);
      }
    }
  }

  ghost function Dropped(m: map<string, string>, removed: seq<Entry>): map<string, string> {
    map p | p in m && !HasPath(removed, p) :: m[p]
  }

  function AfterOf(modified: seq<BlobChange>, path: string): Option<string> {
    if modified == [] then None
    else if modified[0].path == path then Some(modified[0].after)
    else AfterOf(modified[1..], path)
  }

  lemma {:induction false} AfterOfFinds(modified: seq<BlobChange>, path: string)
    ensures AfterOf(modified, path).Some? ==>
              exists m :: m in modified && m.path == path && m.after == AfterOf(modified, path).value
    ensures AfterOf(modified, path).None? ==> forall m :: m in modified ==> m.path != path
  {
    if modified != [] {
      assert modified == [modified[0]] + modified[1..];
      AfterOfFinds(modified[1..], path);
    }
  }

  ghost function Overwritten(m: map<string, string>, modified: seq<BlobChange>): map<string, string> {
    map p | p in m :: if AfterOf(modified, p).Some? then AfterOf(modified, p).value else m[p]
  }

  /** What the changed set does to a map of files. */
  ghost function Patched(m: map<string, string>, c: ChangedSet): map<string, string> {
    Overwritten(Dropped(m, c.removed), c.modified) + MapOf(c.added)
  }

  lemma HasPathMeans(files: seq<Entry>, path: string)
    ensures HasPath(files, path) <==> exists e :: e in files && e.path == path
  {
    if HasPath(files, path) {
      var i :| 0 <= i < |files| && files[i].path == path;
      assert files[i] in files;
    }
  }

  /** Which paths the patched map has, from membership alone. */
  lemma PatchedPaths(was: seq<Entry>, now: seq<Entry>, c: ChangedSet, path: string)
    requires IsDiff(was, now, c)
    ensures HasPath(c.removed, path) <==> HasPath(was, path) && !HasPath(now, path)
    ensures HasPath(c.added, path) <==> HasPath(now, path) && !HasPath(was, path)
  {
    HasPathMeans(c.removed, path);
    HasPathMeans(c.added, path);
    HasPathMeans(was, path);
    HasPathMeans(now, path);
  }

  /** The blob of a path both snapshots have. */
  lemma PatchedBlob(was: seq<Entry>, now: seq<Entry>, c: ChangedSet, path: string)
    requires IsOrdered(was) && IsOrdered(now) && IsDiff(was, now, c) && HasPath(was, path) && HasPath(now, path)
    ensures path in MapOf(was) && path in MapOf(now)
    ensures (if AfterOf(c.modified, path).Some? then AfterOf(c.modified, path).value else MapOf(was)[path])
         == MapOf(now)[path]
  {
    MapOfHas(was, path);
    MapOfHas(now, path);
    AfterOfFinds(c.modified, path);
    var before, after := MapOf(was)[path], MapOf(now)[path];
    assert Entry(path, before) in was && Entry(path, after) in now;
    if before != after {
      assert BlobChange(path, before, after) in c.modified;
    }
  }

  lemma PatchAt(was: seq<Entry>, now: seq<Entry>, c: ChangedSet, path: string)
    requires IsOrdered(was) && IsOrdered(now) && IsDiff(was, now, c)
    ensures path in Patched(MapOf(was), c) <==> path in MapOf(now)
    ensures path in Patched(MapOf(was), c) ==> Patched(MapOf(was), c)[path] == MapOf(now)[path]
  {
    MapOfHas(was, path);
    MapOfHas(now, path);
    assert IsOrdered(c.added);
    MapOfHas(c.added, path);
    PatchedPaths(was, now, c, path);
    if HasPath(was, path) && HasPath(now, path) {
      PatchedBlob(was, now, c, path);
    } else if HasPath(c.added, path) {
      assert Entry(path, MapOf(c.added)[path]) in c.added;
    }
  }

  /** The diff is complete: applied to the old files it gives the new ones. */
  lemma DiffApplies(was: seq<Entry>, now: seq<Entry>, c: ChangedSet)
    requires IsOrdered(was) && IsOrdered(now) && IsDiff(was, now, c)
    ensures Patched(MapOf(was), c) == MapOf(now)
  {
    forall path
      ensures path in Patched(MapOf(was), c) <==> path in MapOf(now)
      ensures path in Patched(MapOf(was), c) ==> Patched(MapOf(was), c)[path] == MapOf(now)[path]
    {
      PatchAt(was, now, c, path);
    }
  }

  /** Nothing is reported exactly when nothing differs. */
  lemma EmptyDiffMeansEqual(was: seq<Entry>, now: seq<Entry>, c: ChangedSet)
    requires IsOrdered(was) && IsOrdered(now) && IsDiff(was, now, c)
    ensures c == ChangedSet([], [], []) <==> was == now
  {
    if was == now {
      forall e | e in was ensures HasPath(was, e.path) {
        HasPathMeans(was, e.path);
      }
      forall m: BlobChange | Entry(m.path, m.before) in was && Entry(m.path, m.after) in now
        ensures m.before == m.after
      {
        MapOfHas(was, m.path);
      }
      assert IsDiff(was, now, ChangedSet([], [], []));
      DiffIsUnique(was, now, c, ChangedSet([], [], []));
    } else if c == ChangedSet([], [], []) {
      DiffApplies(was, now, c);
      forall e ensures e in was <==> e in now {
        PatchAt(was, now, c, e.path);
        MapOfHas(was, e.path);
        MapOfHas(now, e.path);
      }
      OrderedIsUnique(was, now, PathOf);
    }
  }
}

/**
 What the dashboard shows after any messages, pane by pane: which message each pane is about,
 what it shows of it, and what it shows when none has come.
 */
module Shown {
  import opened Text
  import opened Dashboard

  /** The newest of the messages that speak about a pane is the one at `i`. */
  ghost predicate IsNewest(applied: seq<WorkerMessage>, speaks: WorkerMessage -> bool, i: nat) {
    i < |applied| && speaks(applied[i]) && forall j :: i < j < |applied| ==> !speaks(applied[j])
  }

  ghost predicate IsSilent(applied: seq<WorkerMessage>, speaks: WorkerMessage -> bool) {
    forall j :: 0 <= j < |applied| ==> !speaks(applied[j])
  }

  predicate IsOfStream(m: WorkerMessage) { m.StreamConnected? || m.StreamDisconnected? }

  predicate IsConnect(m: WorkerMessage) { m.StreamConnected? }

  predicate IsSnapshot(m: WorkerMessage) { m.Snapshot? }

  predicate IsResults(m: WorkerMessage) { m.Search? && m.results.Good? }

  predicate IsStatus(m: WorkerMessage) { m.Snapshot? && m.status.Good? }

  predicate IsQueue(m: WorkerMessage) { IsStatus(m) || (m.StreamEvent? && m.event.QueueRows?) }

  /** The queue rows such a message carries. */
  function RowsIn(m: WorkerMessage): seq<QueueRow>
    requires IsQueue(m)
  {
    if m.Snapshot? then m.status.data.queue else m.event.rows
  }

  /** A function that says something of exactly the messages that speak. */
  ghost predicate Voices<T>(says: WorkerMessage -> Option<T>, speaks: WorkerMessage -> bool) {
    forall m :: says(m).Some? <==> speaks(m)
  }

  lemma NewestSays<T>(applied: seq<WorkerMessage>, speaks: WorkerMessage -> bool, says: WorkerMessage -> Option<T>,
                      default: T, i: nat)
    requires Voices(says, speaks) && IsNewest(applied, speaks, i)
    ensures Last(applied, says, default) == says(applied[i]).value
  {
    LastIsNewest(applied, says, default, i);
  }

  lemma SilenceSays<T>(applied: seq<WorkerMessage>, speaks: WorkerMessage -> bool, says: WorkerMessage -> Option<T>,
                       default: T)
    requires Voices(says, speaks) && IsSilent(applied, speaks)
    ensures Last(applied, says, default) == default
  {
    LastOfNone(applied, says, default);
  }

  lemma StreamVoices()
    ensures Voices(Connected, IsOfStream) && Voices(StreamError, IsOfStream) && Voices(Daemon, IsConnect)
  {
  }

  lemma StatusVoices()
    ensures Voices(Results, IsResults) && Voices(SnapshotError, IsSnapshot) && Voices(Queue, IsQueue)
  {
  }

  /** The newest connect or disconnect decides whether the stream shows as connected ... */
  lemma ConnectionIsShown(applied: seq<WorkerMessage>, i: nat)
    requires IsNewest(applied, IsOfStream, i)
    ensures PanesAfter(applied).streamConnected <==> applied[i].StreamConnected?
  {
    NewestShown(applied);
    StreamVoices();
    NewestSays(applied, IsOfStream, Connected, false, i);
  }

  /** ... and its error. */
  lemma StreamErrorIsShown(applied: seq<WorkerMessage>, i: nat)
    requires IsNewest(applied, IsOfStream, i)
    ensures PanesAfter(applied).streamError == if applied[i].StreamConnected? then None else Some(applied[i].reason)
  {
    NewestShown(applied);
    StreamVoices();
    NewestSays(applied, IsOfStream, StreamError, Some(CONNECTING), i);
  }

  /** The newest connect names the daemon, connected still or not. */
  lemma DaemonIsShown(applied: seq<WorkerMessage>, i: nat)
    requires IsNewest(applied, IsConnect, i)
    ensures PanesAfter(applied).streamDaemon == Some(applied[i].daemon)
  {
    NewestShown(applied);
    StreamVoices();
    NewestSays(applied, IsConnect, Daemon, None, i);
  }

  /** The newest successful search gives the results; a failed one leaves them. */
  lemma ResultsAreShown(applied: seq<WorkerMessage>, i: nat)
    requires IsNewest(applied, IsResults, i)
    ensures PanesAfter(applied).results == applied[i].results.data
  {
    NewestShown(applied);
    StatusVoices();
    NewestSays(applied, IsResults, Results, [], i);
  }

  /** The newest snapshot, good or bad, decides the snapshot error. */
  lemma SnapshotErrorIsShown(applied: seq<WorkerMessage>, i: nat)
    requires IsNewest(applied, IsSnapshot, i)
    ensures PanesAfter(applied).snapshotError
         == if applied[i].status.Good? then None else Some(applied[i].status.error)
  {
    NewestShown(applied);
    StatusVoices();
    NewestSays(applied, IsSnapshot, SnapshotError, None, i);
  }

  /** The newest good snapshot or queue event gives the queue. */
  lemma QueueIsShown(applied: seq<WorkerMessage>, i: nat)
    requires IsNewest(applied, IsQueue, i)
    ensures PanesAfter(applied).queue == RowsIn(applied[i])
  {
    NewestShown(applied);
    StatusVoices();
    NewestSays(applied, IsQueue, Queue, [], i);
  }

  /** What shows of the stream while nothing has been said about it. */
  lemma NoStreamIsShown(applied: seq<WorkerMessage>)
    requires IsSilent(applied, IsOfStream)
    ensures !PanesAfter(applied).streamConnected && PanesAfter(applied).streamDaemon == None
    ensures PanesAfter(applied).streamError == Some("connecting to real activity stream")
  {
    NewestShown(applied);
    StreamVoices();
    SilenceSays(applied, IsOfStream, Connected, false);
    SilenceSays(applied, IsOfStream, StreamError, Some(CONNECTING));
    SilenceSays(applied, IsConnect, Daemon, None);
  }

  /** And of the rest. */
  lemma NothingIsShown(applied: seq<WorkerMessage>)
    ensures IsSilent(applied, IsConnect) ==> PanesAfter(applied).streamDaemon == None
    ensures IsSilent(applied, IsResults) ==> PanesAfter(applied).results == []
    ensures IsSilent(applied, IsSnapshot) ==> PanesAfter(applied).snapshotError == None
    ensures IsSilent(applied, IsQueue) ==> PanesAfter(applied).queue == []
  {
    NewestShown(applied);
    StreamVoices();
    StatusVoices();
    if IsSilent(applied, IsConnect) {
      SilenceSays(applied, IsConnect, Daemon, None);
    }
    if IsSilent(applied, IsResults) {
      SilenceSays(applied, IsResults, Results, []);
    }
    if IsSilent(applied, IsSnapshot) {
      SilenceSays(applied, IsSnapshot, SnapshotError, None);
    }
    if IsSilent(applied, IsQueue) {
      SilenceSays(applied, IsQueue, Queue, []);
    }
  }

  // ----- the roots

  /** Whether a message says anything about the root at a path. */
  predicate IsAboutRoot(m: WorkerMessage, path: string) {
    IsStatus(m) || (m.StreamEvent? && m.event.RootChanged? && m.event.root.path == path)
  }

  /** The first root of a list with that path is the one at `i`. */
  predicate IsFirstAt(roots: seq<Root>, path: string, i: int) {
    0 <= i < |roots| && roots[i].path == path && forall j :: 0 <= j < i ==> roots[j].path != path
  }

  /** Nothing in the list has that path, or its first root with it is `root`. */
  ghost predicate IsRootAt(root: Option<Root>, roots: seq<Root>, path: string) {
    match root
    case None => forall j :: 0 <= j < |roots| ==> roots[j].path != path
    case Some(found) => exists i :: IsFirstAt(roots, path, i) && roots[i] == found
  }

  lemma {:induction false} NamedIsFirst(roots: seq<Root>, path: string)
    ensures IsRootAt(Named(roots, path), roots, path)
  {
    if roots != [] {
      if roots[0].path == path {
        assert IsFirstAt(roots, path, 0);
      } else {
        NamedIsFirst(roots[1..], path);
        assert forall j :: 0 < j < |roots| ==> roots[j] == roots[1..][j - 1];
        if Named(roots, path).Some? {
          var i :| IsFirstAt(roots[1..], path, i) && roots[1..][i] == Named(roots, path).value;
          assert IsFirstAt(roots, path, i + 1);
        }
      }
    }
  }

  lemma RootVoices(path: string)
    ensures Voices(SaysOfRoot(path), (m: WorkerMessage) => IsAboutRoot(m, path))
  {
  }

  /** What the newest message about a path says stands in the pane: gone, or there as it says. */
  lemma RootIsShown(applied: seq<WorkerMessage>, path: string, i: nat)
    requires IsNewest(applied, (m: WorkerMessage) => IsAboutRoot(m, path), i)
    ensures var (roots, m) := (PanesAfter(applied).roots, applied[i]);
            if m.Snapshot? then
              exists root :: IsRootAt(root, m.status.data.roots, path) && IsRootAt(root, roots, path)
            else
              IsRootAt(if m.event.change == "removed" then None else Some(m.event.root), roots, path)
  {
    HistoriesShown(applied);
    RootsShowTheLastWord(applied, path);
    RootVoices(path);
    NewestSays(applied, (m: WorkerMessage) => IsAboutRoot(m, path), SaysOfRoot(path), None, i);
    NamedIsFirst(PanesAfter(applied).roots, path);
    if applied[i].Snapshot? {
      NamedIsFirst(applied[i].status.data.roots, path);
    }
  }

  lemma TailsAlike(roots: seq<Root>, path: string, i: int)
    requires roots != [] && roots[0].path != path
    ensures IsFirstAt(roots, path, i) <==> IsFirstAt(roots[1..], path, i - 1)
  {
    assert forall j :: 0 < j < |roots| ==> roots[j] == roots[1..][j - 1];
    if IsFirstAt(roots[1..], path, i - 1) {
      assert forall j :: 0 < j < i ==> roots[j].path == roots[1..][j - 1].path;
    }
  }

  /** A changed root stays in its place ... */
  lemma {:induction false} UpsertedInPlace(roots: seq<Root>, root: Root, i: int)
    requires IsFirstAt(roots, root.path, i)
    ensures Upserted(roots, root) == roots[i := root]
  {
    if i > 0 {
      TailsAlike(roots, root.path, i);
      UpsertedInPlace(roots[1..], root, i - 1);
    }
  }

  /** ... and a new one goes to the end. */
  lemma {:induction false} UpsertedAtEnd(roots: seq<Root>, root: Root)
    requires forall j :: 0 <= j < |roots| ==> roots[j].path != root.path
    ensures Upserted(roots, root) == roots + [root]
  {
    if roots != [] {
      UpsertedAtEnd(roots[1..], root);
      assert roots == [roots[0]] + roots[1..];
    }
  }

  lemma {:induction false} WithoutConcat(a: seq<Root>, b: seq<Root>, path: string)
    ensures Without(a + b, path) == Without(a, path) + Without(b, path)
  {
    if a == [] {
      assert a + b == b;
    } else {
      assert (a + b)[1..] == a[1..] + b;
      WithoutConcat(a[1..], b, path);
    }
  }

  /** Removing a path takes out each root with it and keeps the others where they stood. */
  lemma WithoutSifts(front: seq<Root>, root: Root, rest: seq<Root>, path: string)
    ensures Without(front + [root] + rest, path)
         == Without(front, path) + (if root.path == path then [] else [root]) + Without(rest, path)
    ensures Without([], path) == []
  {
    assert [root][1..] == [];
    WithoutConcat(front, [root], path);
    WithoutConcat(front + [root], rest, path);
  }

  // ----- the histories

  /** The line of activity a message carries: a line's text, or a changed root's. */
  function LineIn(m: WorkerMessage): Option<string> {
    if m.StreamEvent? && (m.event.Line? || m.event.RootChanged?) then Some(m.event.text) else None
  }

  /** The depth of the queue it carries. */
  function DepthIn(m: WorkerMessage): Option<nat> {
    if IsQueue(m) then Some(ActiveDepth(RowsIn(m))) else None
  }

  lemma {:induction false} LinesAreCarried(applied: seq<WorkerMessage>) returns (at: seq<nat>)
    ensures ArePicked(at, LinesOf(applied), LineIn, applied)
  {
    if applied == [] {
      at := [];
    } else {
      var front, last := applied[..|applied| - 1], applied[|applied| - 1];
      assert front + [last] == applied;
      at := LinesAreCarried(front);
      at := PickedAppend(at, LinesOf(front), LineIn, front, last);
    }
  }

  lemma {:induction false} DepthsAreCarried(applied: seq<WorkerMessage>) returns (at: seq<nat>)
    ensures ArePicked(at, DepthsOf(applied), DepthIn, applied)
  {
    if applied == [] {
      at := [];
    } else {
      var front, last := applied[..|applied| - 1], applied[|applied| - 1];
      assert front + [last] == applied;
      at := DepthsAreCarried(front);
      at := PickedAppend(at, DepthsOf(front), DepthIn, front, last);
    }
  }

  /** The activity pane: the newest hundred of the lines carried, newest first. */
  lemma ActivityIsShown(applied: seq<WorkerMessage>) returns (lines: seq<string>, at: seq<nat>)
    ensures ArePicked(at, lines, LineIn, applied)
    ensures |PanesAfter(applied).activity| == if |lines| > 100 then 100 else |lines|
    ensures forall k :: 0 <= k < |PanesAfter(applied).activity| ==>
              PanesAfter(applied).activity[k] == lines[|lines| - 1 - k]
  {
    HistoriesShown(applied);
    lines := LinesOf(applied);
    at := LinesAreCarried(applied);
    ActivityKeepsNewest(lines);
  }

  /** The depth history: the oldest sixty of the depths carried, oldest first. */
  lemma DepthsAreShown(applied: seq<WorkerMessage>) returns (depths: seq<nat>, at: seq<nat>)
    ensures ArePicked(at, depths, DepthIn, applied)
    ensures PanesAfter(applied).queueHistory == if |depths| > 60 then depths[..60] else depths
  {
    HistoriesShown(applied);
    depths := DepthsOf(applied);
    at := DepthsAreCarried(applied);
    QueueHistoryKeepsOldest(depths);
  }

  /** The depth of a queue adds up its parts ... */
  lemma {:induction false} DepthAddsUp(a: seq<QueueRow>, b: seq<QueueRow>)
    ensures ActiveDepth(a + b) == ActiveDepth(a) + ActiveDepth(b)
  {
    if a == [] {
      assert a + b == b;
    } else {
      assert (a + b)[1..] == a[1..] + b;
      DepthAddsUp(a[1..], b);
    }
  }

  /** ... and of one row is its count, where that is positive and its jobs are pending or running. */
  lemma DepthOfOne(row: QueueRow)
    ensures row.count > 0 && row.state in {"pending", "running"} ==> ActiveDepth([row]) == row.count
    ensures row.count <= 0 || row.state !in {"pending", "running"} ==> ActiveDepth([row]) == 0
  {
    assert [row][1..] == [];
  }
}

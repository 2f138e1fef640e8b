/** What the dashboard's workers send, and the panes it shows of it. */
module Dashboard {
  import opened Text

  datatype Outcome<T> = Good(data: T) | Bad(error: string)

  datatype QueueRow = QueueRow(state: string, count: int)

  datatype Root = Root(identity: string, path: string, files: nat)

  datatype Status = Status(roots: seq<Root>, queue: seq<QueueRow>)

  /** A stream event, by what it does: a line of activity, new depths, a root and its line, or nothing. */
  datatype Event =
    | Line(text: string)
    | QueueRows(rows: seq<QueueRow>)
    | RootChanged(change: string, root: Root, text: string)
    | Silent

  datatype WorkerMessage =
    | Snapshot(status: Outcome<Status>)
    | Search(results: Outcome<seq<string>>)
    | StreamConnected(daemon: string)
    | StreamEvent(event: Event)
    | StreamDisconnected(reason: string)

  // ----- the dashboard's bounded histories

  const MAX_ACTIVITY: nat := 100
  const MAX_QUEUE_HISTORY: nat := 60

  function Cut<T>(s: seq<T>, max: nat): seq<T> { if |s| > max then s[..max] else s }

  /** Jobs pending or running. */
  function ActiveDepth(rows: seq<QueueRow>): nat {
    if rows == [] then 0
    else
      var row := rows[0];
      var active := (row.state == "pending" || row.state == "running") && row.count > 0;
      ActiveDepth(rows[1..]) + if active then row.count else 0
  }

  /** The line of activity a message carries, if any. */
  function LineOf(message: WorkerMessage): seq<string> {
    match message
    case StreamEvent(Line(text)) => [text]
    case StreamEvent(RootChanged(_, _, text)) => [text]
    case _ => []
  }

  /** The queue depth it reports, if any. */
  function DepthOf(message: WorkerMessage): seq<nat> {
    match message
    case StreamEvent(QueueRows(rows)) => [ActiveDepth(rows)]
    case Snapshot(Good(status)) => [ActiveDepth(status.queue)]
    case _ => []
  }

  function LinesOf(applied: seq<WorkerMessage>): seq<string> {
    if applied == [] then [] else LinesOf(applied[..|applied| - 1]) + LineOf(applied[|applied| - 1])
  }

  function DepthsOf(applied: seq<WorkerMessage>): seq<nat> {
    if applied == [] then [] else DepthsOf(applied[..|applied| - 1]) + DepthOf(applied[|applied| - 1])
  }

  function ActivityAfter(lines: seq<string>): seq<string> {
    if lines == [] then [] else Cut([lines[|lines| - 1]] + ActivityAfter(lines[..|lines| - 1]), MAX_ACTIVITY)
  }

  function QueueHistoryAfter(depths: seq<nat>): seq<nat> {
    if depths == [] then []
    else Cut(QueueHistoryAfter(depths[..|depths| - 1]) + [depths[|depths| - 1]], MAX_QUEUE_HISTORY)
  }

  /** The activity pane holds the newest hundred lines, newest first. */
  lemma {:induction false} ActivityKeepsNewest(lines: seq<string>)
    ensures |ActivityAfter(lines)| == if |lines| > MAX_ACTIVITY then MAX_ACTIVITY else |lines|
    ensures forall i :: 0 <= i < |ActivityAfter(lines)| ==> ActivityAfter(lines)[i] == lines[|lines| - 1 - i]
  {
    if lines != [] {
      ActivityKeepsNewest(lines[..|lines| - 1]);
    }
  }

  /** The depth history appends and then cuts, so it holds the oldest sixty samples: later ones never show. */
  lemma {:induction false} QueueHistoryKeepsOldest(depths: seq<nat>)
    ensures QueueHistoryAfter(depths) == Cut(depths, MAX_QUEUE_HISTORY)
  {
    if depths != [] {
      QueueHistoryKeepsOldest(depths[..|depths| - 1]);
    }
  }

  /** The activity pane, one message at a time. */
  lemma ActivityGrows(front: seq<WorkerMessage>, message: WorkerMessage, applied: seq<WorkerMessage>)
    requires applied != [] && front == applied[..|applied| - 1] && message == applied[|applied| - 1]
    ensures ActivityAfter(LinesOf(applied)) ==
            if LineOf(message) == [] then ActivityAfter(LinesOf(front))
            else Cut(LineOf(message) + ActivityAfter(LinesOf(front)), MAX_ACTIVITY)
  {
    var lines := LinesOf(front);
    if LineOf(message) == [] {
      assert lines + [] == lines;
    } else {
      assert (lines + LineOf(message))[..|lines|] == lines;
    }
  }

  /** The depth history, one message at a time. */
  lemma QueueHistoryGrows(front: seq<WorkerMessage>, message: WorkerMessage, applied: seq<WorkerMessage>)
    requires applied != [] && front == applied[..|applied| - 1] && message == applied[|applied| - 1]
    ensures QueueHistoryAfter(DepthsOf(applied)) ==
            if DepthOf(message) == [] then QueueHistoryAfter(DepthsOf(front))
            else Cut(QueueHistoryAfter(DepthsOf(front)) + DepthOf(message), MAX_QUEUE_HISTORY)
  {
    var depths := DepthsOf(front);
    if DepthOf(message) == [] {
      assert depths + [] == depths;
    } else {
      assert (depths + DepthOf(message))[..|depths|] == depths;
    }
  }

  // ----- panes that show the newest of what they are about

  /** What the last message that says anything says. */
  function Last<T>(applied: seq<WorkerMessage>, says: WorkerMessage -> Option<T>, default: T): T {
    if applied == [] then default
    else
      var said := says(applied[|applied| - 1]);
      if said.Some? then said.value else Last(applied[..|applied| - 1], says, default)
  }

  function Connected(message: WorkerMessage): Option<bool> {
    match message
    case StreamConnected(_) => Some(true)
    case StreamDisconnected(_) => Some(false)
    case _ => None
  }

  function Daemon(message: WorkerMessage): Option<Option<string>> {
    if message.StreamConnected? then Some(Some(message.daemon)) else None
  }

  function StreamError(message: WorkerMessage): Option<Option<string>> {
    match message
    case StreamConnected(_) => Some(None)
    case StreamDisconnected(reason) => Some(Some(reason))
    case _ => None
  }

  function SnapshotError(message: WorkerMessage): Option<Option<string>> {
    match message
    case Snapshot(Good(_)) => Some(None)
    case Snapshot(Bad(error)) => Some(Some(error))
    case _ => None
  }

  function Results(message: WorkerMessage): Option<seq<string>> {
    match message
    case Search(Good(results)) => Some(results)
    case _ => None
  }

  function Queue(message: WorkerMessage): Option<seq<QueueRow>> {
    match message
    case Snapshot(Good(status)) => Some(status.queue)
    case StreamEvent(QueueRows(rows)) => Some(rows)
    case _ => None
  }

  /** `Last` is what the newest message that says anything says, wherever it stands. */
  lemma {:induction false} LastIsNewest<T>(applied: seq<WorkerMessage>, says: WorkerMessage -> Option<T>,
                                           default: T, at: nat)
    requires at < |applied| && says(applied[at]).Some?
    requires forall j :: at < j < |applied| ==> says(applied[j]).None?
    ensures Last(applied, says, default) == says(applied[at]).value
  {
    if at < |applied| - 1 {
      LastIsNewest(applied[..|applied| - 1], says, default, at);
    }
  }

  lemma {:induction false} LastOfNone<T>(applied: seq<WorkerMessage>, says: WorkerMessage -> Option<T>, default: T)
    requires forall j :: 0 <= j < |applied| ==> says(applied[j]).None?
    ensures Last(applied, says, default) == default
  {
    if applied != [] {
      LastOfNone(applied[..|applied| - 1], says, default);
    }
  }

  // ----- the roots pane

  function Without(roots: seq<Root>, path: string): seq<Root> {
    if roots == [] then []
    else (if roots[0].path == path then [] else [roots[0]]) + Without(roots[1..], path)
  }

  /** The first root at a path. */
  function Named(roots: seq<Root>, path: string): Option<Root> {
    if roots == [] then None else if roots[0].path == path then Some(roots[0]) else Named(roots[1..], path)
  }

  function Upserted(roots: seq<Root>, root: Root): seq<Root> {
    if roots == [] then [root]
    else if roots[0].path == root.path then [root] + roots[1..]
    else [roots[0]] + Upserted(roots[1..], root)
  }

  function RootsStep(roots: seq<Root>, message: WorkerMessage): seq<Root> {
    match message
    case Snapshot(Good(status)) => status.roots
    case StreamEvent(RootChanged(change, root, _)) =>
      if change == "removed" then Without(roots, root.path) else Upserted(roots, root)
    case _ => roots
  }

  function RootsAfter(applied: seq<WorkerMessage>): seq<Root> {
    if applied == [] then [] else RootsStep(RootsAfter(applied[..|applied| - 1]), applied[|applied| - 1])
  }

  /** What a message says about the root at a path: nothing, that there is none, or which. */
  function SaysOfRoot(path: string): WorkerMessage -> Option<Option<Root>> {
    (message: WorkerMessage) =>
      match message
      case Snapshot(Good(status)) => Some(Named(status.roots, path))
      case StreamEvent(RootChanged(change, root, _)) =>
        if root.path != path then None else Some(if change == "removed" then None else Some(root))
      case _ => None
  }

  lemma {:induction false} NamedWithout(roots: seq<Root>, gone: string, path: string)
    ensures Named(Without(roots, gone), path) == if path == gone then None else Named(roots, path)
  {
    if roots != [] {
      NamedWithout(roots[1..], gone, path);
      if roots[0].path == gone {
        assert Without(roots, gone) == Without(roots[1..], gone);
      }
    }
  }

  lemma {:induction false} NamedUpserted(roots: seq<Root>, root: Root, path: string)
    ensures Named(Upserted(roots, root), path) == if path == root.path then Some(root) else Named(roots, path)
  {
    if roots != [] && roots[0].path != root.path {
      NamedUpserted(roots[1..], root, path);
    }
  }

  /** At every path the roots pane shows what the last message about that path said. */
  lemma {:induction false} RootsShowTheLastWord(applied: seq<WorkerMessage>, path: string)
    ensures Named(RootsAfter(applied), path) == Last(applied, SaysOfRoot(path), None)
  {
    if applied != [] {
      var front, message := applied[..|applied| - 1], applied[|applied| - 1];
      RootsShowTheLastWord(front, path);
      if message.StreamEvent? && message.event.RootChanged? {
        NamedWithout(RootsAfter(front), message.event.root.path, path);
        NamedUpserted(RootsAfter(front), message.event.root, path);
      }
    }
  }

  lemma WithoutStep(roots: seq<Root>, path: string, i: nat, kept: seq<Root>)
    requires i < |roots|
    ensures kept + Without(roots[i..], path)
         == (if roots[i].path == path then kept else kept + [roots[i]]) + Without(roots[i + 1..], path)
  {
    assert roots[i..][1..] == roots[i + 1..];
    ConcatAssociates(kept, [roots[i]], Without(roots[i + 1..], path));
  }

  method Retain(roots: seq<Root>, path: string) returns (kept: seq<Root>)
    ensures kept == Without(roots, path)
  {
    kept := [];
    for i := 0 to |roots|
      invariant kept + Without(roots[i..], path) == Without(roots, path)
    {
      WithoutStep(roots, path, i, kept);
      if roots[i].path != path {
        kept := kept + [roots[i]];
      }
    }
  }

  /** Update the first root at the path, or add one. */
  method Upsert(roots: seq<Root>, root: Root) returns (updated: seq<Root>)
    ensures updated == Upserted(roots, root)
  {
    for i := 0 to |roots|
      invariant Upserted(roots, root) == roots[..i] + Upserted(roots[i..], root)
    {
      assert roots[i..][1..] == roots[i + 1..];
      if roots[i].path == root.path {
        assert roots[..i] + ([root] + roots[i + 1..]) == roots[i := root];
        return roots[i := root];
      }
      ConcatAssociates(roots[..i], [roots[i]], Upserted(roots[i + 1..], root));
      assert roots[..i] + [roots[i]] == roots[..i + 1];
    }
    assert roots[..|roots|] == roots;
    return roots + [root];
  }

  // ----- the dashboard

  const CONNECTING := "connecting to real activity stream"

  datatype Panes = Panes(roots: seq<Root>, queue: seq<QueueRow>, queueHistory: seq<nat>, activity: seq<string>,
                         results: seq<string>, snapshotError: Option<string>, streamConnected: bool,
                         streamDaemon: Option<string>, streamError: Option<string>)

  const BLANK := Panes([], [], [], [], [], None, false, None, Some(CONNECTING))

  function Or<T>(said: Option<T>, was: T): T { if said.Some? then said.value else was }

  function PanesStep(p: Panes, message: WorkerMessage): Panes {
    Panes(RootsStep(p.roots, message), Or(Queue(message), p.queue),
          if DepthOf(message) == [] then p.queueHistory else Cut(p.queueHistory + DepthOf(message), MAX_QUEUE_HISTORY),
          if LineOf(message) == [] then p.activity else Cut(LineOf(message) + p.activity, MAX_ACTIVITY),
          Or(Results(message), p.results), Or(SnapshotError(message), p.snapshotError),
          Or(Connected(message), p.streamConnected), Or(Daemon(message), p.streamDaemon),
          Or(StreamError(message), p.streamError))
  }

  function PanesAfter(applied: seq<WorkerMessage>): Panes {
    if applied == [] then BLANK else PanesStep(PanesAfter(applied[..|applied| - 1]), applied[|applied| - 1])
  }

  lemma {:induction false} HistoriesShown(applied: seq<WorkerMessage>)
    ensures PanesAfter(applied).activity == ActivityAfter(LinesOf(applied))
    ensures PanesAfter(applied).queueHistory == QueueHistoryAfter(DepthsOf(applied))
    ensures PanesAfter(applied).roots == RootsAfter(applied)
  {
    if applied != [] {
      var front, message := applied[..|applied| - 1], applied[|applied| - 1];
      HistoriesShown(front);
      ActivityGrows(front, message, applied);
      QueueHistoryGrows(front, message, applied);
    }
  }

  lemma {:induction false} NewestShown(applied: seq<WorkerMessage>)
    ensures PanesAfter(applied).queue == Last(applied, Queue, [])
    ensures PanesAfter(applied).results == Last(applied, Results, [])
    ensures PanesAfter(applied).snapshotError == Last(applied, SnapshotError, None)
    ensures PanesAfter(applied).streamConnected == Last(applied, Connected, false)
    ensures PanesAfter(applied).streamDaemon == Last(applied, Daemon, None)
    ensures PanesAfter(applied).streamError == Last(applied, StreamError, Some(CONNECTING))
  {
    if applied != [] {
      NewestShown(applied[..|applied| - 1]);
    }
  }

  /** The panes show exactly what the messages say: the newest, the last word, or the history cut as above. */
  lemma PanesShowTheMessages(applied: seq<WorkerMessage>)
    ensures PanesAfter(applied) ==
            Panes(RootsAfter(applied), Last(applied, Queue, []), QueueHistoryAfter(DepthsOf(applied)),
                  ActivityAfter(LinesOf(applied)), Last(applied, Results, []), Last(applied, SnapshotError, None),
                  Last(applied, Connected, false), Last(applied, Daemon, None),
                  Last(applied, StreamError, Some(CONNECTING)))
  {
    HistoriesShown(applied);
    NewestShown(applied);
  }

  class App {
    var roots: seq<Root>
    var queue: seq<QueueRow>
    var queueHistory: seq<nat>
    var activity: seq<string>
    var results: seq<string>
    var snapshotError: Option<string>
    var streamConnected: bool
    var streamDaemon: Option<string>
    var streamError: Option<string>
    ghost var applied: seq<WorkerMessage>

    ghost function Shown(): Panes
      reads this
    {
      Panes(roots, queue, queueHistory, activity, results, snapshotError, streamConnected, streamDaemon, streamError)
    }

    ghost predicate Valid()
      reads this
    {
      Shown() == PanesAfter(applied)
    }

    constructor ()
      ensures Valid() && applied == []
    {
      roots, queue, results, activity, queueHistory, applied := [], [], [], [], [], [];
      snapshotError, streamConnected, streamDaemon, streamError := None, false, None, Some(CONNECTING);
    }

    method PushActivity(line: string)
      modifies this`activity
      ensures activity == Cut([line] + old(activity), MAX_ACTIVITY)
    {
      activity := [line] + activity;
      if |activity| > MAX_ACTIVITY {
        activity := activity[..MAX_ACTIVITY];
      }
    }

    method RememberQueueDepth()
      modifies this`queueHistory
      ensures queueHistory == Cut(old(queueHistory) + [ActiveDepth(queue)], MAX_QUEUE_HISTORY)
    {
      queueHistory := queueHistory + [ActiveDepth(queue)];
      if |queueHistory| > MAX_QUEUE_HISTORY {
        queueHistory := queueHistory[..MAX_QUEUE_HISTORY];
      }
    }

    method ApplyEvent(event: Event)
      modifies this`activity, this`queue, this`queueHistory, this`roots
      ensures Shown() == PanesStep(old(Shown()), StreamEvent(event))
    {
      match event {
        case Line(text) => PushActivity(text);
        case QueueRows(rows) =>
          queue := rows;
          RememberQueueDepth();
        case RootChanged(change, root, text) =>
          if change == "removed" {
            roots := Retain(roots, root.path);
          } else {
            roots := Upsert(roots, root);
          }
          PushActivity(text);
        case Silent =>
      }
    }

    method Show(message: WorkerMessage)
      modifies this
      ensures Shown() == PanesStep(old(Shown()), message) && applied == old(applied)
    {
      match message {
        case Snapshot(Good(status)) =>
          roots, queue, snapshotError := status.roots, status.queue, None;
          RememberQueueDepth();
        case Snapshot(Bad(error)) => snapshotError := Some(error);
        case Search(Good(found)) => results := found;
        case Search(Bad(_)) =>
        case StreamConnected(daemon) =>
          streamConnected, streamDaemon, streamError := true, Some(daemon), None;
        case StreamDisconnected(reason) =>
          streamConnected, streamError := false, Some(reason);
        case StreamEvent(event) => ApplyEvent(event);
      }
    }

    method Apply(message: WorkerMessage)
      requires Valid()
      modifies this
      ensures Valid() && applied == old(applied) + [message]
    {
      Show(message);
      assert (applied + [message])[..|applied|] == applied;
      applied := applied + [message];
    }
  }
}

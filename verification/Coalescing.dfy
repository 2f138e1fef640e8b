/**
 What the mailbox's bound and its coalescing cost the dashboard: which messages are delivered,
 over every interleaving, and so what each pane shows once the mailbox is drained.
 */
module Coalescing {
  import opened Text
  import opened Dashboard
  import opened Mailbox

  // ----- how a queued message is lost

  /** Whether a push overtakes message `k`: it has `k`'s control class, and `k` is still queued. */
  predicate Overtakes(s: State, message: WorkerMessage, k: nat) {
    && Holds(s.queue, k) && k < |s.pushed|
    && ClassOf(message) == ClassOf(s.pushed[k]) && ClassOf(message) != EventClass
  }

  /** Which message a push evicts from a queue: none unless full, then the oldest event, or else the oldest message. */
  function Evicted(queue: seq<Stamped>, capacity: nat): Option<nat>
    requires capacity > 0
  {
    var oldest := Position(queue, StampedClass, EventClass);
    if |queue| != capacity then None
    else if oldest.Some? then Some(queue[oldest.value].stamp)
    else Some(queue[0].stamp)
  }

  /** Whether a push loses message `k`: by overtaking it, or for want of room. */
  predicate Loses(s: State, message: WorkerMessage, capacity: nat, k: nat)
    requires capacity > 0
  {
    || Overtakes(s, message, k)
    || Evicted(Supersede(s.queue, StampedClass, ClassOf(message)), capacity) == Some(k)
  }

  /** Whether some push of a run loses message `k`. */
  predicate Lost(s: State, ops: seq<Op>, capacity: nat, k: nat)
    requires capacity > 0
    decreases |ops|
  {
    ops != [] && ((ops[0].Push? && Loses(s, ops[0].message, capacity, k))
                  || Lost(Do(s, ops[0], capacity), ops[1..], capacity, k))
  }

  /** Whether some push of a run overtakes message `k`. */
  predicate Overtaken(s: State, ops: seq<Op>, capacity: nat, k: nat)
    requires capacity > 0
    decreases |ops|
  {
    ops != [] && ((ops[0].Push? && Overtakes(s, ops[0].message, k))
                  || Overtaken(Do(s, ops[0], capacity), ops[1..], capacity, k))
  }

  // ----- one push

  lemma SupersedeFate(s: State, message: WorkerMessage, k: nat)
    requires Half(s, EventClass)
    ensures Holds(Supersede(s.queue, StampedClass, ClassOf(message)), k)
            <==> Holds(s.queue, k) && !Overtakes(s, message, k)
  {
    var wanted := ClassOf(message);
    var at := Position(s.queue, StampedClass, wanted);
    SuffixInOrder(s.delivered, s.queue);
    if wanted != EventClass && at.Some? {
      HoldsAfterRemoval(s.queue, at.value, k);
      StampNamesMessage(s, at.value);
    }
    if Holds(s.queue, k) {
      var i :| 0 <= i < |s.queue| && s.queue[i].stamp == k;
      StampNamesMessage(s, i);
    }
  }

  lemma MakeRoomFate(queue: seq<Stamped>, capacity: nat, k: nat)
    requires capacity > 0 && InOrder(queue)
    ensures Holds(MakeRoom(queue, StampedClass, capacity), k)
            <==> Holds(queue, k) && Evicted(queue, capacity) != Some(k)
  {
    var oldest := Position(queue, StampedClass, EventClass);
    if |queue| == capacity {
      HoldsAfterRemoval(queue, if oldest.Some? then oldest.value else 0, k);
      assert RemoveAt(queue, 0) == queue[1..];
    }
  }

  /** After a push, an earlier message is queued exactly when it was and the push did not lose it. */
  lemma PushFate(s: State, message: WorkerMessage, capacity: nat, k: nat)
    requires capacity > 0 && Safe(s, capacity) && k < |s.pushed|
    ensures Holds(Do(s, Push(message), capacity).queue, k) <==> Holds(s.queue, k) && !Loses(s, message, capacity, k)
  {
    var left := Supersede(s.queue, StampedClass, ClassOf(message));
    SupersedeFate(s, message, k);
    SupersedeKeeps(s, ClassOf(message));
    SuffixInOrder(s.delivered, left);
    MakeRoomFate(left, capacity, k);
    HoldsAppend(MakeRoom(left, StampedClass, capacity), Stamped(|s.pushed|, message));
  }

  // ----- queued or delivered

  predicate Kept(s: State, k: nat) { Holds(s.delivered + s.queue, k) }

  lemma HoldsConcat(a: seq<Stamped>, b: seq<Stamped>, k: nat)
    ensures Holds(a + b, k) <==> Holds(a, k) || Holds(b, k)
  {
    if Holds(a, k) {
      var i :| 0 <= i < |a| && a[i].stamp == k;
      assert (a + b)[i].stamp == k;
    }
    if Holds(b, k) {
      var i :| 0 <= i < |b| && b[i].stamp == k;
      assert (a + b)[|a| + i].stamp == k;
    }
  }

  /** Nothing is both delivered and queued. */
  lemma DeliveredOnce(a: seq<Stamped>, b: seq<Stamped>, k: nat)
    requires InOrder(a + b)
    ensures !(Holds(a, k) && Holds(b, k))
  {
    forall i, j | 0 <= i < |a| && 0 <= j < |b| ensures a[i].stamp < b[j].stamp {
      assert (a + b)[i] == a[i] && (a + b)[|a| + j] == b[j];
    }
  }

  /** Only a queued message can be lost. */
  lemma LosesQueued(s: State, message: WorkerMessage, capacity: nat, k: nat)
    requires capacity > 0 && Safe(s, capacity) && Loses(s, message, capacity, k)
    ensures Holds(s.queue, k) && k < |s.pushed|
  {
    var left := Supersede(s.queue, StampedClass, ClassOf(message));
    if !Overtakes(s, message, k) {
      assert Holds(left, k);
      SupersedeFate(s, message, k);
      var i :| 0 <= i < |s.queue| && s.queue[i].stamp == k;
      StampNamesMessage(s, i);
    }
  }

  lemma StepFate(s: State, op: Op, capacity: nat, k: nat)
    requires capacity > 0 && Safe(s, capacity) && k < |s.pushed|
    ensures Kept(Do(s, op, capacity), k) <==> Kept(s, k) && !(op.Push? && Loses(s, op.message, capacity, k))
  {
    var t := Do(s, op, capacity);
    match op {
      case Push(message) =>
        HoldsConcat(s.delivered, s.queue, k);
        HoldsConcat(t.delivered, t.queue, k);
        DeliveredOnce(s.delivered, s.queue, k);
        PushFate(s, message, capacity, k);
        if Loses(s, message, capacity, k) {
          LosesQueued(s, message, capacity, k);
        }
      case Drain(_) => assert t.delivered + t.queue == s.delivered + s.queue;
    }
  }

  lemma StepKeepsSafe(s: State, op: Op, capacity: nat)
    requires capacity > 0 && Safe(s, capacity)
    ensures Safe(Do(s, op, capacity), capacity) && s.pushed <= Do(s, op, capacity).pushed
  {
    match op {
      case Push(message) => PushKeepsSafe(s, message, capacity);
      case Drain(budget) => DrainKeepsSafe(s, budget, capacity);
    }
  }

  lemma {:induction false} PushedOnlyGrows(s: State, ops: seq<Op>, capacity: nat)
    requires capacity > 0 && Safe(s, capacity)
    ensures s.pushed <= Run(s, ops, capacity).pushed
    decreases |ops|
  {
    if ops != [] {
      StepKeepsSafe(s, ops[0], capacity);
      PushedOnlyGrows(Do(s, ops[0], capacity), ops[1..], capacity);
    }
  }

  /** A message once pushed stays queued or delivered exactly when no later push loses it. */
  lemma {:induction false} KeptUnlessLost(s: State, ops: seq<Op>, capacity: nat, k: nat)
    requires capacity > 0 && Safe(s, capacity) && k < |s.pushed|
    ensures Kept(Run(s, ops, capacity), k) <==> Kept(s, k) && !Lost(s, ops, capacity, k)
    decreases |ops|
  {
    if ops != [] {
      StepKeepsSafe(s, ops[0], capacity);
      StepFate(s, ops[0], capacity, k);
      KeptUnlessLost(Do(s, ops[0], capacity), ops[1..], capacity, k);
    }
  }

  /** The message a push adds is queued. */
  lemma PushedIsKept(s: State, message: WorkerMessage, capacity: nat)
    requires capacity > 0
    ensures Kept(Do(s, Push(message), capacity), |s.pushed|)
  {
    var t := Do(s, Push(message), capacity);
    assert (t.delivered + t.queue)[|t.delivered + t.queue| - 1] == Stamped(|s.pushed|, message);
  }

  lemma {:induction false} FateFrom(s: State, ops: seq<Op>, capacity: nat, k: nat)
    requires capacity > 0 && Safe(s, capacity) && |s.pushed| <= k < |Run(s, ops, capacity).pushed|
    ensures Kept(Run(s, ops, capacity), k) <==> !Lost(s, ops, capacity, k)
    decreases |ops|
  {
    var next := Do(s, ops[0], capacity);
    StepKeepsSafe(s, ops[0], capacity);
    if ops[0].Push? && Loses(s, ops[0].message, capacity, k) {
      LosesQueued(s, ops[0].message, capacity, k);
    }
    if ops[0].Push? && k == |s.pushed| {
      PushedIsKept(s, ops[0].message, capacity);
      KeptUnlessLost(next, ops[1..], capacity, k);
    } else {
      FateFrom(next, ops[1..], capacity, k);
    }
  }

  /**
   Over every interleaving and for every capacity: a message pushed is delivered, or still
   queued, if and only if no push lost it.
   */
  lemma KeptExactlyWhenNotLost(ops: seq<Op>, capacity: nat, k: nat)
    requires capacity > 0 && k < |Run(EMPTY, ops, capacity).pushed|
    ensures Kept(Run(EMPTY, ops, capacity), k) <==> !Lost(EMPTY, ops, capacity, k)
  {
    FateFrom(EMPTY, ops, capacity, k);
  }

  lemma EvictsNoControl(s: State, message: WorkerMessage, capacity: nat, k: nat)
    requires capacity >= 4 && Safe(s, capacity) && (k < |s.pushed| ==> ClassOf(s.pushed[k]) != EventClass)
    ensures Loses(s, message, capacity, k) <==> Overtakes(s, message, k)
  {
    var left := Supersede(s.queue, StampedClass, ClassOf(message));
    var t := s.(queue := left);
    SupersedeKeeps(s, ClassOf(message));
    var oldest := Position(left, StampedClass, EventClass);
    if oldest.Some? {
      StampNamesMessage(t, oldest.value);
    } else {
      ControlMessagesAreFew(left);
    }
  }

  lemma {:induction false} ControlLostMeansOvertaken(s: State, ops: seq<Op>, capacity: nat, k: nat)
    requires capacity >= 4 && Safe(s, capacity)
    requires k < |Run(s, ops, capacity).pushed| && ClassOf(Run(s, ops, capacity).pushed[k]) != EventClass
    ensures Lost(s, ops, capacity, k) <==> Overtaken(s, ops, capacity, k)
    decreases |ops|
  {
    if ops != [] {
      PushedOnlyGrows(s, ops, capacity);
      StepKeepsSafe(s, ops[0], capacity);
      if ops[0].Push? {
        EvictsNoControl(s, ops[0].message, capacity, k);
      }
      ControlLostMeansOvertaken(Do(s, ops[0], capacity), ops[1..], capacity, k);
    }
  }

  /** From four slots on, a drained run has delivered a control message if and only if it was not overtaken. */
  lemma DeliveredExactlyWhenNotOvertaken(ops: seq<Op>, capacity: nat, k: nat)
    requires capacity >= 4 && Run(EMPTY, ops, capacity).queue == []
    requires k < |Run(EMPTY, ops, capacity).pushed| && ClassOf(Run(EMPTY, ops, capacity).pushed[k]) != EventClass
    ensures Holds(Run(EMPTY, ops, capacity).delivered, k) <==> !Overtaken(EMPTY, ops, capacity, k)
  {
    var s := Run(EMPTY, ops, capacity);
    KeptExactlyWhenNotLost(ops, capacity, k);
    ControlLostMeansOvertaken(EMPTY, ops, capacity, k);
    assert s.delivered + s.queue == s.delivered;
  }

  // ----- the delivered messages, exactly

  /** The messages to keep, in push order. */
  function Filtered(pushed: seq<WorkerMessage>, keep: nat -> bool): seq<WorkerMessage> {
    if pushed == [] then []
    else
      var n := |pushed| - 1;
      Filtered(pushed[..n], keep) + if keep(n) then [pushed[n]] else []
  }

  /** Messages in push order, each under its own stamp. */
  ghost predicate Names(delivered: seq<Stamped>, pushed: seq<WorkerMessage>) {
    && InOrder(delivered)
    && forall i :: 0 <= i < |delivered| ==>
         delivered[i].stamp < |pushed| && delivered[i].message == pushed[delivered[i].stamp]
  }

  /** Cutting off the newest message. */
  lemma NamesFront(delivered: seq<Stamped>, pushed: seq<WorkerMessage>) returns (front: seq<Stamped>)
    requires pushed != [] && Names(delivered, pushed)
    ensures Names(front, pushed[..|pushed| - 1])
    ensures var n: nat := |pushed| - 1;
            delivered == front + if Holds(delivered, n) then [Stamped(n, pushed[n])] else []
    ensures forall k :: 0 <= k < |pushed| - 1 ==> (Holds(front, k) <==> Holds(delivered, k))
  {
    var n: nat := |pushed| - 1;
    if Holds(delivered, n) {
      NewestIsLast(delivered, pushed);
      front := delivered[..|delivered| - 1];
      HoldsAppend(front, Stamped(n, pushed[n]));
    } else {
      front := delivered;
      assert forall i :: 0 <= i < |delivered| ==> delivered[i].stamp != n;
      assert front + [] == front;
    }
  }

  lemma NewestIsLast(delivered: seq<Stamped>, pushed: seq<WorkerMessage>)
    requires pushed != [] && Names(delivered, pushed) && Holds(delivered, |pushed| - 1)
    ensures var n: nat := |pushed| - 1;
            delivered != [] && delivered == delivered[..|delivered| - 1] + [Stamped(n, pushed[n])]
    ensures forall i :: 0 <= i < |delivered| - 1 ==> delivered[i].stamp < |pushed| - 1
  {
    var i :| 0 <= i < |delivered| && delivered[i].stamp == |pushed| - 1;
    assert delivered[|delivered| - 1].stamp <= |pushed| - 1;
    assert i == |delivered| - 1;
  }

  lemma MessagesAppend(front: seq<Stamped>, last: Stamped)
    ensures Messages(front + [last]) == Messages(front) + [last.message]
  {
  }

  lemma {:induction false} NamedMessages(delivered: seq<Stamped>, pushed: seq<WorkerMessage>, keep: nat -> bool)
    requires Names(delivered, pushed) && forall k :: 0 <= k < |pushed| ==> (Holds(delivered, k) <==> keep(k))
    ensures Messages(delivered) == Filtered(pushed, keep)
    decreases |pushed|
  {
    if pushed == [] {
      assert |delivered| > 0 ==> delivered[0].stamp < 0;
    } else {
      var n: nat := |pushed| - 1;
      var front := NamesFront(delivered, pushed);
      var kept := Filtered(pushed[..n], keep);
      NamedMessages(front, pushed[..n], keep);
      assert Holds(delivered, n) <==> keep(n);
      if keep(n) {
        MessagesAppend(front, Stamped(n, pushed[n]));
      } else {
        assert kept + [] == kept && front + [] == front;
      }
    }
  }

  function NotLost(ops: seq<Op>, capacity: nat): nat -> bool
    requires capacity > 0
  {
    (k: nat) => !Lost(EMPTY, ops, capacity, k)
  }

  /** Once drained, the dashboard has been handed exactly the messages no push lost, in push order. */
  lemma DeliveredIsWhatWasNotLost(ops: seq<Op>, capacity: nat)
    requires capacity > 0 && Run(EMPTY, ops, capacity).queue == []
    ensures Messages(Run(EMPTY, ops, capacity).delivered)
         == Filtered(Run(EMPTY, ops, capacity).pushed, NotLost(ops, capacity))
  {
    var s := Run(EMPTY, ops, capacity);
    EveryInterleavingIsSafe(EMPTY, ops, capacity);
    assert s.delivered + s.queue == s.delivered;
    forall k: nat | k < |s.pushed| ensures Holds(s.delivered, k) <==> NotLost(ops, capacity)(k) {
      KeptExactlyWhenNotLost(ops, capacity, k);
    }
    NamedMessages(s.delivered, s.pushed, NotLost(ops, capacity));
  }

  // ----- what a drained pane shows

  /** What the newest kept message that says anything says. */
  function LastKept<T>(pushed: seq<WorkerMessage>, keep: nat -> bool, says: WorkerMessage -> Option<T>, default: T): T {
    if pushed == [] then default
    else
      var n := |pushed| - 1;
      if keep(n) && says(pushed[n]).Some? then says(pushed[n]).value else LastKept(pushed[..n], keep, says, default)
  }

  lemma {:induction false} LastOfFiltered<T>(pushed: seq<WorkerMessage>, keep: nat -> bool,
                                             says: WorkerMessage -> Option<T>, default: T)
    ensures Last(Filtered(pushed, keep), says, default) == LastKept(pushed, keep, says, default)
  {
    if pushed != [] {
      var n := |pushed| - 1;
      var front := Filtered(pushed[..n], keep);
      LastOfFiltered(pushed[..n], keep, says, default);
      if keep(n) {
        assert (front + [pushed[n]])[..|front|] == front;
      } else {
        assert front + [] == front;
      }
    }
  }

  /** Over every interleaving, a drained pane shows what the newest message about it that was not lost says. */
  lemma DrainedPaneShowsNewestKept<T>(ops: seq<Op>, capacity: nat, says: WorkerMessage -> Option<T>, default: T)
    requires capacity > 0 && Run(EMPTY, ops, capacity).queue == []
    ensures var s := Run(EMPTY, ops, capacity);
            Last(Messages(s.delivered), says, default) == LastKept(s.pushed, NotLost(ops, capacity), says, default)
  {
    DeliveredIsWhatWasNotLost(ops, capacity);
    LastOfFiltered(Run(EMPTY, ops, capacity).pushed, NotLost(ops, capacity), says, default);
  }

  /** Whether message `k` is the newest about a pane. */
  ghost predicate IsNewestAbout<T>(pushed: seq<WorkerMessage>, says: WorkerMessage -> Option<T>, k: nat) {
    k < |pushed| && says(pushed[k]).Some? && forall j :: k < j < |pushed| ==> says(pushed[j]).None?
  }

  lemma {:induction false} LastKeptIs<T>(pushed: seq<WorkerMessage>, keep: nat -> bool,
                                         says: WorkerMessage -> Option<T>, default: T, k: nat)
    requires IsNewestAbout(pushed, says, k)
    ensures LastKept(pushed, keep, says, default)
         == if keep(k) then says(pushed[k]).value else LastKept(pushed[..k], keep, says, default)
    decreases |pushed|
  {
    var n := |pushed| - 1;
    if k < n {
      assert pushed[..n][..k] == pushed[..k];
      LastKeptIs(pushed[..n], keep, says, default, k);
    }
  }

  /** Whether a pane never before showed what message `k` says. */
  ghost predicate SaysNews<T>(pushed: seq<WorkerMessage>, says: WorkerMessage -> Option<T>, default: T, k: nat) {
    && k < |pushed| && says(pushed[k]) != Some(default)
    && forall j :: 0 <= j < k ==> says(pushed[j]) != says(pushed[k])
  }

  lemma {:induction false} LastKeptIsOld<T>(pushed: seq<WorkerMessage>, keep: nat -> bool,
                                            says: WorkerMessage -> Option<T>, default: T, value: T)
    requires value != default && forall j :: 0 <= j < |pushed| ==> says(pushed[j]) != Some(value)
    ensures LastKept(pushed, keep, says, default) != value
  {
    if pushed != [] {
      LastKeptIsOld(pushed[..|pushed| - 1], keep, says, default, value);
    }
  }

  /**
   So a drained pane is right, as if every message pushed had been applied, whenever the newest
   message about it was not lost; and if that one said something new, only then.
   */
  lemma DrainedPaneIsRightExactlyWhen<T>(ops: seq<Op>, capacity: nat, says: WorkerMessage -> Option<T>,
                                         default: T, k: nat)
    requires capacity > 0 && Run(EMPTY, ops, capacity).queue == []
    requires IsNewestAbout(Run(EMPTY, ops, capacity).pushed, says, k)
    ensures var s := Run(EMPTY, ops, capacity);
            var right := Last(Messages(s.delivered), says, default) == Last(s.pushed, says, default);
            && (!Lost(EMPTY, ops, capacity, k) ==> right)
            && (SaysNews(s.pushed, says, default, k) ==> (right <==> !Lost(EMPTY, ops, capacity, k)))
  {
    var s, keep := Run(EMPTY, ops, capacity), NotLost(ops, capacity);
    DrainedPaneShowsNewestKept(ops, capacity, says, default);
    LastIsNewest(s.pushed, says, default, k);
    LastKeptIs(s.pushed, keep, says, default, k);
    if SaysNews(s.pushed, says, default, k) {
      LastKeptIsOld(s.pushed[..k], keep, says, default, says(s.pushed[k]).value);
    }
  }

  /** Whether the newest message about a pane, if any was pushed, is kept. */
  ghost predicate NewestIsKept<T>(pushed: seq<WorkerMessage>, keep: nat -> bool, says: WorkerMessage -> Option<T>) {
    forall k: nat :: IsNewestAbout(pushed, says, k) ==> keep(k)
  }

  lemma {:induction false} NewestAbout<T>(pushed: seq<WorkerMessage>, says: WorkerMessage -> Option<T>)
    returns (newest: Option<nat>)
    ensures newest.Some? ==> IsNewestAbout(pushed, says, newest.value)
    ensures newest.None? ==> forall j :: 0 <= j < |pushed| ==> says(pushed[j]).None?
  {
    if pushed == [] {
      newest := None;
    } else if says(pushed[|pushed| - 1]).Some? {
      newest := Some(|pushed| - 1);
    } else {
      newest := NewestAbout(pushed[..|pushed| - 1], says);
    }
  }

  lemma {:induction false} NoneKeptSays<T>(pushed: seq<WorkerMessage>, keep: nat -> bool,
                                           says: WorkerMessage -> Option<T>, default: T)
    requires forall j :: 0 <= j < |pushed| ==> says(pushed[j]).None?
    ensures LastKept(pushed, keep, says, default) == default
  {
    if pushed != [] {
      NoneKeptSays(pushed[..|pushed| - 1], keep, says, default);
    }
  }

  lemma PaneIsRight<T>(ops: seq<Op>, capacity: nat, says: WorkerMessage -> Option<T>, default: T)
    requires capacity > 0 && Run(EMPTY, ops, capacity).queue == []
    ensures var s := Run(EMPTY, ops, capacity);
            NewestIsKept(s.pushed, NotLost(ops, capacity), says)
            ==> Last(Messages(s.delivered), says, default) == Last(s.pushed, says, default)
  {
    var s := Run(EMPTY, ops, capacity);
    var newest := NewestAbout(s.pushed, says);
    if newest.None? {
      DrainedPaneShowsNewestKept(ops, capacity, says, default);
      NoneKeptSays(s.pushed, NotLost(ops, capacity), says, default);
      LastOfNone(s.pushed, says, default);
    } else {
      DrainedPaneIsRightExactlyWhen(ops, capacity, says, default, newest.value);
    }
  }

  /** The dashboard, pane by pane: each is right where the newest message about it was not lost. */
  lemma DrainedDashboardIsRightWhere(ops: seq<Op>, capacity: nat, path: string)
    requires capacity > 0 && Run(EMPTY, ops, capacity).queue == []
    ensures var s := Run(EMPTY, ops, capacity);
            var (shown, full) := (PanesAfter(Messages(s.delivered)), PanesAfter(s.pushed));
            var keep := NotLost(ops, capacity);
            && (NewestIsKept(s.pushed, keep, Daemon) ==> shown.streamDaemon == full.streamDaemon)
            && (NewestIsKept(s.pushed, keep, Results) ==> shown.results == full.results)
            && (NewestIsKept(s.pushed, keep, Queue) ==> shown.queue == full.queue)
            && (NewestIsKept(s.pushed, keep, SaysOfRoot(path)) ==> Named(shown.roots, path) == Named(full.roots, path))
  {
    var s := Run(EMPTY, ops, capacity);
    PanesShowTheMessages(Messages(s.delivered));
    PanesShowTheMessages(s.pushed);
    PaneIsRight(ops, capacity, Daemon, None);
    PaneIsRight(ops, capacity, Results, []);
    PaneIsRight(ops, capacity, Queue, []);
    PaneIsRight(ops, capacity, SaysOfRoot(path), None);
    RootsShowTheLastWord(Messages(s.delivered), path);
    RootsShowTheLastWord(s.pushed, path);
  }

  // ----- panes one class speaks to, and no other, are always right

  /** Whether a pane is about one control class: every message of the class speaks to it, and no other. */
  ghost predicate AboutClass<T>(says: WorkerMessage -> Option<T>, c: Class) {
    c != EventClass && forall m :: says(m).Some? <==> ClassOf(m) == c
  }

  lemma {:induction false} NewestOfClass(pushed: seq<WorkerMessage>, c: Class) returns (newest: Option<nat>)
    ensures newest.Some? ==> newest.value < |pushed| && ClassOf(pushed[newest.value]) == c
                             && forall j :: newest.value < j < |pushed| ==> ClassOf(pushed[j]) != c
    ensures newest.None? ==> forall j :: 0 <= j < |pushed| ==> ClassOf(pushed[j]) != c
  {
    if pushed == [] {
      newest := None;
    } else if ClassOf(pushed[|pushed| - 1]) == c {
      newest := Some(|pushed| - 1);
    } else {
      newest := NewestOfClass(pushed[..|pushed| - 1], c);
    }
  }

  lemma DeliveredWerePushed(s: State, c: Class)
    requires s.queue == [] && Faithful(s) && forall j :: 0 <= j < |s.pushed| ==> ClassOf(s.pushed[j]) != c
    ensures forall j :: 0 <= j < |s.delivered| ==> ClassOf(s.delivered[j].message) != c
  {
    forall j | 0 <= j < |s.delivered| ensures ClassOf(s.delivered[j].message) != c {
      assert (s.delivered + s.queue)[j] == s.delivered[j];
    }
  }

  /**
   Coalescing is invisible once the mailbox is drained: a pane about one control class shows
   what it would show had every message pushed been applied.
   */
  lemma DrainedPanesAreUpToDate<T>(ops: seq<Op>, capacity: nat, c: Class, says: WorkerMessage -> Option<T>, default: T)
    requires capacity >= 4 && Run(EMPTY, ops, capacity).queue == [] && AboutClass(says, c)
    ensures var s := Run(EMPTY, ops, capacity);
            Last(Messages(s.delivered), says, default) == Last(s.pushed, says, default)
  {
    var s := Run(EMPTY, ops, capacity);
    EveryInterleavingIsSafe(EMPTY, ops, capacity);
    var newest := NewestOfClass(s.pushed, c);
    if newest.None? {
      DeliveredWerePushed(s, c);
      LastOfNone(Messages(s.delivered), says, default);
      LastOfNone(s.pushed, says, default);
    } else {
      var at := DrainedIsUpToDate(s, capacity, newest.value);
      LastIsNewest(s.pushed, says, default, newest.value);
      LastIsNewest(Messages(s.delivered), says, default, at);
    }
  }

  /** So a drained dashboard shows the connection, its error and the snapshot's error as if nothing had been dropped. */
  lemma DrainedDashboardIsUpToDate(ops: seq<Op>, capacity: nat)
    requires capacity >= 4 && Run(EMPTY, ops, capacity).queue == []
    ensures var s := Run(EMPTY, ops, capacity);
            var (shown, full) := (PanesAfter(Messages(s.delivered)), PanesAfter(s.pushed));
            && shown.streamConnected == full.streamConnected && shown.streamError == full.streamError
            && shown.snapshotError == full.snapshotError
  {
    var s := Run(EMPTY, ops, capacity);
    DrainedPanesAreUpToDate(ops, capacity, ConnectionClass, Connected, false);
    DrainedPanesAreUpToDate(ops, capacity, ConnectionClass, StreamError, Some(CONNECTING));
    DrainedPanesAreUpToDate(ops, capacity, SnapshotClass, SnapshotError, None);
    PanesShowTheMessages(Messages(s.delivered));
    PanesShowTheMessages(s.pushed);
  }

  // ----- panes that are lost

  lemma SecondSupersedes(first: WorkerMessage, second: WorkerMessage, capacity: nat)
    requires capacity > 1 && ClassOf(first) == ClassOf(second) != EventClass
    ensures Do(Do(EMPTY, Push(first), capacity), Push(second), capacity)
         == State([Stamped(1, second)], [], [first, second])
  {
    var s1 := Do(EMPTY, Push(first), capacity);
    assert s1 == State([Stamped(0, first)], [], [first]);
    assert Position(s1.queue, StampedClass, ClassOf(second)) == Some(0);
  }

  lemma ThreeSteps(s: State, a: Op, b: Op, c: Op, capacity: nat)
    requires capacity > 0
    ensures Run(s, [a, b, c], capacity) == Do(Do(Do(s, a, capacity), b, capacity), c, capacity)
  {
    assert [a, b, c] == [a, b] + [c] && [a, b] == [a] + [b] && [a] == [] + [a];
    RunThen(s, [a, b], c, capacity);
    RunThen(s, [a], b, capacity);
    RunThen(s, [], a, capacity);
  }

  /** A control message overtaken before the drain: only the second is ever applied. */
  lemma OvertakenIsNotApplied(first: WorkerMessage, second: WorkerMessage, capacity: nat)
    requires capacity > 1 && ClassOf(first) == ClassOf(second) != EventClass
    ensures Run(EMPTY, [Push(first), Push(second), Drain(capacity)], capacity)
         == State([], [Stamped(1, second)], [first, second])
  {
    ThreeSteps(EMPTY, Push(first), Push(second), Drain(capacity), capacity);
    SecondSupersedes(first, second, capacity);
  }

  /** What a pane shows that only the overtaken message speaks to. */
  lemma OvertakenIsNotShown<T>(first: WorkerMessage, second: WorkerMessage, capacity: nat,
                               says: WorkerMessage -> Option<T>, default: T)
    requires capacity > 1 && ClassOf(first) == ClassOf(second) != EventClass
    requires says(first).Some? && says(second).None?
    ensures var s := Run(EMPTY, [Push(first), Push(second), Drain(capacity)], capacity);
            && s.queue == [] && Last(Messages(s.delivered), says, default) == default
            && Last(s.pushed, says, default) == says(first).value
  {
    OvertakenIsNotApplied(first, second, capacity);
    LastIsNewest([first, second], says, default, 0);
    LastOfNone(Messages([Stamped(1, second)]), says, default);
  }

  function TwoThenDrain(first: WorkerMessage, second: WorkerMessage, capacity: nat): State
    requires capacity > 0
  {
    Run(EMPTY, [Push(first), Push(second), Drain(capacity)], capacity)
  }

  /** The daemon's name, overtaken by a disconnection ... */
  lemma OvertakenConnectionLosesItsDaemon(daemon: string, reason: string, capacity: nat)
    requires capacity > 1
    ensures var s := TwoThenDrain(StreamConnected(daemon), StreamDisconnected(reason), capacity);
            && s.queue == []
            && Last(Messages(s.delivered), Daemon, None) == None && Last(s.pushed, Daemon, None) == Some(daemon)
  {
    OvertakenIsNotShown(StreamConnected(daemon), StreamDisconnected(reason), capacity, Daemon, None);
  }

  /** ... the results of a search, overtaken by a failed one ... */
  lemma OvertakenSearchLosesItsResults(results: seq<string>, error: string, capacity: nat)
    requires capacity > 1
    ensures var s := TwoThenDrain(Search(Good(results)), Search(Bad(error)), capacity);
            && s.queue == []
            && Last(Messages(s.delivered), Results, []) == [] && Last(s.pushed, Results, []) == results
  {
    OvertakenIsNotShown(Search(Good(results)), Search(Bad(error)), capacity, Results, []);
  }

  /** ... and every root of a snapshot, overtaken by a failed one. */
  lemma OvertakenSnapshotLosesItsRoots(status: Status, error: string, path: string, capacity: nat)
    requires capacity > 1
    ensures var s := TwoThenDrain(Snapshot(Good(status)), Snapshot(Bad(error)), capacity);
            && s.queue == []
            && Named(RootsAfter(Messages(s.delivered)), path) == None
            && Named(RootsAfter(s.pushed), path) == Named(status.roots, path)
  {
    var s := TwoThenDrain(Snapshot(Good(status)), Snapshot(Bad(error)), capacity);
    OvertakenIsNotShown(Snapshot(Good(status)), Snapshot(Bad(error)), capacity, SaysOfRoot(path), None);
    RootsShowTheLastWord(Messages(s.delivered), path);
    RootsShowTheLastWord(s.pushed, path);
  }

  // ----- an event evicted for want of room

  predicate AllEvents(messages: seq<WorkerMessage>) {
    forall i :: 0 <= i < |messages| ==> ClassOf(messages[i]) == EventClass
  }

  function Pushed(messages: seq<WorkerMessage>): seq<Op> {
    seq(|messages|, i requires 0 <= i < |messages| => Push(messages[i]))
  }

  function Queued(messages: seq<WorkerMessage>): seq<Stamped> {
    seq(|messages|, i requires 0 <= i < |messages| => Stamped(i, messages[i]))
  }

  lemma OneMore(front: seq<WorkerMessage>, last: WorkerMessage)
    ensures Pushed(front + [last]) == Pushed(front) + [Push(last)]
    ensures Queued(front + [last]) == Queued(front) + [Stamped(|front|, last)]
  {
  }

  lemma EventsAreQueued(messages: seq<WorkerMessage>)
    requires AllEvents(messages) && messages != []
    ensures Position(Queued(messages), StampedClass, EventClass) == Some(0)
  {
    assert StampedClass(Queued(messages)[0]) == ClassOf(messages[0]);
  }

  /** A step on from where a run has come. */
  lemma RunOn(ops: seq<Op>, op: Op, capacity: nat, s: State, t: State)
    requires capacity > 0 && Run(EMPTY, ops, capacity) == s && Run(s, [op], capacity) == t
    ensures Run(EMPTY, ops + [op], capacity) == t
  {
    RunThen(EMPTY, ops, op, capacity);
    assert [op][1..] == [];
  }

  /** Pushing an event behind events: it is added, and where there is no room the first goes. */
  lemma PushEvent(front: seq<WorkerMessage>, last: WorkerMessage, capacity: nat)
    requires AllEvents(front) && ClassOf(last) == EventClass && |front| <= capacity && capacity > 0
    ensures var all := Queued(front + [last]);
            Run(State(Queued(front), [], front), [Push(last)], capacity)
            == State(if |front| == capacity then all[1..] else all, [], front + [last])
  {
    var queue, added := Queued(front), Stamped(|front|, last);
    OneMore(front, last);
    if |front| == capacity {
      EventsAreQueued(front);
      assert RemoveAt(queue, 0) == queue[1..];
      assert (queue + [added])[1..] == queue[1..] + [added];
    }
    var t := Do(State(queue, [], front), Push(last), capacity);
    assert Run(t, [Push(last)][1..], capacity) == t;
  }

  lemma EventsQueueStep(front: seq<WorkerMessage>, last: WorkerMessage, capacity: nat)
    requires AllEvents(front) && ClassOf(last) == EventClass && |front| < capacity
    requires Run(EMPTY, Pushed(front), capacity) == State(Queued(front), [], front)
    ensures Run(EMPTY, Pushed(front + [last]), capacity) == State(Queued(front + [last]), [], front + [last])
  {
    OneMore(front, last);
    PushEvent(front, last, capacity);
    RunOn(Pushed(front), Push(last), capacity, State(Queued(front), [], front),
          State(Queued(front + [last]), [], front + [last]));
  }

  lemma {:induction false} EventsQueue(messages: seq<WorkerMessage>, capacity: nat)
    requires AllEvents(messages) && |messages| <= capacity && capacity > 0
    ensures Run(EMPTY, Pushed(messages), capacity) == State(Queued(messages), [], messages)
  {
    if messages != [] {
      var front, last := messages[..|messages| - 1], messages[|messages| - 1];
      EventsQueue(front, capacity);
      EventsQueueStep(front, last, capacity);
      assert messages == front + [last];
    }
  }

  lemma DrainAll(queue: seq<Stamped>, pushed: seq<WorkerMessage>, capacity: nat)
    requires |queue| == capacity > 0
    ensures Run(State(queue, [], pushed), [Drain(capacity)], capacity) == State([], queue, pushed)
  {
    assert Run(State([], queue, pushed), [Drain(capacity)][1..], capacity) == State([], queue, pushed);
  }

  /** One event more than there is room for: the oldest is never applied. */
  lemma OldestEventIsEvicted(front: seq<WorkerMessage>, last: WorkerMessage, capacity: nat)
    requires AllEvents(front) && ClassOf(last) == EventClass && |front| == capacity > 0
    ensures var messages := front + [last];
            Run(EMPTY, Pushed(messages) + [Drain(capacity)], capacity) == State([], Queued(messages)[1..], messages)
  {
    var messages := front + [last];
    var full, evicted := State(Queued(front), [], front), State(Queued(messages)[1..], [], messages);
    EventsQueue(front, capacity);
    PushEvent(front, last, capacity);
    RunOn(Pushed(front), Push(last), capacity, full, evicted);
    OneMore(front, last);
    DrainAll(Queued(messages)[1..], messages, capacity);
    RunOn(Pushed(messages), Drain(capacity), capacity, evicted, State([], Queued(messages)[1..], messages));
  }

  lemma BehindTheFirst(messages: seq<WorkerMessage>)
    requires messages != []
    ensures Messages(Queued(messages)[1..]) == messages[1..]
  {
  }

  /** A burst of other events: the root a first one announced is missing once the mailbox is drained. */
  lemma EvictedRootIsMissing(root: Root, text: string, burst: seq<WorkerMessage>, capacity: nat)
    requires |burst| == capacity > 0 && forall i :: 0 <= i < |burst| ==> burst[i] == StreamEvent(Silent)
    ensures var messages := [StreamEvent(RootChanged("added", root, text))] + burst;
            var s := Run(EMPTY, Pushed(messages) + [Drain(capacity)], capacity);
            && s.queue == []
            && Named(RootsAfter(Messages(s.delivered)), root.path) == None
            && Named(RootsAfter(s.pushed), root.path) == Some(root)
  {
    var messages := [StreamEvent(RootChanged("added", root, text))] + burst;
    BurstEvicts(messages, capacity);
    assert messages[1..] == burst;
    RootsShowTheLastWord(burst, root.path);
    RootsShowTheLastWord(messages, root.path);
    LastIsNewest(messages, SaysOfRoot(root.path), None, 0);
    LastOfNone(burst, SaysOfRoot(root.path), None);
  }

  lemma BurstEvicts(messages: seq<WorkerMessage>, capacity: nat)
    requires AllEvents(messages) && |messages| == capacity + 1 && capacity > 0
    ensures var s := Run(EMPTY, Pushed(messages) + [Drain(capacity)], capacity);
            s.queue == [] && Messages(s.delivered) == messages[1..] && s.pushed == messages
  {
    assert messages == messages[..capacity] + [messages[capacity]];
    OldestEventIsEvicted(messages[..capacity], messages[capacity], capacity);
    BehindTheFirst(messages);
  }
}

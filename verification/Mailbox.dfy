/**
 The bounded, newest-wins handoff from the dashboard's workers to its draw loop.  Each
 locked operation is one atomic step; what is proved holds for every interleaving.
 */
module Mailbox {
  import opened Text
  import opened Dashboard

  /** What a newer message of the same kind replaces; stream events replace nothing. */
  datatype Class = SnapshotClass | SearchClass | ConnectionClass | EventClass

  function ClassOf(message: WorkerMessage): Class {
    match message
    case Snapshot(_) => SnapshotClass
    case Search(_) => SearchClass
    case StreamConnected(_) => ConnectionClass
    case StreamDisconnected(_) => ConnectionClass
    case StreamEvent(_) => EventClass
  }

  // ----- one push, on any queue whose elements have a class

  function Position<T>(queue: seq<T>, kind: T -> Class, wanted: Class): (at: Option<nat>)
    ensures at.Some? ==> at.value < |queue| && kind(queue[at.value]) == wanted
                         && forall j :: 0 <= j < at.value ==> kind(queue[j]) != wanted
    ensures at.None? ==> forall j :: 0 <= j < |queue| ==> kind(queue[j]) != wanted
  {
    if queue == [] then None
    else if kind(queue[0]) == wanted then Some(0)
    else
      var rest := Position(queue[1..], kind, wanted);
      if rest.Some? then Some(rest.value + 1) else None
  }

  function RemoveAt<T>(queue: seq<T>, at: nat): seq<T>
    requires at < |queue|
  {
    queue[..at] + queue[at + 1..]
  }

  /** Drop the queued message this one supersedes. */
  function Supersede<T>(queue: seq<T>, kind: T -> Class, wanted: Class): seq<T> {
    var at := Position(queue, kind, wanted);
    if wanted == EventClass || at.None? then queue else RemoveAt(queue, at.value)
  }

  /** In a full queue, drop the oldest event, or failing that the oldest message. */
  function MakeRoom<T>(queue: seq<T>, kind: T -> Class, capacity: nat): seq<T>
    requires capacity > 0
  {
    var oldest := Position(queue, kind, EventClass);
    if |queue| != capacity then queue
    else if oldest.Some? then RemoveAt(queue, oldest.value)
    else queue[1..]
  }

  function PushInto<T>(queue: seq<T>, kind: T -> Class, capacity: nat, message: T): seq<T>
    requires capacity > 0
  {
    MakeRoom(Supersede(queue, kind, kind(message)), kind, capacity) + [message]
  }

  // ----- the program's mailbox

  class Mailbox {
    var queue: seq<WorkerMessage>
    const capacity: nat

    constructor (capacity: nat)
      requires capacity > 0
      ensures queue == [] && this.capacity == capacity
    {
      this.capacity := capacity;
      queue := [];
    }

    method Push(message: WorkerMessage)
      requires capacity > 0
      modifies this`queue
      ensures queue == PushInto(old(queue), ClassOf, capacity, message)
    {
      var superseded := if message.StreamEvent? then None else Position(queue, ClassOf, ClassOf(message));
      if superseded.Some? {
        queue := RemoveAt(queue, superseded.value);
      }
      if |queue| == capacity {
        var oldestEvent := Position(queue, ClassOf, EventClass);
        if oldestEvent.Some? {
          queue := RemoveAt(queue, oldestEvent.value);
        } else {
          queue := queue[1..];
        }
      }
      queue := queue + [message];
    }

    method PopFront() returns (message: WorkerMessage)
      requires queue != []
      modifies this`queue
      ensures message == old(queue)[0] && queue == old(queue)[1..]
    {
      message := queue[0];
      queue := queue[1..];
    }

    method ApplyTo(app: App, budget: nat) returns (count: nat)
      requires app.Valid()
      modifies this`queue, app
      ensures count == if budget < |old(queue)| then budget else |old(queue)|
      ensures queue == old(queue)[count..]
      ensures app.Valid() && app.applied == old(app.applied) + old(queue)[..count]
    {
      count := if budget < |queue| then budget else |queue|;
      ghost var whole, before := queue, app.applied;
      for i := 0 to count
        invariant app.Valid() && queue == whole[i..]
        invariant app.applied == before + whole[..i]
      {
        NextOf(before, whole, i);
        var message := PopFront();
        app.Apply(message);
      }
    }
  }

  lemma NextOf<T>(before: seq<T>, whole: seq<T>, i: nat)
    requires i < |whole|
    ensures whole[i..] != [] && whole[i..][0] == whole[i] && whole[i..][1..] == whole[i + 1..]
    ensures before + whole[..i] + [whole[i]] == before + whole[..i + 1]
  {
  }

  // ----- every interleaving of pushes and drains

  /** A message with its position among all those ever pushed. */
  datatype Stamped = Stamped(stamp: nat, message: WorkerMessage)

  function StampedClass(s: Stamped): Class { ClassOf(s.message) }

  function Messages(queue: seq<Stamped>): seq<WorkerMessage> {
    seq(|queue|, i requires 0 <= i < |queue| => queue[i].message)
  }

  datatype State = State(queue: seq<Stamped>, delivered: seq<Stamped>, pushed: seq<WorkerMessage>)

  datatype Op = Push(message: WorkerMessage) | Drain(budget: nat)

  function Do(s: State, op: Op, capacity: nat): State
    requires capacity > 0
  {
    match op
    case Push(message) =>
      s.(queue := PushInto(s.queue, StampedClass, capacity, Stamped(|s.pushed|, message)),
      pushed := s.pushed + [message])
    case Drain(budget) =>
      var count := if budget < |s.queue| then budget else |s.queue|;
      s.(queue := s.queue[count..], delivered := s.delivered + s.queue[..count])
  }

  function Run(s: State, ops: seq<Op>, capacity: nat): State
    requires capacity > 0
    decreases |ops|
  {
    if ops == [] then s else Run(Do(s, ops[0], capacity), ops[1..], capacity)
  }

  const EMPTY := State([], [], [])

  lemma RemovalAgrees(queue: seq<Stamped>, at: nat)
    requires at < |queue|
    ensures Messages(RemoveAt(queue, at)) == RemoveAt(Messages(queue), at)
  {
  }

  lemma SupersedeAgrees(queue: seq<Stamped>, wanted: Class)
    ensures Messages(Supersede(queue, StampedClass, wanted)) == Supersede(Messages(queue), ClassOf, wanted)
  {
    PositionsAgree(queue, wanted);
    var at := Position(queue, StampedClass, wanted);
    if at.Some? {
      RemovalAgrees(queue, at.value);
    }
  }

  lemma MakeRoomAgrees(queue: seq<Stamped>, capacity: nat)
    requires capacity > 0
    ensures Messages(MakeRoom(queue, StampedClass, capacity)) == MakeRoom(Messages(queue), ClassOf, capacity)
  {
    PositionsAgree(queue, EventClass);
    var at := Position(queue, StampedClass, EventClass);
    if at.Some? {
      RemovalAgrees(queue, at.value);
    }
  }

  /** The stamps are only bookkeeping: forgetting them gives the program's own push. */
  lemma StampsAreInvisible(queue: seq<Stamped>, capacity: nat, message: Stamped)
    requires capacity > 0
    ensures Messages(PushInto(queue, StampedClass, capacity, message))
         == PushInto(Messages(queue), ClassOf, capacity, message.message)
  {
    SupersedeAgrees(queue, StampedClass(message));
    MakeRoomAgrees(Supersede(queue, StampedClass, StampedClass(message)), capacity);
  }

  /** Forgetting them, each step is the program's: a push, or a drain of the first messages up to a budget. */
  lemma StepIsTheProgram(s: State, op: Op, capacity: nat)
    requires capacity > 0
    ensures var (queue, r) := (Messages(s.queue), Do(s, op, capacity));
            match op
            case Push(message) =>
              && Messages(r.queue) == PushInto(queue, ClassOf, capacity, message)
              && r.delivered == s.delivered && r.pushed == s.pushed + [message]
            case Drain(budget) =>
              && (budget >= |queue| ==> r.queue == [] && Messages(r.delivered) == Messages(s.delivered) + queue)
              && (budget < |queue| ==>
                    && Messages(r.queue) == queue[budget..]
                    && Messages(r.delivered) == Messages(s.delivered) + queue[..budget])
              && r.pushed == s.pushed
  {
    if op.Push? {
      StampsAreInvisible(s.queue, capacity, Stamped(|s.pushed|, op.message));
    }
  }

  lemma {:induction false} PositionsAgree(queue: seq<Stamped>, wanted: Class)
    ensures Position(queue, StampedClass, wanted) == Position(Messages(queue), ClassOf, wanted)
  {
    if queue != [] {
      assert Messages(queue)[1..] == Messages(queue[1..]);
      PositionsAgree(queue[1..], wanted);
    }
  }

  // ----- what every run keeps

  ghost predicate InOrder(s: seq<Stamped>) {
    forall i, j :: 0 <= i < j < |s| ==> s[i].stamp < s[j].stamp
  }

  /** Delivery followed by the queue is push order, each message at most once, none invented. */
  ghost predicate Faithful(s: State) {
    && InOrder(s.delivered + s.queue)
    && forall i :: 0 <= i < |s.delivered + s.queue| ==>
         var x := (s.delivered + s.queue)[i]; x.stamp < |s.pushed| && x.message == s.pushed[x.stamp]
  }

  ghost predicate Coalesced(queue: seq<Stamped>) {
    forall i, j :: 0 <= i < j < |queue| ==>
      StampedClass(queue[i]) != StampedClass(queue[j]) || StampedClass(queue[i]) == EventClass
  }

  predicate Holds(queue: seq<Stamped>, stamp: nat) {
    exists i :: 0 <= i < |queue| && queue[i].stamp == stamp
  }

  predicate IsEvent(pushed: seq<WorkerMessage>, k: nat) { k < |pushed| && ClassOf(pushed[k]) == EventClass }

  /** Once an event is queued every later event still is: the queued events are a suffix of those pushed. */
  ghost predicate EventsAreSuffix(s: State) {
    forall i: nat, j: nat :: i < j && IsEvent(s.pushed, i) && IsEvent(s.pushed, j) ==>
                               (Holds(s.queue, i) ==> Holds(s.queue, j))
  }

  ghost predicate IsNewestControl(pushed: seq<WorkerMessage>, k: nat) {
    && k < |pushed| && ClassOf(pushed[k]) != EventClass
    && forall j :: k < j < |pushed| ==> ClassOf(pushed[j]) != ClassOf(pushed[k])
  }

  /** The newest message of every control class but `spared` is queued or has been delivered. */
  ghost predicate NewestSurvives(s: State, spared: Class) {
    forall k: nat :: IsNewestControl(s.pushed, k) && ClassOf(s.pushed[k]) != spared ==>
                  Holds(s.queue, k) || Holds(s.delivered, k)
  }

  ghost predicate Safe(s: State, capacity: nat) {
    && |s.queue| <= capacity
    && Faithful(s) && Coalesced(s.queue) && EventsAreSuffix(s)
    && (capacity >= 4 ==> NewestSurvives(s, EventClass))
  }

  lemma HoldsAfterRemoval(queue: seq<Stamped>, at: nat, k: nat)
    requires at < |queue| && InOrder(queue)
    ensures Holds(RemoveAt(queue, at), k) <==> Holds(queue, k) && k != queue[at].stamp
  {
    var left := RemoveAt(queue, at);
    if Holds(left, k) {
      var i :| 0 <= i < |left| && left[i].stamp == k;
      assert queue[if i < at then i else i + 1].stamp == k;
    }
    if Holds(queue, k) && k != queue[at].stamp {
      var j :| 0 <= j < |queue| && queue[j].stamp == k;
      assert left[if j < at then j else j - 1].stamp == k;
    }
  }

  lemma RemovalHolds(queue: seq<Stamped>, at: nat)
    requires at < |queue| && InOrder(queue)
    ensures forall k: nat :: Holds(RemoveAt(queue, at), k) <==> Holds(queue, k) && k != queue[at].stamp
  {
    forall k: nat ensures Holds(RemoveAt(queue, at), k) <==> Holds(queue, k) && k != queue[at].stamp {
      HoldsAfterRemoval(queue, at, k);
    }
  }

  lemma RemovalFromTail<T>(front: seq<T>, back: seq<T>, at: nat)
    requires at < |back|
    ensures front + RemoveAt(back, at) == RemoveAt(front + back, |front| + at)
  {
  }

  lemma SuffixInOrder(front: seq<Stamped>, back: seq<Stamped>)
    requires InOrder(front + back)
    ensures InOrder(back)
  {
    assert forall i :: 0 <= i < |back| ==> back[i] == (front + back)[|front| + i];
  }

  lemma RemovalKeepsCoalesced(queue: seq<Stamped>, at: nat)
    requires at < |queue| && Coalesced(queue)
    ensures Coalesced(RemoveAt(queue, at))
  {
    var left := RemoveAt(queue, at);
    assert forall i :: 0 <= i < |left| ==> left[i] == queue[if i < at then i else i + 1];
  }

  /** Removing one element keeps order, coalescing and faithfulness. */
  lemma RemovalKeepsOrder(s: State, at: nat)
    requires at < |s.queue| && Faithful(s) && Coalesced(s.queue)
    ensures Faithful(s.(queue := RemoveAt(s.queue, at))) && Coalesced(RemoveAt(s.queue, at))
    ensures InOrder(s.queue)
  {
    RemovalKeepsCoalesced(s.queue, at);
    SuffixInOrder(s.delivered, s.queue);
    RemovalKeepsFaithful(s, at);
  }

  lemma RemovalKeepsFaithful(s: State, at: nat)
    requires at < |s.queue| && Faithful(s)
    ensures Faithful(s.(queue := RemoveAt(s.queue, at)))
  {
    RemovalFromTail(s.delivered, s.queue, at);
    var whole, left := s.delivered + s.queue, RemoveAt(s.delivered + s.queue, |s.delivered| + at);
    assert forall i :: 0 <= i < |left| ==> left[i] == whole[if i < |s.delivered| + at then i else i + 1];
  }

  lemma StampNamesMessage(s: State, at: nat)
    requires Faithful(s) && at < |s.queue|
    ensures s.queue[at].stamp < |s.pushed| && s.pushed[s.queue[at].stamp] == s.queue[at].message
  {
    assert (s.delivered + s.queue)[|s.delivered| + at] == s.queue[at];
  }

  /** A superseded message is no event, and the only newest message it can be is its own class's. */
  lemma DropControl(s: State, at: nat)
    requires at < |s.queue| && StampedClass(s.queue[at]) != EventClass
    requires Faithful(s) && Coalesced(s.queue) && EventsAreSuffix(s)
    ensures var t := s.(queue := RemoveAt(s.queue, at));
            && Faithful(t) && Coalesced(t.queue) && EventsAreSuffix(t)
            && (NewestSurvives(s, EventClass) ==> NewestSurvives(t, StampedClass(s.queue[at])))
            && forall j :: 0 <= j < |t.queue| ==> StampedClass(t.queue[j]) != StampedClass(s.queue[at])
  {
    RemovalKeepsOrder(s, at);
    RemovalHolds(s.queue, at);
    StampNamesMessage(s, at);
    var left := RemoveAt(s.queue, at);
    forall j | 0 <= j < |left| ensures StampedClass(left[j]) != StampedClass(s.queue[at]) {
      assert left[j] == s.queue[if j < at then j else j + 1];
    }
  }

  /** Evicting the oldest queued event leaves a shorter suffix and no control message less. */
  lemma DropOldestEvent(s: State, at: nat, spared: Class)
    requires at < |s.queue| && StampedClass(s.queue[at]) == EventClass
    requires forall j :: 0 <= j < at ==> StampedClass(s.queue[j]) != EventClass
    requires Faithful(s) && Coalesced(s.queue) && EventsAreSuffix(s)
    ensures var t := s.(queue := RemoveAt(s.queue, at));
            && Faithful(t) && Coalesced(t.queue) && EventsAreSuffix(t)
            && (NewestSurvives(s, spared) ==> NewestSurvives(t, spared))
  {
    RemovalKeepsOrder(s, at);
    RemovalHolds(s.queue, at);
    StampNamesMessage(s, at);
    var t := s.(queue := RemoveAt(s.queue, at));
    forall i: nat, j: nat | i < j && IsEvent(s.pushed, i) && IsEvent(s.pushed, j) && Holds(t.queue, i)
      ensures Holds(t.queue, j)
    {
      OldestEventIsFirst(s, at, i);
    }
  }

  lemma OldestEventIsFirst(s: State, at: nat, k: nat)
    requires at < |s.queue| && Faithful(s) && Holds(s.queue, k) && IsEvent(s.pushed, k)
    requires forall j :: 0 <= j < at ==> StampedClass(s.queue[j]) != EventClass
    ensures s.queue[at].stamp <= k
  {
    var i :| 0 <= i < |s.queue| && s.queue[i].stamp == k;
    StampNamesMessage(s, i);
    var whole := s.delivered + s.queue;
    assert whole[|s.delivered| + at] == s.queue[at] && whole[|s.delivered| + i] == s.queue[i];
  }

  lemma FourClasses(a: Class, b: Class, c: Class, d: Class)
    requires a != EventClass && b != EventClass && c != EventClass && d != EventClass
    ensures a == b || a == c || a == d || b == c || b == d || c == d
  {
  }

  /** With no event left to evict, only a mailbox of at most three can be full. */
  lemma ControlMessagesAreFew(queue: seq<Stamped>)
    requires Coalesced(queue)
    requires forall j :: 0 <= j < |queue| ==> StampedClass(queue[j]) != EventClass
    ensures |queue| <= 3
  {
    if |queue| > 3 {
      FourClasses(StampedClass(queue[0]), StampedClass(queue[1]), StampedClass(queue[2]), StampedClass(queue[3]));
    }
  }

  lemma HoldsAppend(queue: seq<Stamped>, added: Stamped)
    ensures forall k: nat :: Holds(queue + [added], k) <==> Holds(queue, k) || k == added.stamp
  {
    var longer := queue + [added];
    forall k: nat ensures Holds(longer, k) <==> Holds(queue, k) || k == added.stamp {
      if Holds(queue, k) {
        var i :| 0 <= i < |queue| && queue[i].stamp == k;
        assert longer[i].stamp == k;
      }
      assert longer[|queue|].stamp == added.stamp;
    }
  }

  function Added(s: State, message: WorkerMessage): State {
    s.(queue := s.queue + [Stamped(|s.pushed|, message)], pushed := s.pushed + [message])
  }

  lemma AppendKeepsSuffix(s: State, message: WorkerMessage)
    requires EventsAreSuffix(s)
    ensures EventsAreSuffix(Added(s, message))
  {
    var t := Added(s, message);
    HoldsAppend(s.queue, Stamped(|s.pushed|, message));
    forall i: nat, j: nat | i < j && IsEvent(t.pushed, i) && IsEvent(t.pushed, j) && Holds(t.queue, i)
      ensures Holds(t.queue, j)
    {
      assert IsEvent(s.pushed, i);
      assert j < |s.pushed| ==> IsEvent(s.pushed, j);
    }
  }

  lemma AppendKeepsNewest(s: State, message: WorkerMessage)
    requires NewestSurvives(s, ClassOf(message))
    ensures NewestSurvives(Added(s, message), EventClass)
  {
    var t := Added(s, message);
    HoldsAppend(s.queue, Stamped(|s.pushed|, message));
    forall k: nat | IsNewestControl(t.pushed, k) ensures Holds(t.queue, k) || Holds(t.delivered, k) {
      if k < |s.pushed| {
        assert t.pushed[|s.pushed|] == message && t.pushed[k] == s.pushed[k];
        assert forall j :: k < j < |s.pushed| ==> t.pushed[j] == s.pushed[j];
        assert IsNewestControl(s.pushed, k);
      }
    }
  }

  /** Appending a message whose class is not queued, or an event. */
  lemma AppendKeepsOrder(s: State, message: WorkerMessage)
    requires Faithful(s) && Coalesced(s.queue)
    requires forall j :: 0 <= j < |s.queue| ==>
               StampedClass(s.queue[j]) != ClassOf(message) || ClassOf(message) == EventClass
    ensures Faithful(Added(s, message)) && Coalesced(Added(s, message).queue)
  {
    var t := Added(s, message);
    assert t.delivered + t.queue == (s.delivered + s.queue) + [Stamped(|s.pushed|, message)];
  }

  /** The two steps of a push before the append, each with what it leaves true. */
  ghost predicate Half(s: State, spared: Class) {
    && Faithful(s) && Coalesced(s.queue) && EventsAreSuffix(s)
    && (spared == EventClass || forall j :: 0 <= j < |s.queue| ==> StampedClass(s.queue[j]) != spared)
  }

  lemma SupersedeKeeps(s: State, wanted: Class)
    requires Half(s, EventClass)
    ensures var t := s.(queue := Supersede(s.queue, StampedClass, wanted));
            && Half(t, wanted) && |t.queue| <= |s.queue|
            && (NewestSurvives(s, EventClass) ==> NewestSurvives(t, wanted))
  {
    var at := Position(s.queue, StampedClass, wanted);
    if wanted != EventClass && at.Some? {
      DropControl(s, at.value);
    }
  }

  lemma RemovalKeepsAbsence(queue: seq<Stamped>, at: nat, spared: Class)
    requires at < |queue| && forall j :: 0 <= j < |queue| ==> StampedClass(queue[j]) != spared
    ensures forall j :: 0 <= j < |queue| - 1 ==> StampedClass(RemoveAt(queue, at)[j]) != spared
  {
  }

  lemma EvictEvent(s: State, spared: Class, at: nat)
    requires Half(s, spared) && Position(s.queue, StampedClass, EventClass) == Some(at)
    ensures var t := s.(queue := RemoveAt(s.queue, at));
            Half(t, spared) && (NewestSurvives(s, spared) ==> NewestSurvives(t, spared))
  {
    DropOldestEvent(s, at, spared);
    if spared != EventClass {
      RemovalKeepsAbsence(s.queue, at, spared);
    }
  }

  lemma EvictOldest(s: State, spared: Class)
    requires s.queue != [] && Half(s, spared) && Position(s.queue, StampedClass, EventClass).None?
    ensures Half(s.(queue := s.queue[1..]), spared)
  {
    DropControl(s, 0);
    if spared != EventClass {
      RemovalKeepsAbsence(s.queue, 0, spared);
    }
    assert RemoveAt(s.queue, 0) == s.queue[1..];
  }

  lemma MakeRoomKeeps(s: State, spared: Class, capacity: nat)
    requires capacity > 0 && Half(s, spared) && |s.queue| <= capacity
    ensures var t := s.(queue := MakeRoom(s.queue, StampedClass, capacity));
            && Half(t, spared) && |t.queue| < capacity
            && (capacity >= 4 && NewestSurvives(s, spared) ==> NewestSurvives(t, spared))
  {
    var oldest := Position(s.queue, StampedClass, EventClass);
    if |s.queue| == capacity {
      if oldest.Some? {
        EvictEvent(s, spared, oldest.value);
      } else {
        ControlMessagesAreFew(s.queue);
        EvictOldest(s, spared);
      }
    }
  }

  lemma PushKeepsSafe(s: State, message: WorkerMessage, capacity: nat)
    requires capacity > 0 && Safe(s, capacity)
    ensures Safe(Do(s, Push(message), capacity), capacity)
  {
    var spared := ClassOf(message);
    SupersedeKeeps(s, spared);
    var s1 := s.(queue := Supersede(s.queue, StampedClass, spared));
    MakeRoomKeeps(s1, spared, capacity);
    var s2 := s1.(queue := MakeRoom(s1.queue, StampedClass, capacity));
    AppendKeepsOrder(s2, message);
    AppendKeepsSuffix(s2, message);
    if capacity >= 4 {
      AppendKeepsNewest(s2, message);
    }
    assert Do(s, Push(message), capacity) == Added(s2, message);
  }

  lemma DrainMoves(s: State, budget: nat, capacity: nat, k: nat)
    requires capacity > 0
    ensures var t := Do(s, Drain(budget), capacity);
            Holds(s.queue, k) || Holds(s.delivered, k) ==> Holds(t.queue, k) || Holds(t.delivered, k)
  {
    var t := Do(s, Drain(budget), capacity);
    var count := |s.queue| - |t.queue|;
    if Holds(s.queue, k) {
      var i :| 0 <= i < |s.queue| && s.queue[i].stamp == k;
      if i < count {
        assert t.delivered[|s.delivered| + i].stamp == k;
      } else {
        assert t.queue[i - count].stamp == k;
      }
    } else if Holds(s.delivered, k) {
      var i :| 0 <= i < |s.delivered| && s.delivered[i].stamp == k;
      assert t.delivered[i].stamp == k;
    }
  }

  lemma DrainKeepsSuffix(s: State, budget: nat, capacity: nat)
    requires capacity > 0 && Faithful(s) && EventsAreSuffix(s)
    ensures EventsAreSuffix(Do(s, Drain(budget), capacity))
  {
    var t := Do(s, Drain(budget), capacity);
    forall i: nat, j: nat | i < j && IsEvent(t.pushed, i) && IsEvent(t.pushed, j) && Holds(t.queue, i)
      ensures Holds(t.queue, j)
    {
      LaterStaysQueued(s, t, |s.queue| - |t.queue|, i, j);
    }
  }

  lemma DrainKeepsSafe(s: State, budget: nat, capacity: nat)
    requires capacity > 0 && Safe(s, capacity)
    ensures Safe(Do(s, Drain(budget), capacity), capacity)
  {
    var t := Do(s, Drain(budget), capacity);
    assert t.delivered + t.queue == s.delivered + s.queue;
    DrainKeepsSuffix(s, budget, capacity);
    if capacity >= 4 {
      forall k: nat | IsNewestControl(t.pushed, k) ensures Holds(t.queue, k) || Holds(t.delivered, k) {
        DrainMoves(s, budget, capacity, k);
      }
    }
  }

  lemma LaterStaysQueued(s: State, t: State, count: nat, i: nat, j: nat)
    requires count <= |s.queue| && t.queue == s.queue[count..]
    requires Faithful(s) && EventsAreSuffix(s) && i < j && IsEvent(s.pushed, i) && IsEvent(s.pushed, j)
    requires Holds(t.queue, i)
    ensures Holds(t.queue, j)
  {
    var p :| 0 <= p < |t.queue| && t.queue[p].stamp == i;
    assert s.queue[count + p].stamp == i;
    assert Holds(s.queue, j);
    var q :| 0 <= q < |s.queue| && s.queue[q].stamp == j;
    var whole := s.delivered + s.queue;
    assert whole[|s.delivered| + count + p] == s.queue[count + p] && whole[|s.delivered| + q] == s.queue[q];
    assert t.queue[q - count].stamp == j;
  }

  /** Over every interleaving of pushes and drains the mailbox stays safe. */
  lemma {:induction false} EveryInterleavingIsSafe(s: State, ops: seq<Op>, capacity: nat)
    requires capacity > 0 && Safe(s, capacity)
    ensures Safe(Run(s, ops, capacity), capacity)
    decreases |ops|
  {
    if ops != [] {
      match ops[0] {
        case Push(message) => PushKeepsSafe(s, message, capacity);
        case Drain(budget) => DrainKeepsSafe(s, budget, capacity);
      }
      EveryInterleavingIsSafe(Do(s, ops[0], capacity), ops[1..], capacity);
    }
  }

  /** Whether pushing `message` now would drop a control message for lack of events. */
  predicate DropsControl(queue: seq<Stamped>, message: WorkerMessage, capacity: nat) {
    var left := Supersede(queue, StampedClass, ClassOf(message));
    |left| == capacity && Position(left, StampedClass, EventClass).None?
  }

  /** From four slots on, the arm that drops the oldest message whatever it is cannot be reached. */
  lemma FourSlotsNeverDropControl(ops: seq<Op>, message: WorkerMessage, capacity: nat)
    requires capacity >= 4
    ensures !DropsControl(Run(EMPTY, ops, capacity).queue, message, capacity)
  {
    var s := Run(EMPTY, ops, capacity);
    EveryInterleavingIsSafe(EMPTY, ops, capacity);
    SupersedeKeeps(s, ClassOf(message));
    var left := Supersede(s.queue, StampedClass, ClassOf(message));
    if Position(left, StampedClass, EventClass).None? {
      ControlMessagesAreFew(left);
    }
  }

  lemma {:induction false} RunThen(s: State, ops: seq<Op>, last: Op, capacity: nat)
    requires capacity > 0
    ensures Run(s, ops + [last], capacity) == Do(Run(s, ops, capacity), last, capacity)
    decreases |ops|
  {
    if ops == [] {
      assert (ops + [last])[1..] == [];
    } else {
      assert (ops + [last])[1..] == ops[1..] + [last];
      RunThen(Do(s, ops[0], capacity), ops[1..], last, capacity);
    }
  }

  /** One message of each control class. */
  predicate OneOfEach(controls: seq<WorkerMessage>) {
    |controls| == 3 && controls[0].Snapshot? && controls[1].Search? && controls[2].StreamConnected?
  }

  function Pushes(controls: seq<WorkerMessage>, n: nat): seq<Op>
    requires n <= |controls|
  {
    if n == 0 then [] else Pushes(controls, n - 1) + [Push(controls[n - 1])]
  }

  function Filled(controls: seq<WorkerMessage>, n: nat): State
    requires n <= |controls|
  {
    State(seq(n, i requires 0 <= i < n => Stamped(i, controls[i])), [], controls[..n])
  }

  lemma FillOneMore(controls: seq<WorkerMessage>, n: nat, capacity: nat)
    requires OneOfEach(controls) && n < 3 && n < capacity
    ensures Do(Filled(controls, n), Push(controls[n]), capacity) == Filled(controls, n + 1)
  {
    var full := Filled(controls, n);
    assert Position(full.queue, StampedClass, ClassOf(controls[n])).None?;
    assert full.queue + [Stamped(n, controls[n])] == Filled(controls, n + 1).queue;
  }

  lemma {:induction false} FillUp(controls: seq<WorkerMessage>, n: nat, capacity: nat)
    requires OneOfEach(controls) && n <= 3 && n <= capacity && capacity > 0
    ensures Run(EMPTY, Pushes(controls, n), capacity) == Filled(controls, n)
  {
    if n > 0 {
      FillUp(controls, n - 1, capacity);
      RunThen(EMPTY, Pushes(controls, n - 1), Push(controls[n - 1]), capacity);
      FillOneMore(controls, n - 1, capacity);
    }
  }

  lemma FilledLosesFirst(capacity: nat, controls: seq<WorkerMessage>, event: Event)
    requires 1 <= capacity <= 3 && OneOfEach(controls)
    ensures DropsControl(Filled(controls, capacity).queue, StreamEvent(event), capacity)
    ensures !NewestSurvives(Do(Filled(controls, capacity), Push(StreamEvent(event)), capacity), EventClass)
  {
    var full := Filled(controls, capacity);
    assert forall i :: 0 <= i < capacity ==> full.queue[i] == Stamped(i, controls[i]) && full.pushed[i] == controls[i];
    FirstIsLost(full, controls[0], event, capacity);
  }

  /** With three slots or fewer a run can fill them with control messages and then lose one to an event. */
  lemma FewSlotsDropControl(capacity: nat, controls: seq<WorkerMessage>, event: Event)
    requires 1 <= capacity <= 3 && OneOfEach(controls)
    ensures var s := Run(EMPTY, Pushes(controls, capacity), capacity);
            && DropsControl(s.queue, StreamEvent(event), capacity)
            && !NewestSurvives(Do(s, Push(StreamEvent(event)), capacity), EventClass)
  {
    FillUp(controls, capacity, capacity);
    FilledLosesFirst(capacity, controls, event);
  }

  lemma FirstIsLost(full: State, first: WorkerMessage, event: Event, capacity: nat)
    requires capacity > 0 && |full.queue| == capacity == |full.pushed| && full.delivered == []
    requires first.Snapshot? && full.queue[0] == Stamped(0, first) && full.pushed[0] == first
    requires forall i :: 0 < i < capacity ==>
               full.queue[i].stamp == i && StampedClass(full.queue[i]) != EventClass
               && ClassOf(full.pushed[i]) != SnapshotClass
    ensures DropsControl(full.queue, StreamEvent(event), capacity)
    ensures !NewestSurvives(Do(full, Push(StreamEvent(event)), capacity), EventClass)
  {
    var after := Do(full, Push(StreamEvent(event)), capacity);
    assert after.queue == full.queue[1..] + [Stamped(capacity, StreamEvent(event))];
    assert IsNewestControl(after.pushed, 0);
    assert !Holds(after.queue, 0);
  }

  /** Once drained, the last message delivered of each control class is the newest one pushed. */
  lemma DrainedIsUpToDate(s: State, capacity: nat, newest: nat) returns (at: nat)
    requires capacity >= 4 && Safe(s, capacity) && s.queue == [] && IsNewestControl(s.pushed, newest)
    ensures at < |s.delivered| && s.delivered[at] == Stamped(newest, s.pushed[newest])
    ensures forall j :: at < j < |s.delivered| ==> StampedClass(s.delivered[j]) != ClassOf(s.pushed[newest])
  {
    assert s.delivered + s.queue == s.delivered;
    at :| 0 <= at < |s.delivered| && s.delivered[at].stamp == newest;
    forall j | at < j < |s.delivered| ensures StampedClass(s.delivered[j]) != ClassOf(s.pushed[newest]) {
      assert s.delivered[j].stamp > newest;
    }
  }

  // ----- one push, spelt out

  /** Two snapshots, two searches, or two words on the connection. */
  predicate AreOfOneKind(a: WorkerMessage, b: WorkerMessage) {
    || (a.Snapshot? && b.Snapshot?) || (a.Search? && b.Search?)
    || ((a.StreamConnected? || a.StreamDisconnected?) && (b.StreamConnected? || b.StreamDisconnected?))
  }

  /** The first of a queue that does something is `x`, between `front` and `back`. */
  ghost predicate IsFirst(queue: seq<WorkerMessage>, front: seq<WorkerMessage>, x: WorkerMessage,
                          back: seq<WorkerMessage>, does: WorkerMessage -> bool) {
    queue == front + [x] + back && does(x) && forall m :: m in front ==> !does(m)
  }

  lemma RemovedBetween(front: seq<WorkerMessage>, x: WorkerMessage, back: seq<WorkerMessage>, wanted: Class)
    requires ClassOf(x) == wanted && forall m :: m in front ==> ClassOf(m) != wanted
    ensures Position(front + [x] + back, ClassOf, wanted) == Some(|front|)
    ensures RemoveAt(front + [x] + back, |front|) == front + back
  {
    var queue := front + [x] + back;
    assert queue[|front|] == x;
    assert forall j :: 0 <= j < |front| ==> queue[j] == front[j] && front[j] in front;
  }

  lemma NotThere(queue: seq<WorkerMessage>, wanted: Class)
    requires forall m :: m in queue ==> ClassOf(m) != wanted
    ensures Position(queue, ClassOf, wanted) == None
  {
  }

  /** A message takes the place of the queued one of its kind, and goes to the end. */
  lemma PushReplaces(queue: seq<WorkerMessage>, message: WorkerMessage, capacity: nat, front: seq<WorkerMessage>,
                     was: WorkerMessage, back: seq<WorkerMessage>)
    requires 0 < capacity && |queue| <= capacity
    requires IsFirst(queue, front, was, back, (m: WorkerMessage) => AreOfOneKind(m, message))
    ensures PushInto(queue, ClassOf, capacity, message) == front + back + [message]
  {
    RemovedBetween(front, was, back, ClassOf(message));
  }

  /** Nothing of its kind is queued: the kind of an event is never looked for. */
  predicate ReplacesNone(queue: seq<WorkerMessage>, message: WorkerMessage) {
    message.StreamEvent? || forall m :: m in queue ==> !AreOfOneKind(m, message)
  }

  lemma NothingIsSuperseded(queue: seq<WorkerMessage>, message: WorkerMessage)
    requires ReplacesNone(queue, message)
    ensures Supersede(queue, ClassOf, ClassOf(message)) == queue
  {
    if !message.StreamEvent? {
      NotThere(queue, ClassOf(message));
    }
  }

  /** With room left, a message that replaces none is appended. */
  lemma PushAppends(queue: seq<WorkerMessage>, message: WorkerMessage, capacity: nat)
    requires 0 < capacity && |queue| < capacity && ReplacesNone(queue, message)
    ensures PushInto(queue, ClassOf, capacity, message) == queue + [message]
  {
    NothingIsSuperseded(queue, message);
  }

  /** In a full queue the oldest event gives way ... */
  lemma PushEvictsEvent(queue: seq<WorkerMessage>, message: WorkerMessage, capacity: nat, front: seq<WorkerMessage>,
                        event: WorkerMessage, back: seq<WorkerMessage>)
    requires 0 < capacity == |queue| && ReplacesNone(queue, message)
    requires IsFirst(queue, front, event, back, (m: WorkerMessage) => m.StreamEvent?)
    ensures PushInto(queue, ClassOf, capacity, message) == front + back + [message]
  {
    NothingIsSuperseded(queue, message);
    RemovedBetween(front, event, back, EventClass);
  }

  /** ... and without one, the oldest message. */
  lemma PushEvictsOldest(queue: seq<WorkerMessage>, message: WorkerMessage, capacity: nat)
    requires 0 < capacity == |queue| && ReplacesNone(queue, message)
    requires forall m :: m in queue ==> !m.StreamEvent?
    ensures PushInto(queue, ClassOf, capacity, message) == queue[1..] + [message]
  {
    NothingIsSuperseded(queue, message);
    NotThere(queue, EventClass);
  }
}

/** The explicit-stack walk over a file's elements, against the recursive pre-order. */
module Walk {
  import opened Text

  datatype Element = Element(address: string, children: seq<Element>)

  // ----- the reference: an element, then its children's walks in source order

  function Flatten(e: Element): seq<Element>
    decreases e, 1
  {
    [e] + FlattenAll(e.children)
  }

  function FlattenAll(es: seq<Element>): seq<Element>
    decreases es, 0
  {
    if es == [] then [] else Flatten(es[0]) + FlattenAll(es[1..])
  }

  function Rev(es: seq<Element>): seq<Element> {
    if es == [] then [] else Rev(es[1..]) + [es[0]]
  }

  /** What a stack, its last element on top, still has to yield. */
  function Pending(stack: seq<Element>): seq<Element>
    decreases |stack|
  {
    if stack == [] then [] else Flatten(stack[|stack| - 1]) + Pending(stack[..|stack| - 1])
  }

  lemma PendingPush(stack: seq<Element>, top: Element)
    ensures Pending(stack + [top]) == Flatten(top) + Pending(stack)
  {
    assert (stack + [top])[..|stack|] == stack;
  }

  /** Pushing children in reverse makes them next, in order, before everything below. */
  lemma {:induction false} PushReversed(below: seq<Element>, children: seq<Element>)
    ensures Pending(below + Rev(children)) == FlattenAll(children) + Pending(below)
    decreases |children|
  {
    if children == [] {
      assert below + Rev(children) == below;
    } else {
      var stack := below + Rev(children[1..]);
      PendingPush(stack, children[0]);
      ConcatAssociates(below, Rev(children[1..]), [children[0]]);
      PushReversed(below, children[1..]);
      ConcatAssociates(Flatten(children[0]), FlattenAll(children[1..]), Pending(below));
    }
  }

  class PreOrder {
    var stack: seq<Element>

    constructor (root: Element)
      ensures stack == [root] && Pending(stack) == Flatten(root)
    {
      stack := [root];
      new;
      assert stack[..0] == [];
    }

    method Next() returns (item: Option<Element>)
      modifies this
      ensures var pending := old(Pending(stack));
              if pending == [] then item == None && stack == old(stack)
              else item == Some(pending[0]) && Pending(stack) == pending[1..]
    {
      if stack == [] {
        return None;
      }
      var element := stack[|stack| - 1];
      assert stack == stack[..|stack| - 1] + [element];
      PendingPush(stack[..|stack| - 1], element);
      stack := stack[..|stack| - 1];
      PushReversed(stack, element.children);
      stack := stack + Rev(element.children);
      item := Some(element);
    }
  }

  /** Driving the iterator to its end terminates and yields exactly the recursive pre-order. */
  method Collect(root: Element) returns (items: seq<Element>)
    ensures items == Flatten(root)
  {
    var walk := new PreOrder(root);
    items := [];
    var item := walk.Next();
    while item.Some?
      invariant item.Some? ==> Flatten(root) == items + [item.value] + Pending(walk.stack)
      invariant item.None? ==> Flatten(root) == items
      decreases |Flatten(root)| - |items|
    {
      ghost var left := Pending(walk.stack);
      items := items + [item.value];
      item := walk.Next();
      assert item.Some? ==> left == [item.value] + Pending(walk.stack);
    }
  }

  ghost predicate IsFirstAt(walk: seq<Element>, address: string, i: nat) {
    && i < |walk| && walk[i].address == address
    && forall j :: 0 <= j < i ==> walk[j].address != address
  }

  /** Of the elements at an address the one the walk meets first; none where the tree has none. */
  method FindElement(root: Element, address: string) returns (found: Option<Element>)
    ensures found.Some? ==> exists i: nat :: IsFirstAt(Flatten(root), address, i) && Flatten(root)[i] == found.value
    ensures found.None? ==> forall e :: e in Flatten(root) ==> e.address != address
  {
    var walk := new PreOrder(root);
    ghost var seen: seq<Element> := [];
    var item := walk.Next();
    while item.Some? && item.value.address != address
      invariant item.Some? ==> Flatten(root) == seen + [item.value] + Pending(walk.stack)
      invariant item.None? ==> Flatten(root) == seen
      invariant forall e :: e in seen ==> e.address != address
      decreases |Flatten(root)| - |seen|
    {
      seen := seen + [item.value];
      item := walk.Next();
    }
    if item.Some? {
      assert IsFirstAt(Flatten(root), address, |seen|);
    }
    found := item;
  }

  // ----- each node of the tree once, ancestors first, siblings in order

  type Path = seq<nat>

  /** The element a path of child positions leads to. */
  function At(e: Element, path: Path): Option<Element>
    decreases |path|
  {
    if path == [] then Some(e)
    else if path[0] < |e.children| then At(e.children[path[0]], path[1..])
    else None
  }

  function Under(i: nat, paths: seq<Path>): seq<Path> {
    seq(|paths|, k requires 0 <= k < |paths| => [i] + paths[k])
  }

  function Paths(e: Element): seq<Path>
    decreases e, 1
  {
    [[]] + PathsFrom(e.children, 0)
  }

  /** The paths through some consecutive children, the first of which is child `i`. */
  function PathsFrom(es: seq<Element>, i: nat): seq<Path>
    decreases es, 0
  {
    if es == [] then [] else Under(i, Paths(es[0])) + PathsFrom(es[1..], i + 1)
  }

  lemma {:induction false} PathsLeadThere(e: Element)
    ensures |Paths(e)| == |Flatten(e)|
    ensures forall k :: 0 <= k < |Paths(e)| ==> At(e, Paths(e)[k]) == Some(Flatten(e)[k])
    decreases e, 1
  {
    PathsFromLeadThere(e, e.children, 0);
  }

  lemma {:induction false} PathsFromLeadThere(e: Element, es: seq<Element>, i: nat)
    requires i <= |e.children| && es == e.children[i..]
    ensures |PathsFrom(es, i)| == |FlattenAll(es)|
    ensures forall k :: 0 <= k < |PathsFrom(es, i)| ==> At(e, PathsFrom(es, i)[k]) == Some(FlattenAll(es)[k])
    decreases es, 0
  {
    if es != [] {
      var first := es[0];
      PathsLeadThere(first);
      PathsFromLeadThere(e, es[1..], i + 1);
      forall k | 0 <= k < |Paths(first)| ensures At(e, ([i] + Paths(first)[k])) == Some(Flatten(first)[k]) {
        assert ([i] + Paths(first)[k])[1..] == Paths(first)[k];
      }
    }
  }

  /** Pre-order on paths: a prefix first, then by the first differing child. */
  predicate PathLess(a: Path, b: Path) {
    b != [] && (a == [] || a[0] < b[0] || (a[0] == b[0] && PathLess(a[1..], b[1..])))
  }

  ghost predicate Ordered(paths: seq<Path>) {
    forall j, k :: 0 <= j < k < |paths| ==> PathLess(paths[j], paths[k])
  }

  lemma {:induction false} PathsAreOrdered(e: Element)
    ensures Ordered(Paths(e))
    decreases e, 1
  {
    PathsFromAreOrdered(e.children, 0);
  }

  lemma {:induction false} PathsFromAreOrdered(es: seq<Element>, i: nat)
    ensures Ordered(PathsFrom(es, i))
    ensures forall k :: 0 <= k < |PathsFrom(es, i)| ==> PathsFrom(es, i)[k] != [] && PathsFrom(es, i)[k][0] >= i
    decreases es, 0
  {
    if es != [] {
      var first := Paths(es[0]);
      PathsAreOrdered(es[0]);
      PathsFromAreOrdered(es[1..], i + 1);
      forall j, k | 0 <= j < k < |first| ensures PathLess(Under(i, first)[j], Under(i, first)[k]) {
        assert ([i] + first[j])[1..] == first[j] && ([i] + first[k])[1..] == first[k];
      }
    }
  }

  lemma {:induction false} EveryPathIsListed(e: Element, path: Path)
    requires At(e, path).Some?
    ensures path in Paths(e)
    decreases |path|, 1, 0
  {
    if path == [] {
      assert Paths(e)[0] == [];
    } else {
      EveryPathIsListed(e.children[path[0]], path[1..]);
      ListedUnderChild(e, path[0], path[1..], e.children, 0);
      assert path == [path[0]] + path[1..];
    }
  }

  lemma {:induction false} ListedUnderChild(e: Element, child: nat, rest: Path, es: seq<Element>, i: nat)
    requires i <= child < |e.children| && es == e.children[i..] && rest in Paths(e.children[child])
    ensures [child] + rest in PathsFrom(es, i)
    decreases |es|
  {
    if i == child {
      var k :| 0 <= k < |Paths(es[0])| && Paths(es[0])[k] == rest;
      assert Under(i, Paths(es[0]))[k] == [child] + rest;
    } else {
      ListedUnderChild(e, child, rest, es[1..], i + 1);
    }
  }

  lemma PathLessIsStrict(path: Path)
    ensures !PathLess(path, path)
  {
    if path != [] {
      PathLessIsStrict(path[1..]);
    }
  }

  /**
   The walk visits every position of the tree exactly once: its `k`th element sits at the
   `k`th path, the paths are strictly increasing, and no path of the tree is missing.
   */
  lemma EachNodeOnce(root: Element)
    ensures |Paths(root)| == |Flatten(root)| && Ordered(Paths(root))
    ensures forall k :: 0 <= k < |Paths(root)| ==> At(root, Paths(root)[k]) == Some(Flatten(root)[k])
    ensures forall path :: At(root, path).Some? <==> path in Paths(root)
    ensures forall j, k :: 0 <= j < k < |Paths(root)| ==> Paths(root)[j] != Paths(root)[k]
  {
    PathsLeadThere(root);
    PathsAreOrdered(root);
    forall path ensures At(root, path).Some? <==> path in Paths(root) {
      if At(root, path).Some? {
        EveryPathIsListed(root, path);
      }
    }
    forall j, k | 0 <= j < k < |Paths(root)| ensures Paths(root)[j] != Paths(root)[k] {
      PathLessIsStrict(Paths(root)[j]);
    }
  }
}

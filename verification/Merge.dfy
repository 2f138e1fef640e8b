/**
 Configuration layering: deep merge of TOML tables, with the one exception that a table
 switching its `kind` tag replaces its counterpart whole.
 */
module Merge {
  import opened Text

  datatype Value =
    | Str(text: string)
    | Integer(value: int)
    | Boolean(flag: bool)
    | Float(literal: string)
    | Datetime(instant: string)
    | Array(items: seq<Value>)
    | Table(entries: map<string, Value>)

  type Entries = map<string, Value>

  /** Whether both tables carry a `kind` text and the two differ. */
  predicate SwitchesKind(existing: Entries, incoming: Entries) {
    && "kind" in existing && existing["kind"].Str?
    && "kind" in incoming && incoming["kind"].Str?
    && existing["kind"] != incoming["kind"]
  }

  /** Whether two values merge key by key; otherwise the incoming one replaces the other. */
  predicate Blends(existing: Value, incoming: Value) {
    existing.Table? && incoming.Table? && !SwitchesKind(existing.entries, incoming.entries)
  }

  function Combine(existing: Value, incoming: Value): Value
    decreases incoming, 1
  {
    if Blends(existing, incoming) then Table(Merged(existing.entries, incoming)) else incoming
  }

  /** The entries `overlay`, a table, leaves of `base`. */
  function Merged(base: Entries, overlay: Value): (merged: Entries)
    requires overlay.Table?
    ensures merged.Keys == base.Keys + overlay.entries.Keys
    decreases overlay, 0
  {
    map k | k in base.Keys + overlay.entries.Keys ::
      if k !in overlay.entries then base[k]
      else if k !in base then overlay.entries[k]
      else Combine(base[k], overlay.entries[k])
  }

  /** The program's merge: one overlay entry at a time, in whatever order the table yields them. */
  method MergeTables(base: Entries, overlay: Value) returns (merged: Entries)
    requires overlay.Table?
    ensures merged == Merged(base, overlay)
    decreases overlay
  {
    merged := base;
    var left := overlay.entries.Keys;
    while left != {}
      invariant left <= overlay.entries.Keys
      invariant merged.Keys == base.Keys + (overlay.entries.Keys - left)
      invariant forall k :: k in merged ==> merged[k] == if k in left then base[k] else Merged(base, overlay)[k]
      decreases left
    {
      var key :| key in left;
      var value := overlay.entries[key];
      if key in merged && Blends(merged[key], value) {
        var inner := MergeTables(merged[key].entries, value);
        merged := merged[key := Table(inner)];
      } else {
        merged := merged[key := value];
      }
      left := left - {key};
    }
  }

  // ----- what a merge means, path by path

  function Lookup(v: Value, path: seq<string>): Option<Value> {
    if path == [] then Some(v)
    else if v.Table? && path[0] in v.entries then Lookup(v.entries[path[0]], path[1..])
    else None
  }

  /** Which layer decides a path: the base until the overlay names it, the overlay once it replaces. */
  datatype Origin = FromBase | FromOverlay | FromBoth

  function OriginOf(existing: Value, incoming: Value, path: seq<string>): Origin
    decreases |path|
  {
    if !Blends(existing, incoming) then FromOverlay
    else if path == [] then FromBoth
    else if path[0] !in incoming.entries then FromBase
    else if path[0] !in existing.entries then FromOverlay
    else OriginOf(existing.entries[path[0]], incoming.entries[path[0]], path[1..])
  }

  /** Every path of a merge reads as its deciding layer does; where both are tables they merge again. */
  lemma {:induction false} MergeByPath(existing: Value, incoming: Value, path: seq<string>)
    ensures var merged := Lookup(Combine(existing, incoming), path);
            var (b, o) := (Lookup(existing, path), Lookup(incoming, path));
            match OriginOf(existing, incoming, path)
            case FromBase => merged == b && o == None
            case FromOverlay => merged == o
            case FromBoth => b.Some? && o.Some? && Blends(b.value, o.value) && merged == Some(Combine(b.value, o.value))
    decreases |path|
  {
    if Blends(existing, incoming) && path != [] {
      if path[0] in incoming.entries && path[0] in existing.entries {
        MergeByPath(existing.entries[path[0]], incoming.entries[path[0]], path[1..]);
      }
    }
  }

  predicate IsLeaf(v: Option<Value>) { v.Some? && !v.value.Table? }

  /** The overlay's scalars and arrays always win, and no leaf of a merge is invented. */
  lemma OverlayLeavesWin(existing: Value, incoming: Value, path: seq<string>)
    ensures var merged := Lookup(Combine(existing, incoming), path);
            var (b, o) := (Lookup(existing, path), Lookup(incoming, path));
            && (IsLeaf(o) ==> merged == o)
            && (IsLeaf(merged) ==> merged == o || (merged == b && o == None))
  {
    MergeByPath(existing, incoming, path);
  }

  /** The base keeps every path on which the overlay is silent, unless it was replaced above. */
  lemma {:induction false} SilenceKeepsBase(existing: Value, incoming: Value, path: seq<string>)
    requires Lookup(incoming, path) == None
    ensures Lookup(Combine(existing, incoming), path)
         == if OriginOf(existing, incoming, path) == FromBase then Lookup(existing, path) else None
  {
    MergeByPath(existing, incoming, path);
  }

  /** A table whose tag the overlay switches is the overlay's table, with no key of the old arm left. */
  lemma SwitchedTablesAreWhole(base: Entries, overlay: Value, path: seq<string>)
    requires overlay.Table? && path != []
    requires var (b, o) := (Lookup(Table(base), path), Lookup(overlay, path));
             b.Some? && o.Some? && b.value.Table? && o.value.Table? && SwitchesKind(b.value.entries, o.value.entries)
    ensures Lookup(Table(Merged(base, overlay)), path) == Lookup(overlay, path)
  {
    var key := path[0];
    MergeByPath(base[key], overlay.entries[key], path[1..]);
  }

  // ----- the same without the merge's own rules

  /** Both tables carry a `kind` text, and the two differ. */
  predicate TagsDiffer(a: Value, b: Value) {
    var (x, y) := (Lookup(a, ["kind"]), Lookup(b, ["kind"]));
    x.Some? && y.Some? && x.value.Str? && y.value.Str? && x.value != y.value
  }

  /** Both layers have something after `n` steps, and it is not two tables of one kind. */
  predicate IsReplacedAt(existing: Value, incoming: Value, path: seq<string>, n: nat)
    requires n <= |path|
  {
    var (b, o) := (Lookup(existing, path[..n]), Lookup(incoming, path[..n]));
    b.Some? && o.Some? && !(b.value.Table? && o.value.Table? && !TagsDiffer(b.value, o.value))
  }

  predicate IsReplaced(existing: Value, incoming: Value, path: seq<string>) {
    exists n :: 0 <= n <= |path| && IsReplacedAt(existing, incoming, path, n)
  }

  lemma LookupOne(v: Value, key: string)
    ensures Lookup(v, [key]) == if v.Table? && key in v.entries then Some(v.entries[key]) else None
  {
    assert [key][1..] == [];
  }

  lemma TagIsKind(a: Value, b: Value)
    requires a.Table? && b.Table?
    ensures TagsDiffer(a, b) <==> SwitchesKind(a.entries, b.entries)
  {
    LookupOne(a, "kind");
    LookupOne(b, "kind");
  }

  lemma ReplacedHere(existing: Value, incoming: Value, path: seq<string>)
    ensures IsReplacedAt(existing, incoming, path, 0) <==> !Blends(existing, incoming)
  {
    if existing.Table? && incoming.Table? {
      TagIsKind(existing, incoming);
    }
  }

  lemma ReplacedInside(existing: Value, incoming: Value, path: seq<string>, n: nat)
    requires existing.Table? && incoming.Table? && 0 < n <= |path|
    ensures IsReplacedAt(existing, incoming, path, n)
            <==> path[0] in existing.entries && path[0] in incoming.entries
                 && IsReplacedAt(existing.entries[path[0]], incoming.entries[path[0]], path[1..], n - 1)
  {
    assert path[..n][0] == path[0] && path[..n][1..] == path[1..][..n - 1];
  }

  lemma ReplacedBelow(existing: Value, incoming: Value, path: seq<string>)
    requires Blends(existing, incoming) && path != []
    ensures IsReplaced(existing, incoming, path)
            <==> path[0] in existing.entries && path[0] in incoming.entries
                 && IsReplaced(existing.entries[path[0]], incoming.entries[path[0]], path[1..])
  {
    ReplacedHere(existing, incoming, path);
    if IsReplaced(existing, incoming, path) {
      var n :| 0 <= n <= |path| && IsReplacedAt(existing, incoming, path, n);
      ReplacedInside(existing, incoming, path, n);
    }
    if path[0] in existing.entries && path[0] in incoming.entries {
      var (b, o) := (existing.entries[path[0]], incoming.entries[path[0]]);
      if IsReplaced(b, o, path[1..]) {
        var n :| 0 <= n <= |path[1..]| && IsReplacedAt(b, o, path[1..], n);
        ReplacedInside(existing, incoming, path, n + 1);
      }
    }
  }

  /**
   How every path reads after a merge: as the overlay, where it replaced something on the way;
   as the base, where the overlay is silent; as the overlay, where the base is; and elsewhere
   it is the two tables, with the keys of both.
   */
  lemma {:induction false} MergeReads(existing: Value, incoming: Value, path: seq<string>)
    ensures var merged := Lookup(Combine(existing, incoming), path);
            var (b, o) := (Lookup(existing, path), Lookup(incoming, path));
            if IsReplaced(existing, incoming, path) then merged == o
            else if o == None then merged == b
            else if b == None then merged == o
            else b.value.Table? && o.value.Table? && merged.Some? && merged.value.Table?
                 && merged.value.entries.Keys == b.value.entries.Keys + o.value.entries.Keys
    decreases |path|
  {
    ReplacedHere(existing, incoming, path);
    if Blends(existing, incoming) && path != [] {
      ReplacedBelow(existing, incoming, path);
      if path[0] in incoming.entries && path[0] in existing.entries {
        MergeReads(existing.entries[path[0]], incoming.entries[path[0]], path[1..]);
      }
    }
  }

  // ----- merging twice

  lemma {:induction false} MergeWithSelf(v: Value)
    ensures Combine(v, v) == v
    decreases v
  {
    if v.Table? {
      forall k | k in v.entries ensures Combine(v.entries[k], v.entries[k]) == v.entries[k] {
        MergeWithSelf(v.entries[k]);
      }
      assert Merged(v.entries, v) == v.entries;
    }
  }

  lemma {:induction false} CombineTwice(existing: Value, incoming: Value)
    ensures Combine(Combine(existing, incoming), incoming) == Combine(existing, incoming)
    decreases incoming, 1
  {
    if Blends(existing, incoming) {
      MergeTwice(existing.entries, incoming);
      var once := Merged(existing.entries, incoming);
      assert "kind" in incoming.entries && incoming.entries["kind"].Str? ==> once["kind"] == incoming.entries["kind"];
    } else {
      MergeWithSelf(incoming);
    }
  }

  /** Merging the same overlay twice is merging it once. */
  lemma {:induction false} MergeTwice(base: Entries, overlay: Value)
    requires overlay.Table?
    ensures Merged(Merged(base, overlay), overlay) == Merged(base, overlay)
    decreases overlay, 0
  {
    var once := Merged(base, overlay);
    var twice := Merged(once, overlay);
    forall k | k in once ensures twice[k] == once[k] {
      if k in overlay.entries {
        if k in base {
          CombineTwice(base[k], overlay.entries[k]);
        } else {
          MergeWithSelf(overlay.entries[k]);
        }
      }
    }
    assert twice.Keys == once.Keys;
  }
}

/**
 The names of environment overrides: which path each name means, which paths a name can spell,
 and exactly which overrides are accepted.
 */
module EnvNames {
  import opened Text
  import opened Merge
  import opened Overrides

  // ----- what a name means

  /** Two underscores side by side at `j`. */
  predicate BreaksAt(s: string, j: int) { 0 <= j && j + 1 < |s| && s[j] == '_' && s[j + 1] == '_' }

  predicate IsUnbroken(s: string) { forall j :: 0 <= j < |s| - 1 ==> !BreaksAt(s, j) }

  predicate EndsInUnderscore(s: string) { s != [] && s[|s| - 1] == '_' }

  /** The pieces a text falls into at `__`, met from the left. */
  predicate ArePieces(parts: seq<string>) {
    && (forall i :: 0 <= i < |parts| ==> IsUnbroken(parts[i]))
    && (forall i :: 0 <= i < |parts| - 1 ==> !EndsInUnderscore(parts[i]))
  }

  predicate IsLowered(small: string, s: string) {
    && |small| == |s|
    && forall j :: 0 <= j < |s| ==>
         if 'A' <= s[j] <= 'Z' then small[j] as int == s[j] as int + 32 else small[j] == s[j]
  }

  predicate AreLowered(path: seq<string>, parts: seq<string>) {
    |path| == |parts| && forall i :: 0 <= i < |parts| ==> IsLowered(path[i], parts[i])
  }

  /** `path` is the parts that are not empty, in order and in lower case. */
  ghost predicate IsPathOf(path: seq<string>, parts: seq<string>) {
    exists at: seq<nat> :: IsPathAt(at, path, parts)
  }

  ghost predicate IsPathAt(at: seq<nat>, path: seq<string>, parts: seq<string>) {
    && |at| == |path| && (forall j, k :: 0 <= j < k < |at| ==> at[j] < at[k])
    && (forall i :: 0 <= i < |parts| ==> (i in at <==> parts[i] != []))
    && (forall k :: 0 <= k < |at| ==> at[k] < |parts| && IsLowered(path[k], parts[at[k]]))
  }

  function Prefixes(n: nat): string { if n == 0 then "" else "FS3_" + Prefixes(n - 1) }

  lemma LoweredIsLower(s: string)
    ensures IsLowered(LowerAll(s), s)
  {
  }

  lemma LoweredIsUnique(a: string, b: string, s: string)
    requires IsLowered(a, s) && IsLowered(b, s)
    ensures a == b
  {
  }

  lemma SegmentsAppend(parts: seq<string>, last: string)
    ensures Segments(parts + [last]) == Segments(parts) + if last == [] then [] else [LowerAll(last)]
  {
    if parts == [] {
      assert [last][1..] == [];
    } else {
      assert (parts + [last])[1..] == parts[1..] + [last];
    }
  }

  lemma PathAppend(at: seq<nat>, path: seq<string>, parts: seq<string>, last: string) returns (more: seq<nat>)
    requires IsPathAt(at, path, parts)
    ensures IsPathAt(more, path + if last == [] then [] else [LowerAll(last)], parts + [last])
  {
    more := at + if last == [] then [] else [|parts|];
    LoweredIsLower(last);
  }

  lemma {:induction false} SegmentsArePath(parts: seq<string>) returns (at: seq<nat>)
    ensures IsPathAt(at, Segments(parts), parts)
  {
    if parts == [] {
      at := [];
    } else {
      var front, last := parts[..|parts| - 1], parts[|parts| - 1];
      at := SegmentsArePath(front);
      assert front + [last] == parts;
      SegmentsAppend(front, last);
      at := PathAppend(at, Segments(front), front, last);
    }
  }

  lemma FindBreak(part: string, rest: string)
    requires IsUnbroken(part) && !EndsInUnderscore(part)
    ensures Find(part + "__" + rest, "__") == Some(|part|)
  {
    var s := part + "__" + rest;
    assert s[|part|..][..2] == "__";
    forall j | 0 <= j < |part| ensures !("__" <= s[j..]) {
      assert s[j..][..2] == [s[j], s[j + 1]];
      assert s[j] == part[j] && (j + 1 < |part| ==> s[j + 1] == part[j + 1] && !BreaksAt(part, j));
    }
  }

  lemma BreakIsFound(s: string, j: int)
    requires BreaksAt(s, j)
    ensures "__" <= s[j..]
  {
    assert s[j..][..2] == [s[j], s[j + 1]];
  }

  lemma FoundIsBreak(s: string, j: nat)
    requires j <= |s| && "__" <= s[j..]
    ensures BreaksAt(s, j)
  {
    assert s[j..][..2] == "__" && s[j] == s[j..][0] && s[j + 1] == s[j..][1];
  }

  lemma FindNoBreak(s: string)
    ensures Find(s, "__") == None <==> IsUnbroken(s)
  {
    forall j | 0 <= j <= |s| ensures "__" <= s[j..] <==> BreaksAt(s, j) {
      if "__" <= s[j..] {
        FoundIsBreak(s, j);
      }
      if BreaksAt(s, j) {
        BreakIsFound(s, j);
      }
    }
    var at := Find(s, "__");
    if at.Some? {
      assert BreaksAt(s, at.value);
    }
  }

  lemma SplitAtBreak(part: string, rest: string)
    requires IsUnbroken(part) && !EndsInUnderscore(part)
    ensures Split(part + "__" + rest, "__") == [part] + Split(rest, "__")
  {
    var s := part + "__" + rest;
    FindBreak(part, rest);
    assert s[..|part|] == part && s[|part| + 2..] == rest;
  }

  lemma LaterPieces(parts: seq<string>)
    requires parts != [] && ArePieces(parts)
    ensures ArePieces(parts[1..])
  {
  }

  /** Pieces joined fall into the same pieces. */
  lemma {:induction false} PiecesComeBack(parts: seq<string>)
    requires parts != [] && ArePieces(parts)
    ensures Split(Join(parts, "__"), "__") == parts
  {
    if |parts| == 1 {
      FindNoBreak(parts[0]);
    } else {
      LaterPieces(parts);
      PiecesComeBack(parts[1..]);
      SplitAtBreak(parts[0], Join(parts[1..], "__"));
      assert parts == [parts[0]] + parts[1..];
    }
  }

  lemma UpToTheBreak(s: string, at: nat)
    requires Find(s, "__") == Some(at)
    ensures IsUnbroken(s[..at]) && !EndsInUnderscore(s[..at])
  {
    FoundIsBreak(s, at);
    forall j | 0 <= j < at ensures !BreaksAt(s, j) {
      if BreaksAt(s, j) {
        BreakIsFound(s, j);
      }
    }
    assert EndsInUnderscore(s[..at]) ==> BreaksAt(s, at - 1);
    assert forall j :: 0 <= j < at - 1 && BreaksAt(s[..at], j) ==> BreaksAt(s, j);
  }

  lemma PieceInFront(first: string, rest: seq<string>)
    requires IsUnbroken(first) && !EndsInUnderscore(first) && ArePieces(rest)
    ensures ArePieces([first] + rest)
  {
    var all := [first] + rest;
    forall i | 0 <= i < |all| ensures IsUnbroken(all[i]) && (i < |all| - 1 ==> !EndsInUnderscore(all[i])) {
      assert i > 0 ==> all[i] == rest[i - 1];
    }
  }

  lemma {:induction false} SplitGivesPieces(s: string)
    ensures ArePieces(Split(s, "__"))
    decreases |s|
  {
    var at := Find(s, "__");
    if at.None? {
      FindNoBreak(s);
    } else {
      UpToTheBreak(s, at.value);
      SplitGivesPieces(s[at.value + 2..]);
      PieceInFront(s[..at.value], Split(s[at.value + 2..], "__"));
    }
  }

  lemma {:induction false} PrefixesAreTrimmed(n: nat, body: string)
    requires !("FS3_" <= body)
    ensures TrimPrefixes(Prefixes(n) + body, "FS3_") == body
  {
    if n == 0 {
      assert Prefixes(0) + body == body;
    } else {
      ConcatAssociates("FS3_", Prefixes(n - 1), body);
      var name := Prefixes(n) + body;
      assert name == "FS3_" + (Prefixes(n - 1) + body);
      assert name[4..] == Prefixes(n - 1) + body && "FS3_" <= name;
      PrefixesAreTrimmed(n - 1, body);
    }
  }

  lemma {:induction false} TrimmedOfPrefixes(name: string) returns (n: nat)
    ensures name == Prefixes(n) + TrimPrefixes(name, "FS3_") && !("FS3_" <= TrimPrefixes(name, "FS3_"))
    decreases |name|
  {
    if "FS3_" <= name {
      var rest := TrimmedOfPrefixes(name[4..]);
      n := rest + 1;
      assert name == "FS3_" + name[4..];
      ConcatAssociates("FS3_", Prefixes(rest), TrimPrefixes(name, "FS3_"));
    } else {
      n := 0;
    }
  }

  /** What any name means: its pieces behind every prefix, without the empty ones, in lower case. */
  lemma NameMeans(n: nat, parts: seq<string>)
    requires parts != [] && ArePieces(parts) && !("FS3_" <= Join(parts, "__"))
    ensures IsPathOf(PathOf(Prefixes(n) + Join(parts, "__")), parts)
  {
    PrefixesAreTrimmed(n, Join(parts, "__"));
    PiecesComeBack(parts);
    var at := SegmentsArePath(parts);
  }

  /** Every name is of that form. */
  lemma EveryNameIsCovered(name: string) returns (n: nat, parts: seq<string>)
    ensures parts != [] && ArePieces(parts) && !("FS3_" <= Join(parts, "__"))
    ensures name == Prefixes(n) + Join(parts, "__")
  {
    n := TrimmedOfPrefixes(name);
    parts := Split(TrimPrefixes(name, "FS3_"), "__");
    SplitGivesPieces(TrimPrefixes(name, "FS3_"));
    JoinSplit(TrimPrefixes(name, "FS3_"), "__");
  }

  // ----- which paths a name can spell

  /**
   Parts that come back from the name they are joined into: none empty, `__` in none of them,
   `_` at the end of none but the last, and no further prefix at the front.
   */
  predicate CanBeNamed(parts: seq<string>) {
    && (forall i :: 0 <= i < |parts| ==> parts[i] != [])
    && ArePieces(parts) && !("FS3_" <= Join(parts, "__"))
  }

  lemma {:induction false} SegmentsOfFull(parts: seq<string>)
    requires forall i :: 0 <= i < |parts| ==> parts[i] != []
    ensures AreLowered(Segments(parts), parts)
  {
    if parts != [] {
      SegmentsOfFull(parts[1..]);
      LoweredIsLower(parts[0]);
      forall i | 0 < i < |parts| ensures IsLowered(Segments(parts)[i], parts[i]) {
        assert parts[i] == parts[1..][i - 1] && Segments(parts)[i] == Segments(parts[1..])[i - 1];
      }
    }
  }

  lemma PathsAreEqual(a: seq<string>, b: seq<string>, parts: seq<string>)
    requires AreLowered(a, parts) && AreLowered(b, parts)
    ensures a == b
  {
    forall i | 0 <= i < |parts| ensures a[i] == b[i] {
      LoweredIsUnique(a[i], b[i], parts[i]);
    }
  }

  lemma LoweringKeepsUnderscores(small: string, s: string)
    requires IsLowered(small, s)
    ensures (IsUnbroken(small) <==> IsUnbroken(s)) && (EndsInUnderscore(small) <==> EndsInUnderscore(s))
  {
    forall j | 0 <= j < |s| - 1 ensures BreaksAt(small, j) <==> BreaksAt(s, j) {
    }
  }

  lemma PathIsPieces(path: seq<string>, parts: seq<string>, at: seq<nat>)
    requires ArePieces(parts) && IsPathAt(at, path, parts)
    ensures ArePieces(path)
  {
    forall k | 0 <= k < |path|
      ensures IsUnbroken(path[k]) && (k < |path| - 1 ==> !EndsInUnderscore(path[k]))
    {
      LoweringKeepsUnderscores(path[k], parts[at[k]]);
      assert k < |path| - 1 ==> at[k] < at[k + 1] < |parts|;
    }
  }

  lemma LoweredArePieces(path: seq<string>, parts: seq<string>)
    requires AreLowered(path, parts)
    ensures ArePieces(path) <==> ArePieces(parts)
  {
    forall i | 0 <= i < |parts|
      ensures (IsUnbroken(path[i]) <==> IsUnbroken(parts[i]))
              && (EndsInUnderscore(path[i]) <==> EndsInUnderscore(parts[i]))
    {
      LoweringKeepsUnderscores(path[i], parts[i]);
    }
  }

  lemma {:induction false} JoinedAlike(path: seq<string>, parts: seq<string>)
    requires AreLowered(path, parts)
    ensures |Join(path, "__")| == |Join(parts, "__")|
  {
    if |parts| > 1 {
      forall i | 0 <= i < |parts[1..]| ensures IsLowered(path[1..][i], parts[1..][i]) {
        assert path[1..][i] == path[i + 1] && parts[1..][i] == parts[i + 1];
      }
      JoinedAlike(path[1..], parts[1..]);
    }
  }

  lemma JoinedInFront(first: string, rest: seq<string>)
    ensures |Join([first] + rest, "__")| == |first| + if rest == [] then 0 else 2 + |Join(rest, "__")|
  {
    if rest != [] {
      JoinFirst(first, rest, "__");
    }
  }

  lemma {:induction false} SegmentsShorten(parts: seq<string>)
    ensures |Join(Segments(parts), "__")| <= |Join(parts, "__")|
  {
    if parts != [] {
      SegmentsShorten(parts[1..]);
      assert parts == [parts[0]] + parts[1..];
      JoinedInFront(parts[0], parts[1..]);
      JoinedInFront(LowerAll(parts[0]), Segments(parts[1..]));
      if parts[0] == [] {
        assert Segments(parts) == Segments(parts[1..]);
      }
    }
  }

  lemma {:induction false} TrimmingShortens(name: string)
    ensures |TrimPrefixes(name, "FS3_")| <= |name|
    decreases |name|
  {
    if "FS3_" <= name {
      TrimmingShortens(name[4..]);
    }
  }

  lemma PrefixedIsTrimmed(body: string)
    ensures TrimPrefixes("FS3_" + body, "FS3_") == TrimPrefixes(body, "FS3_")
    ensures "FS3_" <= body ==> |TrimPrefixes(body, "FS3_")| < |body|
  {
    assert ("FS3_" + body)[4..] == body;
    if "FS3_" <= body {
      TrimmingShortens(body[4..]);
    }
  }

  lemma NamedComesBack(parts: seq<string>, path: seq<string>)
    requires parts != [] && AreLowered(path, parts) && CanBeNamed(parts)
    ensures PathOf("FS3_" + Join(parts, "__")) == path
  {
    PrefixesAreTrimmed(0, Join(parts, "__"));
    assert "" + Join(parts, "__") == Join(parts, "__");
    PrefixedIsTrimmed(Join(parts, "__"));
    PiecesComeBack(parts);
    SegmentsOfFull(parts);
    PathsAreEqual(path, Segments(parts), parts);
  }

  lemma OnlyNamedComesBack(parts: seq<string>, path: seq<string>)
    requires parts != [] && AreLowered(path, parts) && PathOf("FS3_" + Join(parts, "__")) == path
    ensures CanBeNamed(parts)
  {
    var body := Join(parts, "__");
    var trimmed := TrimPrefixes(body, "FS3_");
    PrefixedIsTrimmed(body);
    var pieces := Split(trimmed, "__");
    SplitGivesPieces(trimmed);
    var at := SegmentsArePath(pieces);
    PathIsPieces(path, pieces, at);
    LoweredArePieces(path, parts);
    assert forall i :: 0 <= i < |parts| ==> path[i] != [] && |path[i]| == |parts[i]|;
    JoinSplit(trimmed, "__");
    SegmentsShorten(pieces);
    JoinedAlike(path, parts);
  }

  /**
   The name grammar as a round trip: whatever case its letters have, the override named `FS3_`
   and the parts joined by `__` means the path of the lower-cased parts, if and only if the
   parts can be named so.
   */
  lemma NameRoundTrip(parts: seq<string>, path: seq<string>)
    requires parts != [] && AreLowered(path, parts)
    ensures PathOf("FS3_" + Join(parts, "__")) == path <==> CanBeNamed(parts)
  {
    if CanBeNamed(parts) {
      NamedComesBack(parts, path);
    }
    if PathOf("FS3_" + Join(parts, "__")) == path {
      OnlyNamedComesBack(parts, path);
    }
  }

  lemma PrefixIs(body: string)
    ensures "FS3_" <= body
            <==> |body| >= 4 && body[0] == 'F' && body[1] == 'S' && body[2] == '3' && body[3] == '_'
  {
    if |body| >= 4 {
      assert body[..4] == [body[0], body[1], body[2], body[3]];
    }
  }

  lemma OpensWithPrefix(first: string, rest: string)
    requires '_' !in first
    ensures "FS3_" <= first + "__" + rest <==> first == "FS3"
  {
    var body := first + "__" + rest;
    PrefixIs(body);
    assert forall j :: 0 <= j < |first| ==> body[j] == first[j] && first[j] in first;
    assert body[|first|] == '_';
    if |first| == 3 {
      assert first == [first[0], first[1], first[2]];
    }
  }

  /** Parts without underscores can always be named, but for the prefix itself in front of others. */
  lemma PlainPartsCanBeNamed(parts: seq<string>)
    requires parts != [] && forall i :: 0 <= i < |parts| ==> parts[i] != [] && '_' !in parts[i]
    ensures CanBeNamed(parts) <==> parts[0] != "FS3" || |parts| == 1
  {
    forall i | 0 <= i < |parts| ensures IsUnbroken(parts[i]) && !EndsInUnderscore(parts[i]) {
    }
    if |parts| == 1 {
      PrefixIs(parts[0]);
    } else {
      OpensWithPrefix(parts[0], Join(parts[1..], "__"));
    }
  }

  // ----- which overrides are accepted

  predicate IsSection(name: string) {
    || name == "daemon" || name == "database" || name == "providers" || name == "embedder"
    || name == "summarizer" || name == "agent" || name == "repos" || name == "indexing"
    || name == "scan" || name == "search" || name == "update" || name == "decisions"
  }

  /** Whether the way to a path is open after `n` steps: nothing there yet, or a table. */
  predicate IsOpenAt(table: Entries, path: seq<string>, n: nat)
    requires n <= |path|
  {
    var there := Lookup(Table(table), path[..n]);
    there.None? || there.value.Table?
  }

  predicate IsWayOpen(table: Entries, path: seq<string>) {
    forall n :: 1 <= n < |path| ==> IsOpenAt(table, path, n)
  }

  /** Whether the value now at a path lets the text replace it: absent, or a scalar the text reads as. */
  predicate Takes(existing: Option<Value>, raw: string, numbers: Numbers) {
    match existing
    case Some(Integer(_)) => numbers.integer(Trim(raw)).Some?
    case Some(Boolean(_)) => Trim(raw) == "true" || Trim(raw) == "false"
    case Some(Float(_)) => numbers.float(Trim(raw))
    case Some(Table(_)) => false
    case Some(Array(_)) => false
    case _ => true
  }

  /** Why an override of a path is refused, or that it is not. */
  function WhyRefused(table: Entries, path: seq<string>, raw: string, numbers: Numbers): Option<Problem> {
    if path == [] then Some(NamesNoKey)
    else if |path| == 1 then Some(NamesASection(path[0]))
    else if !IsSection(path[0]) then Some(NoSuchSection(path[0]))
    else WhyNotSet(table, path, raw, numbers)
  }

  function WhyNotSet(table: Entries, path: seq<string>, raw: string, numbers: Numbers): Option<Problem> {
    var there := Lookup(Table(table), path);
    if !IsWayOpen(table, path) then Some(NotASection)
    else if there.Some? && (there.value.Table? || there.value.Array?) then Some(NamesATable)
    else if !Takes(there, raw, numbers) then Some(WrongType)
    else None
  }

  lemma SectionIsListed(name: string)
    ensures name in SECTIONS <==> IsSection(name)
  {
    assert SECTIONS[0] == "daemon" && SECTIONS[1] == "database" && SECTIONS[2] == "providers";
    assert SECTIONS[3] == "embedder" && SECTIONS[4] == "summarizer" && SECTIONS[5] == "agent";
    assert SECTIONS[6] == "repos" && SECTIONS[7] == "indexing" && SECTIONS[8] == "scan";
    assert SECTIONS[9] == "search" && SECTIONS[10] == "update" && SECTIONS[11] == "decisions";
  }

  lemma OpenInside(table: Entries, path: seq<string>, n: nat)
    requires |path| > 1 && 1 < n < |path|
    ensures var entry := if path[0] in table then table[path[0]] else Table(map[]);
            entry.Table? ==> (IsOpenAt(table, path, n) <==> IsOpenAt(entry.entries, path[1..], n - 1))
  {
    assert path[..n][1..] == path[1..][..n - 1] && path[..n][0] == path[0];
  }

  lemma OpenAtFirst(table: Entries, path: seq<string>)
    requires |path| > 1
    ensures IsOpenAt(table, path, 1) <==> path[0] !in table || table[path[0]].Table?
  {
    var first := path[..1];
    assert first[0] == path[0] && first[1..] == [];
    assert path[0] in table ==> Lookup(Table(table), first) == Lookup(table[path[0]], first[1..]);
  }

  lemma WayOpenInside(table: Entries, path: seq<string>)
    requires |path| > 1
    ensures var entry := if path[0] in table then table[path[0]] else Table(map[]);
            IsWayOpen(table, path) <==> entry.Table? && IsWayOpen(entry.entries, path[1..])
  {
    var entry := if path[0] in table then table[path[0]] else Table(map[]);
    OpenAtFirst(table, path);
    if entry.Table? {
      forall n | 1 < n < |path| ensures IsOpenAt(table, path, n) <==> IsOpenAt(entry.entries, path[1..], n - 1) {
        OpenInside(table, path, n);
      }
      if IsWayOpen(table, path) {
        forall m | 1 <= m < |path[1..]| ensures IsOpenAt(entry.entries, path[1..], m) {
          assert IsOpenAt(table, path, m + 1);
        }
      }
    }
  }

  lemma {:induction false} SetsExactlyWhen(table: Entries, path: seq<string>, raw: string, numbers: Numbers)
    requires path != []
    ensures SetPath(table, path, raw, numbers).1 == WhyNotSet(table, path, raw, numbers)
    decreases |path|
  {
    if |path| == 1 {
      assert path[1..] == [] && Lookup(Table(table), path) == Get(table, path[0]);
    } else {
      var entry := if path[0] in table then table[path[0]] else Table(map[]);
      WayOpenInside(table, path);
      if entry.Table? {
        SetsExactlyWhen(entry.entries, path[1..], raw, numbers);
      }
    }
  }

  /**
   An override is accepted exactly when its path has two parts or more, opens with one of the
   twelve sections, meets no value on the way, and ends where nothing is or at a scalar the
   text reads as; otherwise the first of these that fails names the problem.
   */
  lemma AcceptedExactlyWhen(table: Entries, name: string, raw: string, numbers: Numbers)
    ensures var (path, applied) := (PathOf(name), ApplyOverride(table, name, raw, numbers).1);
            match WhyRefused(table, path, raw, numbers)
            case None => applied == Touched(path[0])
            case Some(problem) => applied == Failed(problem)
    ensures var path := PathOf(name);
            WhyRefused(table, path, raw, numbers).None?
            <==> |path| >= 2 && IsSection(path[0]) && IsWayOpen(table, path)
                 && Takes(Lookup(Table(table), path), raw, numbers)
  {
    var path := PathOf(name);
    if |path| >= 2 {
      SectionIsListed(path[0]);
      SetsExactlyWhen(table, path, raw, numbers);
    }
  }

  /** So an override named by its parts sets the path of the lower-cased parts to what its text says. */
  lemma NamedOverrideIsApplied(table: Entries, parts: seq<string>, path: seq<string>, raw: string, numbers: Numbers)
    requires AreLowered(path, parts) && CanBeNamed(parts) && |path| >= 2 && IsSection(path[0])
    requires IsWayOpen(table, path) && Takes(Lookup(Table(table), path), raw, numbers)
    ensures var (after, applied) := ApplyOverride(table, "FS3_" + Join(parts, "__"), raw, numbers);
            && applied == Touched(path[0])
            && var read := Lookup(Table(after), path);
               read.Some? && IsReadingOf(read.value, raw, numbers)
  {
    NamedComesBack(parts, path);
    AcceptedExactlyWhen(table, "FS3_" + Join(parts, "__"), raw, numbers);
    OverrideSetsItsPath(table, path, raw, numbers, 0);
  }

  // ----- what reaches the configuration

  /** Of a file's keys, only sections are merged over the defaults; any other changes nothing. */
  lemma OnlySectionsCount(defaults: Entries, file: Entries, key: string)
    ensures var merged := Merged(defaults, Table(Known(file)));
            Get(merged, key) == if IsSection(key) then Get(Merged(defaults, Table(file)), key) else Get(defaults, key)
  {
    SectionIsListed(key);
  }

  /** Why override `i` is refused, applied to what those before it left. */
  function RefusalsOf(table: Entries, env: seq<(string, string)>, numbers: Numbers): nat -> Option<Problem> {
    (i: nat) =>
      if i >= |env| then None
      else WhyRefused(RunBy(EffectBy(numbers), table, env, i).table, PathOf(env[i].0), env[i].1, numbers)
  }

  /** `at` are the places of the refused overrides among the first `n`, in order, and `problems` why. */
  ghost predicate AreRefusals(at: seq<nat>, problems: seq<Problem>, why: nat -> Option<Problem>, n: nat) {
    && |at| == |problems| && (forall j, k :: 0 <= j < k < |at| ==> at[j] < at[k])
    && (forall i: nat :: i < n ==> (i in at <==> why(i).Some?))
    && (forall k :: 0 <= k < |at| ==> at[k] < n && why(at[k]) == Some(problems[k]))
  }

  lemma NextRefusal(at: seq<nat>, problems: seq<Problem>, why: nat -> Option<Problem>, n: nat)
    requires AreRefusals(at, problems, why, n)
    ensures if why(n).None? then AreRefusals(at, problems, why, n + 1)
            else AreRefusals(at + [n], problems + [why(n).value], why, n + 1)
  {
  }

  /** The problems told after `n` overrides. */
  function ProblemsOf(table: Entries, env: seq<(string, string)>, numbers: Numbers): nat -> seq<Problem> {
    (n: nat) => if n > |env| then [] else RunBy(EffectBy(numbers), table, env, n).problems
  }

  /** One more problem is told exactly when there is a reason to. */
  ghost predicate TellsNext(told: nat -> seq<Problem>, why: nat -> Option<Problem>, n: nat) {
    told(n + 1) == if why(n).None? then told(n) else told(n) + [why(n).value]
  }

  lemma {:induction false} AllAreTold(told: nat -> seq<Problem>, why: nat -> Option<Problem>, n: nat)
    returns (at: seq<nat>)
    requires told(0) == [] && forall i :: 0 <= i < n ==> TellsNext(told, why, i)
    ensures AreRefusals(at, told(n), why, n)
  {
    if n == 0 {
      at := [];
    } else {
      at := AllAreTold(told, why, n - 1);
      assert TellsNext(told, why, n - 1);
      NextRefusal(at, told(n - 1), why, n - 1);
      if why(n - 1).Some? {
        at := at + [n - 1];
      }
    }
  }

  lemma ProblemIsTold(table: Entries, env: seq<(string, string)>, numbers: Numbers, n: nat)
    requires n < |env|
    ensures TellsNext(ProblemsOf(table, env, numbers), RefusalsOf(table, env, numbers), n)
  {
    AcceptedExactlyWhen(RunBy(EffectBy(numbers), table, env, n).table, env[n].0, env[n].1, numbers);
  }

  /** Every refused override is reported, each for its own reason, in the order they were given. */
  lemma EveryRefusalIsReported(table: Entries, env: seq<(string, string)>, numbers: Numbers) returns (at: seq<nat>)
    ensures AreRefusals(at, RunOverrides(table, env, numbers).problems, RefusalsOf(table, env, numbers), |env|)
  {
    forall i | 0 <= i < |env| ensures TellsNext(ProblemsOf(table, env, numbers), RefusalsOf(table, env, numbers), i) {
      ProblemIsTold(table, env, numbers, i);
    }
    at := AllAreTold(ProblemsOf(table, env, numbers), RefusalsOf(table, env, numbers), |env|);
  }
}

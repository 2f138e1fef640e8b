/**
 The address grammar spelt out: for every text which address it is, or which error, and for
 every number which texts mean it.
 */
module Grammar {
  import opened Text
  import opened Decimal
  import opened Address
  import Ddoc

  // ----- numbers

  /** `s` is `n` in decimal, behind any number of zeros and at most one plus. */
  ghost predicate IsSpellingOf(s: string, n: nat) {
    exists zeros: nat :: s == Zeros(zeros) + Render(n) || s == "+" + (Zeros(zeros) + Render(n))
  }

  lemma {:induction false} ZerosAddNothing(n: nat, s: string)
    requires AllDigits(s)
    ensures AllDigits(Zeros(n) + s) && Value(Zeros(n) + s) == Value(s)
    decreases |s|
  {
    var all := Zeros(n) + s;
    if s == [] {
      assert all == Zeros(n);
      ZerosAreNothing(n);
    } else {
      assert all[..|all| - 1] == Zeros(n) + s[..|s| - 1];
      ZerosAddNothing(n, s[..|s| - 1]);
    }
  }

  lemma {:induction false} ZerosAreNothing(n: nat)
    ensures AllDigits(Zeros(n)) && Value(Zeros(n)) == 0
  {
    if n > 0 {
      ZerosAreNothing(n - 1);
      assert Zeros(n)[..n - 1] == Zeros(n - 1);
    }
  }

  /** Digits are zeros before canonical text. */
  lemma {:induction false} DigitsAreSpelt(s: string) returns (zeros: nat)
    requires s != [] && AllDigits(s)
    ensures s == Zeros(zeros) + Render(Value(s))
  {
    if s[0] == '0' && |s| > 1 {
      var rest := DigitsAreSpelt(s[1..]);
      zeros := rest + 1;
      assert s == Zeros(1) + s[1..];
      ZerosAddNothing(1, s[1..]);
      ZerosInFront(rest);
      ConcatAssociates(Zeros(1), Zeros(rest), Render(Value(s)));
    } else {
      zeros := 0;
      CanonicalIsRendered(s);
    }
  }

  lemma ZerosInFront(n: nat)
    ensures Zeros(1) + Zeros(n) == Zeros(n + 1)
  {
  }

  lemma SpeltParses(zeros: nat, n: nat)
    ensures var digits := Zeros(zeros) + Render(n);
            ParseU32(digits) == ParseU32("+" + digits) == if n <= U32_MAX then Number(n) else NotANumber
  {
    var digits := Zeros(zeros) + Render(n);
    RenderIsCanonical(n);
    ZerosAddNothing(zeros, Render(n));
    assert IsDigit(digits[0]);
    assert ("+" + digits)[1..] == digits;
  }

  lemma ParsedIsSpelt(s: string, n: nat)
    requires ParseU32(s) == Number(n)
    ensures IsSpellingOf(s, n)
  {
    if s[0] == '+' {
      var zeros := DigitsAreSpelt(s[1..]);
      assert s == "+" + s[1..];
    } else {
      var zeros := DigitsAreSpelt(s);
    }
  }

  lemma SpellingParses(s: string, n: nat)
    requires IsSpellingOf(s, n)
    ensures ParseU32(s) == if n <= U32_MAX then Number(n) else NotANumber
  {
    var zeros: nat :| s == Zeros(zeros) + Render(n) || s == "+" + (Zeros(zeros) + Render(n));
    SpeltParses(zeros, n);
  }

  /** Exactly these texts are turn numbers. */
  lemma NumbersAreSpelt(s: string, n: nat)
    ensures ParseU32(s) == Number(n) <==> n <= 4_294_967_295 && IsSpellingOf(s, n)
  {
    if IsSpellingOf(s, n) {
      SpellingParses(s, n);
    } else if ParseU32(s) == Number(n) {
      ParsedIsSpelt(s, n);
    }
  }

  // ----- conversations

  predicate IsMarkAt(s: string, j: int) { 0 <= j && j + 1 < |s| && s[j] == '#' && s[j + 1] == 't' }

  predicate HasNoMark(s: string) { forall j :: 0 <= j < |s| ==> !IsMarkAt(s, j) }

  lemma MarkIsFound(s: string, j: nat)
    requires j <= |s|
    ensures "#t" <= s[j..] <==> IsMarkAt(s, j)
  {
    if j + 1 < |s| {
      assert s[j..][..2] == [s[j], s[j + 1]];
    }
  }

  lemma FindMark(guid: string, more: string)
    requires HasNoMark(guid)
    ensures Find(guid, "#t") == None && Find(guid + "#t" + more, "#t") == Some(|guid|)
  {
    var s := guid + "#t" + more;
    forall j | 0 <= j <= |guid|
      ensures !("#t" <= guid[j..]) && (j < |guid| ==> !("#t" <= s[j..]))
    {
      MarkIsFound(guid, j);
      MarkIsFound(s, j);
      assert j < |guid| ==> !IsMarkAt(guid, j) && s[j] == guid[j];
      assert j + 1 < |guid| ==> s[j + 1] == guid[j + 1];
    }
    MarkIsFound(s, |guid|);
  }

  /** A conversation's address without a turn. */
  lemma ConversationAddresses(guid: string)
    requires HasNoMark(guid) && guid != [] && !EndsBlank(guid)
    ensures Parse("conv:" + guid) == Ok(Conversation(guid, None))
  {
    FindMark(guid, "");
    ConversationParses(guid);
  }

  /** And with one: the first `#t` counts. */
  lemma TurnAddresses(guid: string, number: string)
    requires HasNoMark(guid) && !EndsBlank(number)
    ensures Parse("conv:" + (guid + "#t" + number))
         == match ParseU32(number)
            case Number(turn) => Ok(Conversation(guid, Some(turn)))
            case NotANumber => Err(InvalidTurn)
  {
    var rest := guid + "#t" + number;
    FindMark(guid, number);
    assert rest[|guid| + 2..] == number && rest[..|guid|] == guid;
    assert rest[|rest| - 1] == if number == [] then 't' else number[|number| - 1];
    ConversationParses(rest);
  }

  // ----- documents

  /** A segment between slashes, or before the first or after the last, is empty. */
  predicate HasEmptySegment(trail: string) {
    trail == [] || trail[0] == '/' || trail[|trail| - 1] == '/'
    || exists j :: 0 <= j < |trail| - 1 && IsGapAt(trail, j)
  }

  predicate IsGapAt(trail: string, j: int) { 0 <= j && j + 1 < |trail| && trail[j] == '/' && trail[j + 1] == '/' }

  /** A prefix without a dash, a dash, and four digits of lower-case hex. */
  predicate IsMinted(id: string) {
    && |id| > 5 && id[|id| - 5] == '-' && '-' !in id[..|id| - 5]
    && forall i :: |id| - 4 <= i < |id| ==> '0' <= id[i] <= '9' || 'a' <= id[i] <= 'f'
  }

  lemma FirstOccurrence(s: string, c: char, at: nat)
    requires at < |s| && [c] <= s[at..] && forall j :: 0 <= j < at ==> !([c] <= s[j..])
    ensures s[at] == c && c !in s[..at] && s == s[..at] + [c] + s[at + 1..]
  {
    assert s[at..][0] == s[at];
    forall j | 0 <= j < at ensures s[..at][j] != c {
      assert s[j..][0] == s[j];
    }
  }

  lemma FindOne(s: string, c: char)
    ensures var at := Find(s, [c]);
            && (at.Some? ==> s[at.value] == c && c !in s[..at.value]
                             && s == s[..at.value] + [c] + s[at.value + 1..])
            && (at.None? ==> c !in s)
  {
    var at := Find(s, [c]);
    if at.Some? {
      FirstOccurrence(s, c, at.value);
    } else {
      FindAbsent(s, c);
    }
  }

  lemma EmptyInFront(first: string, rest: string)
    requires '/' !in first
    ensures HasEmptySegment(first + "/" + rest) <==> first == [] || HasEmptySegment(rest)
  {
    var s := first + "/" + rest;
    assert s[|first|] == '/';
    assert forall j :: 0 <= j < |first| ==> s[j] == first[j] && first[j] in first;
    assert forall j :: 0 <= j < |rest| ==> s[|first| + 1 + j] == rest[j];
    if rest != [] && exists j :: 0 <= j < |rest| - 1 && IsGapAt(rest, j) {
      var j :| 0 <= j < |rest| - 1 && IsGapAt(rest, j);
      assert IsGapAt(s, |first| + 1 + j);
    }
    if rest != [] && rest[0] == '/' {
      assert IsGapAt(s, |first|);
    }
    if exists j :: 0 <= j < |s| - 1 && IsGapAt(s, j) {
      var j :| 0 <= j < |s| - 1 && IsGapAt(s, j);
      assert j >= |first|;
      assert j > |first| ==> IsGapAt(rest, j - |first| - 1);
    }
  }

  lemma {:induction false} EmptySegments(trail: string)
    ensures [] in Split(trail, "/") <==> HasEmptySegment(trail)
    decreases |trail|
  {
    assert "/" == ['/'];
    FindOne(trail, '/');
    var at := Find(trail, "/");
    if at.Some? {
      var first, rest := trail[..at.value], trail[at.value + 1..];
      EmptySegments(rest);
      EmptyInFront(first, rest);
    } else {
      assert forall j :: 0 <= j < |trail| ==> trail[j] in trail;
    }
  }

  lemma DashIsFirst(id: string, at: nat)
    requires IsMinted(id) && at < |id| && id[at] == '-' && '-' !in id[..at]
    ensures |id| == at + 5
  {
    var dash := |id| - 5;
    assert forall i :: 0 <= i < dash ==> id[i] == id[..dash][i] && id[..dash][i] in id[..dash];
    assert forall i :: 0 <= i < at ==> id[i] == id[..at][i] && id[..at][i] in id[..at];
  }

  /** An id cut at its first dash is minted when four hex digits follow and something comes before. */
  lemma MintedAt(id: string, at: nat, suffix: string)
    requires at < |id| && id[at] == '-' && '-' !in id[..at] && suffix == id[at + 1..]
    ensures IsMinted(id) <==> at > 0 && |suffix| == 4 && forall i :: 0 <= i < 4 ==> Ddoc.IsLowerHex(suffix[i])
  {
    assert forall i :: 0 <= i < |suffix| ==> suffix[i] == id[at + 1 + i];
    if IsMinted(id) {
      DashIsFirst(id, at);
    }
  }

  lemma MintedHasPrefix(id: string)
    ensures Ddoc.MintedPrefix(id) == if IsMinted(id) then Some(id[..|id| - 5]) else None
  {
    assert "-" == ['-'];
    FindOne(id, '-');
    var at := Find(id, "-");
    if at.Some? {
      MintedAt(id, at.value, id[at.value + 1..]);
    } else if |id| > 5 {
      assert id[|id| - 5] in id;
    }
  }

  /** What a document address text without a scheme means. */
  ghost predicate IsReadOfDocument(read: Result, file: string, trail: string) {
    if '#' in trail then read == Err(InvalidDdoc(Ddoc.MultipleSeparators))
    else if trail == [] then read == Err(InvalidDdoc(Ddoc.EmptyTrail))
    else if HasEmptySegment(trail) then read == Err(InvalidDdoc(Ddoc.EmptySegment))
    else if '/' !in trail && IsMinted(trail) then read == Err(DdocShortForm)
    else exists segments :: AreSegments(segments, trail)
                            && read == Ok(DdocAddress(Ddoc.DdocAddress(file, segments)))
  }

  /** The segments between the slashes of a trail. */
  ghost predicate AreSegments(segments: seq<string>, trail: string) {
    segments != [] && Join(segments, "/") == trail && forall i :: 0 <= i < |segments| ==> '/' !in segments[i]
  }

  lemma TrailSplits(trail: string)
    ensures AreSegments(Split(trail, "/"), trail)
    ensures |Split(trail, "/")| == 1 <==> '/' !in trail
    ensures '/' !in trail ==> Split(trail, "/") == [trail]
  {
    assert "/" == ['/'];
    JoinSplit(trail, "/");
    SplitPartsLack(trail, '/');
    FindAbsent(trail, '/');
  }

  lemma ReadsDocument(file: string, trail: string)
    requires '#' !in file
    ensures IsReadOfDocument(ParseDdoc(file + ['#'] + trail), file, trail)
  {
    var text := file + ['#'] + trail;
    FindFirst(file, '#', trail);
    assert text[|file| + 1..] == trail && text[..|file|] == file;
    EmptySegments(trail);
    TrailSplits(trail);
    if '/' !in trail {
      MintedHasPrefix(trail);
    }
  }

  predicate HasScheme(text: string) { "el:" <= text || "conv:" <= text }

  lemma SchemelessReads(t: string)
    requires !("el:" <= t) && !("conv:" <= t)
    ensures ParseTrimmed(t) == if t == [] then Err(Empty) else if '#' in t then ParseDdoc(t) else Err(UnknownScheme)
  {
  }

  lemma TrimmedReads(t: string)
    requires IsTrimmed(t) && !HasScheme(t)
    ensures Parse(t) == if t == [] then Err(Empty) else if '#' in t then ParseDdoc(t) else Err(UnknownScheme)
  {
    TrimIsTrimmed(t);
    SchemelessReads(t);
  }

  /** Every document address: which error, or which file and segments. */
  lemma DocumentAddresses(text: string, file: string, trail: string)
    requires text == file + ['#'] + trail && '#' !in file && IsTrimmed(text) && !HasScheme(text)
    ensures IsReadOfDocument(Parse(text), file, trail)
  {
    assert text[|file|] == '#';
    TrimmedReads(text);
    ReadsDocument(file, trail);
  }

  /** A text with no scheme and no `#` is no address; blanks around any text change nothing. */
  lemma OtherTexts(text: string)
    ensures Parse(text) == Parse(Trim(text))
    ensures !HasScheme(Trim(text)) && '#' !in Trim(text) ==>
              Parse(text) == Err(if Trim(text) == [] then Empty else UnknownScheme)
  {
    TrimIsTrimmed(text);
    TrimIsTrimmed(Trim(text));
    if !HasScheme(Trim(text)) {
      TrimmedReads(Trim(text));
    }
  }

  /** A scheme alone names nothing. */
  lemma SchemesAlone(rest: string)
    requires rest == []
    ensures Parse("conv:" + rest) == Err(Empty) && Parse("el:" + rest) == Err(Empty)
  {
    SchemeIsTrimmed(rest);
    SchemeParses(rest);
    NothingAfterScheme(rest);
  }

  lemma FrontOfTrail(first: string, rest: string, trail: string)
    requires trail == first + "/" + rest
    ensures first <= trail && |first| < |trail| && trail[|first|] == '/' && '/' in trail
  {
  }

  lemma BackOfTrail(front: string, last: string, trail: string)
    requires trail == front + "/" + last
    ensures |last| < |trail| && trail[|trail| - |last| - 1..] == "/" + last
  {
    assert |trail| - |last| - 1 == |front| && trail == front + ("/" + last);
  }

  /** A parsed document address names the section before the first slash and the row behind the last. */
  lemma SectionAndRow(a: Ddoc.DdocAddress, trail: string)
    requires AreSegments(a.trail, trail)
    ensures Ddoc.Section(a) <= trail && '/' !in Ddoc.Section(a)
    ensures Ddoc.RowId(a).None? <==> '/' !in trail
    ensures '/' in trail ==> trail[|Ddoc.Section(a)|] == '/'
                             && var row := Ddoc.RowId(a).value;
                                '/' !in row && |row| < |trail| && trail[|trail| - |row| - 1..] == "/" + row
  {
    var n := |a.trail| - 1;
    if n == 0 {
      assert trail == a.trail[0];
    } else {
      assert a.trail[..n] + [a.trail[n]] == a.trail;
      Ddoc.JoinAppend(a.trail[..n], a.trail[n], "/");
      FrontOfTrail(a.trail[0], Join(a.trail[1..], "/"), trail);
      BackOfTrail(Join(a.trail[..n], "/"), a.trail[n], trail);
    }
  }

  // ----- repositories

  function Slashes(n: nat): string { seq(n, _ => '/') }

  /** An identity stands at the front of a locator: alone, or with a slash behind it. */
  lemma MatchesMeans(locator: string, identity: string)
    ensures Matches(locator, identity)
            <==> identity != "" && (locator == identity || exists rest :: locator == identity + "/" + rest)
  {
    if Matches(locator, identity) && locator != identity {
      var rest := locator[|identity| + 1..];
      assert locator == identity + "/" + rest;
    }
    if exists rest :: locator == identity + "/" + rest {
      var rest :| locator == identity + "/" + rest;
      assert locator[|identity|] == '/';
    }
  }

  /** What a locator resolves to: itself, where no identity matches, or the longest, slashes and the rest. */
  lemma ResolvedMeans(locator: string, identities: seq<string>, parts: ElementParts)
    requires Resolves(locator, identities, parts)
    ensures parts.repo == None ==> parts.element == locator
    ensures parts.repo.Some? ==>
              && parts.repo.value in identities && Matches(locator, parts.repo.value)
              && (parts.element == "" || parts.element[0] != '/')
              && exists n: nat :: locator == parts.repo.value + (Slashes(n) + parts.element)
    ensures forall id :: id in identities && Matches(locator, id) ==> parts.repo.Some? && |id| <= |parts.repo.value|
  {
    if parts.repo.Some? {
      var rest := locator[|parts.repo.value|..];
      TrimSlashesMeans(rest);
      var n := |rest| - |parts.element|;
      assert rest == Slashes(n) + parts.element;
      assert locator == parts.repo.value + rest;
    }
  }

  // ----- conversation ids

  predicate IsDashAt(i: nat) { i == 8 || i == 13 || i == 18 || i == 23 }

  /** 36 characters: dashes in four places, lower-case hex in all the others. */
  predicate IsUuid(id: string) {
    |id| == 36 && forall i: nat :: i < 36 ==> if IsDashAt(i) then id[i] == '-' else Ddoc.IsLowerHex(id[i])
  }

  lemma GroupsOf(groups: seq<string>)
    requires |groups| == 5
    ensures Join(groups, "-") == groups[0] + "-" + (groups[1] + "-" + (groups[2] + "-" + (groups[3] + "-" + groups[4])))
  {
    assert groups[3..][1..] == groups[4..] && groups[2..][1..] == groups[3..] && groups[1..][1..] == groups[2..];
    assert Join(groups[4..], "-") == groups[4];
    assert Join(groups[3..], "-") == groups[3] + "-" + Join(groups[4..], "-");
    assert Join(groups[2..], "-") == groups[2] + "-" + Join(groups[3..], "-");
    assert Join(groups[1..], "-") == groups[1] + "-" + Join(groups[2..], "-");
  }

  lemma HexGroupsAreUuid(a: string, b: string, c: string, d: string, e: string)
    requires IsHexGroup(a, 8) && IsHexGroup(b, 4) && IsHexGroup(c, 4) && IsHexGroup(d, 4) && IsHexGroup(e, 12)
    ensures IsUuid(a + "-" + (b + "-" + (c + "-" + (d + "-" + e))))
  {
  }

  lemma IdIsUuid(id: string)
    requires IsConversationId(id)
    ensures IsUuid(id)
  {
    var groups := Split(id, "-");
    JoinSplit(id, "-");
    GroupsOf(groups);
    assert IsHexGroup(groups[0], GROUPS[0]) && IsHexGroup(groups[1], GROUPS[1]) && IsHexGroup(groups[2], GROUPS[2]);
    assert IsHexGroup(groups[3], GROUPS[3]) && IsHexGroup(groups[4], GROUPS[4]);
    HexGroupsAreUuid(groups[0], groups[1], groups[2], groups[3], groups[4]);
  }

  lemma UuidIsId(id: string)
    requires IsUuid(id)
    ensures IsConversationId(id)
  {
    var groups := [id[..8], id[9..13], id[14..18], id[19..23], id[24..]];
    GroupsOf(groups);
    assert id == Join(groups, "-");
    assert "-" == ['-'];
    forall i | 0 <= i < 5 ensures IsHexGroup(groups[i], GROUPS[i]) && '-' !in groups[i] {
    }
    SplitJoin(groups, '-');
  }

  /** A conversation id is a UUID in lower case. */
  lemma IdsAreUuids(id: string)
    ensures IsConversationId(id) <==> IsUuid(id)
  {
    if IsConversationId(id) {
      IdIsUuid(id);
    }
    if IsUuid(id) {
      UuidIsId(id);
    }
  }

  /** The renderer that pushes the pieces of a turn's address prints what the address prints. */
  lemma TurnAddressIsShown(id: string, turn: nat)
    ensures Concatenated(id, turn) == Show(Conversation(id, Some(turn)))
  {
  }
}

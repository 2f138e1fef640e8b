/**
 Addresses: one grammar read and written, an element's repository found by the longest
 registered identity, and conversation turns whose numbers survive the round trip.
 */
module Address {
  import opened Text
  import opened Decimal
  import Utf8
  import Ddoc

  const ELEMENT_SCHEME := "el:"
  const CONVERSATION_SCHEME := "conv:"
  const TURN_SEPARATOR := "#t"

  datatype Address =
    | Element(locator: string)
    | Conversation(guid: string, turn: Option<nat>)
    | DdocAddress(ddoc: Ddoc.DdocAddress)

  datatype AddressError = Empty | UnknownScheme | InvalidTurn | InvalidDdoc(error: Ddoc.ParseError) | DdocShortForm

  datatype Result = Ok(address: Address) | Err(error: AddressError)

  function ParseConversation(rest: string): Result {
    if rest == [] then Err(Empty)
    else
      var at := Find(rest, TURN_SEPARATOR);
      if at.None? then Ok(Conversation(rest, None))
      else
        match ParseU32(rest[at.value + |TURN_SEPARATOR|..])
        case NotANumber => Err(InvalidTurn)
        case Number(turn) => Ok(Conversation(rest[..at.value], Some(turn)))
  }

  function ParseDdoc(text: string): Result {
    match Ddoc.Parse(text)
    case Err(error) => Err(InvalidDdoc(error))
    case Ok(address) =>
      if Ddoc.RowId(address).None? && Ddoc.MintedPrefix(Ddoc.Section(address)).Some? then Err(DdocShortForm)
      else Ok(DdocAddress(address))
  }

  function ParseTrimmed(text: string): Result {
    if text == [] then Err(Empty)
    else if ELEMENT_SCHEME <= text then
      var rest := text[|ELEMENT_SCHEME|..];
      if rest == [] then Err(Empty) else Ok(Element(rest))
    else if CONVERSATION_SCHEME <= text then ParseConversation(text[|CONVERSATION_SCHEME|..])
    else if Ddoc.SEPARATOR in text then ParseDdoc(text)
    else Err(UnknownScheme)
  }

  function Parse(text: string): Result { ParseTrimmed(Trim(text)) }

  function Show(a: Address): string {
    match a
    case Element(locator) => ELEMENT_SCHEME + locator
    case Conversation(guid, None) => CONVERSATION_SCHEME + guid
    case Conversation(guid, Some(turn)) => CONVERSATION_SCHEME + guid + TURN_SEPARATOR + Render(turn)
    case DdocAddress(ddoc) => Ddoc.Rendered(ddoc)
  }

  // ----- what is read is what is written

  /** Whether a conversation locator ends in a turn number spelt otherwise than `Show` spells it. */
  predicate HasOddTurn(rest: string) {
    var at := Find(rest, TURN_SEPARATOR);
    at.Some? && !Canonical(rest[at.value + |TURN_SEPARATOR|..])
  }

  lemma OccursWithin(common: string, after: string, sep: string, j: nat)
    requires j + |sep| <= |common|
    ensures sep <= (common + after)[j..] <==> sep <= common[j..]
  {
    assert (common + after)[j..] == common[j..] + after;
    assert (common[j..] + after)[..|sep|] == common[j..][..|sep|];
  }

  /** Replacing what follows the first separator leaves it the first. */
  lemma SeparatorStays(front: string, sep: string, before: string, after: string)
    requires sep != [] && Find(front + sep + before, sep) == Some(|front|)
    ensures Find(front + sep + after, sep) == Some(|front|)
  {
    var common := front + sep;
    assert sep <= common[|front|..];
    forall j | 0 <= j <= |front|
      ensures sep <= (common + after)[j..] <==> sep <= (common + before)[j..]
    {
      OccursWithin(common, before, sep, j);
      OccursWithin(common, after, sep, j);
    }
    var at := Find(common + after, sep);
    assert sep <= (common + after)[|front|..];
  }

  lemma FindCuts(s: string, sep: string)
    requires sep != [] && Find(s, sep).Some?
    ensures var at := Find(s, sep).value;
            at + |sep| <= |s| && s == s[..at] + sep + s[at + |sep|..]
  {
    SplitAtFound(s, sep, Find(s, sep).value);
  }

  /** A locator with its turn reprinted parses to the same turn, and is the same text just when it was canonical. */
  lemma TurnReprints(rest: string, turn: nat)
    requires Find(rest, TURN_SEPARATOR).Some?
    requires ParseU32(rest[Find(rest, TURN_SEPARATOR).value + |TURN_SEPARATOR|..]) == Number(turn)
    ensures var guid := rest[..Find(rest, TURN_SEPARATOR).value];
            var back := guid + TURN_SEPARATOR + Render(turn);
            && ParseConversation(back) == Ok(Conversation(guid, Some(turn)))
            && (back == rest <==> !HasOddTurn(rest))
  {
    var sep := TURN_SEPARATOR;
    var at := Find(rest, sep).value;
    var guid, digits := rest[..at], rest[at + |sep|..];
    var back := guid + sep + Render(turn);
    FindCuts(rest, sep);
    SeparatorStays(guid, sep, digits, Render(turn));
    assert back[at + |sep|..] == Render(turn) && back[..at] == guid;
    ParseRendered(turn);
    RenderParsed(digits);
  }

  /** What printing a parsed conversation address gives, after its scheme. */
  function Reprinted(rest: string): string {
    match ParseConversation(rest)
    case Ok(Conversation(guid, Some(turn))) => guid + TURN_SEPARATOR + Render(turn)
    case _ => rest
  }

  lemma ReprintedParses(rest: string)
    requires ParseConversation(rest).Ok?
    ensures ParseConversation(Reprinted(rest)) == ParseConversation(rest)
    ensures Reprinted(rest) == rest <==> !HasOddTurn(rest)
    ensures Reprinted(rest) == rest || IsDigit(Reprinted(rest)[|Reprinted(rest)| - 1])
  {
    if Find(rest, TURN_SEPARATOR).Some? {
      TurnReprints(rest, ParseConversation(rest).address.turn.value);
    }
  }

  lemma ReprintedShows(rest: string)
    requires ParseConversation(rest).Ok?
    ensures Show(ParseConversation(rest).address) == CONVERSATION_SCHEME + Reprinted(rest)
  {
    var a := ParseConversation(rest).address;
    if a.turn.Some? {
      assert CONVERSATION_SCHEME + a.guid + TURN_SEPARATOR + Render(a.turn.value)
          == CONVERSATION_SCHEME + (a.guid + TURN_SEPARATOR + Render(a.turn.value));
    }
  }

  lemma SchemeParses(rest: string)
    ensures ParseTrimmed(CONVERSATION_SCHEME + rest) == ParseConversation(rest)
  {
    var text := CONVERSATION_SCHEME + rest;
    assert text[0] == 'c' && text[|CONVERSATION_SCHEME|..] == rest;
  }

  lemma SchemeIsTrimmed(back: string)
    requires back == [] || !IsWhitespace(back[|back| - 1])
    ensures Trim(CONVERSATION_SCHEME + back) == CONVERSATION_SCHEME + back
  {
    TrimIsTrimmed(CONVERSATION_SCHEME + back);
  }

  lemma PrefixCancels(scheme: string, a: string, b: string)
    ensures scheme + a == scheme + b <==> a == b
  {
    assert (scheme + a)[|scheme|..] == a && (scheme + b)[|scheme|..] == b;
  }

  /** Conversation addresses. */
  lemma ConversationRoundTrip(rest: string)
    requires ParseConversation(rest).Ok? && !IsWhitespace(rest[|rest| - 1])
    ensures var a := ParseConversation(rest).address;
            && Parse(Show(a)) == Ok(a)
            && (Show(a) == CONVERSATION_SCHEME + rest <==> !HasOddTurn(rest))
  {
    ReprintedParses(rest);
    ReprintedShows(rest);
    SchemeIsTrimmed(Reprinted(rest));
    SchemeParses(Reprinted(rest));
    PrefixCancels(CONVERSATION_SCHEME, Reprinted(rest), rest);
  }

  lemma OthersShowThemselves(t: string)
    requires ParseTrimmed(t).Ok? && ConversationRest(t).None?
    ensures Show(ParseTrimmed(t).address) == t
  {
    if ELEMENT_SCHEME <= t {
      assert t == ELEMENT_SCHEME + t[|ELEMENT_SCHEME|..];
    } else {
      Ddoc.RenderUndoesParse(t);
    }
  }

  /** The locator of a conversation address text. */
  function ConversationRest(t: string): Option<string> {
    if !(ELEMENT_SCHEME <= t) && CONVERSATION_SCHEME <= t then Some(t[|CONVERSATION_SCHEME|..]) else None
  }

  lemma ConversationText(t: string)
    requires IsTrimmed(t) && ConversationRest(t).Some? && ParseTrimmed(t).Ok?
    ensures var rest := ConversationRest(t).value;
            ParseTrimmed(t) == ParseConversation(rest) && t == CONVERSATION_SCHEME + rest
            && !IsWhitespace(rest[|rest| - 1])
  {
    var rest := ConversationRest(t).value;
    assert rest != [];
    assert rest[|rest| - 1] == t[|t| - 1];
  }

  lemma TrimmedRoundTrip(t: string)
    requires IsTrimmed(t) && ParseTrimmed(t).Ok?
    ensures Parse(Show(ParseTrimmed(t).address)) == ParseTrimmed(t)
    ensures var rest := ConversationRest(t);
            Show(ParseTrimmed(t).address) == t <==> !(rest.Some? && HasOddTurn(rest.value))
  {
    if ConversationRest(t).Some? {
      ConversationText(t);
      ConversationRoundTrip(ConversationRest(t).value);
    } else {
      OthersShowThemselves(t);
      TrimIsTrimmed(t);
    }
  }

  /**
   Parsing what an address prints gives that address back, for every text that parses; and
   the print is the trimmed text itself except where a turn number was spelt oddly.
   */
  lemma ParseUndoesShow(text: string)
    requires Parse(text).Ok?
    ensures Parse(Show(Parse(text).address)) == Parse(text)
    ensures var rest := ConversationRest(Trim(text));
            Show(Parse(text).address) == Trim(text) <==> !(rest.Some? && HasOddTurn(rest.value))
  {
    TrimIsTrimmed(text);
    TrimmedRoundTrip(Trim(text));
  }

  // ----- repositories

  datatype ElementParts = ElementParts(repo: Option<string>, element: string)

  /** Whether an identity ends on a segment boundary of the locator. */
  predicate Matches(locator: string, identity: string) {
    && identity != []
    && (locator == identity || (|locator| > |identity| && identity <= locator && locator[|identity|] == '/'))
  }

  function TrimSlashes(s: string): string {
    if s != [] && s[0] == '/' then TrimSlashes(s[1..]) else s
  }

  /** The longest of some identities that matches, if any does. */
  ghost predicate IsLongestMatch(locator: string, identities: seq<string>, best: Option<string>) {
    match best
    case None => forall i :: 0 <= i < |identities| ==> !Matches(locator, identities[i])
    case Some(b) =>
      && b in identities && Matches(locator, b)
      && forall i :: 0 <= i < |identities| && Matches(locator, identities[i]) ==> |identities[i]| <= |b|
  }

  function PartsOf(locator: string, best: Option<string>): ElementParts
    requires best.Some? ==> |best.value| <= |locator|
  {
    match best
    case Some(identity) => ElementParts(best, TrimSlashes(locator[|identity|..]))
    case None => ElementParts(None, locator)
  }

  /** The program's split: scan the registered identities, keeping the longest that matches. */
  method SplitLocator(locator: string, identities: seq<string>) returns (parts: ElementParts)
    ensures IsLongestMatch(locator, identities, parts.repo)
    ensures parts.repo.Some? ==> |parts.repo.value| <= |locator|
    ensures parts == PartsOf(locator, parts.repo)
  {
    var best: Option<string> := None;
    for i := 0 to |identities|
      invariant IsLongestMatch(locator, identities[..i], best)
    {
      var identity := identities[i];
      assert identities[..i + 1] == identities[..i] + [identity];
      if identity != [] {
        var matches := locator == identity
                       || (|locator| > |identity| && identity <= locator && locator[|identity|] == '/');
        if matches && (best.None? || |identity| > |best.value|) {
          best := Some(identity);
        }
      }
    }
    assert identities[..|identities|] == identities;
    parts := PartsOf(locator, best);
  }

  /** Two identities of one length that match are the same, so the longest match is one identity. */
  lemma LongestMatchIsUnique(locator: string, identities: seq<string>, others: seq<string>,
                             a: Option<string>, b: Option<string>)
    requires IsLongestMatch(locator, identities, a) && IsLongestMatch(locator, others, b)
    requires forall id :: id in identities <==> id in others
    ensures a == b
  {
    if a.Some? {
      assert a.value in others;
    }
    if b.Some? {
      assert b.value in identities;
    }
    if a.Some? && b.Some? {
      assert |a.value| == |b.value|;
      assert a.value == locator[..|a.value|] == b.value;
    }
  }

  function ElementAddress(repo: Option<string>, address: string): string {
    ELEMENT_SCHEME + if repo.Some? then repo.value + "/" + address else address
  }

  lemma {:induction false} TrimEndConcat(a: string, b: string)
    requires a != [] && !IsWhitespace(a[|a| - 1])
    ensures TrimEnd(a + b) == a + TrimEnd(b)
  {
    if b == [] {
      assert a + b == a;
    } else if IsWhitespace(b[|b| - 1]) {
      assert (a + b)[..|a + b| - 1] == a + b[..|b| - 1];
      TrimEndConcat(a, b[..|b| - 1]);
    }
  }

  /** An element address text parses to its locator, less any trailing blanks. */
  lemma ElementParses(locator: string)
    requires TrimEnd(locator) != []
    ensures Parse(ELEMENT_SCHEME + locator) == Ok(Element(TrimEnd(locator)))
  {
    var text := ELEMENT_SCHEME + locator;
    assert text[0] == 'e';
    assert TrimStart(text) == text;
    TrimEndConcat(ELEMENT_SCHEME, locator);
    assert (ELEMENT_SCHEME + TrimEnd(locator))[|ELEMENT_SCHEME|..] == TrimEnd(locator);
  }

  lemma {:induction false} TrimSlashesMeans(s: string)
    ensures TrimSlashes(s) == [] || TrimSlashes(s)[0] != '/'
    ensures |TrimSlashes(s)| <= |s| && (s == [] || s[0] != '/' <==> TrimSlashes(s) == s)
    ensures var slashes := |s| - |TrimSlashes(s)|;
            s[slashes..] == TrimSlashes(s) && forall i :: 0 <= i < slashes ==> s[i] == '/'
  {
    if s != [] && s[0] == '/' {
      TrimSlashesMeans(s[1..]);
    }
  }

  /** How a locator resolves against the registered identities. */
  ghost predicate Resolves(locator: string, identities: seq<string>, parts: ElementParts) {
    && IsLongestMatch(locator, identities, parts.repo)
    && (parts.repo.Some? ==> |parts.repo.value| <= |locator|) && parts == PartsOf(locator, parts.repo)
  }

  /** Parsing a text and splitting its locator. */
  ghost predicate ReadsAs(text: string, identities: seq<string>, parts: ElementParts) {
    && Parse(text).Ok? && Parse(text).address.Element? && Resolves(Parse(text).address.locator, identities, parts)
  }

  predicate EndsBlank(s: string) { s != [] && IsWhitespace(s[|s| - 1]) }

  lemma ResolvedParts(repo: string, tail: string, identities: seq<string>, parts: ElementParts)
    requires repo in identities && repo != [] && Resolves(repo + "/" + tail, identities, parts)
    ensures parts.repo.Some? && |parts.repo.value| >= |repo|
    ensures parts.repo == Some(repo) <==> |parts.repo.value| == |repo|
    ensures parts.repo == Some(repo) ==> parts.element == TrimSlashes(tail)
  {
    var locator := repo + "/" + tail;
    assert locator[|repo|] == '/' && repo <= locator && Matches(locator, repo);
    var best := parts.repo.value;
    assert best == locator[..|best|] && repo == locator[..|repo|];
    if best == repo {
      assert locator[|repo|..] == "/" + tail;
      assert ("/" + tail)[1..] == tail;
    }
  }

  /** No registered identity longer than `repo` matches. */
  ghost predicate NothingLonger(locator: string, repo: string, identities: seq<string>) {
    forall i :: 0 <= i < |identities| && Matches(locator, identities[i]) ==> |identities[i]| <= |repo|
  }

  lemma ResolvedRoundTrip(repo: string, address: string, identities: seq<string>, parts: ElementParts)
    requires repo in identities && repo != [] && Resolves(repo + "/" + TrimEnd(address), identities, parts)
    ensures parts == ElementParts(Some(repo), address) <==>
              && (address == [] || address[0] != '/') && !EndsBlank(address)
              && NothingLonger(repo + "/" + address, repo, identities)
  {
    ResolvedParts(repo, TrimEnd(address), identities, parts);
    TrimSlashesMeans(TrimEnd(address));
    assert EndsBlank(address) <==> TrimEnd(address) != address;
    if TrimEnd(address) == address {
      var i :| 0 <= i < |identities| && identities[i] == parts.repo.value;
      assert NothingLonger(repo + "/" + address, repo, identities) <==> |parts.repo.value| == |repo|;
    }
  }

  lemma WrittenAddressParses(repo: string, address: string)
    ensures Parse(ElementAddress(Some(repo), address)) == Ok(Element(repo + "/" + TrimEnd(address)))
  {
    TrimEndConcat(repo + "/", address);
    ElementParses(repo + "/" + address);
  }

  /**
   An address written with its repository reads back as that repository and element exactly
   when the element has no leading slash and no trailing blank and no longer registered
   identity also matches.
   */
  lemma RepositoryRoundTrip(repo: string, address: string, identities: seq<string>, parts: ElementParts)
    requires repo in identities && repo != []
    requires ReadsAs(ElementAddress(Some(repo), address), identities, parts)
    ensures parts == ElementParts(Some(repo), address) <==>
              && (address == [] || address[0] != '/') && !EndsBlank(address)
              && NothingLonger(repo + "/" + address, repo, identities)
  {
    WrittenAddressParses(repo, address);
    ResolvedRoundTrip(repo, address, identities, parts);
  }

  /** A bare address reads back bare exactly when it has no trailing blank and no identity matches it. */
  lemma BareRoundTrip(address: string, identities: seq<string>, parts: ElementParts)
    requires ReadsAs(ElementAddress(None, address), identities, parts)
    ensures parts == ElementParts(None, address) <==>
              !EndsBlank(address) && forall i :: 0 <= i < |identities| ==> !Matches(address, identities[i])
  {
    if TrimEnd(address) == [] {
      NothingAfterScheme(address);
    } else {
      ElementParses(address);
      assert EndsBlank(address) <==> TrimEnd(address) != address;
    }
  }

  lemma NothingAfterScheme(address: string)
    requires TrimEnd(address) == []
    ensures Parse(ELEMENT_SCHEME + address) == Err(Empty)
  {
    var text := ELEMENT_SCHEME + address;
    assert text[0] == 'e';
    assert TrimStart(text) == text;
    TrimEndConcat(ELEMENT_SCHEME, address);
  }

  // ----- conversations and turns

  predicate IsHexGroup(group: string, width: nat) {
    |group| == width && forall i :: 0 <= i < |group| ==> Ddoc.IsLowerHex(group[i])
  }

  const GROUPS: seq<nat> := [8, 4, 4, 4, 12]

  /** A canonical lowercase UUID: 8-4-4-4-12. */
  predicate IsConversationId(value: string) {
    var groups := Split(value, "-");
    |groups| == |GROUPS| && forall i :: 0 <= i < |groups| ==> IsHexGroup(groups[i], GROUPS[i])
  }

  lemma HexLacks(group: string, c: char)
    requires !Ddoc.IsLowerHex(c) && forall i :: 0 <= i < |group| ==> Ddoc.IsLowerHex(group[i])
    ensures c !in group
  {
  }

  lemma IdLacksHash(id: string)
    requires IsConversationId(id)
    ensures '#' !in id && id != [] && !IsWhitespace(id[|id| - 1])
  {
    var groups := Split(id, "-");
    JoinSplit(id, "-");
    assert Find([], "-") == None;
    forall i, c | 0 <= i < |groups| && (c == '#' || IsWhitespace(c)) ensures c !in groups[i] {
      HexLacks(groups[i], c);
    }
    Ddoc.JoinLacks(groups, "-", '#');
    forall c | IsWhitespace(c) ensures c !in id {
      Ddoc.JoinLacks(groups, "-", c);
    }
  }

  function Concatenated(id: string, turn: nat): string {
    CONVERSATION_SCHEME + (id + TURN_SEPARATOR + Render(turn))
  }

  /** The program's renderer of a turn's address, digits and all. */
  method TurnAddress(id: string, turn: nat) returns (address: string)
    requires turn <= U32_MAX
    ensures address == Concatenated(id, turn)
  {
    address := CONVERSATION_SCHEME + id;
    address := address + TURN_SEPARATOR;
    var buffer, start := Itoa64(turn);
    Utf8.DecodeEncode(Render(turn));
    address := address + Utf8.Decode(buffer[start..]);
  }

  lemma TurnParses(id: string, turn: nat)
    requires IsConversationId(id) && turn <= U32_MAX
    ensures ParseConversation(id + TURN_SEPARATOR + Render(turn)) == Ok(Conversation(id, Some(turn)))
    ensures ParseConversation(id) == Ok(Conversation(id, None))
  {
    var rest := id + TURN_SEPARATOR + Render(turn);
    IdLacksHash(id);
    FirstSeparator(id, Render(turn));
    assert rest[|id| + 2..] == Render(turn) && rest[..|id|] == id;
    ParseRendered(turn);
  }

  lemma ConversationParses(rest: string)
    requires rest != [] && !IsWhitespace(rest[|rest| - 1])
    ensures Parse(CONVERSATION_SCHEME + rest) == ParseConversation(rest)
  {
    SchemeIsTrimmed(rest);
    SchemeParses(rest);
  }

  /** Every turn of every conversation parses back from its address unchanged ... */
  lemma TurnAddressParses(id: string, turn: nat)
    requires IsConversationId(id) && turn <= U32_MAX
    ensures Parse(Concatenated(id, turn)) == Ok(Conversation(id, Some(turn)))
  {
    TurnParses(id, turn);
    ConversationParses(id + TURN_SEPARATOR + Render(turn));
  }

  /** ... and so does the conversation itself. */
  lemma ConversationAddressParses(id: string)
    requires IsConversationId(id)
    ensures Parse(CONVERSATION_SCHEME + id) == Ok(Conversation(id, None))
  {
    IdLacksHash(id);
    TurnParses(id, 0);
    ConversationParses(id);
  }

  lemma FirstSeparator(id: string, digits: string)
    requires '#' !in id
    ensures Find(id + TURN_SEPARATOR + digits, TURN_SEPARATOR) == Some(|id|)
    ensures Find(id, TURN_SEPARATOR) == None
  {
    var s := id + TURN_SEPARATOR + digits;
    assert TURN_SEPARATOR <= s[|id|..];
    forall j | 0 <= j < |id| ensures !(TURN_SEPARATOR <= s[j..]) && !(TURN_SEPARATOR <= id[j..]) {
      assert s[j..][0] == id[j] && id[j..][0] == id[j] && id[j] in id;
    }
  }
}

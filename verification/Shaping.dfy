/**
 Conversation turns and the payload policy applied to every one of them before it is
 stored: NUL scrubbing, path-only write-family inputs, and result heads of 512 bytes.
 */
module Shaping {
  import opened Text
  import opened Utf8

  datatype TurnRole = Human | Agent
  datatype TurnSource = Typed | Peer | System
  datatype ToolInput = Verbatim(text: string) | Elided(path: string, bytes: nat)

  datatype TurnItem =
    | ToolCall(tool: string, input: ToolInput)
    | ToolResult(tool: string, head: string, totalBytes: nat, truncated: bool)

  datatype Turn = Turn(turnNo: nat, role: TurnRole, source: TurnSource,
                       headSha: Option<string>, at: string, body: string, items: seq<TurnItem>)

  const OUTPUT_HEAD_BYTES: nat := 512
  const NUL := '\0'
  const NUL_REPLACEMENT := '\U{FFFD}'

  predicate NulFree(s: string) { NUL !in s }

  function ScrubNul(s: string): (r: string)
    ensures |r| == |s| && NulFree(r)
    ensures forall i :: 0 <= i < |s| ==> r[i] == if s[i] == '\0' then '\U{FFFD}' else s[i]
    ensures NulFree(s) ==> r == s
  {
    seq(|s|, i requires 0 <= i < |s| => if s[i] == NUL then NUL_REPLACEMENT else s[i])
  }

  // ----- the write family

  const WRITE_FAMILY: seq<string> := ["write", "edit", "create", "str_replace", "apply_patch", "multiedit"]

  predicate EqualsIgnoringCase(name: string, family: string) {
    |name| == |family| && forall i :: 0 <= i < |name| ==> Lower(name[i]) == Lower(family[i])
  }

  /** `family` followed by something other than a letter or digit: `str_replace` but not `editor`. */
  predicate StartsWithFamily(name: string, family: string) {
    |name| > |family| && EqualsIgnoringCase(name[..|family|], family) && !IsAsciiAlphanumeric(name[|family|])
  }

  predicate IsWriteFamily(tool: string) {
    var cut := FindLast(tool, {'.', '/', ':'});
    var name := if cut.Some? then tool[cut.value + 1..] else tool;
    exists family :: family in WRITE_FAMILY && (EqualsIgnoringCase(name, family) || StartsWithFamily(name, family))
  }

  // ----- the path of a write input

  predicate StartsWith(s: string, c: char) { s != [] && s[0] == c }

  ghost predicate Within(part: string, whole: string) { forall c :: c in part ==> c in whole }

  lemma TrimIsWithin(s: string)
    ensures Within(Trim(s), s) && |Trim(s)| <= |s|
  {
    assert Trim(s) <= TrimStart(s);
  }

  /** Up to the first line break; `lines` also drops a carriage return there, as `Trim` does. */
  function FirstLine(text: string): (line: string)
    ensures Within(line, text) && |line| <= |text|
  {
    var cut := FindAny(text, {'\n'});
    var line := if cut.Some? then text[..cut.value] else text;
    TrimIsWithin(line);
    Trim(line)
  }

  /** The rest of `json` from the string that follows `key`, its opening quote left off. */
  function RawStringAfter(json: string, key: string): (value: Option<string>)
    ensures value.Some? ==> Within(value.value, json) && |value.value| + |key| < |json|
  {
    var at := Find(json, key);
    if at.None? then None
    else
      var rest := TrimStart(json[at.value + |key|..]);
      if StartsWith(rest, '"') then Some(rest[1..]) else None
  }

  /** The string that follows `key`, unless it has an escape in it or never ends. */
  function JsonStringAfter(json: string, key: string): (value: Option<string>)
    ensures value.Some? ==> Within(value.value, json) && |value.value| + |key| < |json|
  {
    var value := RawStringAfter(json, key);
    if value.None? then None
    else
      var end := FindAny(value.value, {'"', '\\'});
      if end.Some? && value.value[end.value] == '"' then Some(value.value[..end.value]) else None
  }

  const INPUT_KEY := "\"input\":"

  /** The target of `[path#HASH]`, without its hash. */
  function BracketedTarget(input: string): (path: Option<string>)
    ensures path.Some? ==> Within(path.value, input) && |path.value| <= |input|
  {
    if !StartsWith(input, '[') then None
    else
      var end := FindAny(input, {']', '\\'});
      if end.None? then None
      else
        var hash := FindLast(input[1..end.value], {'#'});
        Some(if hash.Some? then input[1..hash.value + 1] else input[1..end.value])
  }

  /** The file a hashline edit names, wherever its input string ends. */
  function HashlineTarget(json: string): (path: Option<string>)
    ensures path.Some? ==> Within(path.value, json) && |path.value| < |json|
  {
    var quoted := JsonStringAfter(json, INPUT_KEY);
    var input := if quoted.Some? then quoted else RawStringAfter(json, INPUT_KEY);
    if input.None? then None else BracketedTarget(input.value)
  }

  /** The keys a harness names a file under, as they stand in JSON text. */
  const PATH_KEYS: seq<string> := ["\"file_path\":", "\"path\":", "\"filePath\":"]

  /** `find_map`: the first thing picked, from the `i`th key on. */
  function FirstSome(pick: string -> Option<string>, keys: seq<string>, i: nat): (found: Option<string>)
    requires i <= |keys|
    ensures found.Some? ==> exists j :: i <= j < |keys| && pick(keys[j]) == found
    decreases |keys| - i
  {
    if i == |keys| then None
    else if pick(keys[i]).Some? then pick(keys[i])
    else FirstSome(pick, keys, i + 1)
  }

  function StringsOf(json: string): string -> Option<string> { (key: string) => JsonStringAfter(json, key) }

  /** The string behind the first key that gives one. */
  function Keyed(json: string): (path: Option<string>)
    ensures path.Some? ==> exists j :: 0 <= j < |PATH_KEYS| && JsonStringAfter(json, PATH_KEYS[j]) == path
  {
    FirstSome(StringsOf(json), PATH_KEYS, 0)
  }

  /** That string, or else the hashline target. */
  function Found(json: string): (path: Option<string>)
    ensures path.Some? ==> Within(path.value, json) && |path.value| < |json|
  {
    if Keyed(json).Some? then Keyed(json) else HashlineTarget(json)
  }

  function JsonPath(json: string): (path: Option<string>)
    ensures path.Some? ==> Within(path.value, json) && 0 < |path.value| < |json|
  {
    var found := Found(json);
    if found.None? then None
    else
      TrimIsWithin(found.value);
      if Trim(found.value) != [] then Some(Trim(found.value)) else None
  }

  function ElidedPath(text: string): (path: string)
    ensures Within(path, text)
    ensures StartsWith(text, '{') ==> |path| < |text|
  {
    var trimmed := TrimStart(text);
    if !StartsWith(trimmed, '{') then FirstLine(text)
    else if JsonPath(trimmed).Some? then JsonPath(trimmed).value
    else ""
  }

  // ----- one item, one turn

  /** What is kept of a result: the longest run of whole characters within 512 bytes. */
  function Head(head: string): string {
    if ByteLen(head) > OUTPUT_HEAD_BYTES then head[..Fit(head, OUTPUT_HEAD_BYTES)] else head
  }

  function ShapeInput(tool: string, input: ToolInput): ToolInput {
    match input
    case Verbatim(text) =>
      var clean := ScrubNul(text);
      if IsWriteFamily(tool) then Elided(ElidedPath(clean), ByteLen(clean)) else Verbatim(clean)
    case Elided(path, bytes) =>
      var clean := ScrubNul(path);
      Elided(if StartsWith(clean, '{') then ElidedPath(clean) else clean, bytes)
  }

  function ShapeItem(item: TurnItem): TurnItem {
    match item
    case ToolCall(tool, input) =>
      ToolCall(ScrubNul(tool), ShapeInput(ScrubNul(tool), input))
    case ToolResult(tool, head, totalBytes, truncated) =>
      var clean := ScrubNul(head);
      var cut := ByteLen(clean) > OUTPUT_HEAD_BYTES;
      ToolResult(ScrubNul(tool), Head(clean),
                 if cut && !truncated then ByteLen(clean) else totalBytes, truncated || cut)
  }

  function ShapeItems(items: seq<TurnItem>): seq<TurnItem> {
    seq(|items|, i requires 0 <= i < |items| => ShapeItem(items[i]))
  }

  function Shaped(turn: Turn): Turn {
    turn.(headSha := if turn.headSha.Some? then Some(ScrubNul(turn.headSha.value)) else None,
    at := ScrubNul(turn.at), body := ScrubNul(turn.body), items := ShapeItems(turn.items))
  }

  /** The byte-level cut: truncate the stored bytes at a character boundary. */
  method CutHead(head: string) returns (kept: string)
    ensures kept == Head(head)
  {
    kept := head;
    var bytes := Encode(head);
    if |bytes| > OUTPUT_HEAD_BYTES {
      var cut := FloorCharBoundary(bytes, OUTPUT_HEAD_BYTES);
      FloorIsFit(head, OUTPUT_HEAD_BYTES, cut);
      DecodeEncode(head[..Fit(head, OUTPUT_HEAD_BYTES)]);
      kept := Decode(bytes[..cut]);
    }
  }

  method RewriteItem(item: TurnItem) returns (shaped: TurnItem)
    ensures shaped == ShapeItem(item)
  {
    match item {
      case ToolCall(tool, input) =>
        shaped := ToolCall(ScrubNul(tool), ShapeInput(ScrubNul(tool), input));
      case ToolResult(tool, head, totalBytes, truncated) =>
        var clean, total, cut := ScrubNul(head), totalBytes, truncated;
        var kept := CutHead(clean);
        if ByteLen(clean) > OUTPUT_HEAD_BYTES {
          if !cut {
            total := ByteLen(clean);
          }
          cut := true;
        }
        shaped := ToolResult(ScrubNul(tool), kept, total, cut);
    }
  }

  /** The program's pass: scrub the turn's own text, then rewrite its items one by one. */
  method ShapeTurn(turn: Turn) returns (shaped: Turn)
    ensures shaped == Shaped(turn)
  {
    shaped := turn.(body := ScrubNul(turn.body), at := ScrubNul(turn.at));
    if shaped.headSha.Some? {
      shaped := shaped.(headSha := Some(ScrubNul(shaped.headSha.value)));
    }
    var items := turn.items;
    var i := 0;
    while i < |turn.items|
      invariant i <= |items| == |turn.items|
      invariant forall j :: 0 <= j < i ==> items[j] == ShapeItem(turn.items[j])
      invariant forall j :: i <= j < |items| ==> items[j] == turn.items[j]
    {
      var item := RewriteItem(items[i]);
      items := items[i := item];
      i := i + 1;
    }
    assert items == ShapeItems(turn.items);
    shaped := shaped.(items := items);
  }

  // ----- what the policy guarantees

  ghost predicate NoNulAnywhere(item: TurnItem) {
    NulFree(item.tool) &&
    match item
    case ToolCall(_, Verbatim(text)) => NulFree(text)
    case ToolCall(_, Elided(path, _)) => NulFree(path)
    case ToolResult(_, head, _, _) => NulFree(head)
  }

  /** No text of a shaped turn holds NUL, and every write-family call's input is a path and a size. */
  lemma ShapedTextIsStorable(turn: Turn)
    ensures var t := Shaped(turn);
            NulFree(t.body) && NulFree(t.at) && (t.headSha.Some? ==> NulFree(t.headSha.value))
    ensures forall item :: item in Shaped(turn).items ==> NoNulAnywhere(item)
    ensures forall item :: item in Shaped(turn).items && item.ToolCall? && IsWriteFamily(item.tool)
                           ==> item.input.Elided?
  {
  }

  /**
   A stored head is the longest whole-character prefix of the scrubbed result that fits in
   512 bytes; the size recorded is the whole result's, unless a client had already cut it.
   */
  lemma HeadIsLongestPrefix(item: TurnItem)
    requires item.ToolResult?
    ensures var (clean, kept) := (ScrubNul(item.head), ShapeItem(item).head);
            && kept <= clean && ByteLen(kept) <= OUTPUT_HEAD_BYTES
            && (forall longer :: kept < longer <= clean ==> ByteLen(longer) > OUTPUT_HEAD_BYTES)
            && ((kept == clean) <==> ByteLen(clean) <= OUTPUT_HEAD_BYTES)
            && (ShapeItem(item).truncated <==> item.truncated || kept != clean)
            && ShapeItem(item).totalBytes
               == if kept != clean && !item.truncated then ByteLen(clean) else item.totalBytes
  {
    var clean := ScrubNul(item.head);
    var fit := Fit(clean, OUTPUT_HEAD_BYTES);
    FitIsLongest(clean, OUTPUT_HEAD_BYTES);
    assert clean[..|clean|] == clean;
    forall longer | clean[..fit] < longer <= clean ensures ByteLen(longer) > OUTPUT_HEAD_BYTES {
      assert longer == clean[..|longer|];
      PrefixLenMonotone(clean, fit + 1, |longer|);
    }
  }

  // ----- what an elided input keeps

  /** Text that is its own first line, and not JSON. */
  predicate IsPlainLine(text: string) {
    !StartsWith(TrimStart(text), '{') && '\n' !in text && IsTrimmed(text)
  }

  lemma TrimmedIsWhole(text: string)
    ensures Trim(text) == text <==> IsTrimmed(text)
    ensures |Trim(text)| <= |text|
  {
    TrimIsTrimmed(text);
  }

  lemma FirstLineIsWhole(text: string)
    ensures FirstLine(text) == text <==> '\n' !in text && IsTrimmed(text)
  {
    var cut := FindAny(text, {'\n'});
    if cut.Some? {
      TrimmedIsWhole(text[..cut.value]);
      assert text[cut.value] == '\n' && |FirstLine(text)| < |text|;
    } else {
      TrimmedIsWhole(text);
    }
  }

  /**
   The path stored is the whole input exactly when the input is one trimmed line that does not
   open with a brace: such an input keeps its body, whatever that line holds.
   */
  lemma PathIsWholeInputExactlyWhen(text: string)
    ensures ElidedPath(text) == text <==> IsPlainLine(text)
  {
    if StartsWith(TrimStart(text), '{') {
      assert |TrimStart(text)| <= |text| && text != [];
    } else {
      FirstLineIsWhole(text);
    }
  }

  /** For a stored call: the path of a write-family call is its whole scrubbed input exactly in that case. */
  lemma WriteCallKeepsItsInputExactlyWhen(tool: string, text: string)
    requires IsWriteFamily(ScrubNul(tool))
    ensures var stored := ShapeItem(ToolCall(tool, Verbatim(text))).input;
            stored.Elided? && stored.bytes == ByteLen(ScrubNul(text))
            && (stored.path == ScrubNul(text) <==> IsPlainLine(ScrubNul(text)))
  {
    PathIsWholeInputExactlyWhen(ScrubNul(text));
  }

  lemma WriteIsWriteFamily()
    ensures IsWriteFamily("write") && ScrubNul("write") == "write"
  {
    var family := WRITE_FAMILY[0];
    assert FindLast("write", {'.', '/', ':'}).None?;
    assert family == "write" && EqualsIgnoringCase("write", family);
    assert family in WRITE_FAMILY;
  }

  lemma BracketedIsPlainLine(inside: string)
    requires '\n' !in inside
    ensures IsPlainLine("[" + inside + "]")
  {
    var text := "[" + inside + "]";
    assert text[0] == '[' && TrimStart(text) == text;
  }

  /** Such inputs are real: a one-line JSON array is stored whole as the path, file content included. */
  lemma OneLineArrayIsKeptWhole(inside: string)
    requires '\n' !in inside && NulFree(inside)
    ensures var text := "[" + inside + "]";
            ShapeItem(ToolCall("write", Verbatim(text))) == ToolCall("write", Elided(text, ByteLen(text)))
  {
    var text := "[" + inside + "]";
    WriteIsWriteFamily();
    BracketedIsPlainLine(inside);
    assert ScrubNul(text) == text;
    WriteCallKeepsItsInputExactlyWhen("write", text);
  }

  // ----- what JSON input yields

  /** No quote and no escape: characters of a single string literal. */
  ghost predicate IsOneLiteral(text: string) { '"' !in text && '\\' !in text }

  lemma CutIsOneLiteral(raw: string, end: nat)
    requires end <= |raw| && forall j :: 0 <= j < end ==> raw[j] !in {'"', '\\'}
    ensures IsOneLiteral(raw[..end])
  {
  }

  lemma KeyedIsOneLiteral(json: string, key: string)
    requires JsonStringAfter(json, key).Some?
    ensures IsOneLiteral(JsonStringAfter(json, key).value)
  {
    var raw := RawStringAfter(json, key).value;
    CutIsOneLiteral(raw, FindAny(raw, {'"', '\\'}).value);
  }

  /** No quote comes before the first escape. */
  ghost predicate EscapesFirst(input: string) {
    forall j :: 0 <= j < |input| && input[j] == '"' ==> exists k :: 0 <= k < j && input[k] == '\\'
  }

  /** A bracketed target stops before any escape. */
  lemma TargetIsOneLiteral(input: string)
    requires EscapesFirst(input) && BracketedTarget(input).Some?
    ensures IsOneLiteral(BracketedTarget(input).value)
  {
    var end := FindAny(input, {']', '\\'}).value;
    forall j | 0 <= j < end ensures input[j] !in {'"', '\\'} {
      assert forall k :: 0 <= k <= j ==> input[k] !in {']', '\\'};
    }
    var path := BracketedTarget(input).value;
    assert forall j :: 0 <= j < |path| ==> path[j] == input[1 + j];
  }

  lemma RawEscapesFirst(raw: string)
    requires var end := FindAny(raw, {'"', '\\'}); end.None? || raw[end.value] == '\\'
    ensures EscapesFirst(raw)
  {
  }

  lemma LiteralEscapesFirst(text: string)
    requires IsOneLiteral(text)
    ensures EscapesFirst(text)
  {
    assert forall j :: 0 <= j < |text| ==> text[j] in text;
  }

  lemma UnquotedEscapesFirst(json: string, key: string)
    requires RawStringAfter(json, key).Some? && JsonStringAfter(json, key).None?
    ensures EscapesFirst(RawStringAfter(json, key).value)
  {
    RawEscapesFirst(RawStringAfter(json, key).value);
  }

  lemma HashlineIsOneLiteral(json: string)
    requires HashlineTarget(json).Some?
    ensures IsOneLiteral(HashlineTarget(json).value)
  {
    var quoted := JsonStringAfter(json, INPUT_KEY);
    if quoted.Some? {
      KeyedIsOneLiteral(json, INPUT_KEY);
      LiteralEscapesFirst(quoted.value);
      TargetIsOneLiteral(quoted.value);
    } else {
      UnquotedEscapesFirst(json, INPUT_KEY);
      TargetIsOneLiteral(RawStringAfter(json, INPUT_KEY).value);
    }
  }

  lemma TrimKeepsOneLiteral(text: string)
    requires IsOneLiteral(text)
    ensures IsOneLiteral(Trim(text))
  {
    assert forall c :: c in TrimEnd(TrimStart(text)) ==> c in TrimStart(text);
  }

  /**
   Whichever key or form names it, the path a JSON input yields is characters of one string:
   it never holds a quote or an escape, so never a second member.
   */
  lemma JsonPathIsOneLiteral(json: string)
    requires JsonPath(json).Some?
    ensures IsOneLiteral(JsonPath(json).value)
  {
    if Keyed(json).Some? {
      var j :| 0 <= j < |PATH_KEYS| && JsonStringAfter(json, PATH_KEYS[j]) == Keyed(json);
      KeyedIsOneLiteral(json, PATH_KEYS[j]);
    } else {
      HashlineIsOneLiteral(json);
    }
    TrimKeepsOneLiteral(Found(json).value);
  }

  /** Hence for every write-family input that opens with a brace. */
  lemma JsonInputNeverKeepsItsBody(text: string)
    requires StartsWith(TrimStart(text), '{')
    ensures IsOneLiteral(ElidedPath(text))
  {
    if JsonPath(TrimStart(text)).Some? {
      JsonPathIsOneLiteral(TrimStart(text));
    }
  }

  lemma {:induction false} TrimStartSkips(blanks: string, text: string)
    requires (forall c :: c in blanks ==> IsWhitespace(c)) && text != [] && !IsWhitespace(text[0])
    ensures TrimStart(blanks + text) == text
  {
    if blanks == [] {
      assert blanks + text == text;
    } else {
      assert blanks[0] in blanks && (blanks + text)[1..] == blanks[1..] + text;
      TrimStartSkips(blanks[1..], text);
    }
  }

  lemma LiteralEnds(path: string, rest: string)
    requires IsOneLiteral(path)
    ensures FindAny(path + "\"" + rest, {'"', '\\'}) == Some(|path|)
    ensures (path + "\"" + rest)[..|path|] == path && (path + "\"" + rest)[|path|] == '"'
  {
    var text := path + "\"" + rest;
    forall j | 0 <= j < |path| ensures text[j] !in {'"', '\\'} {
      assert path[j] in path && text[j] == path[j];
    }
    assert text[|path|] == '"';
  }

  /** `key`'s first occurrence in `json` is followed by blanks, a quote and `raw`. */
  ghost predicate Follows(json: string, key: string, blanks: string, raw: string) {
    && Find(json, key).Some? && (forall c :: c in blanks ==> IsWhitespace(c))
    && json[Find(json, key).value + |key|..] == blanks + ("\"" + raw)
  }

  lemma RawStringFollows(json: string, key: string, blanks: string, raw: string)
    requires Follows(json, key, blanks, raw)
    ensures RawStringAfter(json, key) == Some(raw)
  {
    TrimStartSkips(blanks, "\"" + raw);
    assert ("\"" + raw)[1..] == raw;
  }

  lemma StringFollows(json: string, key: string, blanks: string, path: string, rest: string)
    requires Follows(json, key, blanks, path + "\"" + rest) && IsOneLiteral(path)
    ensures JsonStringAfter(json, key) == Some(path)
  {
    RawStringFollows(json, key, blanks, path + "\"" + rest);
    LiteralEnds(path, rest);
  }

  lemma {:induction false} FirstSomeIs(pick: string -> Option<string>, keys: seq<string>, i: nat, k: nat)
    requires i <= k < |keys| && pick(keys[k]).Some? && forall j :: i <= j < k ==> pick(keys[j]).None?
    ensures FirstSome(pick, keys, i) == pick(keys[k])
    decreases k - i
  {
    if i < k {
      FirstSomeIs(pick, keys, i + 1, k);
    }
  }

  lemma FoundIsKept(json: string, path: string)
    requires StartsWith(json, '{') && Found(json) == Some(path)
    ensures ElidedPath(json) == Trim(path)
  {
    assert TrimStart(json) == json;
  }

  /**
   Wherever in a JSON input a key stands, whatever comes before, between and after, the path
   stored is exactly the string behind it: the first of the three keys that gives one counts.
   */
  lemma NamedPathIsKept(json: string, k: nat, blanks: string, path: string, rest: string)
    requires StartsWith(json, '{') && k < |PATH_KEYS|
    requires forall j :: 0 <= j < k ==> JsonStringAfter(json, PATH_KEYS[j]).None?
    requires Follows(json, PATH_KEYS[k], blanks, path + "\"" + rest) && IsOneLiteral(path)
    ensures Found(json) == Some(path) && ElidedPath(json) == Trim(path)
  {
    StringFollows(json, PATH_KEYS[k], blanks, path, rest);
    FirstSomeIs(StringsOf(json), PATH_KEYS, 0, k);
    FoundIsKept(json, path);
  }

  /** What a hashline edit opens with. */
  function Bracketed(target: string, hash: string): string { "[" + target + "#" + hash + "]" }

  predicate IsTargetText(text: string) { ']' !in text && '\\' !in text && '"' !in text }

  lemma BracketedIsTarget(target: string, hash: string, more: string)
    requires IsTargetText(target) && IsTargetText(hash) && '#' !in hash
    ensures BracketedTarget(Bracketed(target, hash) + more) == Some(target)
  {
    var input, inner := Bracketed(target, hash) + more, target + "#" + hash;
    var end := |inner| + 1;
    forall j | 0 <= j < end ensures input[j] !in {']', '\\'} {
      assert j > 0 ==> input[j] == inner[j - 1] && inner[j - 1] in inner;
    }
    assert input[end] == ']' && FindAny(input, {']', '\\'}) == Some(end);
    assert input[1..end] == inner;
    HashAt(target, hash);
    assert input[1..|target| + 1] == target;
  }

  lemma FindLastIs(s: string, c: char, at: nat)
    requires at < |s| && s[at] == c && c !in s[at + 1..]
    ensures FindLast(s, {c}) == Some(at)
  {
    var found := FindLast(s, {c});
    assert forall j :: at < j < |s| ==> s[j] == s[at + 1..][j - at - 1];
  }

  lemma HashAt(target: string, hash: string)
    requires '#' !in hash
    ensures FindLast(target + "#" + hash, {'#'}) == Some(|target|)
  {
    assert (target + "#" + hash)[|target| + 1..] == hash;
    FindLastIs(target + "#" + hash, '#', |target|);
  }

  /** A string cut at its first quote, or whole, still opens with the brackets. */
  lemma BracketsSurvive(head: string, more: string, end: nat)
    requires IsOneLiteral(head) && end <= |head + more| && FindAny(head + more, {'"', '\\'}) == Some(end)
    ensures |head| <= end && (head + more)[..end] == head + (head + more)[|head|..end]
  {
    assert forall j :: 0 <= j < |head| ==> (head + more)[j] == head[j];
  }

  lemma HashlineTargetIs(json: string, target: string, hash: string, rest: string)
    requires RawStringAfter(json, INPUT_KEY) == Some(Bracketed(target, hash) + rest)
    requires IsTargetText(target) && IsTargetText(hash) && '#' !in hash
    ensures HashlineTarget(json) == Some(target)
  {
    var head := Bracketed(target, hash);
    assert IsOneLiteral(head);
    if JsonStringAfter(json, INPUT_KEY).Some? {
      var end := FindAny(head + rest, {'"', '\\'}).value;
      BracketsSurvive(head, rest, end);
      BracketedIsTarget(target, hash, (head + rest)[|head|..end]);
    } else {
      BracketedIsTarget(target, hash, rest);
    }
  }

  /** A hashline edit that names no file by key is stored as exactly its bracketed target. */
  lemma HashlineTargetIsKept(json: string, blanks: string, target: string, hash: string, rest: string)
    requires StartsWith(json, '{')
    requires forall j :: 0 <= j < |PATH_KEYS| ==> JsonStringAfter(json, PATH_KEYS[j]).None?
    requires Follows(json, INPUT_KEY, blanks, Bracketed(target, hash) + rest)
    requires IsTargetText(target) && IsTargetText(hash) && '#' !in hash
    ensures ElidedPath(json) == Trim(target)
  {
    RawStringFollows(json, INPUT_KEY, blanks, Bracketed(target, hash) + rest);
    HashlineTargetIs(json, target, hash, rest);
    FoundIsKept(json, target);
  }

  /** A path JSON stores without an escape and `trim` leaves alone. */
  predicate IsPlainPath(path: string) {
    path != [] && IsTrimmed(path) && '"' !in path && '\\' !in path
  }

  const FILE_PATH_KEY := "\"file_path\":"

  /** A harness's write input: the path first, then anything at all, the body included. */
  function FileInput(path: string, rest: string): string {
    "{" + FILE_PATH_KEY + "\"" + path + "\"" + rest
  }

  lemma FileInputFollows(path: string, rest: string)
    ensures Follows(FileInput(path, rest), FILE_PATH_KEY, [], path + "\"" + rest)
  {
    var json := FileInput(path, rest);
    assert FILE_PATH_KEY <= json[1..] && FILE_PATH_KEY[0] != json[0];
    assert Find(json, FILE_PATH_KEY) == Some(1);
    assert json[1 + |FILE_PATH_KEY|..] == [] + ("\"" + (path + "\"" + rest));
  }

  /** In particular such an input is stored as exactly its path, whatever the rest of it holds. */
  lemma JsonInputKeepsOnlyItsPath(path: string, rest: string)
    requires IsPlainPath(path)
    ensures JsonPath(FileInput(path, rest)) == Some(path)
    ensures ElidedPath(FileInput(path, rest)) == path
  {
    FileInputFollows(path, rest);
    NamedPathIsKept(FileInput(path, rest), 0, [], path, rest);
    TrimIsTrimmed(path);
  }

  lemma FirstBreak(line: string, body: string)
    requires '\n' !in line
    ensures FindAny(line + "\n" + body, {'\n'}) == Some(|line|) && (line + "\n" + body)[..|line|] == line
    ensures FindAny(line, {'\n'}).None?
  {
    var text := line + "\n" + body;
    assert text[|line|] == '\n';
    assert forall j :: 0 <= j < |line| ==> text[j] == line[j];
  }

  /** Any other input is stored as its trimmed first line, blank or not, whatever the lines below it hold. */
  lemma PlainInputKeepsOnlyItsFirstLine(line: string, body: string)
    requires '\n' !in line && !StartsWith(TrimStart(line + "\n" + body), '{') && !StartsWith(TrimStart(line), '{')
    ensures ElidedPath(line + "\n" + body) == Trim(line) && ElidedPath(line) == Trim(line)
  {
    FirstBreak(line, body);
  }

  // ----- shaping twice

  /** The branch the second pass rewrites by: a stored path that reads as JSON. */
  predicate PathIsJson(item: TurnItem) {
    item.ToolCall? && item.input.Elided? && StartsWith(item.input.path, '{')
  }

  /** Text that is not JSON never yields a path that reads as JSON. */
  lemma PlainTextGivesPlainPath(text: string)
    requires !StartsWith(TrimStart(text), '{')
    ensures !StartsWith(ElidedPath(text), '{')
  {
    var cut := FindAny(text, {'\n'});
    var line := if cut.Some? then text[..cut.value] else text;
    assert line <= text;
    if TrimStart(line) != [] {
      TrimStartOfPrefix(line, text);
    }
  }

  /** JSON text whose own path value starts with a brace. */
  predicate JsonNamesBracedPath(text: string) {
    var json := TrimStart(text);
    StartsWith(json, '{') && JsonPath(json).Some? && StartsWith(JsonPath(json).value, '{')
  }

  lemma BracedPathsComeFromJson(text: string)
    ensures StartsWith(ElidedPath(text), '{') <==> JsonNamesBracedPath(text)
  {
    if !StartsWith(TrimStart(text), '{') {
      PlainTextGivesPlainPath(text);
    }
  }

  /** Before shaping: the items whose path will be read from such JSON. */
  predicate NamesBracedPath(item: TurnItem) {
    match item
    case ToolCall(tool, Verbatim(text)) => IsWriteFamily(ScrubNul(tool)) && JsonNamesBracedPath(ScrubNul(text))
    case ToolCall(_, Elided(path, _)) => StartsWith(ScrubNul(path), '{') && JsonNamesBracedPath(ScrubNul(path))
    case ToolResult(_, _, _, _) => false
  }

  lemma BracedItems(item: TurnItem)
    ensures PathIsJson(ShapeItem(item)) <==> NamesBracedPath(item)
  {
    if item.ToolCall? {
      BracedPathsComeFromJson(ScrubNul(if item.input.Verbatim? then item.input.text else item.input.path));
    }
  }

  lemma ItemSecondPass(item: TurnItem)
    ensures ShapeItem(ShapeItem(item)) == ShapeItem(item) <==> !PathIsJson(ShapeItem(item))
  {
    if item.ToolResult? {
      HeadIsLongestPrefix(item);
    }
  }

  /**
   Shaping an already shaped turn changes nothing exactly when the first pass left no path
   starting with a brace, the guard of the branch that rewrites stored paths ...
   */
  lemma SecondPassIsIdentity(turn: Turn)
    ensures Shaped(Shaped(turn)) == Shaped(turn)
            <==> forall i :: 0 <= i < |turn.items| ==> !PathIsJson(ShapeItem(turn.items[i]))
  {
    var once := Shaped(turn).items;
    var twice := Shaped(Shaped(turn)).items;
    forall i | 0 <= i < |once| ensures twice[i] == once[i] <==> !PathIsJson(ShapeItem(turn.items[i])) {
      ItemSecondPass(turn.items[i]);
    }
    assert Shaped(Shaped(turn)) == Shaped(turn) <==> twice == once;
  }

  /** ... which is to say: when no item of the original turn names such a path in its JSON. */
  lemma ShapingIsIdempotentUnlessBraced(turn: Turn)
    ensures Shaped(Shaped(turn)) == Shaped(turn)
            <==> forall i :: 0 <= i < |turn.items| ==> !NamesBracedPath(turn.items[i])
  {
    forall i | 0 <= i < |turn.items|
      ensures PathIsJson(ShapeItem(turn.items[i])) <==> NamesBracedPath(turn.items[i])
    {
      BracedItems(turn.items[i]);
    }
    SecondPassIsIdentity(turn);
  }

  lemma BracedFileInput(path: string, rest: string)
    requires IsPlainPath(path) && path[0] == '{' && NulFree(path) && NulFree(rest)
    ensures ScrubNul(FileInput(path, rest)) == FileInput(path, rest)
    ensures JsonNamesBracedPath(FileInput(path, rest))
  {
    var json := FileInput(path, rest);
    assert NulFree(FILE_PATH_KEY);
    assert NulFree(json);
    JsonInputKeepsOnlyItsPath(path, rest);
    assert TrimStart(json) == json;
  }

  /** The failing family is real: a JSON write whose path starts with a brace, whatever follows it. */
  lemma SecondPassCanDiffer(turn: Turn, path: string, rest: string)
    requires IsPlainPath(path) && path[0] == '{' && NulFree(path) && NulFree(rest)
    requires turn.items == [ToolCall("write", Elided(FileInput(path, rest), 0))]
    ensures Shaped(Shaped(turn)) != Shaped(turn)
  {
    BracedFileInput(path, rest);
    assert NamesBracedPath(turn.items[0]);
    ShapingIsIdempotentUnlessBraced(turn);
  }

  // ----- repeated shaping settles

  function Passes(turn: Turn, n: nat): Turn
    decreases n
  {
    if n == 0 then turn else Passes(Shaped(turn), n - 1)
  }

  function BracedSize(item: TurnItem): nat {
    if PathIsJson(item) then |item.input.path| else 0
  }

  /** A pass that rewrites a path shortens it. */
  lemma ItemShrinks(item: TurnItem)
    ensures PathIsJson(item) ==> BracedSize(ShapeItem(item)) < BracedSize(item)
    ensures PathIsJson(ShapeItem(item)) || ShapeItem(ShapeItem(item)) == ShapeItem(item)
  {
    ItemSecondPass(item);
  }

  /** Hence shaping again and again reaches a fixed point, within as many passes as the longest such path. */
  lemma {:induction false} RepeatedShapingSettles(turn: Turn, n: nat)
    requires forall i :: 0 <= i < |turn.items| ==> BracedSize(ShapeItem(turn.items[i])) <= n
    ensures Shaped(Passes(Shaped(turn), n)) == Passes(Shaped(turn), n)
    decreases n
  {
    var once := Shaped(turn);
    if n == 0 {
      forall i | 0 <= i < |turn.items| ensures !PathIsJson(ShapeItem(turn.items[i])) {
        assert BracedSize(ShapeItem(turn.items[i])) <= 0;
      }
      SecondPassIsIdentity(turn);
    } else {
      forall i | 0 <= i < |once.items| ensures BracedSize(ShapeItem(once.items[i])) <= n - 1 {
        var item := turn.items[i];
        assert once.items[i] == ShapeItem(item);
        ItemShrinks(item);
        ItemShrinks(ShapeItem(item));
      }
      RepeatedShapingSettles(once, n - 1);
    }
  }
}

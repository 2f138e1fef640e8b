/**
 The payload policy in its own words: which tools write files, and what is stored of a call, a
 result and a turn.  `Shaping` is shown to do exactly this.
 */
module Policy {
  import opened Text
  import opened Utf8
  import opened Shaping

  // ----- the tools that write files

  /** A character of a lower-case name, or the capital of it. */
  predicate IsCaseOf(c: char, small: char) {
    c == small || ('a' <= small <= 'z' && c as int + 32 == small as int)
  }

  predicate IsSpelling(word: string, name: string) {
    |word| == |name| && forall i :: 0 <= i < |name| ==> IsCaseOf(word[i], name[i])
  }

  predicate IsSeparator(c: char) { c == '.' || c == '/' || c == ':' }

  /** Nothing, or text that opens with no letter or digit and holds no separator. */
  predicate IsSuffix(rest: string) {
    && (forall c :: c in rest ==> !IsSeparator(c))
    && (rest != [] ==> !('a' <= rest[0] <= 'z') && !('A' <= rest[0] <= 'Z') && !('0' <= rest[0] <= '9'))
  }

  predicate IsNamespace(space: string) { space == [] || IsSeparator(space[|space| - 1]) }

  predicate IsFamily(name: string) {
    || name == "write" || name == "edit" || name == "create"
    || name == "str_replace" || name == "apply_patch" || name == "multiedit"
  }

  /** `tool` is a namespace, one of the six names in any case, and a suffix. */
  ghost predicate IsSpelledFrom(tool: string, space: string, word: string, rest: string, name: string) {
    tool == space + word + rest && IsNamespace(space) && IsFamily(name) && IsSpelling(word, name) && IsSuffix(rest)
  }

  ghost predicate WritesFiles(tool: string) {
    exists space, word, rest, name :: IsSpelledFrom(tool, space, word, rest, name)
  }

  lemma FamilyIsListed(name: string)
    ensures name in WRITE_FAMILY <==> IsFamily(name)
  {
    assert WRITE_FAMILY[0] == "write" && WRITE_FAMILY[1] == "edit" && WRITE_FAMILY[2] == "create";
    assert WRITE_FAMILY[3] == "str_replace" && WRITE_FAMILY[4] == "apply_patch" && WRITE_FAMILY[5] == "multiedit";
  }

  predicate IsSmall(name: string) { forall i :: 0 <= i < |name| ==> name[i] == '_' || 'a' <= name[i] <= 'z' }

  lemma FamilyIsSmall(name: string)
    requires IsFamily(name)
    ensures IsSmall(name)
  {
  }

  lemma SpellingIgnoresCase(word: string, name: string)
    requires IsSmall(name)
    ensures EqualsIgnoringCase(word, name) <==> IsSpelling(word, name)
    ensures IsSpelling(word, name) ==> forall c :: c in word ==> !IsSeparator(c)
  {
    if |word| == |name| {
      forall i | 0 <= i < |name| ensures Lower(word[i]) == Lower(name[i]) <==> IsCaseOf(word[i], name[i]) {
      }
    }
  }

  /** What a family name followed by a suffix looks like to the code. */
  predicate IsFamilyName(name: string) {
    exists family :: family in WRITE_FAMILY && (EqualsIgnoringCase(name, family) || StartsWithFamily(name, family))
  }

  lemma LastSeparator(space: string, name: string)
    requires IsNamespace(space) && forall c :: c in name ==> !IsSeparator(c)
    ensures FindLast(space + name, {'.', '/', ':'}) == if space == [] then None else Some(|space| - 1)
  {
    var tool := space + name;
    forall j | |space| <= j < |tool| ensures tool[j] !in {'.', '/', ':'} {
      assert tool[j] == name[j - |space|] && tool[j] in name;
    }
    if space != [] {
      assert tool[|space| - 1] == space[|space| - 1];
    }
  }

  lemma BehindSpace(space: string, name: string)
    ensures (space + name)[|space|..] == name && (space == [] ==> space + name == name)
  {
  }

  lemma LastSegment(space: string, name: string)
    requires IsNamespace(space) && forall c :: c in name ==> !IsSeparator(c)
    ensures IsWriteFamily(space + name) <==> IsFamilyName(name)
  {
    LastSeparator(space, name);
    BehindSpace(space, name);
  }

  /** Before and after the last separator. */
  lemma CutAtLast(tool: string) returns (space: string, name: string)
    ensures tool == space + name && IsNamespace(space) && forall c :: c in name ==> !IsSeparator(c)
  {
    var cut := FindLast(tool, {'.', '/', ':'});
    if cut.Some? {
      space, name := tool[..cut.value + 1], tool[cut.value + 1..];
    } else {
      space, name := [], tool;
    }
  }

  lemma SpelledIsFamilyName(word: string, rest: string, name: string)
    requires IsFamily(name) && IsSpelling(word, name) && IsSuffix(rest)
    ensures IsFamilyName(word + rest)
  {
    FamilyIsListed(name);
    FamilyIsSmall(name);
    SpellingIgnoresCase(word, name);
    if rest == [] {
      assert word + rest == word;
    } else {
      assert (word + rest)[..|name|] == word && (word + rest)[|name|] == rest[0];
    }
  }

  lemma FamilyNameSplits(last: string, name: string)
    requires IsFamily(name) && forall c :: c in last ==> !IsSeparator(c)
    requires EqualsIgnoringCase(last, name) || StartsWithFamily(last, name)
    ensures |name| <= |last| && IsSpelling(last[..|name|], name) && IsSuffix(last[|name|..])
  {
    FamilyIsSmall(name);
    SpellingIgnoresCase(last[..|name|], name);
    if |last| == |name| {
      assert last[..|last|] == last;
    } else {
      assert last[|name|..][0] == last[|name|];
    }
  }

  lemma SplitsInThree(space: string, last: string, k: nat)
    requires k <= |last|
    ensures space + last == space + last[..k] + last[k..]
  {
    ConcatAssociates(space, last[..k], last[k..]);
    assert last == last[..k] + last[k..];
  }

  lemma NameIsSpelled(space: string, last: string, name: string)
    requires IsNamespace(space) && (forall c :: c in last ==> !IsSeparator(c)) && IsFamily(name)
    requires EqualsIgnoringCase(last, name) || StartsWithFamily(last, name)
    ensures WritesFiles(space + last)
  {
    FamilyNameSplits(last, name);
    SplitsInThree(space, last, |name|);
    assert IsSpelledFrom(space + last, space, last[..|name|], last[|name|..], name);
  }

  lemma FamilyNameIsSpelled(space: string, last: string)
    requires IsNamespace(space) && (forall c :: c in last ==> !IsSeparator(c)) && IsFamilyName(last)
    ensures WritesFiles(space + last)
  {
    var name :| name in WRITE_FAMILY && (EqualsIgnoringCase(last, name) || StartsWithFamily(last, name));
    FamilyIsListed(name);
    NameIsSpelled(space, last, name);
  }

  /** The tools whose inputs are elided: exactly these spellings of the six names. */
  lemma WriteFamilyExactly(tool: string)
    ensures IsWriteFamily(tool) <==> WritesFiles(tool)
  {
    var space, last := CutAtLast(tool);
    LastSegment(space, last);
    if IsWriteFamily(tool) {
      FamilyNameIsSpelled(space, last);
    }
    if WritesFiles(tool) {
      var space, word, rest, name :| IsSpelledFrom(tool, space, word, rest, name);
      ConcatAssociates(space, word, rest);
      FamilyIsSmall(name);
      SpellingIgnoresCase(word, name);
      LastSegment(space, word + rest);
      SpelledIsFamilyName(word, rest, name);
    }
  }

  // ----- what is stored

  /** `stored` is `text` with U+FFFD exactly where NUL stood. */
  predicate IsScrubbed(stored: string, text: string) {
    |stored| == |text| && forall i :: 0 <= i < |text| ==> stored[i] == if text[i] == '\0' then '\U{FFFD}' else text[i]
  }

  predicate IsScrubbedOption(stored: Option<string>, text: Option<string>) {
    match text
    case None => stored == None
    case Some(value) => stored.Some? && IsScrubbed(stored.value, value)
  }

  /** What is stored of a tool's input: a path and a size for the tools that write files, otherwise its text. */
  ghost predicate IsInputStored(stored: ToolInput, tool: string, input: ToolInput) {
    match input
    case Verbatim(text) =>
      exists clean :: IsScrubbed(clean, text)
                      && stored == if WritesFiles(tool) then Elided(ElidedPath(clean), |Encode(clean)|)
                                   else Verbatim(clean)
    case Elided(path, bytes) =>
      exists clean :: IsScrubbed(clean, path)
                      && stored == Elided(if clean != [] && clean[0] == '{' then ElidedPath(clean) else clean, bytes)
  }

  /** `kept` is the longest run of whole characters at the head of `clean` that takes up to 512 bytes. */
  ghost predicate IsHeadOf(kept: string, clean: string) {
    && kept <= clean && |Encode(kept)| <= 512
    && forall longer :: kept < longer <= clean ==> |Encode(longer)| > 512
  }

  /** What is stored of a tool call, and of a result. */
  ghost predicate IsStoredItem(stored: TurnItem, item: TurnItem) {
    && IsScrubbed(stored.tool, item.tool)
    && match item
       case ToolCall(_, input) => stored.ToolCall? && IsInputStored(stored.input, stored.tool, input)
       case ToolResult(_, head, totalBytes, truncated) =>
         && stored.ToolResult?
         && exists clean :: IsScrubbed(clean, head) && IsHeadOf(stored.head, clean)
                            && (stored.truncated <==> truncated || stored.head != clean)
                            && stored.totalBytes == if stored.head != clean && !truncated then |Encode(clean)|
                                                    else totalBytes
  }

  /** What is stored of a turn: its number, role and source, its texts scrubbed, and its items in order. */
  ghost predicate IsStoredTurn(stored: Turn, turn: Turn) {
    && stored.turnNo == turn.turnNo && stored.role == turn.role && stored.source == turn.source
    && IsScrubbedOption(stored.headSha, turn.headSha) && IsScrubbed(stored.at, turn.at)
    && IsScrubbed(stored.body, turn.body) && |stored.items| == |turn.items|
    && forall i :: 0 <= i < |turn.items| ==> IsStoredItem(stored.items[i], turn.items[i])
  }

  lemma ScrubbedIsScrubNul(text: string)
    ensures IsScrubbed(ScrubNul(text), text)
  {
  }

  lemma ScrubbedIsUnique(a: string, b: string, text: string)
    requires IsScrubbed(a, text) && IsScrubbed(b, text)
    ensures a == b
  {
  }

  lemma HeadIsHead(kept: string, clean: string)
    requires kept <= clean && ByteLen(kept) <= OUTPUT_HEAD_BYTES
    requires forall longer :: kept < longer <= clean ==> ByteLen(longer) > OUTPUT_HEAD_BYTES
    ensures IsHeadOf(kept, clean)
  {
    forall longer | kept < longer <= clean ensures |Encode(longer)| > 512 {
      assert ByteLen(longer) > OUTPUT_HEAD_BYTES;
    }
  }

  /** Alike but for a NUL in one standing for U+FFFD in the other. */
  ghost predicate AlikeButForNul(a: string, b: string) {
    |a| == |b| && forall i :: 0 <= i < |a| ==> a[i] == b[i] || (IsNul(a[i]) && IsNul(b[i]))
  }

  predicate IsNul(c: char) { c == '\0' || c == '\U{FFFD}' }

  lemma PartsAreAlike(space: string, word: string, rest: string, name: string, b: string)
    requires IsNamespace(space) && IsFamily(name) && IsSpelling(word, name) && IsSuffix(rest)
    requires AlikeButForNul(space + word + rest, b)
    ensures var (i, j) := (|space|, |space| + |word|);
            IsNamespace(b[..i]) && IsSpelling(b[i..j], name) && IsSuffix(b[j..])
  {
    var (i, j, a) := (|space|, |space| + |word|, space + word + rest);
    FamilyIsSmall(name);
    forall k | 0 <= k < |word| ensures IsCaseOf(b[i..j][k], name[k]) {
      assert a[i + k] == word[k] && IsCaseOf(word[k], name[k]) && !IsNul(word[k]);
    }
    forall k | 0 <= k < |rest| ensures rest[k] == b[j..][k] || (IsNul(rest[k]) && IsNul(b[j..][k])) {
      assert a[j + k] == rest[k];
    }
    assert space != [] ==> a[i - 1] == space[i - 1] && IsSeparator(a[i - 1]);
  }

  lemma CutInThree(b: string, i: nat, j: nat)
    requires i <= j <= |b|
    ensures b == b[..i] + b[i..j] + b[j..]
  {
  }

  lemma AlikeNamesAgree(a: string, b: string)
    requires AlikeButForNul(a, b) && WritesFiles(a)
    ensures WritesFiles(b)
  {
    var space, word, rest, name :| IsSpelledFrom(a, space, word, rest, name);
    PartsAreAlike(space, word, rest, name, b);
    var (i, j) := (|space|, |space| + |word|);
    CutInThree(b, i, j);
    assert IsSpelledFrom(b, b[..i], b[i..j], b[j..], name);
  }

  /** Every tool's verbatim input: a path and a size if it is a tool that writes files, else its scrubbed text. */
  lemma VerbatimInputsAreElidedExactlyWhen(tool: string, text: string)
    ensures var (stored, clean) := (ShapeItem(ToolCall(tool, Verbatim(text))), ScrubNul(text));
            stored == ToolCall(ScrubNul(tool), if WritesFiles(tool) then Elided(ElidedPath(clean), |Encode(clean)|)
                                               else Verbatim(clean))
  {
    WriteFamilyExactly(ScrubNul(tool));
    if WritesFiles(tool) {
      AlikeNamesAgree(tool, ScrubNul(tool));
    }
    if WritesFiles(ScrubNul(tool)) {
      AlikeNamesAgree(ScrubNul(tool), tool);
    }
  }

  /** Each item is stored so. */
  lemma ItemIsStored(item: TurnItem)
    ensures IsStoredItem(ShapeItem(item), item)
  {
    var tool := ScrubNul(item.tool);
    ScrubbedIsScrubNul(item.tool);
    match item
    case ToolCall(_, Verbatim(text)) =>
      ScrubbedIsScrubNul(text);
      WriteFamilyExactly(tool);
    case ToolCall(_, Elided(path, bytes)) =>
      ScrubbedIsScrubNul(path);
    case ToolResult(_, head, _, _) =>
      ScrubbedIsScrubNul(head);
      HeadIsLongestPrefix(item);
      HeadIsHead(ShapeItem(item).head, ScrubNul(head));
  }

  /** And so is each turn. */
  lemma TurnIsStored(turn: Turn)
    ensures IsStoredTurn(Shaped(turn), turn)
  {
    forall i | 0 <= i < |turn.items| ensures IsStoredItem(Shaped(turn).items[i], turn.items[i]) {
      ItemIsStored(turn.items[i]);
    }
    if turn.headSha.Some? {
      ScrubbedIsScrubNul(turn.headSha.value);
    }
    ScrubbedIsScrubNul(turn.at);
    ScrubbedIsScrubNul(turn.body);
  }

  // ----- the file a JSON input names

  /** A name as JSON text has it in front of its value. */
  function Key(name: string): string { "\"" + name + "\":" }

  predicate Lacks(json: string, name: string) { Find(json, Key(name)).None? }

  /** The names harnesses give a file, the first that a call uses counting. */
  predicate IsPathName(json: string, name: string) {
    || name == "file_path"
    || (name == "path" && Lacks(json, "file_path"))
    || (name == "filePath" && Lacks(json, "file_path") && Lacks(json, "path"))
  }

  function PathName(k: nat): string { if k == 0 then "file_path" else if k == 1 then "path" else "filePath" }

  lemma KeysAre()
    ensures |PATH_KEYS| == 3 && forall k :: 0 <= k < 3 ==> PATH_KEYS[k] == Key(PathName(k))
  {
  }

  lemma LackedKey(json: string, key: string)
    requires Find(json, key).None?
    ensures JsonStringAfter(json, key).None?
  {
  }

  lemma NamedPath(json: string, name: string, blanks: string, path: string, rest: string)
    requires StartsWith(json, '{') && IsPathName(json, name)
    requires Follows(json, Key(name), blanks, path + "\"" + rest) && IsOneLiteral(path)
    ensures ElidedPath(json) == Trim(path)
  {
    KeysAre();
    var k := if name == "file_path" then 0 else if name == "path" then 1 else 2;
    forall j | 0 <= j < k ensures JsonStringAfter(json, PATH_KEYS[j]).None? {
      LackedKey(json, Key(PathName(j)));
    }
    NamedPathIsKept(json, k, blanks, path, rest);
  }

  lemma CleanInputIsElided(tool: string, text: string)
    requires WritesFiles(tool) && '\0' !in text
    ensures ShapeItem(ToolCall(tool, Verbatim(text))).input == Elided(ElidedPath(text), |Encode(text)|)
  {
    VerbatimInputsAreElidedExactlyWhen(tool, text);
  }

  /** Whatever else its JSON holds, a call that writes a file is stored as the path it names and a size. */
  lemma WriteCallIsItsPath(tool: string, json: string, name: string, blanks: string, path: string, rest: string)
    requires WritesFiles(tool) && '\0' !in json && StartsWith(json, '{') && IsPathName(json, name)
    requires Follows(json, Key(name), blanks, path + "\"" + rest) && IsOneLiteral(path)
    ensures ShapeItem(ToolCall(tool, Verbatim(json))).input == Elided(Trim(path), |Encode(json)|)
  {
    NamedPath(json, name, blanks, path, rest);
    CleanInputIsElided(tool, json);
  }

  lemma NoNamedPath(json: string)
    requires Lacks(json, "file_path") && Lacks(json, "path") && Lacks(json, "filePath")
    ensures forall j :: 0 <= j < |PATH_KEYS| ==> JsonStringAfter(json, PATH_KEYS[j]).None?
  {
    KeysAre();
    forall j | 0 <= j < |PATH_KEYS| ensures JsonStringAfter(json, PATH_KEYS[j]).None? {
      LackedKey(json, Key(PathName(j)));
    }
  }

  lemma InputKeyIs()
    ensures INPUT_KEY == Key("input")
  {
  }

  lemma BracketedPath(json: string, blanks: string, target: string, hash: string, rest: string)
    requires StartsWith(json, '{')
    requires Lacks(json, "file_path") && Lacks(json, "path") && Lacks(json, "filePath")
    requires Follows(json, Key("input"), blanks, Bracketed(target, hash) + rest)
    requires IsTargetText(target) && IsTargetText(hash) && '#' !in hash
    ensures ElidedPath(json) == Trim(target)
  {
    NoNamedPath(json);
    InputKeyIs();
    HashlineTargetIsKept(json, blanks, target, hash, rest);
  }

  /** A call that names its file by no key but opens its input with `[path#hash]` is stored as that path. */
  lemma WriteCallIsItsTarget(tool: string, json: string, blanks: string, target: string, hash: string, rest: string)
    requires WritesFiles(tool) && '\0' !in json && StartsWith(json, '{')
    requires Lacks(json, "file_path") && Lacks(json, "path") && Lacks(json, "filePath")
    requires Follows(json, Key("input"), blanks, Bracketed(target, hash) + rest)
    requires IsTargetText(target) && IsTargetText(hash) && '#' !in hash
    ensures ShapeItem(ToolCall(tool, Verbatim(json))).input == Elided(Trim(target), |Encode(json)|)
  {
    BracketedPath(json, blanks, target, hash, rest);
    CleanInputIsElided(tool, json);
  }

  /** A key that does not occur, or has no string behind it. */
  predicate HasNoString(json: string, key: string) {
    var at := Find(json, key);
    at.Some? ==> !StartsWith(TrimStart(json[at.value + |key|..]), '"')
  }

  lemma NoStringBehind(json: string, key: string)
    requires HasNoString(json, key)
    ensures RawStringAfter(json, key).None?
  {
  }

  lemma NoStringAtAll(json: string, key: string)
    requires RawStringAfter(json, key).None?
    ensures JsonStringAfter(json, key).None?
  {
  }

  lemma NoKeyHasAString(json: string)
    requires forall k :: 0 <= k < 3 ==> HasNoString(json, Key(PathName(k)))
    ensures forall k :: 0 <= k < |PATH_KEYS| ==> JsonStringAfter(json, PATH_KEYS[k]).None?
  {
    KeysAre();
    forall k | 0 <= k < |PATH_KEYS| ensures JsonStringAfter(json, PATH_KEYS[k]).None? {
      NoStringBehind(json, PATH_KEYS[k]);
      NoStringAtAll(json, PATH_KEYS[k]);
    }
  }

  lemma NoPathAtAll(json: string)
    requires StartsWith(json, '{')
    requires forall k :: 0 <= k < |PATH_KEYS| ==> JsonStringAfter(json, PATH_KEYS[k]).None?
    requires RawStringAfter(json, INPUT_KEY).None?
    ensures ElidedPath(json) == ""
  {
    assert TrimStart(json) == json;
    assert Keyed(json).None?;
  }

  lemma PathlessIsEmpty(json: string)
    requires StartsWith(json, '{') && HasNoString(json, Key("input"))
    requires forall k :: 0 <= k < 3 ==> HasNoString(json, Key(PathName(k)))
    ensures ElidedPath(json) == ""
  {
    NoKeyHasAString(json);
    InputKeyIs();
    NoStringBehind(json, Key("input"));
    NoPathAtAll(json);
  }

  /** A call whose JSON has a string behind none of these keys is stored with an empty path. */
  lemma WriteCallWithoutPath(tool: string, json: string)
    requires WritesFiles(tool) && '\0' !in json && StartsWith(json, '{') && HasNoString(json, Key("input"))
    requires forall k :: 0 <= k < 3 ==> HasNoString(json, Key(PathName(k)))
    ensures ShapeItem(ToolCall(tool, Verbatim(json))).input == Elided("", |Encode(json)|)
  {
    PathlessIsEmpty(json);
    CleanInputIsElided(tool, json);
  }
}

/**
 What an import sends, field by field: each turn under the keys the store has, whichever
 dialect it was written in, and a head in which flags go before the file and the file before
 what is derived from it.
 */
module Imports {
  import opened Text
  import opened Transcript

  type Fields = map<string, Json>

  // ----- the lines of a file

  predicate IsBlankLine(text: string) { forall c :: c in text ==> IsWhitespace(c) }

  predicate IsTurnLine(parse: string -> Option<Line>, text: string) {
    !IsBlankLine(text) && parse(Trim(text)).Some? && parse(Trim(text)).value.TurnLine?
  }

  predicate IsHeaderLine(parse: string -> Option<Line>, text: string) {
    !IsBlankLine(text) && parse(Trim(text)).Some? && parse(Trim(text)).value.HeaderLine?
  }

  predicate IsFirstTurnAfter(parse: string -> Option<Line>, lines: seq<string>, i: nat)
    requires i <= |lines|
  {
    forall j :: 0 <= j < i ==> !IsTurnLine(parse, lines[j])
  }

  /** A line that is blank, or parses and is no header behind a turn. */
  predicate FitsAt(parse: string -> Option<Line>, lines: seq<string>, i: nat)
    requires i < |lines|
  {
    || IsBlankLine(lines[i]) || IsTurnLine(parse, lines[i])
    || (IsHeaderLine(parse, lines[i]) && IsFirstTurnAfter(parse, lines, i))
  }

  lemma KindsAre(parse: string -> Option<Line>, text: string)
    ensures IsTurn(Kinds(parse)(text)) <==> IsTurnLine(parse, text)
    ensures IsHeader(Kinds(parse)(text)) <==> IsHeaderLine(parse, text)
    ensures Kinds(parse)(text).Blank? <==> IsBlankLine(text)
    ensures IsTurnLine(parse, text) ==> Kinds(parse)(text).line.turn == parse(Trim(text)).value.turn
    ensures IsHeaderLine(parse, text) ==> Kinds(parse)(text).line.header == parse(Trim(text)).value.header
  {
    TrimsToNothing(text);
  }

  lemma FitsUnlessMisfit(parse: string -> Option<Line>, lines: seq<string>, i: nat)
    requires i < |lines|
    ensures FitsAt(parse, lines, i) <==> Misfit(Kinds(parse), lines, i).None?
    ensures !FitsAt(parse, lines, i) ==>
              Misfit(Kinds(parse), lines, i)
              == Some(if IsHeaderLine(parse, lines[i]) then SecondHeader(i + 1) else NotJson(i + 1))
  {
    forall j | 0 <= j <= i ensures IsTurn(Kinds(parse)(lines[j])) <==> IsTurnLine(parse, lines[j]) {
      KindsAre(parse, lines[j]);
    }
    KindsAre(parse, lines[i]);
  }

  /** A file reads exactly when each of its lines fits. */
  lemma FileReadsExactlyWhen(parse: string -> Option<Line>, lines: seq<string>)
    ensures ScanLines(parse, lines).Ok? <==> forall i :: 0 <= i < |lines| ==> FitsAt(parse, lines, i)
  {
    ReadsExactlyWhenAllFit(parse, lines);
    forall i | 0 <= i < |lines| ensures FitsAt(parse, lines, i) <==> Misfit(Kinds(parse), lines, i).None? {
      FitsUnlessMisfit(parse, lines, i);
    }
  }

  /** The first line that does not fit names the error, and its number counted from one. */
  lemma FirstBadLineIsNamed(parse: string -> Option<Line>, lines: seq<string>, i: nat)
    requires i < |lines| && !FitsAt(parse, lines, i) && forall j :: 0 <= j < i ==> FitsAt(parse, lines, j)
    ensures ScanLines(parse, lines)
         == Err(if IsHeaderLine(parse, lines[i]) then SecondHeader(i + 1) else NotJson(i + 1))
  {
    forall j | 0 <= j <= i
      ensures FitsAt(parse, lines, j) <==> Misfit(Kinds(parse), lines, j).None?
    {
      FitsUnlessMisfit(parse, lines, j);
    }
    FitsUnlessMisfit(parse, lines, i);
    MisfitFails(parse, lines, i);
  }

  /** The turn a line holds, if it is a turn line. */
  function TurnIn(parse: string -> Option<Line>): string -> Option<Json> {
    (text: string) => if IsTurnLine(parse, text) then Some(parse(Trim(text)).value.turn) else None
  }

  /** The header it holds, if it is a header line. */
  function HeaderIn(parse: string -> Option<Line>): string -> Option<Header> {
    (text: string) => if IsHeaderLine(parse, text) then Some(parse(Trim(text)).value.header) else None
  }

  /** Two accounts of the same lines: what each is, and the turn and the header in it. */
  ghost predicate Accounts(kind: string -> Reading, turn: string -> Option<Json>, header: string -> Option<Header>) {
    forall text ::
      && turn(text) == (if IsTurn(kind(text)) then Some(kind(text).line.turn) else None)
      && header(text) == (if IsHeader(kind(text)) then Some(kind(text).line.header) else None)
  }

  lemma KindsAccount(parse: string -> Option<Line>)
    ensures Accounts(Kinds(parse), TurnIn(parse), HeaderIn(parse))
  {
    forall text
      ensures TurnIn(parse)(text) == if IsTurn(Kinds(parse)(text)) then Some(Kinds(parse)(text).line.turn) else None
      ensures HeaderIn(parse)(text)
           == if IsHeader(Kinds(parse)(text)) then Some(Kinds(parse)(text).line.header) else None
    {
      KindsAre(parse, text);
    }
  }

  /** The turns of a file are those of its turn lines, in order. */
  lemma {:induction false} TurnsArePicked(kind: string -> Reading, turn: string -> Option<Json>,
                                          header: string -> Option<Header>, lines: seq<string>)
    returns (at: seq<nat>)
    requires Accounts(kind, turn, header)
    ensures ArePicked(at, TurnsOf(kind, lines), turn, lines)
  {
    if lines == [] {
      at := [];
    } else {
      var front, last := lines[..|lines| - 1], lines[|lines| - 1];
      assert front + [last] == lines;
      at := TurnsArePicked(kind, turn, header, front);
      at := PickedAppend(at, TurnsOf(kind, front), turn, front, last);
    }
  }

  /** `header` is what the last line holding one holds, or an empty one. */
  ghost predicate IsLastHeader(header: Header, pick: string -> Option<Header>, lines: seq<string>) {
    || (header == Header(None, None, None, None, None, None)
        && forall j :: 0 <= j < |lines| ==> pick(lines[j]).None?)
    || exists i: nat :: i < |lines| && pick(lines[i]) == Some(header)
                        && forall j :: i < j < |lines| ==> pick(lines[j]).None?
  }

  lemma {:induction false} HeaderIsTheLast(kind: string -> Reading, turn: string -> Option<Json>,
                                           header: string -> Option<Header>, lines: seq<string>)
    requires Accounts(kind, turn, header)
    ensures IsLastHeader(LastHeaderOf(kind, lines), header, lines)
  {
    if lines != [] {
      var front, last := lines[..|lines| - 1], lines[|lines| - 1];
      if header(last).None? {
        HeaderIsTheLast(kind, turn, header, front);
        assert forall j :: 0 <= j < |front| ==> front[j] == lines[j];
      }
    }
  }

  // ----- one turn

  predicate HasText(fields: Fields, key: string, value: string) {
    key in fields && fields[key] == Str(value)
  }

  predicate HasNoText(fields: Fields, key: string) { key !in fields || !fields[key].Str? }

  /** `value` is the text of the first of four keys that has one, or the default. */
  predicate IsFirstText(value: string, fields: Fields, a: string, b: string, c: string, d: string, default: string) {
    || HasText(fields, a, value)
    || (HasNoText(fields, a) && HasText(fields, b, value))
    || (HasNoText(fields, a) && HasNoText(fields, b) && HasText(fields, c, value))
    || (HasNoText(fields, a) && HasNoText(fields, b) && HasNoText(fields, c)
        && (HasText(fields, d, value) || (HasNoText(fields, d) && value == default)))
  }

  predicate IsHuman(fields: Fields) { HasText(fields, "role", "user") || HasText(fields, "role", "human") }

  predicate IsNumbered(fields: Fields) {
    "turn_no" in fields && fields["turn_no"].Number? && fields["turn_no"].unsigned.Some?
  }

  /** The keys sent, and what stands under those that are not read from a choice of others. */
  ghost predicate HasItsFields(kept: Fields, given: Fields, index: nat) {
    && kept.Keys == {"turn_no", "role", "source", "at", "body", "items"}
                    + (if "head_sha" in given then {"head_sha"} else {})
    && (if IsNumbered(given) then kept["turn_no"] == Number(given["turn_no"].unsigned)
        else kept["turn_no"] == Number(Some(index + 1)))
    && kept["role"] == Str(if IsHuman(given) then "human" else "agent")
    && kept["source"] == (if "source" in given then given["source"]
                          else Str(if IsHuman(given) then "human" else "system"))
    && kept["items"] == (if "items" in given then given["items"] else List([]))
    && ("head_sha" in given ==> kept["head_sha"] == given["head_sha"])
  }

  /** The prose and the time sent. */
  ghost predicate HasItsTexts(kept: Fields, given: Fields, now: string) {
    && "body" in kept && "at" in kept && kept["body"].Str? && kept["at"].Str?
    && IsFirstText(kept["body"].text, given, "body", "content", "text", "message", "")
    && IsFirstText(kept["at"].text, given, "at", "timestamp", "time", "created_at", now)
  }

  /** `kept` is what is sent of a turn written as `given`, the `index`th of its file, counted from 0. */
  ghost predicate IsSent(kept: Fields, given: Fields, index: nat, now: string) {
    HasItsFields(kept, given, index) && HasItsTexts(kept, given, now)
  }

  lemma FirstTextOfFour(fields: Fields, a: string, b: string, c: string, d: string, default: string)
    ensures IsFirstText(GetOr(FirstText(fields, [a, b, c, d]), default), fields, a, b, c, d, default)
  {
    var keys := [a, b, c, d];
    assert keys[1..] == [b, c, d] && keys[1..][1..] == [c, d] && [c, d][1..] == [d] && [d][1..] == [];
    assert FirstText(fields, [d]) == TextAt(fields, d);
    assert FirstText(fields, [c, d]) == if TextAt(fields, c).Some? then TextAt(fields, c) else TextAt(fields, d);
  }

  lemma TextsAreFirst(fields: Fields, now: string)
    ensures IsFirstText(GetOr(FirstText(fields, BODY_KEYS), ""), fields, "body", "content", "text", "message", "")
    ensures IsFirstText(GetOr(FirstText(fields, TIME_KEYS), now), fields, "at", "timestamp", "time", "created_at", now)
  {
    FirstTextOfFour(fields, "body", "content", "text", "message", "");
    FirstTextOfFour(fields, "at", "timestamp", "time", "created_at", now);
  }

  lemma FieldsAreSent(given: Fields, index: nat, now: string)
    ensures var shaped := ShapeTurn(Object(given), index, now);
            shaped.Ok? && shaped.value.Object? && HasItsFields(shaped.value.fields, given, index)
  {
  }

  lemma TextsAreSent(given: Fields, index: nat, now: string)
    ensures var shaped := ShapeTurn(Object(given), index, now);
            shaped.Ok? && shaped.value.Object? && HasItsTexts(shaped.value.fields, given, now)
  {
    TextsAreFirst(given, now);
  }

  /** Every turn that is an object is sent so; anything else fails the import. */
  lemma TurnIsSent(turn: Json, index: nat, now: string)
    ensures !turn.Object? ==> ShapeTurn(turn, index, now) == Err(TurnNotAnObject)
    ensures turn.Object? ==>
              var shaped := ShapeTurn(turn, index, now);
              shaped.Ok? && shaped.value.Object? && IsSent(shaped.value.fields, turn.fields, index, now)
  {
    if turn.Object? {
      FieldsAreSent(turn.fields, index, now);
      TextsAreSent(turn.fields, index, now);
    }
  }

  // ----- the head of an import

  /** The first of three that is there. */
  predicate IsFirstOf<T(==)>(chosen: Option<T>, flag: Option<T>, header: Option<T>, derived: Option<T>) {
    if flag.Some? then chosen == flag else if header.Some? then chosen == header else chosen == derived
  }

  /** `title` is the first line of `body`, trimmed and cut to 120 characters; none if the body is blank. */
  ghost predicate IsTitleOf(title: Option<string>, body: string) {
    if forall c :: c in body ==> IsWhitespace(c) then title == None
    else
      exists end: nat :: IsFirstLineEnd(body, end)
                         && var line := Trim(body[..end]);
                            title == Some(if |line| <= 120 then line else line[..120])
  }

  predicate IsFirstLineEnd(body: string, end: nat) {
    end <= |body| && '\n' !in body[..end] && (end == |body| || body[end] == '\n')
  }

  /** The text of a turn as sent. */
  ghost predicate IsTextOf(turn: Json, key: string, text: string) {
    turn.Object? && HasText(turn.fields, key, text)
  }

  function EndOfLine(body: string): (end: nat)
    ensures end <= |body|
  {
    var cut := Find(body, "\n");
    if cut.Some? then cut.value else |body|
  }

  lemma EndOfLineIsFirst(body: string)
    ensures IsFirstLineEnd(body, EndOfLine(body))
  {
    FindAbsent(body, '\n');
    var end := EndOfLine(body);
    if end < |body| {
      assert body[end..][0] == body[end];
    }
    forall j | 0 <= j < end ensures body[..end][j] != '\n' {
      assert body[j..][0] == body[j];
    }
  }

  lemma LineIsTitle(body: string)
    requires !forall c :: c in body ==> IsWhitespace(c)
    ensures IsTitleOf(Some(Line120(body)), body)
  {
    var end := EndOfLine(body);
    EndOfLineIsFirst(body);
    assert body[..|body|] == body;
  }

  /** The title derived from turns as sent comes from the first of them alone, whatever the others say. */
  lemma TitleIsTheFirstTurns(turns: seq<Json>, body: string)
    requires turns != [] && IsTextOf(turns[0], "body", body)
    ensures IsTitleOf(DeriveTitle(turns), body)
  {
    TrimsToNothing(body);
    if Trim(body) != [] {
      LineIsTitle(body);
    }
  }

  /** The identity hashed from a source and the first turn of the file, as the file wrote it. */
  ghost predicate IsMinted(guid: string, source: string, raw: seq<Json>, world: World) {
    var digest := world.hash(if raw == [] then source else source + "\n" + world.show(raw[0]));
    |digest| >= 32 && |guid| == 36
    && guid == digest[..8] + "-" + digest[8..12] + "-" + digest[12..16] + "-" + digest[16..20] + "-" + digest[20..32]
  }

  /** The head of an import: for each field what was typed, else what the header says, else what is derived. */
  ghost predicate IsHeadOf(head: Import, source: string, flags: Flags, header: Header, raw: seq<Json>, world: World) {
    && (exists minted :: IsMinted(minted, source, raw, world)
                         && IsFirstOf(Some(head.guid), flags.guid, header.guid, Some(minted)))
    && IsFirstOf(head.repoIdentity, flags.repo, header.repoIdentity, None)
    && IsFirstOf(head.worktree, flags.worktree, header.worktree, None)
    && head.baseSha == header.baseSha
    && (exists derived :: IsFirstOf(head.title, flags.title, header.title, derived)
                          && (head.turns == [] ==> derived == None)
                          && forall body :: head.turns != [] && IsTextOf(head.turns[0], "body", body)
                                            ==> IsTitleOf(derived, body))
    && (exists first :: IsFirstOf(Some(head.startedAt), None, header.startedAt, Some(first))
                        && (head.turns == [] ==> first == world.started)
                        && (head.turns != [] ==> IsTextOf(head.turns[0], "at", first)))
  }

  lemma GuidIsMinted(source: string, raw: seq<Json>, world: World)
    requires forall text :: |world.hash(text)| >= 32
    ensures IsMinted(GuidOf(world.hash(Seed(source, FirstTurn(raw), world.show))), source, raw, world)
  {
    var digest := world.hash(Seed(source, FirstTurn(raw), world.show));
    JoinFive(digest[0..8], digest[8..12], digest[12..16], digest[16..20], digest[20..32]);
  }

  lemma JoinFive(a: string, b: string, c: string, d: string, e: string)
    ensures Join([a, b, c, d, e], "-") == a + "-" + b + "-" + c + "-" + d + "-" + e
  {
    assert [a, b, c, d, e][1..] == [b, c, d, e] && [b, c, d, e][1..] == [c, d, e];
    assert [c, d, e][1..] == [d, e] && [d, e][1..] == [e];
    assert Join([d, e], "-") == d + "-" + e;
    assert Join([c, d, e], "-") == c + "-" + (d + "-" + e);
    assert Join([b, c, d, e], "-") == b + "-" + (c + "-" + (d + "-" + e));
  }

  lemma AllAreSent(raw: seq<Json>, clock: nat -> string)
    requires ShapeAll(raw, clock).Ok?
    ensures |ShapeAll(raw, clock).value| == |raw|
    ensures forall i :: 0 <= i < |raw| ==>
              raw[i].Object? && ShapeAll(raw, clock).value[i].Object?
              && IsSent(ShapeAll(raw, clock).value[i].fields, raw[i].fields, i, clock(i))
  {
    forall i | 0 <= i < |raw|
      ensures |ShapeAll(raw, clock).value| == |raw|
      ensures raw[i].Object? && ShapeAll(raw, clock).value[i].Object?
      ensures IsSent(ShapeAll(raw, clock).value[i].fields, raw[i].fields, i, clock(i))
    {
      ShapedTurns(raw, clock, i);
      TurnIsSent(raw[i], i, clock(i));
    }
  }

  lemma HeadIsChosen(source: string, flags: Flags, scan: Scan, sent: seq<Json>, world: World)
    requires forall text :: |world.hash(text)| >= 32
    requires sent != [] ==> exists at :: IsTextOf(sent[0], "at", at)
    ensures IsHeadOf(ImportOf(source, flags, scan, sent, world), source, flags, scan.header, scan.turns, world)
  {
    var head := ImportOf(source, flags, scan, sent, world);
    GuidIsMinted(source, scan.turns, world);
    var minted := GuidOf(world.hash(Seed(source, FirstTurn(scan.turns), world.show)));
    assert IsFirstOf(Some(head.guid), flags.guid, scan.header.guid, Some(minted));
    var derived := DeriveTitle(sent);
    forall body | sent != [] && IsTextOf(sent[0], "body", body) ensures IsTitleOf(derived, body) {
      TitleIsTheFirstTurns(sent, body);
    }
    assert IsFirstOf(head.title, flags.title, scan.header.title, derived);
    if sent == [] {
      assert IsFirstOf(Some(head.startedAt), None, scan.header.startedAt, Some(world.started));
    } else {
      var at :| IsTextOf(sent[0], "at", at);
      assert IsFirstOf(Some(head.startedAt), None, scan.header.startedAt, Some(at));
    }
  }

  /**
   Every import that succeeds: a turn for each turn line, in order, sent as written but for the
   dialect's spelling, under a head chosen field by field; the header is the last header line's.
   */
  lemma ImportIsWhatWasWritten(source: string, lines: seq<string>, flags: Flags, world: World)
    returns (at: seq<nat>, raw: seq<Json>, header: Header)
    requires forall text :: |world.hash(text)| >= 32
    requires ReadOf(source, lines, flags, world).Ok?
    ensures ArePicked(at, raw, TurnIn(world.parse), lines) && IsLastHeader(header, HeaderIn(world.parse), lines)
    ensures var head := ReadOf(source, lines, flags, world).value;
            && IsHeadOf(head, source, flags, header, raw, world)
            && |head.turns| == |raw|
            && forall i :: 0 <= i < |raw| ==>
                 raw[i].Object? && head.turns[i].Object?
                 && IsSent(head.turns[i].fields, raw[i].fields, i, world.clock(i))
  {
    ReadsExactlyWhenAllFit(world.parse, lines);
    FittingFileReads(world.parse, lines);
    KindsAccount(world.parse);
    at := TurnsArePicked(Kinds(world.parse), TurnIn(world.parse), HeaderIn(world.parse), lines);
    HeaderIsTheLast(Kinds(world.parse), TurnIn(world.parse), HeaderIn(world.parse), lines);
    var scan := ScanLines(world.parse, lines).value;
    raw, header := scan.turns, scan.header;
    var sent := ShapeAll(raw, world.clock).value;
    AllAreSent(raw, world.clock);
    if sent != [] {
      assert IsSent(sent[0].fields, raw[0].fields, 0, world.clock(0));
      assert IsTextOf(sent[0], "at", sent[0].fields["at"].text);
    }
    HeadIsChosen(source, flags, scan, sent, world);
  }
}

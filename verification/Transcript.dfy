/**
 Importing a transcript: which conversation a file is, and which turns it holds, must not
 change as the file grows.  Reading one line as JSON, printing JSON, hashing and the clock
 are parameters.
 */
module Transcript {
  import opened Text
  import Address
  import Ddoc

  datatype Json =
    | Null
    | Flag(value: bool)
    | Number(unsigned: Option<nat>)
    | Str(text: string)
    | List(items: seq<Json>)
    | Object(fields: map<string, Json>)

  datatype Header = Header(guid: Option<string>, title: Option<string>, repoIdentity: Option<string>,
                           worktree: Option<string>, baseSha: Option<string>, startedAt: Option<string>)

  datatype Line = HeaderLine(header: Header) | TurnLine(turn: Json)

  datatype ReadError = NotJson(line: nat) | SecondHeader(line: nat) | TurnNotAnObject

  datatype Result<T> = Ok(value: T) | Err(error: ReadError)

  const NO_HEADER := Header(None, None, None, None, None, None)

  // ----- the lines of a file

  datatype Scan = Scan(header: Header, turns: seq<Json>)

  /** What a line is, whatever stands before it. */
  datatype Reading = Blank | Unreadable | Reads(line: Line)

  function Classify(parse: string -> Option<Line>, text: string): Reading {
    var line := Trim(text);
    if line == [] then Blank
    else
      match parse(line)
      case None => Unreadable
      case Some(read) => Reads(read)
  }

  function TakeReading(scan: Scan, reading: Reading, number: nat): Result<Scan> {
    match reading
    case Blank => Ok(scan)
    case Unreadable => Err(NotJson(number))
    case Reads(HeaderLine(header)) =>
      if scan.turns == [] then Ok(scan.(header := header)) else Err(SecondHeader(number))
    case Reads(TurnLine(turn)) => Ok(scan.(turns := scan.turns + [turn]))
  }

  type LineStep = (Scan, string, nat) -> Result<Scan>

  /** Running a step over numbered lines until one fails. */
  function Fold(step: LineStep, lines: seq<string>): Result<Scan> {
    if lines == [] then Ok(Scan(NO_HEADER, []))
    else
      var front := Fold(step, lines[..|lines| - 1]);
      if front.Err? then front else step(front.value, lines[|lines| - 1], |lines|)
  }

  function StepBy(kind: string -> Reading): LineStep {
    (scan: Scan, text: string, number: nat) => TakeReading(scan, kind(text), number)
  }

  function Kinds(parse: string -> Option<Line>): string -> Reading { (text: string) => Classify(parse, text) }

  function Reader(parse: string -> Option<Line>): LineStep { StepBy(Kinds(parse)) }

  function ScanLines(parse: string -> Option<Line>, lines: seq<string>): Result<Scan> { Fold(Reader(parse), lines) }

  // ----- one turn

  function TextAt(fields: map<string, Json>, key: string): Option<string> {
    if key in fields && fields[key].Str? then Some(fields[key].text) else None
  }

  function FirstText(fields: map<string, Json>, keys: seq<string>): Option<string> {
    if keys == [] then None
    else if TextAt(fields, keys[0]).Some? then TextAt(fields, keys[0])
    else FirstText(fields, keys[1..])
  }

  const BODY_KEYS: seq<string> := ["body", "content", "text", "message"]
  const TIME_KEYS: seq<string> := ["at", "timestamp", "time", "created_at"]
  const KEPT: set<string> := {"turn_no", "role", "source", "head_sha", "at", "body", "items"}

  function GetOr<T>(value: Option<T>, default: T): T { if value.Some? then value.value else default }

  /** The turn's own number, or its position counted from one. */
  function TurnNo(fields: map<string, Json>, index: nat): nat {
    if "turn_no" in fields && fields["turn_no"].Number? then GetOr(fields["turn_no"].unsigned, index + 1) else index + 1
  }

  function Role(fields: map<string, Json>): string {
    var role := TextAt(fields, "role");
    if role == Some("user") || role == Some("human") then "human" else "agent"
  }

  function ShapeTurn(turn: Json, index: nat, now: string): Result<Json> {
    if !turn.Object? then Err(TurnNotAnObject)
    else
      var given := turn.fields;
      var role := Role(given);
      var source := if "source" in given then given["source"] else Str(if role == "human" then "human" else "system");
      var items := if "items" in given then given["items"] else List([]);
      var shaped := given["turn_no" := Number(Some(TurnNo(given, index)))]
                         ["body" := Str(GetOr(FirstText(given, BODY_KEYS), ""))]
                         ["role" := Str(role)]
                         ["source" := source]
                         ["at" := Str(GetOr(FirstText(given, TIME_KEYS), now))]
                         ["items" := items];
      Ok(Object(map key | key in shaped && key in KEPT :: shaped[key]))
  }

  function ShapeAll(turns: seq<Json>, clock: nat -> string): Result<seq<Json>> {
    if turns == [] then Ok([])
    else
      match ShapeAll(turns[..|turns| - 1], clock)
      case Err(error) => Err(error)
      case Ok(front) =>
        match ShapeTurn(turns[|turns| - 1], |turns| - 1, clock(|turns| - 1))
        case Err(error) => Err(error)
        case Ok(last) => Ok(front + [last])
  }

  // ----- the import

  datatype Import = Import(guid: string, repoIdentity: Option<string>, worktree: Option<string>,
                           baseSha: Option<string>, title: Option<string>, startedAt: string, turns: seq<Json>)

  /** What the caller typed. */
  datatype Flags = Flags(guid: Option<string>, repo: Option<string>, worktree: Option<string>, title: Option<string>)

  datatype World = World(parse: string -> Option<Line>, show: Json -> string, hash: string -> string,
                         clock: nat -> string, started: string)

  /** A digest's first 32 digits in groups of 8, 4, 4, 4 and 12. */
  function GuidOf(digest: string): string
    requires |digest| >= 32
  {
    Join([digest[0..8], digest[8..12], digest[12..16], digest[16..20], digest[20..32]], "-")
  }

  /** The text an identity is hashed from: the source, and the first turn unshaped if there is one. */
  function Seed(source: string, first: Option<Json>, show: Json -> string): string {
    match first
    case None => source
    case Some(turn) => source + "\n" + show(turn)
  }

  function FirstTurn(turns: seq<Json>): Option<Json> { if turns == [] then None else Some(turns[0]) }

  function Guid(source: string, flags: Flags, scan: Scan, world: World): string
    requires forall text :: |world.hash(text)| >= 32
  {
    GetOr(if flags.guid.Some? then flags.guid else scan.header.guid,
          GuidOf(world.hash(Seed(source, FirstTurn(scan.turns), world.show))))
  }

  function StartedAt(scan: Scan, shaped: seq<Json>, world: World): string {
    if scan.header.startedAt.Some? then scan.header.startedAt.value
    else if shaped != [] && shaped[0].Object? then GetOr(TextAt(shaped[0].fields, "at"), world.started)
    else world.started
  }

  function Line120(body: string): string {
    var cut := Find(body, "\n");
    var line := Trim(if cut.Some? then body[..cut.value] else body);
    if |line| > 120 then line[..120] else line
  }

  function FirstBody(turns: seq<Json>): Option<string> {
    if turns == [] then None
    else if turns[0].Object? && TextAt(turns[0].fields, "body").Some? then TextAt(turns[0].fields, "body")
    else FirstBody(turns[1..])
  }

  function DeriveTitle(turns: seq<Json>): Option<string> {
    match FirstBody(turns)
    case Some(body) => if Trim(body) == [] then None else Some(Line120(body))
    case None => None
  }

  function Or<T>(a: Option<T>, b: Option<T>): Option<T> { if a.Some? then a else b }

  function ImportOf(source: string, flags: Flags, scan: Scan, shaped: seq<Json>, world: World): Import
    requires forall text :: |world.hash(text)| >= 32
  {
    Import(Guid(source, flags, scan, world), Or(flags.repo, scan.header.repoIdentity),
           Or(flags.worktree, scan.header.worktree), scan.header.baseSha,
           Or(Or(flags.title, scan.header.title), DeriveTitle(shaped)), StartedAt(scan, shaped, world), shaped)
  }

  /** What a transcript imports as. */
  function ReadOf(source: string, lines: seq<string>, flags: Flags, world: World): Result<Import>
    requires forall text :: |world.hash(text)| >= 32
  {
    match ScanLines(world.parse, lines)
    case Err(error) => Err(error)
    case Ok(scan) =>
      match ShapeAll(scan.turns, world.clock)
      case Err(error) => Err(error)
      case Ok(shaped) => Ok(ImportOf(source, flags, scan, shaped, world))
  }

  /** The header and the turns of a transcript, line by line. */
  method ScanTranscript(parse: string -> Option<Line>, lines: seq<string>) returns (result: Result<Scan>)
    ensures result == ScanLines(parse, lines)
  {
    var header, turns := NO_HEADER, [];
    for number := 0 to |lines|
      invariant ScanLines(parse, lines[..number]) == Ok(Scan(header, turns))
    {
      assert lines[..number + 1][..number] == lines[..number];
      FoldStep(Kinds(parse), lines[..number + 1]);
      var line := Trim(lines[number]);
      if line != [] {
        match parse(line) {
          case None =>
            FoldFails(Reader(parse), lines, number + 1);
            return Err(NotJson(number + 1));
          case Some(HeaderLine(found)) =>
            if turns != [] {
              FoldFails(Reader(parse), lines, number + 1);
              return Err(SecondHeader(number + 1));
            }
            header := found;
          case Some(TurnLine(turn)) =>
            turns := turns + [turn];
        }
      }
    }
    assert lines[..|lines|] == lines;
    return Ok(Scan(header, turns));
  }

  /** The program's import: scan, then shape. */
  method Read(source: string, lines: seq<string>, flags: Flags, world: World) returns (result: Result<Import>)
    requires forall text :: |world.hash(text)| >= 32
    ensures result == ReadOf(source, lines, flags, world)
  {
    var scanned := ScanTranscript(world.parse, lines);
    if scanned.Err? {
      return Err(scanned.error);
    }
    var shaped := ShapeAll(scanned.value.turns, world.clock);
    match shaped {
      case Err(error) => result := Err(error);
      case Ok(values) => result := Ok(ImportOf(source, flags, scanned.value, values, world));
    }
  }

  lemma {:induction false} FoldFails(step: LineStep, lines: seq<string>, k: nat)
    requires k <= |lines| && Fold(step, lines[..k]).Err?
    ensures Fold(step, lines) == Fold(step, lines[..k])
    decreases |lines| - k
  {
    if k == |lines| {
      assert lines[..k] == lines;
    } else {
      assert lines[..k + 1][..k] == lines[..k];
      FoldFails(step, lines, k + 1);
    }
  }

  // ----- a transcript that grows

  ghost predicate Grows(before: Scan, after: Scan) {
    before.turns <= after.turns && (before.turns != [] ==> after.header == before.header)
  }

  /** When no line can undo what was read, neither can any number of them. */
  lemma {:induction false} FoldGrows(step: LineStep, lines: seq<string>, more: seq<string>)
    requires forall s, text, number :: step(s, text, number).Ok? ==> Grows(s, step(s, text, number).value)
    requires Fold(step, lines + more).Ok?
    ensures Fold(step, lines).Ok? && Grows(Fold(step, lines).value, Fold(step, lines + more).value)
    decreases |more|
  {
    if more == [] {
      assert lines + more == lines;
    } else {
      var rest := more[..|more| - 1];
      assert (lines + more)[..|lines + more| - 1] == lines + rest;
      FoldGrows(step, lines, rest);
    }
  }

  lemma LineGrows(scan: Scan, reading: Reading, number: nat)
    requires TakeReading(scan, reading, number).Ok?
    ensures Grows(scan, TakeReading(scan, reading, number).value)
  {
  }

  /** Once a turn has been read the header is settled and later lines only add turns. */
  lemma GrowthKeepsScan(parse: string -> Option<Line>, lines: seq<string>, more: seq<string>)
    requires ScanLines(parse, lines + more).Ok?
    ensures ScanLines(parse, lines).Ok? && Grows(ScanLines(parse, lines).value, ScanLines(parse, lines + more).value)
  {
    var step := Reader(parse);
    forall s, text, number | step(s, text, number).Ok? ensures Grows(s, step(s, text, number).value) {
      LineGrows(s, Classify(parse, text), number);
    }
    FoldGrows(step, lines, more);
  }

  lemma {:induction false} ShapedTurns(turns: seq<Json>, clock: nat -> string, i: nat)
    requires ShapeAll(turns, clock).Ok? && i < |turns|
    ensures |ShapeAll(turns, clock).value| == |turns|
    ensures ShapeTurn(turns[i], i, clock(i)) == Ok(ShapeAll(turns, clock).value[i])
    decreases |turns|
  {
    if |turns| > 1 {
      ShapedTurns(turns[..|turns| - 1], clock, if i < |turns| - 1 then i else 0);
    }
  }

  /** The same stored turn, but for the time of one that carried none. */
  ghost predicate SameTurn(raw: Json, index: nat, x: Json, y: Json) {
    && raw.Object? && x.Object? && y.Object? && x.fields.Keys == y.fields.Keys
    && (forall key :: key in x.fields && key != "at" ==> x.fields[key] == y.fields[key])
    && (FirstText(raw.fields, TIME_KEYS).Some? ==> x == y)
    && "turn_no" in x.fields && x.fields["turn_no"] == Number(Some(TurnNo(raw.fields, index)))
  }

  /** Shaping at another moment changes nothing but the time of a turn that carries none. */
  lemma ClockOnlyFillsIn(turn: Json, index: nat, now: string, later: string)
    requires turn.Object?
    ensures SameTurn(turn, index, ShapeTurn(turn, index, now).value, ShapeTurn(turn, index, later).value)
  {
  }

  lemma GuidsAgree(source: string, flags: Flags, a: Scan, b: Scan, now: World, later: World)
    requires a.turns != [] && a.turns <= b.turns && a.header == b.header
    requires now.show == later.show && now.hash == later.hash && forall text :: |now.hash(text)| >= 32
    ensures Guid(source, flags, a, now) == Guid(source, flags, b, later)
  {
    assert a.turns[0] == b.turns[0];
  }

  /** Re-importing a grown file reaches the same conversation as soon as the first import held a turn ... */
  lemma GrownTranscriptKeepsItsGuid(source: string, lines: seq<string>, more: seq<string>, flags: Flags,
                                    now: World, later: World)
    requires now.(clock := later.clock, started := later.started) == later
    requires forall text :: |now.hash(text)| >= 32
    requires ScanLines(now.parse, lines + more).Ok?
    requires ScanLines(now.parse, lines).Ok? && ScanLines(now.parse, lines).value.turns != []
    ensures Guid(source, flags, ScanLines(now.parse, lines).value, now)
         == Guid(source, flags, ScanLines(now.parse, lines + more).value, later)
  {
    GrowthKeepsScan(now.parse, lines, more);
    GuidsAgree(source, flags, ScanLines(now.parse, lines).value, ScanLines(now.parse, lines + more).value, now, later);
  }

  /** ... and every turn already imported keeps its place, its number and its content. */
  lemma GrownTranscriptIsADelta(turns: seq<Json>, more: seq<Json>, now: nat -> string, later: nat -> string, i: nat)
    requires ShapeAll(turns, now).Ok? && ShapeAll(turns + more, later).Ok? && i < |turns|
    ensures |ShapeAll(turns, now).value| == |turns| && |ShapeAll(turns + more, later).value| == |turns| + |more|
    ensures SameTurn(turns[i], i, ShapeAll(turns, now).value[i], ShapeAll(turns + more, later).value[i])
  {
    ShapedTurns(turns, now, i);
    ShapedTurns(turns + more, later, i);
    ClockOnlyFillsIn(turns[i], i, now(i), later(i));
  }

  lemma ImportsOf(source: string, lines: seq<string>, flags: Flags, world: World) returns (scan: Scan)
    requires forall text :: |world.hash(text)| >= 32
    requires ReadOf(source, lines, flags, world).Ok?
    ensures ScanLines(world.parse, lines) == Ok(scan) && ShapeAll(scan.turns, world.clock).Ok?
    ensures ReadOf(source, lines, flags, world).value.guid == Guid(source, flags, scan, world)
    ensures ReadOf(source, lines, flags, world).value.turns == ShapeAll(scan.turns, world.clock).value
  {
    scan := ScanLines(world.parse, lines).value;
  }

  lemma GrownTurnsAgree(a: seq<Json>, b: seq<Json>, now: nat -> string, later: nat -> string)
    requires a <= b && ShapeAll(a, now).Ok? && ShapeAll(b, later).Ok?
    ensures |ShapeAll(a, now).value| == |a| <= |ShapeAll(b, later).value|
    ensures forall i :: 0 <= i < |a| ==> SameTurn(a[i], i, ShapeAll(a, now).value[i], ShapeAll(b, later).value[i])
  {
    var more := b[|a|..];
    assert b == a + more;
    forall i | 0 <= i < |a|
      ensures |ShapeAll(a, now).value| == |a| <= |ShapeAll(b, later).value|
      ensures SameTurn(a[i], i, ShapeAll(a, now).value[i], ShapeAll(b, later).value[i])
    {
      GrownTranscriptIsADelta(a, more, now, later, i);
    }
  }

  /**
   Importing a grown file again: where both imports succeed and the first held a turn, they are
   the same conversation, and the second begins with the first's turns.
   */
  lemma GrownImportContinues(source: string, lines: seq<string>, more: seq<string>, flags: Flags,
                             now: World, later: World)
    requires now.(clock := later.clock, started := later.started) == later
    requires forall text :: |now.hash(text)| >= 32
    requires ReadOf(source, lines, flags, now).Ok? && ReadOf(source, lines + more, flags, later).Ok?
    requires ReadOf(source, lines, flags, now).value.turns != []
    ensures var first := ReadOf(source, lines, flags, now).value;
            var second := ReadOf(source, lines + more, flags, later).value;
            var raw := ScanLines(now.parse, lines).value.turns;
            && first.guid == second.guid && |first.turns| == |raw| <= |second.turns|
            && forall i :: 0 <= i < |raw| ==> SameTurn(raw[i], i, first.turns[i], second.turns[i])
  {
    var a := ImportsOf(source, lines, flags, now);
    var b := ImportsOf(source, lines + more, flags, later);
    GrowthKeepsScan(now.parse, lines, more);
    GrownTurnsAgree(a.turns, b.turns, now.clock, later.clock);
    GuidsAgree(source, flags, a, b, now, later);
  }

  /** A minted identity is a canonical UUID whenever the hash is lowercase hex. */
  lemma MintedGuidIsAnId(digest: string)
    requires |digest| >= 32 && forall i :: 0 <= i < |digest| ==> Ddoc.IsLowerHex(digest[i])
    ensures Address.IsConversationId(GuidOf(digest))
  {
    var groups := [digest[0..8], digest[8..12], digest[12..16], digest[16..20], digest[20..32]];
    HexSlice(digest, 0, 8);
    HexSlice(digest, 8, 12);
    HexSlice(digest, 12, 16);
    HexSlice(digest, 16, 20);
    HexSlice(digest, 20, 32);
    JoinedGroupsAreAnId(groups);
  }

  lemma JoinedGroupsAreAnId(groups: seq<string>)
    requires |groups| == 5 && forall i :: 0 <= i < 5 ==> AllLowerHex(groups[i]) && '-' !in groups[i]
    requires |groups[0]| == 8 && |groups[1]| == |groups[2]| == |groups[3]| == 4 && |groups[4]| == 12
    ensures Address.IsConversationId(Join(groups, "-"))
  {
    assert "-" == ['-'];
    SplitJoin(groups, '-');
  }

  ghost predicate AllLowerHex(s: string) { forall i :: 0 <= i < |s| ==> Ddoc.IsLowerHex(s[i]) }

  lemma HexSlice(digest: string, from: nat, to: nat)
    requires from <= to <= |digest| && AllLowerHex(digest)
    ensures AllLowerHex(digest[from..to]) && '-' !in digest[from..to]
  {
    assert forall i :: 0 <= i < to - from ==> digest[from..to][i] == digest[from + i];
    Address.HexLacks(digest[from..to], '-');
  }

  // ----- what a whole file reads as

  predicate IsTurn(reading: Reading) { reading.Reads? && reading.line.TurnLine? }

  predicate IsHeader(reading: Reading) { reading.Reads? && reading.line.HeaderLine? }

  /** The turn lines' turns, in file order. */
  function TurnsOf(kind: string -> Reading, lines: seq<string>): seq<Json> {
    if lines == [] then []
    else
      var last := kind(lines[|lines| - 1]);
      TurnsOf(kind, lines[..|lines| - 1]) + if IsTurn(last) then [last.line.turn] else []
  }

  /** The last header line's header. */
  function LastHeaderOf(kind: string -> Reading, lines: seq<string>): Header {
    if lines == [] then NO_HEADER
    else
      var last := kind(lines[|lines| - 1]);
      if IsHeader(last) then last.line.header else LastHeaderOf(kind, lines[..|lines| - 1])
  }

  predicate AnyTurn(kind: string -> Reading, lines: seq<string>, n: nat)
    requires n <= |lines|
  {
    exists j :: 0 <= j < n && IsTurn(kind(lines[j]))
  }

  /** Why line `i` cannot stand where it does, if it cannot. */
  function Misfit(kind: string -> Reading, lines: seq<string>, i: nat): Option<ReadError>
    requires i < |lines|
  {
    if kind(lines[i]).Unreadable? then Some(NotJson(i + 1))
    else if IsHeader(kind(lines[i])) && AnyTurn(kind, lines, i) then Some(SecondHeader(i + 1))
    else None
  }

  lemma {:induction false} NoTurnLines(kind: string -> Reading, lines: seq<string>, n: nat)
    requires n <= |lines|
    ensures TurnsOf(kind, lines[..n]) == [] <==> !AnyTurn(kind, lines, n)
  {
    if n > 0 {
      assert lines[..n][..n - 1] == lines[..n - 1];
      NoTurnLines(kind, lines, n - 1);
      if AnyTurn(kind, lines, n) {
        var j :| 0 <= j < n && IsTurn(kind(lines[j]));
        assert j == n - 1 || AnyTurn(kind, lines, n - 1);
      }
    }
  }

  lemma FoldStep(kind: string -> Reading, lines: seq<string>)
    requires lines != [] && Fold(StepBy(kind), lines[..|lines| - 1]).Ok?
    ensures Fold(StepBy(kind), lines)
         == TakeReading(Fold(StepBy(kind), lines[..|lines| - 1]).value, kind(lines[|lines| - 1]), |lines|)
  {
  }

  /** One more line: what it does to what the lines before it read as. */
  lemma NextLine(kind: string -> Reading, lines: seq<string>, n: nat)
    requires n < |lines|
    requires Fold(StepBy(kind), lines[..n]) == Ok(Scan(LastHeaderOf(kind, lines[..n]), TurnsOf(kind, lines[..n])))
    ensures Fold(StepBy(kind), lines[..n + 1]) ==
            match Misfit(kind, lines, n)
            case Some(error) => Err(error)
            case None => Ok(Scan(LastHeaderOf(kind, lines[..n + 1]), TurnsOf(kind, lines[..n + 1])))
  {
    var more := lines[..n + 1];
    assert more[..|more| - 1] == lines[..n] && more[|more| - 1] == lines[n];
    NoTurnLines(kind, lines, n);
    FoldStep(kind, more);
    assert TurnsOf(kind, lines[..n]) + [] == TurnsOf(kind, lines[..n]);
  }

  lemma {:induction false} FittingLinesRead(kind: string -> Reading, lines: seq<string>, n: nat)
    requires n <= |lines| && forall i :: 0 <= i < n ==> Misfit(kind, lines, i).None?
    ensures Fold(StepBy(kind), lines[..n]) == Ok(Scan(LastHeaderOf(kind, lines[..n]), TurnsOf(kind, lines[..n])))
  {
    if n > 0 {
      FittingLinesRead(kind, lines, n - 1);
      NextLine(kind, lines, n - 1);
    }
  }

  /** A file whose lines all fit reads as its turns, in order, under the last of its headers. */
  lemma FittingFileReads(parse: string -> Option<Line>, lines: seq<string>)
    requires forall i :: 0 <= i < |lines| ==> Misfit(Kinds(parse), lines, i).None?
    ensures ScanLines(parse, lines) == Ok(Scan(LastHeaderOf(Kinds(parse), lines), TurnsOf(Kinds(parse), lines)))
  {
    FittingLinesRead(Kinds(parse), lines, |lines|);
    assert lines[..|lines|] == lines;
  }

  /** Any other file fails, for its first line that does not fit. */
  lemma MisfitFails(parse: string -> Option<Line>, lines: seq<string>, i: nat)
    requires i < |lines| && Misfit(Kinds(parse), lines, i).Some?
    requires forall j :: 0 <= j < i ==> Misfit(Kinds(parse), lines, j).None?
    ensures ScanLines(parse, lines) == Err(Misfit(Kinds(parse), lines, i).value)
  {
    FittingLinesRead(Kinds(parse), lines, i);
    NextLine(Kinds(parse), lines, i);
    FoldFails(Reader(parse), lines, i + 1);
  }

  /** So a file reads exactly when every line that is not blank parses and no header line follows a turn line. */
  lemma ReadsExactlyWhenAllFit(parse: string -> Option<Line>, lines: seq<string>)
    ensures ScanLines(parse, lines).Ok? <==> forall i :: 0 <= i < |lines| ==> Misfit(Kinds(parse), lines, i).None?
  {
    if forall i :: 0 <= i < |lines| ==> Misfit(Kinds(parse), lines, i).None? {
      FittingFileReads(parse, lines);
    } else {
      var i := FirstMisfit(Kinds(parse), lines, |lines|);
      MisfitFails(parse, lines, i);
    }
  }

  lemma {:induction false} FirstMisfit(kind: string -> Reading, lines: seq<string>, n: nat) returns (i: nat)
    requires n <= |lines| && exists j :: 0 <= j < n && Misfit(kind, lines, j).Some?
    ensures i < n && Misfit(kind, lines, i).Some? && forall j :: 0 <= j < i ==> Misfit(kind, lines, j).None?
  {
    var j :| 0 <= j < n && Misfit(kind, lines, j).Some?;
    if exists k :: 0 <= k < j && Misfit(kind, lines, k).Some? {
      i := FirstMisfit(kind, lines, j);
    } else {
      i := j;
    }
  }

  /** More than one header line is accepted as long as no turn has been read, and the last one counts. */
  lemma LastHeaderWins(parse: string -> Option<Line>, lines: seq<string>, text: string, header: Header)
    requires ScanLines(parse, lines).Ok? && Trim(text) != [] && parse(Trim(text)) == Some(HeaderLine(header))
    ensures ScanLines(parse, lines + [text])
         == if ScanLines(parse, lines).value.turns == [] then Ok(Scan(header, []))
            else Err(SecondHeader(|lines| + 1))
  {
    assert (lines + [text])[..|lines|] == lines;
    FoldStep(Kinds(parse), lines + [text]);
  }
}

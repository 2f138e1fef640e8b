/**
 Incremental framing of an append-only line file: resume at a byte offset, stop at the last
 complete line, and start over when the file's identity changed or it shrank.
 */
module Tail {
  import opened Text
  import opened Utf8

  datatype Identity = Identity(device: nat, inode: nat)

  datatype File = File(identity: Identity, bytes: seq<Byte>)

  datatype Cursor = ByteOffset(identity: Identity, offset: nat)

  datatype TailRead = TailRead(lines: seq<string>, cursor: Cursor, rescanned: bool)

  datatype ReadResult = Ok(read: TailRead) | NotText(start: nat)

  // ----- lines

  predicate EndsLine(text: seq<Byte>) { text == [] || text[|text| - 1] == NEWLINE }

  /** The last place at or before `n` where a line ends. */
  function LineEnd(text: seq<Byte>, n: nat): (end: nat)
    requires n <= |text|
    ensures end <= n
  {
    if n == 0 || text[n - 1] == NEWLINE then n else LineEnd(text, n - 1)
  }

  /** The complete lines, newlines included: up to the last newline. */
  function Complete(text: seq<Byte>): seq<Byte> { text[..LineEnd(text, |text|)] }

  lemma {:induction false} LineEndIsLast(text: seq<Byte>, n: nat)
    requires n <= |text|
    ensures EndsLine(text[..LineEnd(text, n)]) && NEWLINE !in text[LineEnd(text, n)..n]
  {
    if n > 0 && text[n - 1] != NEWLINE {
      LineEndIsLast(text, n - 1);
      assert text[LineEnd(text, n)..n] == text[LineEnd(text, n)..n - 1] + [text[n - 1]];
    }
  }

  lemma CompleteEnds(text: seq<Byte>)
    ensures Complete(text) <= text && EndsLine(Complete(text))
    ensures NEWLINE !in text[|Complete(text)|..]
  {
    LineEndIsLast(text, |text|);
  }

  /** The complete lines, without their newlines; whatever follows the last one is not a line yet. */
  function Pieces(text: seq<Byte>): seq<seq<Byte>>
    decreases |text|
  {
    var at := FindByte(text, NEWLINE);
    if at.None? then [] else [text[..at.value]] + Pieces(text[at.value + 1..])
  }

  /** How bytes are read as text: which are text at all, and what one line amounts to. */
  datatype Format = Format(isText: seq<Byte> -> bool, line: seq<Byte> -> seq<string>)

  /** A line of UTF-8, unless it is blank.  A newline is a whole character, so cutting there cuts no other. */
  function Utf8Line(piece: seq<Byte>): seq<string> {
    var text := Decode(Stripped(piece));
    if Trim(text) == [] then [] else [text]
  }

  const UTF8 := Format(IsUtf8, Utf8Line)

  function Texts(pieces: seq<seq<Byte>>, format: Format): seq<string> {
    if pieces == [] then [] else format.line(pieces[0]) + Texts(pieces[1..], format)
  }

  function Lines(text: seq<Byte>, format: Format): seq<string> { Texts(Pieces(text), format) }

  lemma EndsLineBehind(text: seq<Byte>, k: nat)
    requires EndsLine(text) && k <= |text|
    ensures EndsLine(text[k..])
  {
  }

  lemma PiecesStep(a: seq<Byte>, b: seq<Byte>)
    requires NEWLINE in a
    ensures var at := FindByte(a, NEWLINE).value;
            && Pieces(a) == [a[..at]] + Pieces(a[at + 1..])
            && Pieces(a + b) == [a[..at]] + Pieces(a[at + 1..] + b)
  {
    var at := FindByte(a, NEWLINE).value;
    FindByteConcat(a, b, NEWLINE);
    assert (a + b)[at + 1..] == a[at + 1..] + b && (a + b)[..at] == a[..at];
  }

  lemma {:induction false} PiecesConcat(a: seq<Byte>, b: seq<Byte>)
    requires EndsLine(a)
    ensures Pieces(a + b) == Pieces(a) + Pieces(b)
    decreases |a|
  {
    if a == [] {
      assert a + b == b;
    } else {
      assert a[|a| - 1] == NEWLINE;
      var at := FindByte(a, NEWLINE).value;
      EndsLineBehind(a, at + 1);
      PiecesConcat(a[at + 1..], b);
      PiecesStep(a, b);
      ConcatAssociates([a[..at]], Pieces(a[at + 1..]), Pieces(b));
    }
  }

  lemma {:induction false} TextsConcat(a: seq<seq<Byte>>, b: seq<seq<Byte>>, format: Format)
    ensures Texts(a + b, format) == Texts(a, format) + Texts(b, format)
  {
    if a == [] {
      assert a + b == b;
    } else {
      assert (a + b)[1..] == a[1..] + b;
      TextsConcat(a[1..], b, format);
    }
  }

  lemma LinesConcat(a: seq<Byte>, b: seq<Byte>, format: Format)
    requires EndsLine(a)
    ensures Lines(a + b, format) == Lines(a, format) + Lines(b, format)
  {
    PiecesConcat(a, b);
    TextsConcat(Pieces(a), Pieces(b), format);
  }

  lemma LinesOfComplete(text: seq<Byte>, format: Format)
    ensures Lines(text, format) == Lines(Complete(text), format)
  {
    CompleteEnds(text);
    var n := |Complete(text)|;
    assert text == Complete(text) + text[n..];
    LinesConcat(Complete(text), text[n..], format);
  }

  lemma {:induction false} LineEndBefore(part: seq<Byte>, rest: seq<Byte>, n: nat)
    requires EndsLine(part) && NEWLINE !in rest && n <= |rest|
    ensures LineEnd(part + rest, |part| + n) == |part|
  {
    if n > 0 {
      assert (part + rest)[|part| + n - 1] == rest[n - 1];
      LineEndBefore(part, rest, n - 1);
    } else if part != [] {
      assert (part + rest)[|part| - 1] == part[|part| - 1];
    }
  }

  /** Only one prefix ends a line and leaves none behind it. */
  lemma CompleteIsEnd(part: seq<Byte>, rest: seq<Byte>)
    requires EndsLine(part) && NEWLINE !in rest
    ensures Complete(part + rest) == part
  {
    LineEndBefore(part, rest, |rest|);
  }

  /** The complete part of a text that goes on after complete lines. */
  lemma CompleteConcat(a: seq<Byte>, b: seq<Byte>)
    requires EndsLine(a)
    ensures Complete(a + b) == a + Complete(b)
  {
    var part := Complete(b);
    CompleteEnds(b);
    var rest := b[|part|..];
    assert b == part + rest && a + b == a + part + rest;
    CompleteIsEnd(a + part, rest);
  }

  // ----- valid text

  lemma Utf8Concat(a: seq<Byte>, b: seq<Byte>)
    requires IsUtf8(a) && IsUtf8(b)
    ensures IsUtf8(a + b)
  {
    EncodeConcat(Decode(a), Decode(b));
    DecodeEncode(Decode(a) + Decode(b));
  }

  lemma Utf8Prefix(text: seq<Byte>, k: nat)
    requires IsUtf8(text) && k <= |Decode(text)|
    ensures ByteLen(Decode(text)[..k]) <= |text|
    ensures IsUtf8(text[..ByteLen(Decode(text)[..k])]) && IsUtf8(text[ByteLen(Decode(text)[..k])..])
  {
    var s := Decode(text);
    EncodeSplit(s, k);
    DecodeEncode(s[..k]);
    DecodeEncode(s[k..]);
    assert text[..ByteLen(s[..k])] == Encode(s[..k]) && text[ByteLen(s[..k])..] == Encode(s[k..]);
  }

  /** A newline in valid text is a whole character. */
  lemma NewlineIsAChar(s: string, at: nat) returns (k: nat)
    requires at < ByteLen(s) && Encode(s)[at] == NEWLINE
    ensures k <= |s| && ByteLen(s[..k]) == at + 1
  {
    var j := BoundaryIsPrefix(s, at);
    assert s[..|s|] == s;
    EncodeSplit(s, j);
    assert Encode(s)[at] == Encode(s[j..])[0] == EncodeChar(s[j])[0];
    EncodeConcat(s[..j], [s[j]]);
    assert s[..j] + [s[j]] == s[..j + 1] && Encode([s[j]]) == EncodeChar(s[j]) + Encode([]);
    k := j + 1;
  }

  /** Valid text cut behind a newline is valid on both sides. */
  lemma Utf8Split(a: seq<Byte>, b: seq<Byte>)
    requires EndsLine(a) && IsUtf8(a + b)
    ensures IsUtf8(a) && IsUtf8(b)
  {
    var text := a + b;
    if a == [] {
      assert text == b;
    } else {
      var k := NewlineIsAChar(Decode(text), |a| - 1);
      Utf8Prefix(text, k);
      assert text[..|a|] == a && text[|a|..] == b;
    }
  }

  /** Text goes on after complete lines exactly when what follows is text. */
  ghost predicate CutsAtLines(format: Format) {
    && format.isText([])
    && (forall a, b {:trigger format.isText(a + b)} :: EndsLine(a) && format.isText(a + b) ==> format.isText(a))
    && (forall a, b {:trigger format.isText(a + b)} ::
          EndsLine(a) && format.isText(a) ==> format.isText(a + b) == format.isText(b))
  }

  lemma Utf8CutsAtLines()
    ensures CutsAtLines(UTF8)
  {
    forall a, b | EndsLine(a) && UTF8.isText(a + b) ensures UTF8.isText(a) {
      Utf8Split(a, b);
    }
    forall a, b | EndsLine(a) && UTF8.isText(a) ensures UTF8.isText(a + b) == UTF8.isText(b) {
      if IsUtf8(b) {
        Utf8Concat(a, b);
      } else if IsUtf8(a + b) {
        Utf8Split(a, b);
      }
    }
  }

  // ----- one read

  /** Whether a read goes on where the cursor points; otherwise it starts over. */
  predicate Resumes(file: File, cursor: Option<Cursor>) {
    cursor.Some? && cursor.value.identity == file.identity && cursor.value.offset <= |file.bytes|
  }

  function Origin(file: File, cursor: Option<Cursor>): (start: nat)
    ensures start <= |file.bytes|
  {
    if Resumes(file, cursor) then cursor.value.offset else 0
  }

  /** The bytes a read consumes. */
  function Consumed(file: File, cursor: Option<Cursor>): seq<Byte> {
    Complete(file.bytes[Origin(file, cursor)..])
  }

  lemma ConsumedIs(file: File, cursor: Option<Cursor>, part: seq<Byte>, rest: seq<Byte>)
    requires file.bytes[Origin(file, cursor)..] == part + rest && EndsLine(part) && NEWLINE !in rest
    ensures Consumed(file, cursor) == part
  {
    CompleteIsEnd(part, rest);
  }

  /** What a read that consumes `bytes` returns. */
  function Framed(identity: Identity, start: nat, bytes: seq<Byte>, rescanned: bool, format: Format): ReadResult {
    if !format.isText(bytes) then NotText(start)
    else Ok(TailRead(Lines(bytes, format), ByteOffset(identity, start + |bytes|), rescanned))
  }

  predicate Rescans(file: File, cursor: Option<Cursor>) { cursor.Some? && !Resumes(file, cursor) }

  function ReadFrom(file: File, cursor: Option<Cursor>, format: Format): ReadResult {
    Framed(file.identity, Origin(file, cursor), Consumed(file, cursor), Rescans(file, cursor), format)
  }

  /** How far the last newline reaches, scanning from the end. */
  method LastNewline(buffer: seq<Byte>) returns (length: nat)
    ensures length <= |buffer| && EndsLine(buffer[..length]) && NEWLINE !in buffer[length..]
  {
    length := |buffer|;
    while length > 0 && buffer[length - 1] != NEWLINE
      invariant length <= |buffer| && NEWLINE !in buffer[length..]
    {
      length := length - 1;
      assert buffer[length..] == [buffer[length]] + buffer[length + 1..];
    }
  }

  /** The program's read: from the offset held, to the last newline. */
  method ReadLines(file: File, cursor: Option<Cursor>, format: Format) returns (result: ReadResult)
    requires CutsAtLines(format)
    ensures result == ReadFrom(file, cursor, format)
  {
    var size := |file.bytes|;
    var start, rescanned := 0, false;
    if cursor.Some? {
      var moved := cursor.value.identity != file.identity;
      var shrank := size < cursor.value.offset;
      if moved || shrank {
        rescanned := true;
      } else {
        start := cursor.value.offset;
      }
    }
    assert start == Origin(file, cursor) && rescanned == Rescans(file, cursor);
    if start == size {
      ConsumedIs(file, cursor, [], []);
      return Ok(TailRead([], ByteOffset(file.identity, start), rescanned));
    }
    var buffer := file.bytes[start..];
    var length := LastNewline(buffer);
    var complete := buffer[..length];
    ConsumedIs(file, cursor, complete, buffer[length..]);
    if !format.isText(complete) {
      return NotText(start);
    }
    return Ok(TailRead(Lines(complete, format), ByteOffset(file.identity, start + length), rescanned));
  }

  // ----- one read after another

  /** A file that only grew, and not past a cursor it was short of. */
  predicate Grew(file: File, grown: File, cursor: Option<Cursor>) {
    && grown.identity == file.identity && file.bytes <= grown.bytes
    && Resumes(grown, cursor) == Resumes(file, cursor)
  }

  /** Where the read after this one starts. */
  function Next(file: File, cursor: Option<Cursor>): Cursor {
    ByteOffset(file.identity, Origin(file, cursor) + |Consumed(file, cursor)|)
  }

  lemma ConsumedEnds(file: File, cursor: Option<Cursor>)
    ensures EndsLine(Consumed(file, cursor)) && Next(file, cursor).offset <= |file.bytes|
    ensures Consumed(file, cursor) <= file.bytes[Origin(file, cursor)..]
    ensures NEWLINE !in file.bytes[Next(file, cursor).offset..]
  {
    var start := Origin(file, cursor);
    CompleteEnds(file.bytes[start..]);
    assert file.bytes[start..][|Consumed(file, cursor)|..] == file.bytes[Next(file, cursor).offset..];
  }

  /** The bytes two reads consume, one after the other, are those of one read of the grown file. */
  lemma ConsumedInTwo(file: File, grown: File, cursor: Option<Cursor>)
    requires Grew(file, grown, cursor)
    ensures Origin(grown, cursor) == Origin(file, cursor) && Resumes(grown, Some(Next(file, cursor)))
    ensures Consumed(grown, cursor) == Consumed(file, cursor) + Consumed(grown, Some(Next(file, cursor)))
  {
    var start, a, next := Origin(file, cursor), Consumed(file, cursor), Next(file, cursor);
    ConsumedEnds(file, cursor);
    assert file.bytes[start..] <= grown.bytes[start..];
    assert grown.bytes[start..] == a + grown.bytes[next.offset..];
    CompleteConcat(a, grown.bytes[next.offset..]);
  }

  /** Two reads amount to one. */
  ghost predicate Continues(first: TailRead, second: ReadResult, whole: ReadResult) {
    && (second.Ok? <==> whole.Ok?)
    && (whole.Ok? ==> whole.read == TailRead(first.lines + second.read.lines, second.read.cursor, first.rescanned)
                      && !second.read.rescanned)
  }

  lemma FramedInTwo(identity: Identity, start: nat, a: seq<Byte>, b: seq<Byte>, rescanned: bool, format: Format)
    requires EndsLine(a) && format.isText(a) && format.isText(a + b) == format.isText(b)
    ensures Continues(Framed(identity, start, a, rescanned, format).read,
                      Framed(identity, start + |a|, b, false, format),
                      Framed(identity, start, a + b, rescanned, format))
  {
    LinesConcat(a, b, format);
  }

  /**
   However a file's growth falls between reads, whole lines and half ones alike, reading what
   was there and then from the cursor returned yields the lines and the cursor, or the
   failure, that one read of the grown file yields.
   */
  lemma GrowthYieldsTheDelta(file: File, grown: File, cursor: Option<Cursor>, format: Format)
    requires CutsAtLines(format) && ReadFrom(file, cursor, format).Ok? && Grew(file, grown, cursor)
    ensures ReadFrom(file, cursor, format).read.cursor == Next(file, cursor)
    ensures Continues(ReadFrom(file, cursor, format).read, ReadFrom(grown, Some(Next(file, cursor)), format),
                      ReadFrom(grown, cursor, format))
  {
    var start, a, b := Origin(file, cursor), Consumed(file, cursor), Consumed(grown, Some(Next(file, cursor)));
    ConsumedEnds(file, cursor);
    ConsumedInTwo(file, grown, cursor);
    assert format.isText(a + b) == format.isText(b);
    FramedInTwo(file.identity, start, a, b, Rescans(file, cursor), format);
  }

  /** Reading again from the cursor returned yields nothing and stays where it is. */
  lemma RereadingYieldsNothing(file: File, cursor: Option<Cursor>, format: Format)
    requires CutsAtLines(format) && ReadFrom(file, cursor, format).Ok?
    ensures var again := Some(ReadFrom(file, cursor, format).read.cursor);
            ReadFrom(file, again, format) == Ok(TailRead([], again.value, false))
  {
    var next := Some(Next(file, cursor));
    NothingFollows(file, cursor);
    assert format.isText([]);
  }

  lemma NothingFollows(file: File, cursor: Option<Cursor>)
    ensures Resumes(file, Some(Next(file, cursor))) && Consumed(file, Some(Next(file, cursor))) == []
  {
    ConsumedEnds(file, cursor);
    var rest := file.bytes[Next(file, cursor).offset..];
    assert [] + rest == rest;
    ConsumedIs(file, Some(Next(file, cursor)), [], rest);
  }
}

/**
 What one read of a growing UTF-8 file returns, in terms of the lines written to it: where it
 starts, the texts it yields, where it leaves the cursor, and when it says it started over.
 */
module Reads {
  import opened Text
  import opened Utf8
  import opened Tail

  /** One line as it was written, with a line feed or a carriage return and a line feed behind it. */
  datatype TextLine = TextLine(text: string, returned: bool)

  function Ending(returned: bool): string { if returned then "\r\n" else "\n" }

  function Written(lines: seq<TextLine>): string {
    if lines == [] then ""
    else
      var last := lines[|lines| - 1];
      Written(lines[..|lines| - 1]) + (last.text + Ending(last.returned))
  }

  /** No line feed inside; without a carriage return behind it, none at its end either. */
  predicate IsLine(line: TextLine) {
    '\n' !in line.text && (line.returned || line.text == [] || line.text[|line.text| - 1] != '\r')
  }

  predicate AreLines(lines: seq<TextLine>) { forall i :: 0 <= i < |lines| ==> IsLine(lines[i]) }

  predicate IsBlank(text: string) { forall c :: c in text ==> IsWhitespace(c) }

  function TextIn(line: TextLine): Option<string> { if IsBlank(line.text) then None else Some(line.text) }

  /** `texts` are those of the lines that are not blank, in order. */
  ghost predicate AreTextsOf(texts: seq<string>, lines: seq<TextLine>) {
    exists at :: ArePicked(at, texts, TextIn, lines)
  }

  lemma CharBytes(c: char, b: Byte)
    requires b < 0x80
    ensures b in EncodeChar(c) <==> c as int == b
    ensures EncodeChar(c)[|EncodeChar(c)| - 1] == b <==> c as int == b
  {
  }

  /** An ASCII byte stands in the bytes of a text exactly where its character does, at the end in particular. */
  lemma {:induction false} TextBytes(s: string, c: char)
    requires c as int < 0x80
    ensures (c as int) in Encode(s) <==> c in s
    ensures s != [] ==> Encode(s) != [] && (Encode(s)[|Encode(s)| - 1] == c as int <==> s[|s| - 1] == c)
  {
    if s != [] {
      CharBytes(s[0], c as int);
      TextBytes(s[1..], c);
      assert s == [s[0]] + s[1..];
    }
  }

  lemma EncodedChar(c: char)
    ensures Encode([c]) == EncodeChar(c)
  {
    assert [c][1..] == [];
  }

  lemma EndingBytes(returned: bool)
    ensures Encode(Ending(returned)) == if returned then [0x0D, 0x0A] else [0x0A]
  {
    EncodedChar('\n');
    if returned {
      EncodeConcat("\r", "\n");
      EncodedChar('\r');
    }
  }

  lemma BytesOfLine(text: seq<Byte>, ending: seq<Byte>, returned: bool)
    requires 0x0A !in text && (returned || text == [] || text[|text| - 1] != 0x0D)
    requires ending == if returned then [0x0D, 0x0A] else [0x0A]
    ensures var (bytes, at) := (text + ending, |text + ending| - 1);
            && FindByte(bytes, NEWLINE) == Some(at) && bytes[at + 1..] == [] && Stripped(bytes[..at]) == text
  {
    var bytes := text + ending;
    var at := |bytes| - 1;
    assert bytes[at] == NEWLINE && bytes[..at] == text + if returned then [RETURN] else [];
    assert forall j :: 0 <= j < at ==> bytes[j] != NEWLINE;
    assert (text + [RETURN])[..|text|] == text;
  }

  /** A line in bytes: cut at its line feed and stripped, it is its text again. */
  lemma LineBytes(line: TextLine)
    requires IsLine(line)
    ensures var bytes := Encode(line.text + Ending(line.returned));
            && bytes != [] && FindByte(bytes, NEWLINE) == Some(|bytes| - 1) && bytes[|bytes|..] == []
            && Stripped(bytes[..|bytes| - 1]) == Encode(line.text)
  {
    EncodeConcat(line.text, Ending(line.returned));
    EndingBytes(line.returned);
    TextBytes(line.text, '\n');
    TextBytes(line.text, '\r');
    BytesOfLine(Encode(line.text), Encode(Ending(line.returned)), line.returned);
  }

  lemma LineReads(line: TextLine)
    requires IsLine(line)
    ensures EndsLine(Encode(line.text + Ending(line.returned)))
    ensures Lines(Encode(line.text + Ending(line.returned)), UTF8) == if IsBlank(line.text) then [] else [line.text]
  {
    var bytes := Encode(line.text + Ending(line.returned));
    var piece := bytes[..|bytes| - 1];
    LineBytes(line);
    DecodeEncode(line.text);
    TrimsToNothing(line.text);
    var pieces: seq<seq<Byte>> := [piece];
    assert Pieces(bytes) == pieces;
    assert pieces[1..] == [] && Texts(pieces, UTF8) == Utf8Line(piece) + Texts(pieces[1..], UTF8);
  }

  lemma OneMoreText(texts: seq<string>, front: seq<TextLine>, last: TextLine, more: seq<string>)
    requires AreTextsOf(texts, front) && more == if TextIn(last).Some? then [TextIn(last).value] else []
    ensures AreTextsOf(texts + more, front + [last])
  {
    var at :| ArePicked(at, texts, TextIn, front);
    at := PickedAppend(at, texts, TextIn, front, last);
  }

  lemma OneMoreLine(before: seq<Byte>, front: seq<TextLine>, last: TextLine, bytes: seq<Byte>)
    requires EndsLine(before) && EndsLine(bytes) && AreTextsOf(Lines(before, UTF8), front)
    requires Lines(bytes, UTF8) == if TextIn(last).Some? then [TextIn(last).value] else []
    ensures EndsLine(before + bytes) && AreTextsOf(Lines(before + bytes, UTF8), front + [last])
  {
    LinesConcat(before, bytes, UTF8);
    OneMoreText(Lines(before, UTF8), front, last, Lines(bytes, UTF8));
  }

  lemma WrittenBytes(front: seq<TextLine>, last: TextLine)
    ensures Encode(Written(front + [last])) == Encode(Written(front)) + Encode(last.text + Ending(last.returned))
  {
    assert (front + [last])[..|front|] == front;
    EncodeConcat(Written(front), last.text + Ending(last.returned));
  }

  lemma {:induction false} LinesRead(lines: seq<TextLine>)
    requires AreLines(lines)
    ensures EndsLine(Encode(Written(lines))) && AreTextsOf(Lines(Encode(Written(lines)), UTF8), lines)
  {
    if lines == [] {
      NoLineReads(Encode(Written(lines)), lines);
    } else {
      var front, last := lines[..|lines| - 1], lines[|lines| - 1];
      assert front + [last] == lines;
      LinesRead(front);
      LineReads(last);
      WrittenBytes(front, last);
      OneMoreLine(Encode(Written(front)), front, last, Encode(last.text + Ending(last.returned)));
    }
  }

  lemma NoLineReads(bytes: seq<Byte>, lines: seq<TextLine>)
    requires bytes == [] && lines == []
    ensures EndsLine(bytes) && AreTextsOf(Lines(bytes, UTF8), lines)
  {
    assert ArePicked([], Lines(bytes, UTF8), TextIn, lines);
  }

  /** A cursor behind `before`, of the same file; or none that counts, and nothing read before. */
  predicate StartsBehind(file: File, cursor: Option<Cursor>, before: seq<Byte>, resumed: bool) {
    if resumed then cursor == Some(ByteOffset(file.identity, |before|))
    else before == []
         && (cursor.Some? ==> cursor.value.identity != file.identity || cursor.value.offset > |file.bytes|)
  }

  lemma OriginIs(file: File, cursor: Option<Cursor>, before: seq<Byte>, resumed: bool)
    requires |before| <= |file.bytes| && StartsBehind(file, cursor, before, resumed)
    ensures Origin(file, cursor) == |before|
    ensures Rescans(file, cursor) <==> cursor.Some? && !resumed
  {
  }

  lemma BehindIs<T>(all: seq<T>, before: seq<T>, part: seq<T>, rest: seq<T>)
    requires all == before + part + rest
    ensures all[|before|..] == part + rest
  {
    ConcatAssociates(before, part, rest);
  }

  lemma ConsumedIsPart(file: File, cursor: Option<Cursor>, before: seq<Byte>, part: seq<Byte>, rest: seq<Byte>)
    requires file.bytes == before + part + rest && Origin(file, cursor) == |before|
    requires EndsLine(part) && 0x0A !in rest
    ensures Consumed(file, cursor) == part
  {
    BehindIs(file.bytes, before, part, rest);
    ConsumedIs(file, cursor, part, rest);
  }

  /**
   One read of lines written behind what was read before: their texts, blank ones dropped, a
   cursor behind the last of them, and word of having started over when there was a cursor that
   does not count.  A line still without its line feed is left for the next read.
   */
  lemma ReadReturns(file: File, cursor: Option<Cursor>, before: seq<Byte>, lines: seq<TextLine>, rest: seq<Byte>,
                    resumed: bool)
    requires AreLines(lines) && file.bytes == before + Encode(Written(lines)) + rest && 0x0A !in rest
    requires StartsBehind(file, cursor, before, resumed)
    ensures var result := ReadFrom(file, cursor, UTF8);
            && result.Ok? && AreTextsOf(result.read.lines, lines)
            && result.read.cursor == ByteOffset(file.identity, |file.bytes| - |rest|)
            && (result.read.rescanned <==> cursor.Some? && !resumed)
  {
    LinesRead(lines);
    OriginIs(file, cursor, before, resumed);
    ConsumedIsPart(file, cursor, before, Encode(Written(lines)), rest);
    DecodeEncode(Written(lines));
  }

  /** Whole lines that are not UTF-8 fail the read, which says from where. */
  lemma ReadRefuses(file: File, cursor: Option<Cursor>, before: seq<Byte>, part: seq<Byte>, rest: seq<Byte>,
                    resumed: bool)
    requires file.bytes == before + part + rest && EndsLine(part) && 0x0A !in rest
    requires StartsBehind(file, cursor, before, resumed) && forall s :: Encode(s) != part
    ensures ReadFrom(file, cursor, UTF8) == NotText(|before|)
  {
    OriginIs(file, cursor, before, resumed);
    ConsumedIsPart(file, cursor, before, part, rest);
  }
}

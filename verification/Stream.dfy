/**
 What the activity stream's decoder delivers, line by line: every well-formed event in order,
 the greeting before them, nothing for a blank line, and the first bad line's own error.
 */
module Stream {
  import opened Text
  import opened Utf8
  import opened Decoder

  /** One line as it is sent, with a line feed or a carriage return and a line feed behind it. */
  datatype Line = Line(content: seq<Byte>, returned: bool)

  function Sent(line: Line): seq<Byte> { line.content + (if line.returned then [0x0D] else []) + [0x0A] }

  function SentAll(lines: seq<Line>): seq<Byte> {
    if lines == [] then [] else SentAll(lines[..|lines| - 1]) + Sent(lines[|lines| - 1])
  }

  /** No line feed inside; without a carriage return behind it, none at its end either. */
  predicate IsLine(line: Line) {
    0x0A !in line.content
    && (line.returned || line.content == [] || line.content[|line.content| - 1] != 0x0D)
  }

  predicate AreLines(lines: seq<Line>) { forall i :: 0 <= i < |lines| ==> IsLine(lines[i]) }

  /** Blank, or an event of version 1. */
  predicate IsEventOrBlank(codec: Codec, line: Line) {
    line.content == [] || (codec.event(line.content).Some? && codec.event(line.content).value.v == 1)
  }

  predicate IsStreamHello(hello: Hello) { hello.stream == "fs3.events" && hello.v == 1 }

  /** The event a line that is not blank is. */
  function EventIn(codec: Codec): Line -> Option<StreamRecord> {
    (line: Line) =>
      if line.content == [] || codec.event(line.content).None? then None
      else Some(Happened(codec.event(line.content).value))
  }

  /** `records` are the events of the lines that are not blank, in order. */
  ghost predicate AreEventsOf(records: seq<StreamRecord>, codec: Codec, lines: seq<Line>) {
    exists at :: ArePicked(at, records, EventIn(codec), lines)
  }

  /** What is wrong with a line, if a greeting has come, or not. */
  predicate IsFaultOf(error: DecodeError, codec: Codec, greeted: bool, line: Line) {
    && line.content != []
    && if greeted then
         match codec.event(line.content)
         case None => error == InvalidEvent
         case Some(event) => event.v != 1 && error == UnsupportedEvent(event.v)
       else
         match codec.hello(line.content)
         case None => error == InvalidHello
         case Some(hello) => !IsStreamHello(hello) && error == UnsupportedStream(hello.stream, hello.v)
  }

  lemma FirstLineIs(line: Line, more: seq<Byte>)
    requires IsLine(line)
    ensures var at := |Sent(line)| - 1;
            && FindByte(Sent(line) + more, NEWLINE) == Some(at)
            && (Sent(line) + more)[at + 1..] == more
            && Stripped((Sent(line) + more)[..at]) == line.content
  {
    var at, text := |Sent(line)| - 1, Sent(line) + more;
    assert text[at] == NEWLINE;
    assert forall j :: 0 <= j < at ==> text[j] != NEWLINE;
    assert text[..at] == line.content + if line.returned then [RETURN] else [];
    assert (line.content + [RETURN])[..|line.content|] == line.content;
  }

  lemma FirstLineDrains(codec: Codec, mode: Mode, line: Line, more: seq<Byte>)
    requires IsLine(line)
    ensures var taken := TakeLine(codec, mode, line.content);
            && (taken.Err? ==> Drain(codec, mode, Sent(line) + more) == Drained([], mode, more, Some(taken.error)))
            && (taken.Ok? ==> Drain(codec, mode, Sent(line) + more)
                              == Prepend(taken.value.1, Drain(codec, taken.value.0, more)))
  {
    FirstLineIs(line, more);
    DrainLine(codec, mode, Sent(line) + more, |Sent(line)| - 1);
  }

  /** What one line adds. */
  function Added(codec: Codec, line: Line): seq<StreamRecord>
    requires IsEventOrBlank(codec, line)
  {
    if line.content == [] then [] else [Happened(codec.event(line.content).value)]
  }

  /** A line at the front of a buffer that the decoder takes, and the rest after it. */
  lemma LineIsTaken(codec: Codec, mode: Mode, line: Line, more: seq<Byte>)
    requires IsLine(line)
    ensures line.content == [] ==> Drain(codec, mode, Sent(line) + more) == Drain(codec, mode, more)
    ensures mode.greeted && IsEventOrBlank(codec, line) ==>
              Drain(codec, mode, Sent(line) + more) == Prepend(Added(codec, line), Drain(codec, mode, more))
    ensures line.content != [] && !mode.greeted && codec.hello(line.content).Some?
            && IsStreamHello(codec.hello(line.content).value) ==>
              var hello := codec.hello(line.content).value;
              Drain(codec, mode, Sent(line) + more)
              == Prepend([Greeting(hello)], Drain(codec, Mode(true, hello.heartbeatMs), more))
  {
    FirstLineDrains(codec, mode, line, more);
    assert Prepend([], Drain(codec, mode, more)) == Drain(codec, mode, more);
  }

  /** One that it refuses. */
  lemma LineFails(codec: Codec, mode: Mode, line: Line, more: seq<Byte>, error: DecodeError)
    requires IsLine(line) && IsFaultOf(error, codec, mode.greeted, line)
    ensures Drain(codec, mode, Sent(line) + more) == Drained([], mode, more, Some(error))
  {
    FirstLineDrains(codec, mode, line, more);
  }

  /** What decoding a buffer of whole lines without an error leaves. */
  ghost predicate Delivers(codec: Codec, mode: Mode, buffer: seq<Byte>, records: seq<StreamRecord>, after: Mode) {
    Drain(codec, mode, buffer) == Drained(records, after, [], None)
  }

  lemma DeliversThen(codec: Codec, mode: Mode, a: seq<Byte>, records: seq<StreamRecord>, between: Mode, b: seq<Byte>)
    requires Delivers(codec, mode, a, records, between)
    ensures Drain(codec, mode, a + b) == Prepend(records, Drain(codec, between, b))
  {
    DrainConcat(codec, mode, a, b);
    assert [] + b == b;
  }

  lemma BothAreDelivered(codec: Codec, mode: Mode, a: seq<Byte>, b: seq<Byte>, first: seq<StreamRecord>,
                         between: Mode, second: seq<StreamRecord>, after: Mode)
    requires Delivers(codec, mode, a, first, between) && Delivers(codec, between, b, second, after)
    ensures Delivers(codec, mode, a + b, first + second, after)
  {
    DeliversThen(codec, mode, a, first, between, b);
  }

  lemma OneIsDelivered(codec: Codec, mode: Mode, line: Line)
    requires mode.greeted && IsLine(line) && IsEventOrBlank(codec, line)
    ensures Delivers(codec, mode, Sent(line), Added(codec, line), mode)
  {
    LineIsTaken(codec, mode, line, []);
    assert Sent(line) + [] == Sent(line);
  }

  lemma OneMoreLine(codec: Codec, mode: Mode, front: seq<Line>, last: Line, records: seq<StreamRecord>)
    requires mode.greeted && IsLine(last) && IsEventOrBlank(codec, last)
    requires Delivers(codec, mode, SentAll(front), records, mode) && AreEventsOf(records, codec, front)
    ensures Delivers(codec, mode, SentAll(front) + Sent(last), records + Added(codec, last), mode)
    ensures AreEventsOf(records + Added(codec, last), codec, front + [last])
  {
    var at :| ArePicked(at, records, EventIn(codec), front);
    at := PickedAppend(at, records, EventIn(codec), front, last);
    OneIsDelivered(codec, mode, last);
    BothAreDelivered(codec, mode, SentAll(front), Sent(last), records, mode, Added(codec, last), mode);
  }

  /** Event lines are all delivered, in order; blank lines add nothing. */
  lemma {:induction false} EventsAreDelivered(codec: Codec, mode: Mode, lines: seq<Line>)
    returns (records: seq<StreamRecord>)
    requires mode.greeted && AreLines(lines)
    requires forall i :: 0 <= i < |lines| ==> IsEventOrBlank(codec, lines[i])
    ensures Delivers(codec, mode, SentAll(lines), records, mode) && AreEventsOf(records, codec, lines)
  {
    if lines == [] {
      records := [];
      assert ArePicked([], records, EventIn(codec), lines);
    } else {
      var front, last := lines[..|lines| - 1], lines[|lines| - 1];
      assert front + [last] == lines;
      records := EventsAreDelivered(codec, mode, front);
      OneMoreLine(codec, mode, front, last, records);
      records := records + Added(codec, last);
    }
  }

  /** Until the greeting, blank lines are skipped too. */
  lemma {:induction false} BlanksAreSkipped(codec: Codec, mode: Mode, blanks: seq<Line>)
    requires forall i :: 0 <= i < |blanks| ==> blanks[i].content == []
    ensures Delivers(codec, mode, SentAll(blanks), [], mode)
  {
    if blanks != [] {
      var front, last := blanks[..|blanks| - 1], blanks[|blanks| - 1];
      BlanksAreSkipped(codec, mode, front);
      LineIsTaken(codec, mode, last, []);
      assert Sent(last) + [] == Sent(last);
      BothAreDelivered(codec, mode, SentAll(front), Sent(last), [], mode, [], mode);
    }
  }

  /**
   The whole stream: blank lines, a greeting, then events and blank lines.  The greeting is
   delivered first, then every event in order; the heartbeat kept is the greeting's.
   */
  lemma StreamIsDelivered(codec: Codec, mode: Mode, blanks: seq<Line>, greeting: Line, lines: seq<Line>)
    returns (records: seq<StreamRecord>)
    requires !mode.greeted && IsLine(greeting) && AreLines(lines)
    requires forall i :: 0 <= i < |blanks| ==> blanks[i].content == []
    requires greeting.content != [] && codec.hello(greeting.content).Some?
    requires IsStreamHello(codec.hello(greeting.content).value)
    requires forall i :: 0 <= i < |lines| ==> IsEventOrBlank(codec, lines[i])
    ensures var hello := codec.hello(greeting.content).value;
            && Delivers(codec, mode, SentAll(blanks) + Sent(greeting) + SentAll(lines), [Greeting(hello)] + records,
                        Mode(true, hello.heartbeatMs))
            && AreEventsOf(records, codec, lines)
  {
    var hello := codec.hello(greeting.content).value;
    var after := Mode(true, hello.heartbeatMs);
    records := EventsAreDelivered(codec, after, lines);
    BlanksAreSkipped(codec, mode, blanks);
    LineIsTaken(codec, mode, greeting, SentAll(lines));
    DeliversThen(codec, mode, SentAll(blanks), [], mode, Sent(greeting) + SentAll(lines));
    ConcatAssociates(SentAll(blanks), Sent(greeting), SentAll(lines));
  }

  /**
   The first bad line stops the decoder with its own error: what came before it is decoded,
   the bytes behind it are left, and the mode is the one it was met in.
   */
  lemma FirstBadLineIsTheError(codec: Codec, mode: Mode, front: seq<Byte>, records: seq<StreamRecord>, met: Mode,
                               bad: Line, more: seq<Byte>, error: DecodeError)
    requires Delivers(codec, mode, front, records, met)
    requires IsLine(bad) && IsFaultOf(error, codec, met.greeted, bad)
    ensures Drain(codec, mode, front + Sent(bad) + more) == Drained(records, met, more, Some(error))
  {
    LineFails(codec, met, bad, more, error);
    DeliversThen(codec, mode, front, records, met, Sent(bad) + more);
    ConcatAssociates(front, Sent(bad), more);
  }

  /** A last line without its line feed is kept for the next chunk. */
  lemma UnfinishedLineIsKept(codec: Codec, mode: Mode, front: seq<Byte>, records: seq<StreamRecord>, met: Mode,
                             more: seq<Byte>)
    requires Delivers(codec, mode, front, records, met) && 0x0A !in more
    ensures Drain(codec, mode, front + more) == Drained(records, met, more, None)
  {
    DeliversThen(codec, mode, front, records, met, more);
  }

  /** However the network cuts such a stream into chunks, the same records are handed on. */
  lemma CutStreamIsDelivered(codec: Codec, mode: Mode, whole: seq<Byte>, records: seq<StreamRecord>, after: Mode,
                             chunks: seq<seq<Byte>>)
    requires Delivers(codec, mode, whole, records, after) && Concat(chunks) == whole
    ensures Feed(codec, mode, [], chunks) == Drained(records, after, [], None)
  {
    ChunkingIsIrrelevant(codec, mode, [], chunks);
    assert [] + whole == whole;
  }
}

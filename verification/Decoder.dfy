/**
 The incremental decoder of the activity stream: newline-delimited JSON, a greeting first,
 cut into chunks wherever the network likes.  Turning one line into a value is a parameter.
 */
module Decoder {
  import opened Text
  import opened Utf8

  datatype Hello = Hello(stream: string, v: nat, daemon: string, heartbeatMs: nat)
  datatype Event = Event(v: nat, at: string, kind: string)
  datatype StreamRecord = Greeting(hello: Hello) | Happened(event: Event)

  /** JSON decoding of one line, undefined on text that is not such a value. */
  datatype Codec = Codec(hello: seq<Byte> -> Option<Hello>, event: seq<Byte> -> Option<Event>)

  datatype DecodeError =
    | InvalidHello
    | UnsupportedStream(stream: string, v: nat)
    | InvalidEvent
    | UnsupportedEvent(v: nat)

  datatype Result<T> = Ok(value: T) | Err(error: DecodeError)

  const STREAM_NAME := "fs3.events"
  const STREAM_VERSION: nat := 1
  const CLIENT_TIMEOUT_MS: nat := 3_000

  /** What the decoder remembers between lines. */
  datatype Mode = Mode(greeted: bool, heartbeatMs: nat)

  /** One line's effect: nothing if blank, the greeting if none came yet, otherwise an event. */
  function TakeLine(codec: Codec, mode: Mode, line: seq<Byte>): Result<(Mode, seq<StreamRecord>)> {
    if line == [] then Ok((mode, []))
    else if !mode.greeted then
      match codec.hello(line)
      case None => Err(InvalidHello)
      case Some(hello) =>
        if hello.stream != STREAM_NAME || hello.v != STREAM_VERSION then Err(UnsupportedStream(hello.stream, hello.v))
        else Ok((Mode(true, hello.heartbeatMs), [Greeting(hello)]))
    else
      match codec.event(line)
      case None => Err(InvalidEvent)
      case Some(event) =>
        if event.v != STREAM_VERSION then Err(UnsupportedEvent(event.v)) else Ok((mode, [Happened(event)]))
  }

  /** Everything a run over a buffer leaves: the records decoded, the mode, the bytes not consumed, the error if any. */
  datatype Drained = Drained(records: seq<StreamRecord>, mode: Mode, rest: seq<Byte>, error: Option<DecodeError>)

  function Prepend(records: seq<StreamRecord>, d: Drained): Drained { d.(records := records + d.records) }

  function Drain(codec: Codec, mode: Mode, buffer: seq<Byte>): Drained
    decreases |buffer|
  {
    var newline := FindByte(buffer, NEWLINE);
    if newline.None? then Drained([], mode, buffer, None)
    else
      var rest := buffer[newline.value + 1..];
      match TakeLine(codec, mode, Stripped(buffer[..newline.value]))
      case Err(error) => Drained([], mode, rest, Some(error))
      case Ok((next, records)) => Prepend(records, Drain(codec, next, rest))
  }

  /** One turn of the drain. */
  lemma DrainLine(codec: Codec, mode: Mode, buffer: seq<Byte>, at: nat)
    requires FindByte(buffer, NEWLINE) == Some(at)
    ensures var line := TakeLine(codec, mode, Stripped(buffer[..at]));
            && (line.Err? ==> Drain(codec, mode, buffer) == Drained([], mode, buffer[at + 1..], Some(line.error)))
            && (line.Ok? ==> Drain(codec, mode, buffer)
                             == Prepend(line.value.1, Drain(codec, line.value.0, buffer[at + 1..])))
  {
  }

  class EventDecoder {
    const codec: Codec
    var buffer: seq<Byte>
    var greeted: bool
    var heartbeatMs: nat

    constructor (codec: Codec)
      ensures this.codec == codec && buffer == [] && !greeted && heartbeatMs == CLIENT_TIMEOUT_MS
    {
      this.codec := codec;
      buffer, greeted, heartbeatMs := [], false, CLIENT_TIMEOUT_MS;
    }

    /** Handle one stripped line. */
    method DecodeLine(line: seq<Byte>) returns (result: Result<seq<StreamRecord>>)
      modifies this`greeted, this`heartbeatMs
      ensures match TakeLine(codec, old(Mode(greeted, heartbeatMs)), line)
              case Err(error) => result == Err(error) && Mode(greeted, heartbeatMs) == old(Mode(greeted, heartbeatMs))
              case Ok((mode, records)) => result == Ok(records) && Mode(greeted, heartbeatMs) == mode
    {
      if line == [] {
        return Ok([]);
      }
      if !greeted {
        var hello := codec.hello(line);
        if hello.None? {
          return Err(InvalidHello);
        }
        if hello.value.stream != STREAM_NAME || hello.value.v != STREAM_VERSION {
          return Err(UnsupportedStream(hello.value.stream, hello.value.v));
        }
        heartbeatMs := hello.value.heartbeatMs;
        greeted := true;
        return Ok([Greeting(hello.value)]);
      }
      var event := codec.event(line);
      if event.None? {
        return Err(InvalidEvent);
      }
      if event.value.v != STREAM_VERSION {
        return Err(UnsupportedEvent(event.value.v));
      }
      return Ok([Happened(event.value)]);
    }

    /** Decode every complete line; on an error the records of this push are dropped. */
    method Push(bytes: seq<Byte>) returns (result: Result<seq<StreamRecord>>)
      modifies this
      ensures var d := Drain(codec, old(Mode(greeted, heartbeatMs)), old(buffer) + bytes);
              && Mode(greeted, heartbeatMs) == d.mode && buffer == d.rest
              && result == if d.error.Some? then Err(d.error.value) else Ok(d.records)
    {
      buffer := buffer + bytes;
      var records: seq<StreamRecord> := [];
      ghost var whole := Drain(codec, Mode(greeted, heartbeatMs), buffer);
      var newline := FindByte(buffer, NEWLINE);
      while newline.Some?
        invariant newline == FindByte(buffer, NEWLINE)
        invariant whole == Prepend(records, Drain(codec, Mode(greeted, heartbeatMs), buffer))
        decreases |buffer|
      {
        ghost var before, left := Mode(greeted, heartbeatMs), buffer;
        var line := buffer[..newline.value];
        buffer := buffer[newline.value + 1..];
        if line != [] && line[|line| - 1] == RETURN {
          line := line[..|line| - 1];
        }
        var decoded := DecodeLine(line);
        DrainLine(codec, before, left, newline.value);
        if decoded.Err? {
          return decoded;
        }
        PrependTwice(records, decoded.value, Drain(codec, Mode(greeted, heartbeatMs), buffer));
        records := records + decoded.value;
        newline := FindByte(buffer, NEWLINE);
      }
      assert records + [] == records;
      return Ok(records);
    }

    /** Whether the stream ended between lines. */
    method Finish() returns (complete: bool)
      ensures complete <==> buffer == []
    {
      complete := buffer == [];
    }
  }

  // ----- cutting a stream into chunks

  lemma PrependTwice(first: seq<StreamRecord>, second: seq<StreamRecord>, d: Drained)
    ensures Prepend(first, Prepend(second, d)) == Prepend(first + second, d)
  {
    assert first + (second + d.records) == first + second + d.records;
  }

  /** The first line of a longer buffer is the first line of its front. */
  lemma FirstLineOfBoth(codec: Codec, mode: Mode, a: seq<Byte>, b: seq<Byte>, at: nat, rest: seq<Byte>)
    requires FindByte(a, NEWLINE) == Some(at) && rest == a[at + 1..]
    ensures var line := TakeLine(codec, mode, Stripped(a[..at]));
            && (line.Err? ==> Drain(codec, mode, a) == Drained([], mode, rest, Some(line.error))
                              && Drain(codec, mode, a + b) == Drained([], mode, rest + b, Some(line.error)))
            && (line.Ok? ==>
                  var (next, records) := line.value;
                  && Drain(codec, mode, a) == Prepend(records, Drain(codec, next, rest))
                  && Drain(codec, mode, a + b) == Prepend(records, Drain(codec, next, rest + b)))
  {
    FindByteConcat(a, b, NEWLINE);
    assert (a + b)[at + 1..] == rest + b && (a + b)[..at] == a[..at];
    DrainLine(codec, mode, a, at);
    DrainLine(codec, mode, a + b, at);
  }

  /** Decoding a longer buffer is decoding its front and then, unless that failed, what it left plus the rest. */
  lemma {:induction false} DrainConcat(codec: Codec, mode: Mode, a: seq<Byte>, b: seq<Byte>)
    ensures var d := Drain(codec, mode, a);
            Drain(codec, mode, a + b) ==
            if d.error.Some? then d.(rest := d.rest + b) else Prepend(d.records, Drain(codec, d.mode, d.rest + b))
    decreases |a|
  {
    var newline := FindByte(a, NEWLINE);
    if newline.None? {
      assert Prepend([], Drain(codec, mode, a + b)) == Drain(codec, mode, a + b);
    } else {
      var rest := a[newline.value + 1..];
      var line := TakeLine(codec, mode, Stripped(a[..newline.value]));
      FirstLineOfBoth(codec, mode, a, b, newline.value, rest);
      if line.Ok? {
        DrainConcat(codec, line.value.0, rest, b);
        var d := Drain(codec, line.value.0, rest);
        if d.error.None? {
          PrependTwice(line.value.1, d.records, Drain(codec, d.mode, d.rest + b));
        }
      }
    }
  }

  /** Pushing chunks one after another, until one fails; `records` are those handed on. */
  function Feed(codec: Codec, mode: Mode, buffer: seq<Byte>, chunks: seq<seq<Byte>>): Drained
    decreases |chunks|
  {
    if chunks == [] then Drained([], mode, buffer, None)
    else
      var d := Drain(codec, mode, buffer + chunks[0]);
      if d.error.Some? then d.(records := []) else Prepend(d.records, Feed(codec, d.mode, d.rest, chunks[1..]))
  }

  function Concat(chunks: seq<seq<Byte>>): seq<Byte> {
    if chunks == [] then [] else chunks[0] + Concat(chunks[1..])
  }

  ghost predicate NoLine(buffer: seq<Byte>) { NEWLINE !in buffer }

  lemma {:induction false} DrainLeavesNoLine(codec: Codec, mode: Mode, buffer: seq<Byte>)
    ensures Drain(codec, mode, buffer).error.None? ==> NoLine(Drain(codec, mode, buffer).rest)
    decreases |buffer|
  {
    var newline := FindByte(buffer, NEWLINE);
    if newline.Some? {
      var at := newline.value;
      var taken := TakeLine(codec, mode, Stripped(buffer[..at]));
      var rest := buffer[at + 1..];
      if taken.Ok? {
        DrainLeavesNoLine(codec, taken.value.0, rest);
        DrainLine(codec, mode, buffer, at);
        assert Drain(codec, mode, buffer).rest == Drain(codec, taken.value.0, rest).rest;
      }
    }
  }

  /**
   However a stream is cut, decoding it chunk by chunk fails with the same error as decoding
   it whole, or else yields the same records and the same state; and what it handed on before
   failing is a prefix of the records before the bad line.
   */
  lemma {:induction false} ChunkingIsIrrelevant(codec: Codec, mode: Mode, buffer: seq<Byte>, chunks: seq<seq<Byte>>)
    requires NoLine(buffer)
    ensures var (fed, whole) := (Feed(codec, mode, buffer, chunks), Drain(codec, mode, buffer + Concat(chunks)));
            && fed.error == whole.error && fed.mode == whole.mode
            && fed.records <= whole.records
            && (whole.error.None? ==> fed == whole)
    decreases |chunks|
  {
    if chunks == [] {
      assert buffer + Concat(chunks) == buffer;
    } else {
      var front, rest := buffer + chunks[0], Concat(chunks[1..]);
      assert buffer + Concat(chunks) == front + rest;
      DrainConcat(codec, mode, front, rest);
      DrainLeavesNoLine(codec, mode, front);
      var d := Drain(codec, mode, front);
      if d.error.None? {
        ChunkingIsIrrelevant(codec, d.mode, d.rest, chunks[1..]);
      }
    }
  }

  ghost predicate GreetsOnce(records: seq<StreamRecord>, greeted: bool) {
    forall i :: 0 <= i < |records| ==> (records[i].Greeting? <==> i == 0 && !greeted)
  }

  /** Records yielded from a mode: greeted once at most, and greeted now if anything came. */
  ghost predicate Greets(before: Mode, records: seq<StreamRecord>, after: Mode) {
    GreetsOnce(records, before.greeted) && (after.greeted <==> before.greeted || records != [])
  }

  lemma GreetsConcat(before: Mode, a: seq<StreamRecord>, between: Mode, b: seq<StreamRecord>, after: Mode)
    requires Greets(before, a, between) && Greets(between, b, after)
    ensures Greets(before, a + b, after)
  {
  }

  lemma LineGreets(codec: Codec, mode: Mode, line: seq<Byte>)
    requires TakeLine(codec, mode, line).Ok?
    ensures Greets(mode, TakeLine(codec, mode, line).value.1, TakeLine(codec, mode, line).value.0)
  {
  }

  /** One line in front of a drain. */
  lemma LineInFrontGreets(codec: Codec, mode: Mode, line: seq<Byte>, d: Drained)
    requires TakeLine(codec, mode, line).Ok? && Greets(TakeLine(codec, mode, line).value.0, d.records, d.mode)
    ensures Greets(mode, Prepend(TakeLine(codec, mode, line).value.1, d).records, d.mode)
  {
    var (next, records) := TakeLine(codec, mode, line).value;
    LineGreets(codec, mode, line);
    GreetsConcat(mode, records, next, d.records, d.mode);
  }

  /** What decoding a buffer yields greets once at most. */
  ghost predicate BufferGreets(codec: Codec, mode: Mode, buffer: seq<Byte>) {
    Greets(mode, Drain(codec, mode, buffer).records, Drain(codec, mode, buffer).mode)
  }

  lemma FirstLineGreets(codec: Codec, mode: Mode, buffer: seq<Byte>, at: nat, rest: seq<Byte>)
    requires FindByte(buffer, NEWLINE) == Some(at) && rest == buffer[at + 1..]
    requires forall next :: BufferGreets(codec, next, rest)
    ensures BufferGreets(codec, mode, buffer)
  {
    var line := Stripped(buffer[..at]);
    var taken := TakeLine(codec, mode, line);
    DrainLine(codec, mode, buffer, at);
    if taken.Ok? {
      assert BufferGreets(codec, taken.value.0, rest);
      LineInFrontGreets(codec, mode, line, Drain(codec, taken.value.0, rest));
    }
  }

  /** The greeting comes first, once, and has come exactly when the stream has yielded anything. */
  lemma {:induction false} GreetingComesFirst(codec: Codec, mode: Mode, buffer: seq<Byte>)
    ensures BufferGreets(codec, mode, buffer)
    decreases |buffer|
  {
    var newline := FindByte(buffer, NEWLINE);
    if newline.Some? {
      var rest := buffer[newline.value + 1..];
      forall next ensures BufferGreets(codec, next, rest) {
        GreetingComesFirst(codec, next, rest);
      }
      FirstLineGreets(codec, mode, buffer, newline.value, rest);
    }
  }
}

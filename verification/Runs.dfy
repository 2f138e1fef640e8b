/**
 Every run of conversation ingest: a transcript that grows by lines and half lines, rotates,
 is truncated or rewritten in place; a reader that resumes from a byte offset or starts over;
 and a store that commits a poll's turns first and its ledger rows and cursor second.
 */
module Runs {
  import opened Text
  import opened Utf8
  import opened Tail
  import opened Ingest
  import opened Protocol

  /** How a transcript is read: as text, and line by line; a line that is no record is dropped. */
  datatype Reader = Reader(format: Format, parse: string -> Option<RawRecord>)

  datatype ReadBatch = ReadBatch(records: seq<RawRecord>, cursor: Cursor, rescanned: bool)

  function Parsed(lines: seq<string>, reader: Reader): seq<RawRecord> {
    if lines == [] then []
    else
      var record := reader.parse(lines[|lines| - 1]);
      Parsed(lines[..|lines| - 1], reader) + if record.Some? then [record.value] else []
  }

  /** The records of a text's complete lines. */
  function Records(text: seq<Byte>, reader: Reader): seq<RawRecord> { Parsed(Lines(text, reader.format), reader) }

  /** One read; bytes that are not text fail it. */
  function Batch(file: File, cursor: Option<Cursor>, reader: Reader): Option<ReadBatch> {
    match ReadFrom(file, cursor, reader.format)
    case NotText(_) => None
    case Ok(read) => Some(ReadBatch(Parsed(read.lines, reader), read.cursor, read.rescanned))
  }

  method ReadIncremental(file: File, cursor: Option<Cursor>, reader: Reader) returns (batch: Option<ReadBatch>)
    requires CutsAtLines(reader.format)
    ensures batch == Batch(file, cursor, reader)
  {
    var result := ReadLines(file, cursor, reader.format);
    if result.NotText? {
      return None;
    }
    var lines, records := result.read.lines, [];
    for i := 0 to |lines|
      invariant records == Parsed(lines[..i], reader)
    {
      assert lines[..i + 1][..i] == lines[..i];
      var record := reader.parse(lines[i]);
      if record.Some? {
        records := records + [record.value];
      }
    }
    assert lines[..|lines|] == lines;
    return Some(ReadBatch(records, result.read.cursor, result.read.rescanned));
  }

  lemma {:induction false} ParsedConcat(a: seq<string>, b: seq<string>, reader: Reader)
    ensures Parsed(a + b, reader) == Parsed(a, reader) + Parsed(b, reader)
  {
    if b == [] {
      assert a + b == a;
    } else {
      assert (a + b)[..|a + b| - 1] == a + b[..|b| - 1];
      ParsedConcat(a, b[..|b| - 1], reader);
    }
  }

  lemma RecordsConcat(a: seq<Byte>, b: seq<Byte>, reader: Reader)
    requires EndsLine(a)
    ensures Records(a + b, reader) == Records(a, reader) + Records(b, reader)
    ensures Ordinals(Records(a + b, reader)) == Ordinals(Records(a, reader)) + Ordinals(Records(b, reader))
  {
    LinesConcat(a, b, reader.format);
    ParsedConcat(Lines(a, reader.format), Lines(b, reader.format), reader);
    OrdinalsConcat(Records(a, reader), Records(b, reader));
  }

  /** A batch holds the records from where the read started, and the cursor moves over its lines. */
  lemma BatchReads(file: File, cursor: Option<Cursor>, reader: Reader)
    requires Batch(file, cursor, reader).Some?
    ensures Batch(file, cursor, reader).value.records == Records(Consumed(file, cursor), reader)
    ensures Records(Consumed(file, cursor), reader) == Records(file.bytes[Origin(file, cursor)..], reader)
    ensures Batch(file, cursor, reader).value.cursor == Next(file, cursor)
  {
    LinesOfComplete(file.bytes[Origin(file, cursor)..], reader.format);
  }

  // ----- the file, the cursor and the store together

  /**
   `read` is every record a committed poll was handed, in order; `consumed` is the bytes
   committed polls have gone over since the reader last started over.
   */
  datatype World = World(file: File, cursor: Option<Cursor>, store: Store, read: seq<RawRecord>, consumed: seq<Byte>)

  datatype Step =
    | Append(bytes: seq<Byte>)   // the harness writes on
    | Replace(file: File)        // rotation, truncation, or a rewrite in place
    | PollOnce                   // read, append turns, commit ledger rows and cursor
    | PollTorn                   // read and append turns, but commit nothing else
    | PollLost                   // a poll that stores nothing

  function Start(file: File): World { World(file, None, EMPTY_STORE, [], []) }

  function Committed(w: World, batch: ReadBatch): World {
    World(w.file, Some(batch.cursor), Poll(w.store, batch.records), w.read + batch.records,
          (if Resumes(w.file, w.cursor) then w.consumed else []) + Consumed(w.file, w.cursor))
  }

  function Torn(w: World, batch: ReadBatch): World {
    w.(store := w.store.(turns := Poll(w.store, batch.records).turns))
  }

  function Take(w: World, step: Step, reader: Reader): World {
    var batch := Batch(w.file, w.cursor, reader);
    match step
    case Append(bytes) => w.(file := w.file.(bytes := w.file.bytes + bytes))
    case Replace(file) => w.(file := file)
    case PollOnce => if batch.Some? then Committed(w, batch.value) else w
    case PollTorn => if batch.Some? then Torn(w, batch.value) else w
    case PollLost => w
  }

  function Run(w: World, steps: seq<Step>, reader: Reader): World
    decreases |steps|
  {
    if steps == [] then w else Run(Take(w, steps[0], reader), steps[1..], reader)
  }

  lemma {:induction false} RunThen(w: World, steps: seq<Step>, last: Step, reader: Reader)
    ensures Run(w, steps + [last], reader) == Take(Run(w, steps, reader), last, reader)
    decreases |steps|
  {
    if steps == [] {
      assert Run(Take(w, last, reader), [], reader) == Take(w, last, reader);
      assert (steps + [last])[1..] == [];
    } else {
      assert (steps + [last])[1..] == steps[1..] + [last];
      RunThen(Take(w, steps[0], reader), steps[1..], last, reader);
    }
  }

  lemma NumberableBefore(before: seq<RawRecord>, after: seq<RawRecord>)
    requires before <= after
    ensures Numberable(after) ==> Numberable(before)
  {
    assert after == before + after[|before|..];
    FreshConcat(before, after[|before|..], {});
  }

  lemma {:induction false} ReadOnlyGrows(w: World, steps: seq<Step>, reader: Reader)
    ensures w.read <= Run(w, steps, reader).read
    ensures Numberable(Run(w, steps, reader).read) ==> Numberable(w.read)
    decreases |steps|
  {
    if steps != [] {
      ReadOnlyGrows(Take(w, steps[0], reader), steps[1..], reader);
    }
    NumberableBefore(w.read, Run(w, steps, reader).read);
  }

  // ----- the ledger is what was read, torn polls or not

  lemma StepKeepsLedger(w: World, step: Step, reader: Reader)
    requires w.store.ledger.Keys == Ordinals(w.read)
    ensures Take(w, step, reader).store.ledger.Keys == Ordinals(Take(w, step, reader).read)
  {
    var batch := Batch(w.file, w.cursor, reader);
    if step.PollOnce? && batch.Some? {
      PollRecords(w.store, batch.value.records);
      OrdinalsConcat(w.read, batch.value.records);
    }
  }

  /** Whatever happens, the ledger has exactly the ordinals that committed polls were handed. */
  lemma {:induction false} LedgerIsWhatWasRead(w: World, steps: seq<Step>, reader: Reader)
    requires w.store.ledger.Keys == Ordinals(w.read)
    ensures Run(w, steps, reader).store.ledger.Keys == Ordinals(Run(w, steps, reader).read)
    decreases |steps|
  {
    if steps != [] {
      StepKeepsLedger(w, steps[0], reader);
      LedgerIsWhatWasRead(Take(w, steps[0], reader), steps[1..], reader);
    }
  }

  // ----- exactly once, unless a poll was torn

  /** How many turns a torn poll leaves behind without ledger rows. */
  function TornBy(w: World, step: Step, reader: Reader): nat {
    var batch := Batch(w.file, w.cursor, reader);
    if step.PollTorn? && batch.Some? then |Fresh(batch.value.records, Seen(w.store, batch.value.records))| else 0
  }

  function TornInAll(w: World, steps: seq<Step>, reader: Reader): nat
    decreases |steps|
  {
    if steps == [] then 0
    else TornBy(w, steps[0], reader) + TornInAll(Take(w, steps[0], reader), steps[1..], reader)
  }

  lemma {:induction false} TornThen(w: World, steps: seq<Step>, last: Step, reader: Reader)
    ensures TornInAll(w, steps + [last], reader)
         == TornInAll(w, steps, reader) + TornBy(Run(w, steps, reader), last, reader)
    decreases |steps|
  {
    if steps == [] {
      assert (steps + [last])[1..] == [];
    } else {
      assert (steps + [last])[1..] == steps[1..] + [last];
      TornThen(Take(w, steps[0], reader), steps[1..], last, reader);
    }
  }

  /** By how many the turns outnumber the ledger. */
  function Excess(store: Store): int { |store.turns| - |store.ledger.Keys| }

  lemma StepExcess(w: World, step: Step, reader: Reader)
    ensures Excess(Take(w, step, reader).store) == Excess(w.store) + TornBy(w, step, reader)
    ensures w.store.turns <= Take(w, step, reader).store.turns
  {
    var batch := Batch(w.file, w.cursor, reader);
    if (step.PollOnce? || step.PollTorn?) && batch.Some? {
      PollRecords(w.store, batch.value.records);
      PollAppendsAll(w.store, batch.value.records);
    }
  }

  /** Stored turns are never taken back, and exceed the ledger by exactly what torn polls left behind. */
  lemma {:induction false} ExcessIsTorn(w: World, steps: seq<Step>, reader: Reader)
    ensures Excess(Run(w, steps, reader).store) == Excess(w.store) + TornInAll(w, steps, reader)
    ensures w.store.turns <= Run(w, steps, reader).store.turns
    decreases |steps|
  {
    if steps != [] {
      StepExcess(w, steps[0], reader);
      ExcessIsTorn(Take(w, steps[0], reader), steps[1..], reader);
    }
  }

  lemma HoldsHasNoExcess(store: Store, history: seq<RawRecord>)
    requires Holds(store, history)
    ensures Excess(store) == 0
  {
    HoldsMeans(store, history);
    FreshOrdinals(history, {});
    DistinctOrdinals(Fresh(history, {}));
    assert Ordinals(history) - {} == Ordinals(history);
  }

  lemma StepStoresOnce(w: World, step: Step, reader: Reader)
    requires Holds(w.store, w.read) && Numberable(Take(w, step, reader).read) && TornBy(w, step, reader) == 0
    ensures Holds(Take(w, step, reader).store, Take(w, step, reader).read)
  {
    var batch := Batch(w.file, w.cursor, reader);
    if step.PollOnce? && batch.Some? {
      PollExtends(w.store, w.read, batch.value.records);
    } else if step.PollTorn? && batch.Some? {
      PollAppendsAll(w.store, batch.value.records);
      assert Torn(w, batch.value).store == w.store;
    }
  }

  lemma {:induction false} UntornRunsStoreOnce(w: World, steps: seq<Step>, reader: Reader)
    requires Holds(w.store, w.read) && Numberable(Run(w, steps, reader).read) && TornInAll(w, steps, reader) == 0
    ensures Holds(Run(w, steps, reader).store, Run(w, steps, reader).read)
    decreases |steps|
  {
    if steps != [] {
      var next := Take(w, steps[0], reader);
      ReadOnlyGrows(next, steps[1..], reader);
      StepStoresOnce(w, steps[0], reader);
      UntornRunsStoreOnce(next, steps[1..], reader);
    }
  }

  /**
   Whatever happens to the file and whichever polls fail, the store holds each ordinal it was
   ever handed exactly once, densely numbered in order, if and only if no torn poll left a
   turn behind.
   */
  lemma RunStoresOnce(w: World, steps: seq<Step>, reader: Reader)
    requires Holds(w.store, w.read) && Numberable(Run(w, steps, reader).read)
    ensures Holds(Run(w, steps, reader).store, Run(w, steps, reader).read) <==> TornInAll(w, steps, reader) == 0
  {
    if TornInAll(w, steps, reader) == 0 {
      UntornRunsStoreOnce(w, steps, reader);
    } else if Holds(Run(w, steps, reader).store, Run(w, steps, reader).read) {
      ExcessIsTorn(w, steps, reader);
      HoldsHasNoExcess(w.store, w.read);
      HoldsHasNoExcess(Run(w, steps, reader).store, Run(w, steps, reader).read);
    }
  }

  /** A torn poll leaves nothing behind exactly when the ledger already has all it read. */
  predicate TornHarmlessly(w: World, step: Step, reader: Reader) {
    var batch := Batch(w.file, w.cursor, reader);
    step.PollTorn? && batch.Some? ==> Ordinals(batch.value.records) <= w.store.ledger.Keys
  }

  predicate AllTornHarmlessly(w: World, steps: seq<Step>, reader: Reader)
    decreases |steps|
  {
    || steps == []
    || (TornHarmlessly(w, steps[0], reader) && AllTornHarmlessly(Take(w, steps[0], reader), steps[1..], reader))
  }

  lemma HarmlessStep(w: World, step: Step, reader: Reader)
    ensures TornBy(w, step, reader) == 0 <==> TornHarmlessly(w, step, reader)
  {
    var batch := Batch(w.file, w.cursor, reader);
    if step.PollTorn? && batch.Some? {
      NothingFresh(batch.value.records, Seen(w.store, batch.value.records));
      SeenIsMet(w.store, batch.value.records);
    }
  }

  lemma {:induction false} NothingTornExactlyWhenHarmless(w: World, steps: seq<Step>, reader: Reader)
    ensures TornInAll(w, steps, reader) == 0 <==> AllTornHarmlessly(w, steps, reader)
    decreases |steps|
  {
    if steps != [] {
      HarmlessStep(w, steps[0], reader);
      NothingTornExactlyWhenHarmless(Take(w, steps[0], reader), steps[1..], reader);
    }
  }

  lemma PollIs(store: Store, records: seq<RawRecord>)
    ensures Poll(store, records).turns
         == store.turns + Numbered(Fresh(records, Seen(store, records)), NextTurnNo(store))
  {
  }

  /**
   Turns without ledger rows are duplicated later, never lost: the poll after a torn one appends
   the very records it left once more, numbered on from the new high-water mark.
   */
  lemma TurnsWithoutLedgerAreDuplicated(w: World, reader: Reader)
    requires Batch(w.file, w.cursor, reader).Some?
    ensures var records := Batch(w.file, w.cursor, reader).value.records;
            var (left, torn) := (Fresh(records, Seen(w.store, records)), Take(w, PollTorn, reader));
            && TornBy(w, PollTorn, reader) == |left|
            && torn.store.turns == w.store.turns + Numbered(left, NextTurnNo(w.store))
            && Take(torn, PollOnce, reader).store.turns == torn.store.turns + Numbered(left, NextTurnNo(torn.store))
  {
    var records := Batch(w.file, w.cursor, reader).value.records;
    var torn := Take(w, PollTorn, reader);
    PollIs(w.store, records);
    PollIs(torn.store, records);
    assert Seen(torn.store, records) == Seen(w.store, records);
  }

  /** Torn polls or not, turn numbers run from one without a gap while they fit a `u32`. */
  lemma {:induction false} NumbersStayDense(w: World, steps: seq<Step>, reader: Reader)
    requires Dense(w.store.turns) && |Run(w, steps, reader).store.turns| < U32
    ensures Dense(Run(w, steps, reader).store.turns)
    decreases |steps|
  {
    if steps != [] {
      var next, batch := Take(w, steps[0], reader), Batch(w.file, w.cursor, reader);
      ExcessIsTorn(next, steps[1..], reader);
      if (steps[0].PollOnce? || steps[0].PollTorn?) && batch.Some? {
        PollStaysDense(w.store, batch.value.records);
      }
      NumbersStayDense(next, steps[1..], reader);
    }
  }
}

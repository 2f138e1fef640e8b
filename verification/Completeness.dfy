/**
 What a poll reads of a file: exactly when records are missed after a rewrite the reader
 cannot see, and that a file whose history is only extended is stored as it reads.
 */
module Completeness {
  import opened Text
  import opened Utf8
  import opened Tail
  import opened Ingest
  import opened Protocol
  import opened Runs

  // ----- the bytes a cursor stands for

  /** The consumed bytes are whole lines, as many as the cursor says, and their records have been read. */
  ghost predicate Traced(w: World, reader: Reader) {
    && EndsLine(w.consumed) && |w.consumed| == (if w.cursor.Some? then w.cursor.value.offset else 0)
    && Ordinals(Records(w.consumed, reader)) <= Ordinals(w.read)
  }

  lemma UnionMonotone<T>(a: set<T>, b: set<T>, c: set<T>)
    requires a <= c
    ensures a + b <= c + b
  {
  }

  lemma EndsLineConcat(a: seq<Byte>, b: seq<Byte>)
    requires EndsLine(a) && EndsLine(b)
    ensures EndsLine(a + b)
  {
  }

  lemma PollTraces(w: World, reader: Reader)
    requires Traced(w, reader)
    ensures Traced(Take(w, PollOnce, reader), reader)
  {
    var batch := Batch(w.file, w.cursor, reader);
    if batch.Some? {
      var was, more := if Resumes(w.file, w.cursor) then w.consumed else [], Consumed(w.file, w.cursor);
      ConsumedEnds(w.file, w.cursor);
      BatchReads(w.file, w.cursor, reader);
      EndsLineConcat(was, more);
      RecordsConcat(was, more, reader);
      OrdinalsConcat(w.read, batch.value.records);
      assert Ordinals(Records([], reader)) == {};
      UnionMonotone(Ordinals(Records(was, reader)), Ordinals(batch.value.records), Ordinals(w.read));
    }
  }

  /** Every run keeps this, whatever happens to the file. */
  lemma {:induction false} EveryRunIsTraced(w: World, steps: seq<Step>, reader: Reader)
    requires Traced(w, reader)
    ensures Traced(Run(w, steps, reader), reader)
    decreases |steps|
  {
    if steps != [] {
      if steps[0].PollOnce? {
        PollTraces(w, reader);
      }
      EveryRunIsTraced(Take(w, steps[0], reader), steps[1..], reader);
    }
  }

  // ----- what a poll misses

  /** The end of the line `offset` falls into; `offset` itself at the start of a line. */
  function ThroughLine(text: seq<Byte>, offset: nat): (end: nat)
    requires offset <= |text|
    ensures offset <= end <= |text|
  {
    if EndsLine(text[..offset]) then offset
    else
      var at := FindByte(text[offset..], NEWLINE);
      if at.Some? then offset + at.value + 1 else |text|
  }

  /** The records of the lines that begin before the place a read starts at. */
  function Skipped(file: File, cursor: Option<Cursor>, reader: Reader): seq<RawRecord> {
    Records(file.bytes[..ThroughLine(file.bytes, Origin(file, cursor))], reader)
  }

  /** Cutting a text behind the line an offset falls into. */
  lemma CutThroughLine(text: seq<Byte>, offset: nat, reader: Reader)
    requires offset <= |text|
    ensures var end := ThroughLine(text, offset);
            var (skipped, rest) := (Records(text[..end], reader), Records(text[end..], reader));
            Ordinals(Records(text, reader)) == Ordinals(skipped) + Ordinals(rest)
            && Ordinals(rest) <= Ordinals(Records(text[offset..], reader))
  {
    var end := ThroughLine(text, offset);
    var part, rest := text[offset..end], text[end..];
    assert text == text[..end] + rest && text[offset..] == part + rest;
    if end < |text| {
      if end > offset {
        assert text[end - 1] == NEWLINE;
      }
      RecordsConcat(text[..end], rest, reader);
      RecordsConcat(part, rest, reader);
    } else {
      assert text[..end] == text && rest == [];
      assert Ordinals(Records(rest, reader)) == {};
    }
  }

  lemma SkipsNothing(file: File, cursor: Option<Cursor>, reader: Reader)
    requires !Resumes(file, cursor)
    ensures Skipped(file, cursor, reader) == []
  {
    assert file.bytes[..0] == [];
  }

  lemma Covered<T>(whole: set<T>, skipped: set<T>, rest: set<T>, batch: set<T>, before: set<T>)
    requires whole == skipped + rest && rest <= batch
    ensures whole <= before + batch <==> skipped <= before + batch
  {
  }

  /**
   A poll that can read the file has read every record of it if and only if each record that
   begins in the bytes it skipped had been read before, or is met again further on.  Only a
   poll that resumes skips anything.
   */
  lemma PollMissesNothingExactlyWhen(w: World, reader: Reader)
    requires Batch(w.file, w.cursor, reader).Some?
    ensures var batch := Batch(w.file, w.cursor, reader).value.records;
            Ordinals(Records(w.file.bytes, reader)) <= Ordinals(Take(w, PollOnce, reader).read)
            <==> (Resumes(w.file, w.cursor) ==>
                    Ordinals(Skipped(w.file, w.cursor, reader)) <= Ordinals(w.read) + Ordinals(batch))
  {
    var batch := Batch(w.file, w.cursor, reader).value.records;
    var start := Origin(w.file, w.cursor);
    var end := ThroughLine(w.file.bytes, start);
    BatchReads(w.file, w.cursor, reader);
    CutThroughLine(w.file.bytes, start, reader);
    OrdinalsConcat(w.read, batch);
    Covered(Ordinals(Records(w.file.bytes, reader)), Ordinals(Skipped(w.file, w.cursor, reader)),
            Ordinals(Records(w.file.bytes[end..], reader)), Ordinals(batch), Ordinals(w.read));
    if !Resumes(w.file, w.cursor) {
      SkipsNothing(w.file, w.cursor, reader);
    }
  }

  /** Where a read would resume, the file still holds the lines that were consumed. */
  ghost predicate Intact(w: World, reader: Reader) {
    Resumes(w.file, w.cursor) ==>
      && EndsLine(w.file.bytes[..w.cursor.value.offset])
      && Records(w.file.bytes[..w.cursor.value.offset], reader) == Records(w.consumed, reader)
  }

  /** What the store has after one more poll of a run. */
  function AfterPoll(file: File, steps: seq<Step>, reader: Reader): World {
    Take(Run(Start(file), steps, reader), PollOnce, reader)
  }

  lemma StartIsGood(file: File, reader: Reader)
    ensures Traced(Start(file), reader) && Start(file).store.ledger.Keys == Ordinals(Start(file).read)
    ensures Holds(Start(file).store, Start(file).read)
  {
    assert Ordinals(Records([], reader)) == {};
  }

  /**
   Over every run: after a poll that can read the file, the ledger has every record of it if
   and only if what the poll skipped had been read, or is met again.
   */
  lemma LedgerIsCompleteExactlyWhen(file: File, steps: seq<Step>, reader: Reader)
    requires var w := Run(Start(file), steps, reader); Batch(w.file, w.cursor, reader).Some?
    ensures var w := Run(Start(file), steps, reader);
            var batch := Batch(w.file, w.cursor, reader).value.records;
            Ordinals(Records(w.file.bytes, reader)) <= AfterPoll(file, steps, reader).store.ledger.Keys
            <==> (Resumes(w.file, w.cursor) ==>
                    Ordinals(Skipped(w.file, w.cursor, reader)) <= Ordinals(w.read) + Ordinals(batch))
  {
    var w := Run(Start(file), steps, reader);
    StartIsGood(file, reader);
    LedgerIsWhatWasRead(Start(file), steps, reader);
    StepKeepsLedger(w, PollOnce, reader);
    PollMissesNothingExactlyWhen(w, reader);
  }

  /** Hence nothing is missed when the lines consumed are still in their place, whatever happened in between. */
  lemma NothingIsMissed(file: File, steps: seq<Step>, reader: Reader)
    requires var w := Run(Start(file), steps, reader); Batch(w.file, w.cursor, reader).Some? && Intact(w, reader)
    ensures var w := Run(Start(file), steps, reader);
            Ordinals(Records(w.file.bytes, reader)) <= AfterPoll(file, steps, reader).store.ledger.Keys
  {
    var w := Run(Start(file), steps, reader);
    StartIsGood(file, reader);
    EveryRunIsTraced(Start(file), steps, reader);
    LedgerIsCompleteExactlyWhen(file, steps, reader);
  }

  // ----- steps that leave consumed lines in their place

  /** A reader that may resume after a step may do so over bytes that step left alone. */
  predicate Detectable(w: World, step: Step, reader: Reader) {
    var after := Take(w, step, reader).file;
    Resumes(after, w.cursor) ==>
      Resumes(w.file, w.cursor) && after.bytes[..w.cursor.value.offset] == w.file.bytes[..w.cursor.value.offset]
  }

  predicate AllDetectable(w: World, steps: seq<Step>, reader: Reader)
    decreases |steps|
  {
    steps == [] || (Detectable(w, steps[0], reader) && AllDetectable(Take(w, steps[0], reader), steps[1..], reader))
  }

  ghost predicate InPlace(w: World) {
    Resumes(w.file, w.cursor) ==> w.file.bytes[..w.cursor.value.offset] == w.consumed
  }

  lemma PollLeavesInPlace(w: World, reader: Reader)
    requires InPlace(w)
    ensures InPlace(Take(w, PollOnce, reader))
  {
    if Batch(w.file, w.cursor, reader).Some? {
      var start, more := Origin(w.file, w.cursor), Consumed(w.file, w.cursor);
      BatchReads(w.file, w.cursor, reader);
      ConsumedEnds(w.file, w.cursor);
      assert w.file.bytes[..start + |more|] == w.file.bytes[..start] + more;
    }
  }

  lemma {:induction false} DetectableRunsStayInPlace(w: World, steps: seq<Step>, reader: Reader)
    requires InPlace(w) && AllDetectable(w, steps, reader)
    ensures InPlace(Run(w, steps, reader))
    decreases |steps|
  {
    if steps != [] {
      if steps[0].PollOnce? {
        PollLeavesInPlace(w, reader);
      }
      DetectableRunsStayInPlace(Take(w, steps[0], reader), steps[1..], reader);
    }
  }

  /** So a run whose every step the reader can detect or resume over ends with its consumed lines in place. */
  lemma DetectableRunsAreIntact(file: File, steps: seq<Step>, reader: Reader)
    requires AllDetectable(Start(file), steps, reader)
    ensures Intact(Run(Start(file), steps, reader), reader)
  {
    StartIsGood(file, reader);
    EveryRunIsTraced(Start(file), steps, reader);
    DetectableRunsStayInPlace(Start(file), steps, reader);
  }

  /** Where a read starts at a line, it reads to the end of the file's lines. */
  lemma ReadsToTheEnd(file: File, cursor: Option<Cursor>)
    requires Resumes(file, cursor) ==> EndsLine(file.bytes[..cursor.value.offset])
    ensures Complete(file.bytes) == file.bytes[..Origin(file, cursor)] + Consumed(file, cursor)
    ensures Complete(file.bytes) == file.bytes[..Next(file, cursor).offset]
  {
    var start := Origin(file, cursor);
    var front := file.bytes[..start];
    assert file.bytes == front + file.bytes[start..];
    assert EndsLine(front);
    CompleteConcat(front, file.bytes[start..]);
    CompleteEnds(file.bytes);
  }

  /** A file of text is readable wherever the cursor stands behind a newline; and whenever the reader starts over. */
  lemma TextIsReadable(file: File, cursor: Option<Cursor>, reader: Reader)
    requires CutsAtLines(reader.format) && reader.format.isText(Complete(file.bytes))
    requires Resumes(file, cursor) ==> EndsLine(file.bytes[..cursor.value.offset])
    ensures Batch(file, cursor, reader).Some?
  {
    var front := file.bytes[..Origin(file, cursor)];
    ReadsToTheEnd(file, cursor);
    assert EndsLine(front);
    assert reader.format.isText(front + Consumed(file, cursor)) == reader.format.isText(Consumed(file, cursor));
  }

  /** A file that holds one record, and nothing else. */
  ghost predicate HoldsOne(bytes: seq<Byte>, record: RawRecord, reader: Reader) {
    EndsLine(bytes) && reader.format.isText(bytes) && Records(bytes, reader) == [record]
  }

  lemma ReadsOne(identity: Identity, bytes: seq<Byte>, record: RawRecord, cursor: Option<Cursor>, reader: Reader)
    requires HoldsOne(bytes, record, reader) && !Resumes(File(identity, bytes), cursor)
    ensures Batch(File(identity, bytes), cursor, reader)
         == Some(ReadBatch([record], ByteOffset(identity, |bytes|), Rescans(File(identity, bytes), cursor)))
  {
    var file := File(identity, bytes);
    CompleteIsEnd(bytes, []);
    assert bytes + [] == bytes && file.bytes[0..] == bytes;
    BatchReads(file, cursor, reader);
  }

  lemma FirstPoll(identity: Identity, bytes: seq<Byte>, record: RawRecord, reader: Reader)
    requires HoldsOne(bytes, record, reader)
    ensures var polled := Take(Start(File(identity, bytes)), PollOnce, reader);
            polled.cursor == Some(ByteOffset(identity, |bytes|)) && polled.store.ledger.Keys == {record.ordinal}
  {
    ReadsOne(identity, bytes, record, None, reader);
    PollRecords(EMPTY_STORE, [record]);
    OrdinalOfOne(record);
  }

  /**
   A polled file truncated and grown again under the same identity before the next poll: its
   record is stored if and only if it is shorter, in bytes, than what was polled.  The reader
   that resumes inside it meets only a fragment, which is not that record.
   */
  lemma RegrowthBetweenPollsLoses(identity: Identity, a: seq<Byte>, b: seq<Byte>, was: RawRecord, now: RawRecord,
                                  reader: Reader)
    requires HoldsOne(a, was, reader) && HoldsOne(b, now, reader) && was.ordinal != now.ordinal
    requires |a| <= |b| ==> now.ordinal !in Ordinals(Records(b[|a|..], reader))
    ensures var polled := Take(Start(File(identity, a)), PollOnce, reader);
            var truncated := Take(polled, Replace(File(identity, [])), reader);
            var regrown := Take(truncated, Append(b), reader);
            now.ordinal in Take(regrown, PollOnce, reader).store.ledger <==> |b| < |a|
  {
    var polled := Take(Start(File(identity, a)), PollOnce, reader);
    FirstPoll(identity, a, was, reader);
    TruncatedAndRegrown(polled, identity, b, reader);
    if |b| < |a| {
      ShorterIsReread(polled, identity, b, now, reader);
    } else {
      FragmentIsRead(polled, identity, b, now.ordinal, reader);
    }
  }

  lemma TruncatedAndRegrown(w: World, identity: Identity, b: seq<Byte>, reader: Reader)
    ensures Take(Take(w, Replace(File(identity, [])), reader), Append(b), reader) == w.(file := File(identity, b))
  {
    assert [] + b == b;
  }

  lemma OrdinalOfOne(record: RawRecord)
    ensures Ordinals([record]) == {record.ordinal}
  {
  }

  /** A shorter file is read from its start ... */
  lemma ShorterIsReread(polled: World, identity: Identity, b: seq<Byte>, now: RawRecord, reader: Reader)
    requires HoldsOne(b, now, reader) && polled.cursor.Some? && |b| < polled.cursor.value.offset
    ensures now.ordinal in Take(polled.(file := File(identity, b)), PollOnce, reader).store.ledger
  {
    var regrown := polled.(file := File(identity, b));
    ReadsOne(identity, b, now, regrown.cursor, reader);
    PollRecords(regrown.store, [now]);
    OrdinalOfOne(now);
  }

  /** ... and another one from where the cursor stands, be that inside a record. */
  lemma FragmentIsRead(polled: World, identity: Identity, b: seq<Byte>, ordinal: string, reader: Reader)
    requires polled.cursor.Some? && polled.cursor.value.identity == identity && polled.cursor.value.offset <= |b|
    requires ordinal !in polled.store.ledger
    requires ordinal !in Ordinals(Records(b[polled.cursor.value.offset..], reader))
    ensures ordinal !in Take(polled.(file := File(identity, b)), PollOnce, reader).store.ledger
  {
    var regrown := polled.(file := File(identity, b));
    var batch := Batch(regrown.file, regrown.cursor, reader);
    if batch.Some? {
      BatchReads(regrown.file, regrown.cursor, reader);
      PollRecords(regrown.store, batch.value.records);
    }
  }

  // ----- a file whose history is only extended is stored exactly as it reads

  /** Growth, and rotations that carry the old bytes over. */
  predicate Extends(w: World, step: Step, reader: Reader) {
    w.file.bytes <= Take(w, step, reader).file.bytes
  }

  predicate AllExtend(w: World, steps: seq<Step>, reader: Reader)
    decreases |steps|
  {
    steps == [] || (Extends(w, steps[0], reader) && AllExtend(Take(w, steps[0], reader), steps[1..], reader))
  }

  ghost predicate SameHistory(a: seq<RawRecord>, b: seq<RawRecord>) {
    Fresh(a, {}) == Fresh(b, {}) && Ordinals(a) == Ordinals(b)
  }

  /** What has been read amounts to the file's first lines, up to the cursor. */
  ghost predicate Mirrors(w: World, reader: Reader) {
    if w.cursor.None? then w.read == []
    else
      && w.cursor.value.offset <= |w.file.bytes| && EndsLine(w.file.bytes[..w.cursor.value.offset])
      && SameHistory(w.read, Records(w.file.bytes[..w.cursor.value.offset], reader))
  }

  lemma DeltaExtends(read: seq<RawRecord>, prefix: seq<RawRecord>, rest: seq<RawRecord>)
    requires SameHistory(read, prefix)
    ensures SameHistory(read + rest, prefix + rest)
  {
    FreshConcat(read, rest, {});
    FreshConcat(prefix, rest, {});
    OrdinalsConcat(read, rest);
    OrdinalsConcat(prefix, rest);
  }

  lemma RescanExtends(read: seq<RawRecord>, prefix: seq<RawRecord>, rest: seq<RawRecord>)
    requires SameHistory(read, prefix)
    ensures SameHistory(read + (prefix + rest), prefix + rest)
  {
    var o := Ordinals(prefix);
    assert {} + o == o && o + o == o;
    FreshConcat(prefix, rest, {});
    FreshConcat(prefix, rest, o);
    NothingFresh(prefix, o);
    assert Fresh(prefix + rest, o) == Fresh(rest, o);
    FreshConcat(read, prefix + rest, {});
    OrdinalsConcat(prefix, rest);
    OrdinalsConcat(read, prefix + rest);
  }

  lemma LinesGoOn(file: File, at: nat, reader: Reader)
    requires at <= |file.bytes| && EndsLine(file.bytes[..at])
    ensures var (front, rest) := (file.bytes[..at], Complete(file.bytes[at..]));
            Records(Complete(file.bytes), reader) == Records(front, reader) + Records(rest, reader)
  {
    var front, rest := file.bytes[..at], Complete(file.bytes[at..]);
    assert file.bytes == front + file.bytes[at..];
    CompleteConcat(front, file.bytes[at..]);
    RecordsConcat(front, rest, reader);
  }

  /** The records a poll adds to a mirrored file. */
  lemma BatchMirrors(w: World, reader: Reader)
    requires Mirrors(w, reader) && Batch(w.file, w.cursor, reader).Some?
    ensures SameHistory(w.read + Batch(w.file, w.cursor, reader).value.records, Records(Complete(w.file.bytes), reader))
  {
    BatchReads(w.file, w.cursor, reader);
    assert w.file.bytes[0..] == w.file.bytes;
    if w.cursor.Some? {
      var at := w.cursor.value.offset;
      var front, rest := w.file.bytes[..at], Complete(w.file.bytes[at..]);
      LinesGoOn(w.file, at, reader);
      if Resumes(w.file, w.cursor) {
        DeltaExtends(w.read, Records(front, reader), Records(rest, reader));
      } else {
        RescanExtends(w.read, Records(front, reader), Records(rest, reader));
      }
    } else {
      assert [] + Records(Complete(w.file.bytes), reader) == Records(Complete(w.file.bytes), reader);
    }
  }

  lemma PollMirrors(w: World, reader: Reader)
    requires Mirrors(w, reader)
    ensures Mirrors(Take(w, PollOnce, reader), reader)
  {
    if Batch(w.file, w.cursor, reader).Some? {
      BatchReads(w.file, w.cursor, reader);
      BatchMirrors(w, reader);
      ReadsToTheEnd(w.file, w.cursor);
      CompleteEnds(w.file.bytes);
    }
  }

  lemma {:induction false} ExtendingRunsMirror(w: World, steps: seq<Step>, reader: Reader)
    requires Mirrors(w, reader) && AllExtend(w, steps, reader)
    ensures Mirrors(Run(w, steps, reader), reader)
    decreases |steps|
  {
    if steps != [] {
      var next := Take(w, steps[0], reader);
      if steps[0].PollOnce? {
        PollMirrors(w, reader);
      } else if w.cursor.Some? {
        assert next.file.bytes[..w.cursor.value.offset] == w.file.bytes[..w.cursor.value.offset];
      }
      ExtendingRunsMirror(next, steps[1..], reader);
    }
  }

  lemma HoldsEither(store: Store, a: seq<RawRecord>, b: seq<RawRecord>)
    requires SameHistory(a, b)
    ensures Holds(store, a) <==> Holds(store, b)
    ensures Numberable(a) <==> Numberable(b)
  {
  }

  /**
   However often a file that only grew or rotated was polled or rescanned, the stored
   conversation is its distinct records in file order, unless a torn poll left a turn behind.
   */
  lemma StoreMirrorsTheFile(file: File, steps: seq<Step>, reader: Reader)
    requires CutsAtLines(reader.format) && AllExtend(Start(file), steps, reader)
    requires var w := Run(Start(file), steps, reader);
             reader.format.isText(Complete(w.file.bytes)) && Numberable(Records(w.file.bytes, reader))
    ensures Holds(AfterPoll(file, steps, reader).store, Records(Run(Start(file), steps, reader).file.bytes, reader))
            <==> TornInAll(Start(file), steps, reader) == 0
  {
    var w, after := Run(Start(file), steps, reader), AfterPoll(file, steps, reader);
    StartIsGood(file, reader);
    ExtendingRunsMirror(Start(file), steps, reader);
    TextIsReadable(w.file, w.cursor, reader);
    BatchMirrors(w, reader);
    LinesOfComplete(w.file.bytes, reader.format);
    HoldsEither(after.store, after.read, Records(w.file.bytes, reader));
    RunThen(Start(file), steps, PollOnce, reader);
    TornThen(Start(file), steps, PollOnce, reader);
    RunStoresOnce(Start(file), steps + [PollOnce], reader);
  }
}

/**
 What the stored turns are, in terms of the records they came from: role and source, every text
 character for character, every item by the payload policy; for a batch, for a store that holds
 a history, and for every run.
 */
module Stored {
  import opened Text
  import opened Utf8
  import opened Shaping
  import opened Policy
  import opened Ingest
  import opened Protocol
  import opened Tail
  import opened Runs

  /** `turn` is what is stored of `record` under the number `no`. */
  ghost predicate KeepsRecord(turn: Turn, record: RawRecord, no: nat) {
    && turn.turnNo == no && turn.role == record.role && turn.source == record.source
    && IsScrubbed(turn.body, record.body) && IsScrubbed(turn.at, record.at)
    && IsScrubbedOption(turn.headSha, record.headSha)
    && |turn.items| == |record.items|
    && forall i :: 0 <= i < |record.items| ==> IsStoredItem(turn.items[i], record.items[i])
  }

  /** `turns` are the first occurrences, at `at`, of the ordinals not in `seen`, numbered in a `u32`. */
  ghost predicate KeepsFirsts(turns: seq<Turn>, records: seq<RawRecord>, seen: set<string>, first: nat, at: seq<nat>) {
    && |at| == |turns| && (forall j, k :: 0 <= j < k < |at| ==> at[j] < at[k])
    && (forall i :: 0 <= i < |records| ==> (i in at <==> IsFirst(records, seen, i)))
    && (forall k :: 0 <= k < |at| ==> at[k] < |records|
                                      && KeepsRecord(turns[k], records[at[k]], (first + k) % 0x1_0000_0000))
  }

  lemma RecordIsKept(record: RawRecord, no: nat)
    ensures KeepsRecord(NormalizeRecord(record, no), record, no)
  {
    TurnIsStored(Turn(no, record.role, record.source, record.headSha, record.at, record.body, record.items));
  }

  /** One batch stores the first occurrence of every unseen ordinal, in order, as it was read. */
  lemma BatchKeepsFirsts(records: seq<RawRecord>, seen: set<string>, next: nat) returns (at: seq<nat>)
    ensures KeepsFirsts(Numbered(Fresh(records, seen), next), records, seen, next, at)
    ensures forall k :: 0 <= k < |at| ==> records[at[k]] == Fresh(records, seen)[k]
  {
    at := FreshPicksFirsts(records, seen);
    forall k | 0 <= k < |at|
      ensures KeepsRecord(Numbered(Fresh(records, seen), next)[k], records[at[k]], (next + k) % 0x1_0000_0000)
    {
      RecordIsKept(records[at[k]], (next + k) % 0x1_0000_0000);
    }
  }

  /** A store holding a history has its first occurrences, as read, and the number of each in its ledger. */
  ghost predicate KeepsHistory(store: Store, history: seq<RawRecord>, at: seq<nat>) {
    && KeepsFirsts(store.turns, history, {}, 1, at)
    && (forall o :: o in store.ledger <==> exists r :: r in history && r.ordinal == o)
    && (forall k :: 0 <= k < |at| ==> history[at[k]].ordinal in store.ledger
                                      && store.ledger[history[at[k]].ordinal] == store.turns[k].turnNo)
  }

  lemma HeldIsKept(store: Store, history: seq<RawRecord>) returns (at: seq<nat>)
    requires Holds(store, history)
    ensures KeepsHistory(store, history, at)
  {
    HoldsMeans(store, history);
    var kept := Fresh(history, {});
    at := BatchKeepsFirsts(history, {}, 1);
    forall o ensures o in store.ledger <==> exists r :: r in history && r.ordinal == o {
      assert o in store.ledger.Keys <==> o in Ordinals(history);
    }
    forall k | 0 <= k < |at|
      ensures history[at[k]].ordinal in store.ledger
      ensures store.ledger[history[at[k]].ordinal] == store.turns[k].turnNo
    {
      assert history[at[k]] == kept[k] && store.turns[k].turnNo == TurnNumber(1, k);
    }
  }

  /**
   After every run in which no torn poll left a turn behind, the store is what committed polls
   read: each ordinal's first record, in order, character for character, under its number.
   */
  lemma RunKeepsWhatWasRead(w: World, steps: seq<Step>, reader: Reader) returns (at: seq<nat>)
    requires Holds(w.store, w.read) && Numberable(Run(w, steps, reader).read)
    requires AllTornHarmlessly(w, steps, reader)
    ensures KeepsHistory(Run(w, steps, reader).store, Run(w, steps, reader).read, at)
  {
    NothingTornExactlyWhenHarmless(w, steps, reader);
    RunStoresOnce(w, steps, reader);
    at := HeldIsKept(Run(w, steps, reader).store, Run(w, steps, reader).read);
  }

  // ----- the records read

  /** The records of some lines are what the reader makes of those it makes something of, in order. */
  lemma {:induction false} RecordsAreParsed(lines: seq<string>, reader: Reader) returns (at: seq<nat>)
    ensures ArePicked(at, Parsed(lines, reader), reader.parse, lines)
  {
    if lines == [] {
      at := [];
    } else {
      var front, last := lines[..|lines| - 1], lines[|lines| - 1];
      assert front + [last] == lines;
      at := RecordsAreParsed(front, reader);
      at := PickedAppend(at, Parsed(front, reader), reader.parse, front, last);
    }
  }

  /** What a poll is handed: of the lines one read returns, the records of those that are any. */
  lemma BatchIsParsed(file: File, cursor: Option<Cursor>, reader: Reader) returns (at: seq<nat>)
    requires Batch(file, cursor, reader).Some?
    ensures ReadFrom(file, cursor, reader.format).Ok?
    ensures var (batch, read) := (Batch(file, cursor, reader).value, ReadFrom(file, cursor, reader.format).read);
            && ArePicked(at, batch.records, reader.parse, read.lines)
            && batch.cursor == read.cursor && batch.rescanned == read.rescanned
  {
    at := RecordsAreParsed(ReadFrom(file, cursor, reader.format).read.lines, reader);
  }

  // ----- torn or not

  /** The reader makes a record of some line, and `turn` is what is stored of it. */
  ghost predicate IsSomeLines(turn: Turn, reader: Reader) {
    exists line :: reader.parse(line).Some? && KeepsRecord(turn, reader.parse(line).value, turn.turnNo)
  }

  ghost predicate IsRead(record: RawRecord, reader: Reader) { exists line :: reader.parse(line) == Some(record) }

  lemma {:induction false} ParsedIsRead(lines: seq<string>, reader: Reader)
    ensures forall r :: r in Parsed(lines, reader) ==> IsRead(r, reader)
  {
    if lines != [] {
      ParsedIsRead(lines[..|lines| - 1], reader);
    }
  }

  lemma KeptAreFromBatch(records: seq<RawRecord>, seen: set<string>)
    ensures forall r :: r in Fresh(records, seen) ==> r in records
  {
    var at := FreshPicksFirsts(records, seen);
  }

  lemma PolledTurnsAreLines(store: Store, records: seq<RawRecord>, reader: Reader)
    requires forall r :: r in records ==> IsRead(r, reader)
    requires forall t :: t in store.turns ==> IsSomeLines(t, reader)
    ensures forall t :: t in Poll(store, records).turns ==> IsSomeLines(t, reader)
  {
    var kept, next := Fresh(records, Seen(store, records)), NextTurnNo(store);
    KeptAreFromBatch(records, Seen(store, records));
    PollIs(store, records);
    forall k | 0 <= k < |kept| ensures IsSomeLines(Numbered(kept, next)[k], reader) {
      RecordIsKept(kept[k], TurnNumber(next, k));
      assert IsRead(kept[k], reader);
    }
  }

  /** Whatever happens, every turn ever stored is one the reader made of some line. */
  lemma {:induction false} EveryTurnIsSomeLines(w: World, steps: seq<Step>, reader: Reader)
    requires forall t :: t in w.store.turns ==> IsSomeLines(t, reader)
    ensures forall t :: t in Run(w, steps, reader).store.turns ==> IsSomeLines(t, reader)
    decreases |steps|
  {
    if steps != [] {
      var batch := Batch(w.file, w.cursor, reader);
      if batch.Some? {
        ParsedIsRead(ReadFrom(w.file, w.cursor, reader.format).read.lines, reader);
        PolledTurnsAreLines(w.store, batch.value.records, reader);
      }
      EveryTurnIsSomeLines(Take(w, steps[0], reader), steps[1..], reader);
    }
  }
}

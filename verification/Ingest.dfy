/**
 The ingest ledger: at-least-once reads of a growing, rotating transcript become
 exactly-once turns, numbered densely.  First one batch, then every run of the protocol
 between the file, the reader's cursor and the store.
 */
module Ingest {
  import opened Text
  import opened Shaping

  datatype RawRecord = RawRecord(ordinal: string, parentOrdinal: Option<string>, at: string, role: TurnRole,
                                 source: TurnSource, body: string, items: seq<TurnItem>,
                                 headSha: Option<string>, model: Option<string>)

  /** The turn a record becomes under a number; its parent and model are not part of a turn. */
  function NormalizeRecord(record: RawRecord, turnNo: nat): Turn {
    Shaped(Turn(turnNo, record.role, record.source, record.headSha, record.at, record.body, record.items))
  }

  datatype PreparedBatch = PreparedBatch(turns: seq<Turn>, ledger: seq<(string, nat)>, deduped: nat)

  /** The size of `u32`: turn numbers wrap there. */
  const U32: nat := 0x1_0000_0000

  // ----- what one batch must yield

  function Ordinals(records: seq<RawRecord>): set<string> { set r | r in records :: r.ordinal }

  /** The records to store: first occurrences of ordinals the ledger has not seen, in order. */
  function Fresh(records: seq<RawRecord>, seen: set<string>): seq<RawRecord> {
    if records == [] then []
    else if records[0].ordinal in seen then Fresh(records[1..], seen)
    else [records[0]] + Fresh(records[1..], seen + {records[0].ordinal})
  }

  /** The number `i` turns after `first`, in a `u32`. */
  function TurnNumber(first: nat, i: nat): nat { (first + i) % U32 }

  function Numbered(records: seq<RawRecord>, first: nat): seq<Turn> {
    seq(|records|, i requires 0 <= i < |records| => NormalizeRecord(records[i], TurnNumber(first, i)))
  }

  function LedgerRows(records: seq<RawRecord>, first: nat): seq<(string, nat)> {
    seq(|records|, i requires 0 <= i < |records| => (records[i].ordinal, TurnNumber(first, i)))
  }

  lemma OrdinalsConcat(a: seq<RawRecord>, b: seq<RawRecord>)
    ensures Ordinals(a + b) == Ordinals(a) + Ordinals(b)
  {
    assert forall r :: r in a + b <==> r in a || r in b;
  }

  lemma {:induction false} FreshConcat(a: seq<RawRecord>, b: seq<RawRecord>, seen: set<string>)
    ensures Fresh(a + b, seen) == Fresh(a, seen) + Fresh(b, seen + Ordinals(a))
  {
    if a == [] {
      assert a + b == b && seen + Ordinals(a) == seen;
    } else {
      var o := a[0].ordinal;
      assert (a + b)[1..] == a[1..] + b;
      OrdinalsConcat([a[0]], a[1..]);
      assert [a[0]] + a[1..] == a && Ordinals([a[0]]) == {o};
      FreshConcat(a[1..], b, seen + {o});
      assert seen + {o} + Ordinals(a[1..]) == seen + Ordinals(a);
      if o in seen {
        assert seen + {o} == seen;
      }
    }
  }

  /** Whether a record is the one stored for its ordinal. */
  predicate IsFirst(records: seq<RawRecord>, seen: set<string>, i: nat)
    requires i < |records|
  {
    records[i].ordinal !in seen && forall j :: 0 <= j < i ==> records[j].ordinal != records[i].ordinal
  }

  predicate Increasing(positions: seq<nat>) {
    forall j, k :: 0 <= j < k < |positions| ==> positions[j] < positions[k]
  }

  /** `Fresh` picks exactly the first occurrences of the unseen ordinals, in batch order. */
  lemma {:induction false} FreshPicksFirsts(records: seq<RawRecord>, seen: set<string>) returns (at: seq<nat>)
    ensures |at| == |Fresh(records, seen)| && Increasing(at)
    ensures forall k :: 0 <= k < |at| ==> at[k] < |records| && Fresh(records, seen)[k] == records[at[k]]
    ensures forall i :: 0 <= i < |records| ==> (i in at <==> IsFirst(records, seen, i))
  {
    if records == [] {
      at := [];
    } else {
      var front, last := records[..|records| - 1], records[|records| - 1];
      assert records == front + [last];
      FreshConcat(front, [last], seen);
      at := FreshPicksFirsts(front, seen);
      ghost var firsts := at;
      assert Fresh([last], seen + Ordinals(front))
          == if last.ordinal in seen + Ordinals(front) then [] else [last];
      assert IsFirst(records, seen, |front|) <==> last.ordinal !in seen + Ordinals(front);
      if last.ordinal !in seen + Ordinals(front) {
        at := at + [|front|];
      }
      forall i | 0 <= i < |records| ensures i in at <==> IsFirst(records, seen, i) {
        if i < |front| {
          assert IsFirst(records, seen, i) <==> IsFirst(front, seen, i);
        } else {
          assert |front| !in firsts;
        }
      }
    }
  }

  lemma NumberedAppend(records: seq<RawRecord>, last: RawRecord, first: nat)
    ensures Numbered(records + [last], first)
         == Numbered(records, first) + [NormalizeRecord(last, TurnNumber(first, |records|))]
    ensures LedgerRows(records + [last], first)
         == LedgerRows(records, first) + [(last.ordinal, TurnNumber(first, |records|))]
  {
  }

  lemma FreshAppend(records: seq<RawRecord>, last: RawRecord, seen: set<string>)
    ensures Fresh(records + [last], seen)
         == Fresh(records, seen) + if last.ordinal in seen + Ordinals(records) then [] else [last]
    ensures Ordinals(records + [last]) == Ordinals(records) + {last.ordinal}
  {
    FreshConcat(records, [last], seen);
    OrdinalsConcat(records, [last]);
    assert Ordinals([last]) == {last.ordinal};
  }

  lemma NextNumber(first: nat, i: nat)
    ensures TurnNumber(first, i + 1) == (TurnNumber(first, i) + 1) % U32
  {
  }

  /** The ordinals already covered: minted in this batch, or seen by the ledger. */
  ghost predicate Covers(minted: set<string>, seen: set<string>, records: seq<RawRecord>) {
    minted <= Ordinals(records) <= minted + seen
  }

  lemma CoversAppend(minted: set<string>, seen: set<string>, records: seq<RawRecord>, last: RawRecord)
    requires Covers(minted, seen, records)
    ensures last.ordinal in seen + Ordinals(records) <==> last.ordinal in seen || last.ordinal in minted
    ensures var known := last.ordinal in seen || last.ordinal in minted;
            Covers(if known then minted else minted + {last.ordinal}, seen, records + [last])
  {
    FreshAppend(records, last, seen);
  }

  /** What the loop has decided after the records `front`. */
  ghost predicate Decided(front: seq<RawRecord>, seen: set<string>, next: nat, batch: PreparedBatch,
                          minted: set<string>, turnNo: nat) {
    var kept := Fresh(front, seen);
    && batch.turns == Numbered(kept, next) && batch.ledger == LedgerRows(kept, next)
    && batch.deduped == |front| - |kept| && turnNo == TurnNumber(next, |kept|)
    && Covers(minted, seen, front)
  }

  lemma SkipSeen(front: seq<RawRecord>, record: RawRecord, seen: set<string>, next: nat, batch: PreparedBatch,
                 minted: set<string>, turnNo: nat)
    requires Decided(front, seen, next, batch, minted, turnNo)
    requires record.ordinal in seen || record.ordinal in minted
    ensures Decided(front + [record], seen, next, batch.(deduped := batch.deduped + 1), minted, turnNo)
  {
    FreshAppend(front, record, seen);
    CoversAppend(minted, seen, front, record);
  }

  lemma StoreFirst(front: seq<RawRecord>, record: RawRecord, seen: set<string>, next: nat, batch: PreparedBatch,
                   minted: set<string>, turnNo: nat)
    requires Decided(front, seen, next, batch, minted, turnNo)
    requires record.ordinal !in seen && record.ordinal !in minted
    ensures var stored := batch.(turns := batch.turns + [NormalizeRecord(record, turnNo)],
                                 ledger := batch.ledger + [(record.ordinal, turnNo)]);
            Decided(front + [record], seen, next, stored, minted + {record.ordinal}, (turnNo + 1) % U32)
  {
    FreshAppend(front, record, seen);
    CoversAppend(minted, seen, front, record);
    NumberedAppend(Fresh(front, seen), record, next);
    NextNumber(next, |Fresh(front, seen)|);
  }

  /** Decide what to append, record by record, under consecutive numbers. */
  method PrepareBatch(records: seq<RawRecord>, seen: set<string>, nextTurnNo: nat) returns (batch: PreparedBatch)
    requires nextTurnNo < U32
    ensures batch.turns == Numbered(Fresh(records, seen), nextTurnNo)
    ensures batch.ledger == LedgerRows(Fresh(records, seen), nextTurnNo)
    ensures batch.deduped == |records| - |Fresh(records, seen)|
  {
    batch := PreparedBatch([], [], 0);
    var minted: set<string>, turnNo: nat := {}, nextTurnNo;
    for i := 0 to |records|
      invariant Decided(records[..i], seen, nextTurnNo, batch, minted, turnNo)
    {
      var record := records[i];
      assert records[..i + 1] == records[..i] + [record];
      if record.ordinal in seen || record.ordinal in minted {
        SkipSeen(records[..i], record, seen, nextTurnNo, batch, minted, turnNo);
        batch := batch.(deduped := batch.deduped + 1);
      } else {
        StoreFirst(records[..i], record, seen, nextTurnNo, batch, minted, turnNo);
        minted := minted + {record.ordinal};
        batch := batch.(turns := batch.turns + [NormalizeRecord(record, turnNo)],
                        ledger := batch.ledger + [(record.ordinal, turnNo)]);
        turnNo := (turnNo + 1) % U32;
      }
    }
    assert records[..|records|] == records;
  }

  /** The numbers are consecutive exactly when the last one still fits a `u32`. */
  lemma NumberingIsDense(next: nat, count: nat)
    requires next < U32
    ensures (forall i :: 0 <= i < count ==> TurnNumber(next, i) == next + i) <==> next + count <= U32
  {
    if next + count > U32 {
      assert TurnNumber(next, U32 - next) == 0;
    }
  }
}

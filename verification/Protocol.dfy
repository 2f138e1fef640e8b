/**
 The store's side of ingest: turns appended as `PrepareBatch` decides against the store's own
 ledger and high-water mark, over every sequence of batches.
 */
module Protocol {
  import opened Text
  import opened Shaping
  import opened Ingest

  /** The durable side: the turns of one conversation and the ordinals they came from. */
  datatype Store = Store(turns: seq<Turn>, ledger: map<string, nat>)

  const EMPTY_STORE := Store([], map[])

  function HighWater(turns: seq<Turn>): nat {
    if turns == [] then 0
    else
      var before := HighWater(turns[..|turns| - 1]);
      if turns[|turns| - 1].turnNo > before then turns[|turns| - 1].turnNo else before
  }

  function Recorded(ledger: map<string, nat>, rows: seq<(string, nat)>): map<string, nat>
    decreases |rows|
  {
    if rows == [] then ledger else Recorded(ledger[rows[0].0 := rows[0].1], rows[1..])
  }

  /** Which of a batch's ordinals have a ledger row. */
  function Seen(store: Store, records: seq<RawRecord>): set<string> {
    set o | o in Ordinals(records) && o in store.ledger
  }

  /** The number the store gives its next turn. */
  function NextTurnNo(store: Store): nat { (HighWater(store.turns) + 1) % U32 }

  /** One committed poll. */
  function Poll(store: Store, records: seq<RawRecord>): Store {
    var kept := Fresh(records, Seen(store, records));
    var next := NextTurnNo(store);
    Store(store.turns + Numbered(kept, next), Recorded(store.ledger, LedgerRows(kept, next)))
  }

  function Polls(store: Store, batches: seq<seq<RawRecord>>): Store
    decreases |batches|
  {
    if batches == [] then store else Polls(Poll(store, batches[0]), batches[1..])
  }

  function Concat(batches: seq<seq<RawRecord>>): seq<RawRecord> {
    if batches == [] then [] else batches[0] + Concat(batches[1..])
  }

  /** The store that holds exactly the distinct records of `history`, numbered from one. */
  ghost predicate Holds(store: Store, history: seq<RawRecord>) {
    var kept := Fresh(history, {});
    store.turns == Numbered(kept, 1) && store.ledger == Recorded(map[], LedgerRows(kept, 1))
  }

  /** Whether every turn of `history` can be numbered in a `u32`. */
  predicate Numberable(history: seq<RawRecord>) { |Fresh(history, {})| < U32 }

  lemma {:induction false} FreshIgnoresOthers(records: seq<RawRecord>, seen: set<string>, more: set<string>)
    requires forall o :: o in Ordinals(records) ==> (o in seen <==> o in more)
    ensures Fresh(records, seen) == Fresh(records, more)
  {
    if records != [] {
      assert records[0] in records;
      assert forall r :: r in records[1..] ==> r in records;
      var o := records[0].ordinal;
      if o in seen {
        FreshIgnoresOthers(records[1..], seen, more);
      } else {
        FreshIgnoresOthers(records[1..], seen + {o}, more + {o});
      }
    }
  }

  /** Turns are numbered from one, without a gap. */
  predicate Dense(turns: seq<Turn>) { forall i :: 0 <= i < |turns| ==> turns[i].turnNo == i + 1 }

  lemma {:induction false} HighWaterOfDense(turns: seq<Turn>)
    requires Dense(turns)
    ensures HighWater(turns) == |turns|
  {
    if turns != [] {
      HighWaterOfDense(turns[..|turns| - 1]);
    }
  }

  /** The number polls go on from is the greatest there is, in whatever order turns are stored. */
  lemma {:induction false} HighWaterIsGreatest(turns: seq<Turn>)
    ensures forall t :: t in turns ==> t.turnNo <= HighWater(turns)
    ensures HighWater(turns) == 0 || exists t :: t in turns && t.turnNo == HighWater(turns)
  {
    if turns != [] {
      var front := turns[..|turns| - 1];
      HighWaterIsGreatest(front);
      assert turns == front + [turns[|turns| - 1]];
    }
  }

  lemma NumberedFrom(kept: seq<RawRecord>, first: nat, turns: seq<Turn>)
    requires turns == Numbered(kept, first) && first + |kept| <= U32
    ensures forall i :: 0 <= i < |turns| ==> turns[i].turnNo == first + i
  {
    forall i | 0 <= i < |turns| ensures turns[i].turnNo == first + i {
      assert turns[i] == NormalizeRecord(kept[i], TurnNumber(first, i));
    }
  }

  lemma HighWaterOfNumbered(records: seq<RawRecord>)
    requires |records| < U32
    ensures HighWater(Numbered(records, 1)) == |records|
  {
    NumberedFrom(records, 1, Numbered(records, 1));
    HighWaterOfDense(Numbered(records, 1));
  }

  lemma ShiftNumber(first: nat, i: nat)
    ensures TurnNumber(first, i + 1) == TurnNumber(first + 1, i)
  {
  }

  lemma NumberedConcat(a: seq<RawRecord>, b: seq<RawRecord>)
    ensures Numbered(a + b, 1) == Numbered(a, 1) + Numbered(b, |a| + 1)
  {
    forall i | 0 <= i < |b| ensures Numbered(a + b, 1)[|a|..][i] == Numbered(b, |a| + 1)[i] {
      assert TurnNumber(1, |a| + i) == TurnNumber(|a| + 1, i);
    }
    assert Numbered(a + b, 1)[|a|..] == Numbered(b, |a| + 1);
  }

  lemma LedgerRowsConcat(a: seq<RawRecord>, b: seq<RawRecord>)
    ensures LedgerRows(a + b, 1) == LedgerRows(a, 1) + LedgerRows(b, |a| + 1)
  {
  }

  lemma {:induction false} RecordedConcat(ledger: map<string, nat>, a: seq<(string, nat)>, b: seq<(string, nat)>)
    ensures Recorded(ledger, a + b) == Recorded(Recorded(ledger, a), b)
    decreases |a|
  {
    if a == [] {
      assert a + b == b;
    } else {
      assert (a + b)[1..] == a[1..] + b;
      RecordedConcat(ledger[a[0].0 := a[0].1], a[1..], b);
    }
  }

  /** Ordinals of the records a batch keeps are new to it and distinct. */
  lemma {:induction false} FreshOrdinals(records: seq<RawRecord>, seen: set<string>)
    ensures Ordinals(Fresh(records, seen)) == Ordinals(records) - seen
    ensures forall i, j :: 0 <= i < j < |Fresh(records, seen)|
                           ==> Fresh(records, seen)[i].ordinal != Fresh(records, seen)[j].ordinal
  {
    if records != [] {
      var o := records[0].ordinal;
      assert records == [records[0]] + records[1..];
      OrdinalsConcat([records[0]], records[1..]);
      assert Ordinals([records[0]]) == {o};
      if o in seen {
        FreshOrdinals(records[1..], seen);
      } else {
        var rest := Fresh(records[1..], seen + {o});
        FreshOrdinals(records[1..], seen + {o});
        OrdinalsConcat([records[0]], rest);
        forall i | 0 <= i < |rest| ensures rest[i].ordinal != o {
          assert rest[i] in rest;
          assert rest[i].ordinal in Ordinals(rest);
        }
      }
    }
  }

  /** Recording rows one by one. */
  lemma RowsStep(ledger: map<string, nat>, kept: seq<RawRecord>, first: nat)
    requires kept != []
    ensures Recorded(ledger, LedgerRows(kept, first))
         == Recorded(ledger[kept[0].ordinal := TurnNumber(first, 0)], LedgerRows(kept[1..], first + 1))
    ensures Ordinals(kept) == {kept[0].ordinal} + Ordinals(kept[1..])
  {
    var rows := LedgerRows(kept, first);
    forall i | 0 <= i < |kept| - 1 ensures rows[1..][i] == LedgerRows(kept[1..], first + 1)[i] {
      ShiftNumber(first, i);
    }
    assert rows[1..] == LedgerRows(kept[1..], first + 1);
    assert kept == [kept[0]] + kept[1..];
    OrdinalsConcat([kept[0]], kept[1..]);
    assert Ordinals([kept[0]]) == {kept[0].ordinal};
  }

  lemma {:induction false} RecordedKeys(ledger: map<string, nat>, kept: seq<RawRecord>, first: nat)
    ensures Recorded(ledger, LedgerRows(kept, first)).Keys == ledger.Keys + Ordinals(kept)
    ensures forall o :: o in ledger && o !in Ordinals(kept) ==>
                          Recorded(ledger, LedgerRows(kept, first))[o] == ledger[o]
    decreases |kept|
  {
    if kept != [] {
      RowsStep(ledger, kept, first);
      RecordedKeys(ledger[kept[0].ordinal := TurnNumber(first, 0)], kept[1..], first + 1);
    }
  }

  lemma {:induction false} RecordedRows(ledger: map<string, nat>, kept: seq<RawRecord>, first: nat, i: nat)
    requires forall i, j :: 0 <= i < j < |kept| ==> kept[i].ordinal != kept[j].ordinal
    requires i < |kept|
    ensures kept[i].ordinal in Recorded(ledger, LedgerRows(kept, first))
    ensures Recorded(ledger, LedgerRows(kept, first))[kept[i].ordinal] == TurnNumber(first, i)
    decreases |kept|
  {
    var more := ledger[kept[0].ordinal := TurnNumber(first, 0)];
    RowsStep(ledger, kept, first);
    RecordedKeys(more, kept[1..], first + 1);
    if i == 0 {
      assert kept[0].ordinal !in Ordinals(kept[1..]);
    } else {
      RecordedRows(more, kept[1..], first + 1, i - 1);
      ShiftNumber(first, i - 1);
    }
  }

  /** What holding a history means: one ledger row per distinct ordinal, carrying its turn's number. */
  lemma HoldsMeans(store: Store, history: seq<RawRecord>)
    requires Holds(store, history)
    ensures store.ledger.Keys == Ordinals(history)
    ensures var kept := Fresh(history, {});
            forall i :: 0 <= i < |kept| ==> kept[i].ordinal in store.ledger
                                            && store.ledger[kept[i].ordinal] == TurnNumber(1, i)
  {
    FreshOrdinals(history, {});
    var kept := Fresh(history, {});
    RecordedKeys(map[], kept, 1);
    assert Ordinals(history) - {} == Ordinals(history);
    forall i | 0 <= i < |kept|
      ensures kept[i].ordinal in store.ledger && store.ledger[kept[i].ordinal] == TurnNumber(1, i)
    {
      RecordedRows(map[], kept, 1, i);
    }
  }

  /** What a batch adds to a store that already holds `history`. */
  lemma PollKeepsNewOnly(store: Store, history: seq<RawRecord>, records: seq<RawRecord>)
    requires Holds(store, history)
    ensures Fresh(history + records, {}) == Fresh(history, {}) + Fresh(records, Seen(store, records))
  {
    HoldsMeans(store, history);
    FreshConcat(history, records, {});
    assert {} + Ordinals(history) == Ordinals(history);
    FreshIgnoresOthers(records, Seen(store, records), Ordinals(history));
  }

  /** A poll numbers on from its high-water mark, which may be the last `u32`. */
  lemma PollAppends(store: Store, records: seq<RawRecord>, count: nat)
    requires HighWater(store.turns) == count < U32
    ensures Poll(store, records).turns
         == store.turns + Numbered(Fresh(records, Seen(store, records)), count + 1)
    ensures Poll(store, records).ledger
         == Recorded(store.ledger, LedgerRows(Fresh(records, Seen(store, records)), count + 1))
  {
    var kept, next := Fresh(records, Seen(store, records)), (count + 1) % U32;
    forall i | 0 <= i < |kept| ensures TurnNumber(next, i) == TurnNumber(count + 1, i) {
      assert count + 1 < U32 || count + 1 == U32;
    }
    assert Numbered(kept, next) == Numbered(kept, count + 1);
    assert LedgerRows(kept, next) == LedgerRows(kept, count + 1);
  }

  /** One poll extends the history it stores by the batch it read, whatever overlaps it holds. */
  lemma PollExtends(store: Store, history: seq<RawRecord>, records: seq<RawRecord>)
    requires Holds(store, history) && Numberable(history + records)
    ensures Holds(Poll(store, records), history + records)
  {
    var kept, more := Fresh(history, {}), Fresh(records, Seen(store, records));
    PollKeepsNewOnly(store, history, records);
    HighWaterOfNumbered(kept);
    PollAppends(store, records, |kept|);
    NumberedConcat(kept, more);
    LedgerRowsConcat(kept, more);
    RecordedConcat(map[], LedgerRows(kept, 1), LedgerRows(more, |kept| + 1));
  }

  /**
   Exactly once, over every run: whatever the batches (deltas, overlaps, rescans), the store
   ends with the first occurrences of their distinct ordinals, in order, numbered from one.
   */
  lemma {:induction false} EveryRunStoresOnce(store: Store, history: seq<RawRecord>, batches: seq<seq<RawRecord>>)
    requires Holds(store, history) && Numberable(history + Concat(batches))
    ensures Holds(Polls(store, batches), history + Concat(batches))
    decreases |batches|
  {
    if batches == [] {
      assert history + Concat(batches) == history;
    } else {
      assert history + Concat(batches) == history + batches[0] + Concat(batches[1..]);
      FreshConcat(history + batches[0], Concat(batches[1..]), {});
      PollExtends(store, history, batches[0]);
      EveryRunStoresOnce(Poll(store, batches[0]), history + batches[0], batches[1..]);
    }
  }

  /** Only the concatenation of what was read matters, not how reads were cut into batches. */
  lemma BatchingIsIrrelevant(batches: seq<seq<RawRecord>>, others: seq<seq<RawRecord>>)
    requires Concat(batches) == Concat(others) && Numberable(Concat(batches))
    ensures Polls(EMPTY_STORE, batches) == Polls(EMPTY_STORE, others)
  {
    assert [] + Concat(batches) == Concat(batches);
    EveryRunStoresOnce(EMPTY_STORE, [], batches);
    EveryRunStoresOnce(EMPTY_STORE, [], others);
  }

  lemma {:induction false} NothingFresh(records: seq<RawRecord>, seen: set<string>)
    ensures Fresh(records, seen) == [] <==> Ordinals(records) <= seen
  {
    FreshOrdinals(records, seen);
    if Fresh(records, seen) == [] {
      forall o | o in Ordinals(records) ensures o in seen {
        assert o in Ordinals(records) - seen ==> o in Ordinals(Fresh(records, seen));
      }
    } else {
      assert Fresh(records, seen)[0] in Fresh(records, seen);
      assert Fresh(records, seen)[0].ordinal in Ordinals(records) - seen;
    }
  }

  /** A poll leaves the store alone exactly when the ledger already has every record it read. */
  lemma RescanAppendsNothing(store: Store, records: seq<RawRecord>)
    ensures Poll(store, records) == store <==> Ordinals(records) <= store.ledger.Keys
  {
    var kept := Fresh(records, Seen(store, records));
    NothingFresh(records, Seen(store, records));
    assert Ordinals(records) <= store.ledger.Keys <==> Ordinals(records) <= Seen(store, records);
    assert |Poll(store, records).turns| == |store.turns| + |kept|;
    if kept == [] {
      assert Poll(store, records).turns == store.turns;
      assert Poll(store, records).ledger == store.ledger;
    }
  }

  // ----- counting

  lemma {:induction false} DistinctOrdinals(kept: seq<RawRecord>)
    requires forall i, j :: 0 <= i < j < |kept| ==> kept[i].ordinal != kept[j].ordinal
    ensures |Ordinals(kept)| == |kept|
  {
    if kept != [] {
      assert kept == [kept[0]] + kept[1..];
      OrdinalsConcat([kept[0]], kept[1..]);
      assert Ordinals([kept[0]]) == {kept[0].ordinal};
      DistinctOrdinals(kept[1..]);
      assert kept[0].ordinal !in Ordinals(kept[1..]);
    }
  }

  /** A history can be numbered exactly when its distinct ordinals are fewer than the numbers of a `u32`. */
  lemma NumberableExactlyWhen(history: seq<RawRecord>)
    ensures Numberable(history) <==> |Ordinals(history)| < 4_294_967_296
  {
    FreshOrdinals(history, {});
    DistinctOrdinals(Fresh(history, {}));
    assert Ordinals(history) - {} == Ordinals(history);
  }

  /** What a set of new elements adds to another. */
  lemma NewElements<T>(known: set<T>, read: set<T>, added: set<T>, after: set<T>)
    requires added == read - known * read && after == known + added
    ensures after == known + read && |after| == |known| + |added|
  {
    assert known !! added;
  }

  lemma SeenIsMet(store: Store, records: seq<RawRecord>)
    ensures Seen(store, records) == store.ledger.Keys * Ordinals(records)
  {
  }

  /** What recording a batch adds to a ledger. */
  lemma LedgerGrows(ledger: map<string, nat>, records: seq<RawRecord>, seen: set<string>, first: nat,
                    after: map<string, nat>)
    requires seen == ledger.Keys * Ordinals(records)
    requires after == Recorded(ledger, LedgerRows(Fresh(records, seen), first))
    ensures after.Keys == ledger.Keys + Ordinals(records)
    ensures |after.Keys| == |ledger.Keys| + |Fresh(records, seen)|
  {
    var kept := Fresh(records, seen);
    FreshOrdinals(records, seen);
    RecordedKeys(ledger, kept, first);
    DistinctOrdinals(kept);
    NewElements(ledger.Keys, Ordinals(records), Ordinals(kept), after.Keys);
  }

  /** Whatever the store held, a poll leaves a ledger row for each ordinal it read, and adds as many as turns. */
  lemma PollRecords(store: Store, records: seq<RawRecord>)
    ensures Poll(store, records).ledger.Keys == store.ledger.Keys + Ordinals(records)
    ensures |Poll(store, records).ledger.Keys| == |store.ledger.Keys| + |Fresh(records, Seen(store, records))|
  {
    SeenIsMet(store, records);
    var next := NextTurnNo(store);
    LedgerGrows(store.ledger, records, Seen(store, records), next, Poll(store, records).ledger);
  }

  lemma PollAppendsAll(store: Store, records: seq<RawRecord>)
    ensures store.turns <= Poll(store, records).turns
    ensures |Poll(store, records).turns| == |store.turns| + |Fresh(records, Seen(store, records))|
  {
  }

  lemma DenseAppend(turns: seq<Turn>, more: seq<Turn>)
    requires Dense(turns) && forall i :: 0 <= i < |more| ==> more[i].turnNo == |turns| + 1 + i
    ensures Dense(turns + more)
  {
  }

  /** Appending at the high-water mark leaves no gap, while the numbers fit. */
  lemma PollStaysDense(store: Store, records: seq<RawRecord>)
    requires Dense(store.turns) && |Poll(store, records).turns| < U32
    ensures Dense(Poll(store, records).turns)
  {
    var count, kept := |store.turns|, Fresh(records, Seen(store, records));
    HighWaterOfDense(store.turns);
    PollAppends(store, records, count);
    var more := Numbered(kept, count + 1);
    NumberedFrom(kept, count + 1, more);
    DenseAppend(store.turns, more);
  }
}

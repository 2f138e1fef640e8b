/** The search editor as its user sees it: a list of characters, a cursor, and past queries. */
module LineEditor {
  import opened Text

  datatype Line = Line(chars: string, cursor: nat, history: seq<string>, index: Option<nat>)

  predicate Good(l: Line) {
    l.cursor <= |l.chars| && (l.index.Some? ==> l.index.value < |l.history|)
  }

  function Insert(l: Line, c: char): (r: Line)
    requires Good(l)
    ensures Good(r)
  {
    Line(l.chars[..l.cursor] + [c] + l.chars[l.cursor..], l.cursor + 1, l.history, None)
  }

  function RemoveAt(s: string, at: nat): string
    requires at < |s|
  {
    s[..at] + s[at + 1..]
  }

  function Backspace(l: Line): (r: Line)
    requires Good(l)
    ensures Good(r)
  {
    if l.cursor == 0 then l else l.(chars := RemoveAt(l.chars, l.cursor - 1), cursor := l.cursor - 1)
  }

  function Delete(l: Line): (r: Line)
    requires Good(l)
    ensures Good(r)
  {
    if l.cursor == |l.chars| then l else l.(chars := RemoveAt(l.chars, l.cursor))
  }

  function Left(l: Line): Line { if l.cursor == 0 then l else l.(cursor := l.cursor - 1) }

  function Right(l: Line): Line { if l.cursor < |l.chars| then l.(cursor := l.cursor + 1) else l.(cursor := |l.chars|) }

  function Home(l: Line): Line { l.(cursor := 0) }

  function End(l: Line): Line { l.(cursor := |l.chars|) }

  /** A query joins the history unless it repeats the last one. */
  function Remembered(history: seq<string>, query: string): seq<string> {
    if history != [] && history[|history| - 1] == query then history else history + [query]
  }

  /** The query a commit sends, and the line after it; the text itself stays. */
  function Commit(l: Line): (Line, Option<string>) {
    var query := Trim(l.chars);
    if query == [] then (l, None) else (l.(history := Remembered(l.history, query), index := None), Some(query))
  }

  function LoadHistory(l: Line, index: nat): Line
    requires index < |l.history|
  {
    Line(l.history[index], |l.history[index]|, l.history, Some(index))
  }

  function Older(l: Line): (r: Line)
    requires Good(l)
    ensures Good(r)
  {
    if l.history == [] then l
    else if l.index.None? then LoadHistory(l, |l.history| - 1)
    else LoadHistory(l, if l.index.value == 0 then 0 else l.index.value - 1)
  }

  function Newer(l: Line): (r: Line)
    requires Good(l)
    ensures Good(r)
  {
    if l.index.None? then l
    else if l.index.value + 1 >= |l.history| then Line("", 0, l.history, None)
    else LoadHistory(l, l.index.value + 1)
  }

  // ----- every sequence of edits

  datatype Edit = Inserted(c: char) | Backspaced | Deleted | WentLeft | WentRight | WentHome | WentToEnd
                | Committed | WentOlder | WentNewer

  function Apply(l: Line, edit: Edit): (r: Line)
    requires Good(l)
    ensures Good(r)
  {
    match edit
    case Inserted(c) => Insert(l, c)
    case Backspaced => Backspace(l)
    case Deleted => Delete(l)
    case WentLeft => Left(l)
    case WentRight => Right(l)
    case WentHome => Home(l)
    case WentToEnd => End(l)
    case Committed => Commit(l).0
    case WentOlder => Older(l)
    case WentNewer => Newer(l)
  }

  function Run(l: Line, edits: seq<Edit>): (r: Line)
    requires Good(l)
    ensures Good(r)
    decreases |edits|
  {
    if edits == [] then l else Run(Apply(l, edits[0]), edits[1..])
  }

  /** The queries a run of edits sends. */
  function Sent(l: Line, edits: seq<Edit>): seq<string>
    requires Good(l)
    decreases |edits|
  {
    if edits == [] then []
    else
      var rest := Sent(Apply(l, edits[0]), edits[1..]);
      if edits[0].Committed? && Commit(l).1.Some? then [Commit(l).1.value] + rest else rest
  }

  lemma OneMoreEdit(l: Line, edits: seq<Edit>, i: nat)
    requires Good(l) && i < |edits|
    ensures Run(l, edits[i..]) == Run(Apply(l, edits[i]), edits[i + 1..])
    ensures var rest := Sent(Apply(l, edits[i]), edits[i + 1..]);
            Sent(l, edits[i..]) == if edits[i].Committed? && Commit(l).1.Some? then [Commit(l).1.value] + rest else rest
  {
    assert edits[i..][0] == edits[i] && edits[i..][1..] == edits[i + 1..];
  }

  /** Past queries are trimmed, never empty, and never repeat their predecessor. */
  ghost predicate HistoryIsClean(history: seq<string>) {
    && (forall i :: 0 <= i < |history| ==> history[i] != [] && IsTrimmed(history[i]))
    && (forall i :: 0 < i < |history| ==> history[i - 1] != history[i])
  }

  lemma LongerIsClean(history: seq<string>, query: string, longer: seq<string>)
    requires HistoryIsClean(history) && query != [] && IsTrimmed(query) && longer == history + [query]
    requires history != [] ==> history[|history| - 1] != query
    ensures HistoryIsClean(longer)
  {
    assert forall i :: 0 <= i < |history| ==> longer[i] == history[i];
  }

  lemma RememberedIsClean(history: seq<string>, query: string)
    requires HistoryIsClean(history) && query != [] && IsTrimmed(query)
    ensures history <= Remembered(history, query) && HistoryIsClean(Remembered(history, query))
  {
    if history == [] || history[|history| - 1] != query {
      LongerIsClean(history, query, history + [query]);
    }
  }

  lemma EditKeepsHistoryClean(l: Line, edit: Edit)
    requires Good(l) && HistoryIsClean(l.history)
    ensures l.history <= Apply(l, edit).history && HistoryIsClean(Apply(l, edit).history)
  {
    if edit.Committed? {
      var query := Trim(l.chars);
      TrimIsTrimmed(l.chars);
      if query != [] {
        RememberedIsClean(l.history, query);
      }
    }
  }

  /** Whatever is typed, history only grows and stays clean; cursor and history position stay in range. */
  lemma {:induction false} EveryRunIsGood(l: Line, edits: seq<Edit>)
    requires Good(l) && HistoryIsClean(l.history)
    ensures Good(Run(l, edits)) && l.history <= Run(l, edits).history && HistoryIsClean(Run(l, edits).history)
    decreases |edits|
  {
    if edits != [] {
      EditKeepsHistoryClean(l, edits[0]);
      EveryRunIsGood(Apply(l, edits[0]), edits[1..]);
    }
  }

  // ----- what one edit undoes

  lemma BackspaceUndoesInsert(l: Line, c: char)
    requires Good(l)
    ensures Backspace(Insert(l, c)) == l.(index := None)
  {
    var after := Insert(l, c);
    assert RemoveAt(after.chars, l.cursor) == l.chars[..l.cursor] + l.chars[l.cursor..] == l.chars;
  }

  lemma InsertUndoesDelete(l: Line)
    requires Good(l) && l.cursor < |l.chars|
    ensures Left(Insert(Delete(l), l.chars[l.cursor])) == l.(index := None)
  {
    var cut := Delete(l);
    assert cut.chars[..l.cursor] == l.chars[..l.cursor] && cut.chars[l.cursor..] == l.chars[l.cursor + 1..];
    assert l.chars == l.chars[..l.cursor] + [l.chars[l.cursor]] + l.chars[l.cursor + 1..];
  }

  function Olders(l: Line, n: nat): (r: Line)
    requires Good(l)
    ensures Good(r)
    decreases n
  {
    if n == 0 then l else Olders(Older(l), n - 1)
  }

  function Newers(l: Line, n: nat): (r: Line)
    requires Good(l)
    ensures Good(r)
    decreases n
  {
    if n == 0 then l else Newers(Newer(l), n - 1)
  }

  /** Walking back `n` queries shows the `n`th from last, stopping at the oldest. */
  lemma {:induction false} OldersShow(l: Line, n: nat)
    requires Good(l) && l.history != [] && n > 0
    ensures var from := if l.index.Some? then l.index.value else |l.history|;
            Olders(l, n) == LoadHistory(l, if n <= from then from - n else 0)
    decreases n
  {
    if n > 1 {
      OldersShow(Older(l), n - 1);
    } else {
      assert Olders(Older(l), 0) == Older(l);
    }
  }

  lemma {:induction false} NewersShow(l: Line, n: nat)
    requires Good(l) && l.index.Some? && n > 0
    ensures Newers(l, n) == if l.index.value + n < |l.history| then LoadHistory(l, l.index.value + n)
                            else Line("", 0, l.history, None)
    decreases n
  {
    if l.index.value + 1 < |l.history| {
      if n > 1 {
        NewersShow(Newer(l), n - 1);
      } else {
        assert Newers(Newer(l), 0) == Newer(l);
      }
    } else {
      NewersStay(Newer(l), n - 1);
    }
  }

  lemma {:induction false} NewersStay(l: Line, n: nat)
    requires Good(l) && l.index.None?
    ensures Newers(l, n) == l
    decreases n
  {
    if n > 0 {
      NewersStay(l, n - 1);
    }
  }

  /** From a fresh line, as many steps forward as back return to an empty one. */
  lemma BackAndForthClears(l: Line, n: nat)
    requires Good(l) && l.index.None? && 0 < n <= |l.history|
    ensures Newers(Olders(l, n), n) == Line("", 0, l.history, None)
  {
    OldersShow(l, n);
    NewersShow(Olders(l, n), n);
  }

  // ----- what each edit does on the two sides of the cursor

  /** The line is `before`, the cursor, `after`. */
  predicate IsSplit(l: Line, before: string, after: string) {
    l.chars == before + after && l.cursor == |before|
  }

  predicate KeepsRecall(r: Line, l: Line) { r.history == l.history && r.index == l.index }

  lemma SplitAtCursor(l: Line, before: string, after: string)
    requires IsSplit(l, before, after)
    ensures l.chars[..l.cursor] == before && l.chars[l.cursor..] == after
    ensures before != [] ==> RemoveAt(l.chars, |before| - 1) == before[..|before| - 1] + after
    ensures after != [] ==> RemoveAt(l.chars, |before|) == before + after[1..]
  {
    if before != [] {
      assert (before + after)[..|before| - 1] == before[..|before| - 1];
    }
    if after != [] {
      assert (before + after)[|before| + 1..] == after[1..];
    }
  }

  /** What typing does on the two sides; it alone ends recall. */
  lemma TypingOnBothSides(l: Line, before: string, after: string, c: char)
    requires Good(l) && IsSplit(l, before, after)
    ensures var r := Apply(l, Inserted(c));
            IsSplit(r, before + [c], after) && r.history == l.history && r.index == None
    ensures var r := Apply(l, Backspaced);
            KeepsRecall(r, l)
            && if before == [] then r == l else IsSplit(r, before[..|before| - 1], after)
    ensures var r := Apply(l, Deleted);
            KeepsRecall(r, l)
            && if after == [] then r == l else IsSplit(r, before, after[1..])
  {
    SplitAtCursor(l, before, after);
  }

  lemma LastGoesOver(before: string, after: string)
    requires before != []
    ensures before + after == before[..|before| - 1] + ([before[|before| - 1]] + after)
  {
  }

  lemma FirstGoesOver(before: string, after: string)
    requires after != []
    ensures before + after == before + [after[0]] + after[1..]
  {
  }

  /** What moving by one does: no character changes, but one goes over to the other side, if there is one. */
  lemma MovingOnBothSides(l: Line, before: string, after: string)
    requires Good(l) && IsSplit(l, before, after)
    ensures var r := Apply(l, WentLeft);
            KeepsRecall(r, l)
            && if before == [] then r == l
               else IsSplit(r, before[..|before| - 1], [before[|before| - 1]] + after)
    ensures var r := Apply(l, WentRight);
            KeepsRecall(r, l)
            && if after == [] then r == l else IsSplit(r, before + [after[0]], after[1..])
  {
    if before != [] {
      LastGoesOver(before, after);
    }
    if after != [] {
      FirstGoesOver(before, after);
    }
  }

  /** Moving to an end takes all of them to one side. */
  lemma EndsOnOneSide(l: Line, before: string, after: string)
    requires Good(l) && IsSplit(l, before, after)
    ensures IsSplit(Apply(l, WentHome), [], before + after) && KeepsRecall(Apply(l, WentHome), l)
    ensures IsSplit(Apply(l, WentToEnd), before + after, []) && KeepsRecall(Apply(l, WentToEnd), l)
  {
  }

  /** What committing does: a blank line does nothing; another is sent trimmed, remembered, and stays. */
  lemma CommitRemembers(l: Line)
    requires Good(l)
    ensures Apply(l, Committed) == Commit(l).0
    ensures (forall c :: c in l.chars ==> IsWhitespace(c)) ==> Commit(l) == (l, None)
    ensures (exists c :: c in l.chars && !IsWhitespace(c)) ==>
              var (r, query) := (Commit(l).0, Trim(l.chars));
              && Commit(l).1 == Some(query) && r.chars == l.chars && r.cursor == l.cursor && r.index == None
              && r.history == if l.history != [] && l.history[|l.history| - 1] == query then l.history
                              else l.history + [query]
  {
    TrimsToNothing(l.chars);
  }

  /** Where recall stands in the history: at its end while a new line is typed. */
  function Place(l: Line): nat { if l.index.Some? then l.index.value else |l.history| }

  /** Recall moves one place towards the oldest query or the newest, stops at the oldest, and past the newest clears. */
  lemma RecallMovesOnePlace(l: Line)
    requires Good(l)
    ensures Apply(l, WentOlder).history == Apply(l, WentNewer).history == l.history
    ensures forall edit :: edit in {WentOlder, WentNewer} && Apply(l, edit) != l ==>
              Apply(l, edit).cursor == |Apply(l, edit).chars|
    ensures var (r, at) := (Apply(l, WentOlder), Place(l));
            if l.history == [] then r == l
            else Place(r) == (if at == 0 then 0 else at - 1) && r.index.Some? && r.chars == l.history[Place(r)]
    ensures var (r, at) := (Apply(l, WentNewer), Place(l));
            if at == |l.history| then r == l
            else Place(r) == at + 1 && if at + 1 == |l.history| then r.index == None && r.chars == []
                                       else r.index.Some? && r.chars == l.history[at + 1]
  {
  }
}

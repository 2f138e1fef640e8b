/**
 The search editor: a cursor counted in characters over text stored as UTF-8 bytes.  The
 byte-level program is proved equal, edit for edit, to the same editor on a list of
 characters.
 */
module Editor {
  import opened Text
  import opened Utf8
  import L = LineEditor

  // ----- byte offsets of characters

  /** `char_indices().nth(n)`: where the `n`th character starts, scanning from lead byte to lead byte. */
  function NthOffset(text: seq<Byte>, n: nat): Option<nat>
    decreases |text|
  {
    if text == [] then None
    else if n == 0 then Some(0)
    else
      var w := Width(text[0]);
      if w > |text| then None
      else
        var rest := NthOffset(text[w..], n - 1);
        if rest.Some? then Some(w + rest.value) else None
  }

  lemma {:induction false} NthOffsetCounts(s: string, n: nat)
    ensures NthOffset(Encode(s), n) == if n < |s| then Some(ByteLen(s[..n])) else None
  {
    if s != [] {
      var text, w := Encode(s), |EncodeChar(s[0])|;
      FirstCharOfEncoded(s[0], Encode(s[1..]));
      assert text[w..] == Encode(s[1..]);
      if n > 0 {
        NthOffsetCounts(s[1..], n - 1);
        if n < |s| {
          assert s[..n][1..] == s[1..][..n - 1];
        }
      }
    }
  }

  /** Bytes before and after a character position are the encodings of the characters before and after it. */
  lemma SplitAt(s: string, at: nat)
    requires at <= |s|
    ensures ByteLen(s[..at]) <= ByteLen(s)
    ensures Encode(s)[..ByteLen(s[..at])] == Encode(s[..at]) && Encode(s)[ByteLen(s[..at])..] == Encode(s[at..])
  {
    EncodeSplit(s, at);
  }

  lemma InsertAt(s: string, at: nat, c: char)
    requires at <= |s|
    ensures Encode(s[..at]) + EncodeChar(c) + Encode(s[at..]) == Encode(s[..at] + [c] + s[at..])
  {
    EncodeOne(c);
    EncodeConcat(s[..at], [c]);
    EncodeConcat(s[..at] + [c], s[at..]);
  }

  lemma CutAt(s: string, at: nat)
    requires at < |s|
    ensures ByteLen(s[..at]) <= ByteLen(s[..at + 1]) <= ByteLen(s)
    ensures Encode(s)[..ByteLen(s[..at])] + Encode(s)[ByteLen(s[..at + 1])..] == Encode(L.RemoveAt(s, at))
  {
    PrefixLenMonotone(s, at, at + 1);
    SplitAt(s, at);
    SplitAt(s, at + 1);
    EncodeConcat(s[..at], s[at + 1..]);
  }

  lemma EncodeOne(c: char)
    ensures Encode([c]) == EncodeChar(c)
  {
    assert Encode([c]) == EncodeChar(c) + Encode([]);
  }

  lemma OneMoreChar(s: string, at: nat)
    requires at < |s|
    ensures ByteLen(s[..at + 1]) == ByteLen(s[..at]) + ByteLen([s[at]])
    ensures ByteLen(s[..at + 1]) <= ByteLen(s)
  {
    assert s[..at] + [s[at]] == s[..at + 1];
    EncodeConcat(s[..at], [s[at]]);
    EncodeSplit(s, at + 1);
  }

  /** The offset of the next character, measured from one character's start. */
  lemma NextOffset(s: string, at: nat)
    requires at < |s|
    ensures ByteLen(s[..at]) <= ByteLen(s)
    ensures NthOffset(Encode(s)[ByteLen(s[..at])..], 1) == if at + 1 < |s| then Some(ByteLen([s[at]])) else None
  {
    SplitAt(s, at);
    NthOffsetCounts(s[at..], 1);
    if at + 1 < |s| {
      assert s[at..][..1] == [s[at]];
    }
  }

  /** Valid texts are the same bytes exactly when they are the same characters. */
  lemma SameText(bytes: seq<Byte>, s: string)
    requires IsUtf8(bytes)
    ensures bytes == Encode(s) <==> Decode(bytes) == s
  {
    DecodeEncode(s);
  }

  // ----- the program's editor on bytes

  class InputBuffer {
    var text: seq<Byte>
    var cursor: nat
    var history: seq<seq<Byte>>
    var historyIndex: Option<nat>

    ghost function Abs(): L.Line
      reads this
    {
      L.Line(Decode(text), cursor, seq(|history|, i requires 0 <= i < |history| reads this => Decode(history[i])),
           historyIndex)
    }

    ghost predicate Valid()
      reads this
    {
      IsUtf8(text) && (forall i :: 0 <= i < |history| ==> IsUtf8(history[i])) && L.Good(Abs())
    }

    constructor ()
      ensures Valid() && Abs() == L.Line("", 0, [], None)
    {
      text, cursor, history, historyIndex := [], 0, [], None;
    }

    /** The byte offset of the cursor: always the start of a character or the end. */
    method ByteIndex() returns (index: nat)
      requires Valid()
      ensures index == ByteLen(Decode(text)[..cursor]) && index <= |text| && IsCharBoundary(text, index)
    {
      NthOffsetCounts(Decode(text), cursor);
      PrefixIsBoundary(Decode(text), cursor);
      assert Decode(text)[..|Decode(text)|] == Decode(text);
      var at := NthOffset(text, cursor);
      index := if at.Some? then at.value else |text|;
    }

    /** Where the character starting at `start` ends. */
    method EndOfChar(start: nat, ghost at: nat) returns (end: nat)
      requires Valid() && at < |Decode(text)| && start == ByteLen(Decode(text)[..at]) && start <= |text|
      ensures end == ByteLen(Decode(text)[..at + 1]) && start <= end <= |text|
    {
      NextOffset(Decode(text), at);
      OneMoreChar(Decode(text), at);
      assert Decode(text)[..|Decode(text)|] == Decode(text);
      var next := NthOffset(text[start..], 1);
      end := if next.Some? then start + next.value else |text|;
    }

    method Insert(c: char)
      requires Valid()
      modifies this
      ensures Valid() && Abs() == L.Insert(old(Abs()), c)
    {
      var index := ByteIndex();
      ghost var s := Decode(text);
      SplitAt(s, cursor);
      InsertAt(s, cursor, c);
      DecodeEncode(s[..cursor] + [c] + s[cursor..]);
      text := text[..index] + EncodeChar(c) + text[index..];
      cursor := cursor + 1;
      historyIndex := None;
    }

    /** Cut the character at `at` out of the bytes. */
    method Cut(start: nat, end: nat, ghost at: nat)
      requires IsUtf8(text) && at < |Decode(text)|
      requires start == ByteLen(Decode(text)[..at]) && end == ByteLen(Decode(text)[..at + 1]) && start <= end <= |text|
      modifies this`text
      ensures IsUtf8(text) && Decode(text) == L.RemoveAt(old(Decode(text)), at)
    {
      ghost var s := Decode(text);
      CutAt(s, at);
      DecodeEncode(L.RemoveAt(s, at));
      text := text[..start] + text[end..];
    }

    method Backspace()
      requires Valid()
      modifies this
      ensures Valid() && Abs() == L.Backspace(old(Abs()))
    {
      if cursor == 0 {
        return;
      }
      cursor := cursor - 1;
      var start := ByteIndex();
      var end := EndOfChar(start, cursor);
      Cut(start, end, cursor);
    }

    method Delete()
      requires Valid()
      modifies this
      ensures Valid() && Abs() == L.Delete(old(Abs()))
    {
      var start := ByteIndex();
      ghost var s := Decode(text);
      if cursor < |s| {
        PrefixLenMonotone(s, cursor, |s|);
        assert s[..|s|] == s;
      } else {
        assert s[..cursor] == s;
      }
      if start == |text| {
        return;
      }
      var end := EndOfChar(start, cursor);
      Cut(start, end, cursor);
    }

    method Left()
      requires Valid()
      modifies this
      ensures Valid() && Abs() == L.Left(old(Abs()))
    {
      cursor := if cursor == 0 then 0 else cursor - 1;
    }

    method Right()
      requires Valid()
      modifies this
      ensures Valid() && Abs() == L.Right(old(Abs()))
    {
      var count := |Decode(text)|;
      cursor := if cursor + 1 < count then cursor + 1 else count;
    }

    method Home()
      requires Valid()
      modifies this
      ensures Valid() && Abs() == L.Home(old(Abs()))
    {
      cursor := 0;
    }

    method End()
      requires Valid()
      modifies this
      ensures Valid() && Abs() == L.End(old(Abs()))
    {
      cursor := |Decode(text)|;
    }

    method Remember(query: string)
      requires Valid()
      modifies this`history
      ensures Valid() && Abs() == old(Abs()).(history := L.Remembered(old(Abs().history), query))
    {
      var bytes := Encode(query);
      DecodeEncode(query);
      if history != [] {
        SameText(history[|history| - 1], query);
      }
      if history == [] || history[|history| - 1] != bytes {
        history := history + [bytes];
      }
    }

    method Commit() returns (query: Option<string>)
      requires Valid()
      modifies this
      ensures Valid() && Abs() == L.Commit(old(Abs())).0 && query == L.Commit(old(Abs())).1
    {
      var trimmed := Trim(Decode(text));
      if trimmed == [] {
        return None;
      }
      Remember(trimmed);
      ghost var remembered := Abs();
      historyIndex := None;
      assert Abs().history == remembered.history;
      query := Some(trimmed);
    }

    method LoadHistory(index: nat)
      requires Valid() && index < |history|
      modifies this
      ensures Valid() && Abs() == L.LoadHistory(old(Abs()), index)
    {
      historyIndex := Some(index);
      text := history[index];
      cursor := |Decode(text)|;
    }

    method Older()
      requires Valid()
      modifies this
      ensures Valid() && Abs() == L.Older(old(Abs()))
    {
      if history == [] {
        return;
      }
      var index := if historyIndex.None? then |history| - 1
                   else if historyIndex.value == 0 then 0 else historyIndex.value - 1;
      LoadHistory(index);
    }

    method Newer()
      requires Valid()
      modifies this
      ensures Valid() && Abs() == L.Newer(old(Abs()))
    {
      if historyIndex.None? {
        return;
      }
      if historyIndex.value + 1 >= |history| {
        historyIndex := None;
        text := [];
        cursor := 0;
      } else {
        LoadHistory(historyIndex.value + 1);
      }
    }

    /** One key press. */
    method Perform(edit: L.Edit) returns (sent: Option<string>)
      requires Valid()
      modifies this
      ensures Valid() && Abs() == L.Apply(old(Abs()), edit)
      ensures sent == if edit.Committed? then L.Commit(old(Abs())).1 else None
    {
      sent := None;
      match edit {
        case Inserted(c) => Insert(c);
        case Backspaced => Backspace();
        case Deleted => Delete();
        case WentLeft => Left();
        case WentRight => Right();
        case WentHome => Home();
        case WentToEnd => End();
        case Committed => sent := Commit();
        case WentOlder => Older();
        case WentNewer => Newer();
      }
    }

    /** Any sequence of them: the byte editor ends where the character editor does, having sent the same queries. */
    method PerformAll(edits: seq<L.Edit>) returns (sent: seq<string>)
      requires Valid()
      modifies this
      ensures Valid() && Abs() == L.Run(old(Abs()), edits) && sent == L.Sent(old(Abs()), edits)
    {
      sent := [];
      for i := 0 to |edits|
        invariant Valid() && L.Run(Abs(), edits[i..]) == L.Run(old(Abs()), edits)
        invariant sent + L.Sent(Abs(), edits[i..]) == L.Sent(old(Abs()), edits)
      {
        L.OneMoreEdit(Abs(), edits, i);
        var query := Perform(edits[i]);
        if query.Some? {
          ConcatAssociates(sent, [query.value], L.Sent(Abs(), edits[i + 1..]));
          sent := sent + [query.value];
        }
      }
    }
  }
}

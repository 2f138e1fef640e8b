/** Deterministic-document addresses: `file#section/id/...`. */
module Ddoc {
  import opened Text

  datatype DdocAddress = DdocAddress(file: string, trail: seq<string>)

  datatype ParseError = MissingSeparator | MultipleSeparators | EmptyTrail | EmptySegment

  datatype Result = Ok(address: DdocAddress) | Err(error: ParseError)

  const SEPARATOR: char := '#'

  function Parse(text: string): Result {
    var at := Find(text, [SEPARATOR]);
    if at.None? then Err(MissingSeparator)
    else
      var trail := text[at.value + 1..];
      if SEPARATOR in trail then Err(MultipleSeparators)
      else if trail == [] then Err(EmptyTrail)
      else if [] in Split(trail, "/") then Err(EmptySegment)
      else Ok(DdocAddress(text[..at.value], Split(trail, "/")))
  }

  function Rendered(a: DdocAddress): string { a.file + [SEPARATOR] + Join(a.trail, "/") }

  /** The program's renderer: segments pushed one by one, a slash before all but the first. */
  method Render(a: DdocAddress) returns (out: string)
    ensures out == Rendered(a)
  {
    out := a.file + [SEPARATOR];
    for i := 0 to |a.trail|
      invariant out == a.file + [SEPARATOR] + Join(a.trail[..i], "/")
    {
      JoinAppend(a.trail[..i], a.trail[i], "/");
      assert a.trail[..i + 1] == a.trail[..i] + [a.trail[i]];
      if i > 0 {
        out := out + ['/'];
      }
      out := out + a.trail[i];
    }
    assert a.trail[..|a.trail|] == a.trail;
  }

  lemma {:induction false} JoinAppend(parts: seq<string>, last: string, sep: string)
    ensures Join(parts + [last], sep) == if parts == [] then last else Join(parts, sep) + sep + last
  {
    if |parts| > 1 {
      assert (parts + [last])[1..] == parts[1..] + [last];
      JoinAppend(parts[1..], last, sep);
    } else if |parts| == 1 {
      assert (parts + [last])[1..] == [last];
    }
  }

  /** Whatever parses renders back as the text it came from. */
  lemma RenderUndoesParse(text: string)
    requires Parse(text).Ok?
    ensures Rendered(Parse(text).address) == text
  {
    var at := Find(text, [SEPARATOR]).value;
    JoinSplit(text[at + 1..], "/");
    assert text[at] == text[at..][0] == SEPARATOR;
    assert text == text[..at] + [SEPARATOR] + text[at + 1..];
  }

  /** An address the grammar can spell. */
  predicate IsSpellable(a: DdocAddress) {
    && SEPARATOR !in a.file && a.trail != []
    && forall i :: 0 <= i < |a.trail| ==> a.trail[i] != [] && SEPARATOR !in a.trail[i] && '/' !in a.trail[i]
  }

  lemma {:induction false} JoinLacks(parts: seq<string>, sep: string, c: char)
    requires c !in sep && forall i :: 0 <= i < |parts| ==> c !in parts[i]
    ensures c !in Join(parts, sep)
  {
    if |parts| > 1 {
      JoinLacks(parts[1..], sep, c);
    }
  }

  /** Rendering then parsing gives the address back exactly when it is spellable. */
  lemma ParseUndoesRender(a: DdocAddress)
    ensures Parse(Rendered(a)) == Ok(a) <==> IsSpellable(a)
  {
    var text, trail := Rendered(a), Join(a.trail, "/");
    if IsSpellable(a) {
      FindFirst(a.file, SEPARATOR, trail);
      assert text[|a.file| + 1..] == trail && text[..|a.file|] == a.file;
      JoinLacks(a.trail, "/", SEPARATOR);
      SplitJoin(a.trail, '/');
      assert "/" == ['/'];
      assert forall part :: part in a.trail ==> part != [];
    }
    if Parse(text) == Ok(a) {
      ParsedIsSpellable(text);
    }
  }

  lemma ParsedIsSpellable(text: string)
    requires Parse(text).Ok?
    ensures IsSpellable(Parse(text).address)
  {
    var at := Find(text, [SEPARATOR]).value;
    var trail := text[at + 1..];
    var parts := Split(trail, "/");
    assert "/" == ['/'];
    SplitPartsLack(trail, '/');
    forall j | 0 <= j < at ensures text[j] != SEPARATOR {
      assert !([SEPARATOR] <= text[j..]) && text[j..][0] == text[j];
    }
    forall i | 0 <= i < |parts| ensures parts[i] != [] && SEPARATOR !in parts[i] {
      assert parts[i] in parts;
      SplitIsWithin(trail, "/", i);
    }
  }

  lemma {:induction false} SplitIsWithin(s: string, sep: string, i: nat)
    requires sep != [] && i < |Split(s, sep)|
    ensures forall c :: c in Split(s, sep)[i] ==> c in s
    decreases |s|
  {
    var at := Find(s, sep);
    if at.Some? && i > 0 {
      var rest := s[at.value + |sep|..];
      SplitIsWithin(rest, sep, i - 1);
      assert Split(s, sep)[i] == Split(rest, sep)[i - 1];
      assert forall c :: c in rest ==> c in s;
    }
  }

  // ----- sections and rows

  function Section(a: DdocAddress): string { if a.trail == [] then "" else a.trail[0] }

  function RowId(a: DdocAddress): Option<string> {
    if |a.trail| < 2 then None else Some(a.trail[|a.trail| - 1])
  }

  predicate IsLowerHex(c: char) { '0' <= c <= '9' || 'a' <= c <= 'f' }

  /** The prefix of `<prefix>-<four lowercase hex>`. */
  function MintedPrefix(id: string): Option<string> {
    var at := Find(id, "-");
    if at.None? then None
    else
      var suffix := id[at.value + 1..];
      if at.value == 0 || |suffix| != 4 || exists i :: 0 <= i < 4 && !IsLowerHex(suffix[i]) then None
      else Some(id[..at.value])
  }
}

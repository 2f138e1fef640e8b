/** The `str` operations the program's parsers use, over sequences of scalar values. */
module Text {

  datatype Option<+T> = None | Some(value: T)

  lemma ConcatAssociates<T>(a: seq<T>, b: seq<T>, c: seq<T>)
    ensures a + (b + c) == a + b + c
  {
  }

  /** `kept` are what `pick` makes of the elements it makes something of, at `at`, in order. */
  ghost predicate ArePicked<S, T>(at: seq<nat>, kept: seq<T>, pick: S -> Option<T>, all: seq<S>) {
    && |at| == |kept| && (forall j, k :: 0 <= j < k < |at| ==> at[j] < at[k])
    && (forall i :: 0 <= i < |all| ==> (i in at <==> pick(all[i]).Some?))
    && (forall k :: 0 <= k < |at| ==> at[k] < |all| && pick(all[at[k]]) == Some(kept[k]))
  }

  lemma PickedAppend<S, T>(at: seq<nat>, kept: seq<T>, pick: S -> Option<T>, all: seq<S>, last: S)
    returns (more: seq<nat>)
    requires ArePicked(at, kept, pick, all)
    ensures ArePicked(more, kept + (if pick(last).Some? then [pick(last).value] else []), pick, all + [last])
  {
    more := at + if pick(last).Some? then [|all|] else [];
  }

  /** The characters of the Unicode `White_Space` property, which `trim` removes. */
  predicate IsWhitespace(c: char) {
    var n := c as int;
    0x09 <= n <= 0x0D || n == 0x20 || n == 0x85 || n == 0xA0 || n == 0x1680 || 0x2000 <= n <= 0x200A
    || n == 0x2028 || n == 0x2029 || n == 0x202F || n == 0x205F || n == 0x3000
  }

  function TrimStart(s: string): (r: string)
    ensures r == [] || !IsWhitespace(r[0])
    ensures |r| <= |s| && r == s[|s| - |r|..]
    ensures forall i :: 0 <= i < |s| - |r| ==> IsWhitespace(s[i])
  {
    if s != [] && IsWhitespace(s[0]) then TrimStart(s[1..]) else s
  }

  function TrimEnd(s: string): (r: string)
    ensures r == [] || !IsWhitespace(r[|r| - 1])
    ensures r <= s
    ensures forall i :: |r| <= i < |s| ==> IsWhitespace(s[i])
  {
    if s != [] && IsWhitespace(s[|s| - 1]) then TrimEnd(s[..|s| - 1]) else s
  }

  function Trim(s: string): string { TrimEnd(TrimStart(s)) }

  predicate IsTrimmed(s: string) {
    s == [] || (!IsWhitespace(s[0]) && !IsWhitespace(s[|s| - 1]))
  }

  lemma TrimIsTrimmed(s: string)
    ensures IsTrimmed(Trim(s))
    ensures IsTrimmed(s) ==> Trim(s) == s
  {
  }

  lemma TrimsToNothing(s: string)
    ensures Trim(s) == [] <==> forall c :: c in s ==> IsWhitespace(c)
  {
    var start := TrimStart(s);
    if start == [] {
      forall c | c in s ensures IsWhitespace(c) {
        var i :| 0 <= i < |s| && s[i] == c;
      }
    } else {
      assert !IsWhitespace(s[|s| - |start|]);
    }
  }

  /** Trimming finds the same first character in any prefix that reaches it. */
  lemma {:induction false} TrimStartOfPrefix(line: string, text: string)
    requires line <= text && TrimStart(line) != []
    ensures TrimStart(text) != [] && TrimStart(text)[0] == TrimStart(line)[0]
  {
    if IsWhitespace(line[0]) {
      TrimStartOfPrefix(line[1..], text[1..]);
    }
  }

  /** `str::find` for a pattern: the first place it occurs. */
  function Find(s: string, sub: string): (at: Option<nat>)
    ensures at.Some? ==> at.value + |sub| <= |s| && sub <= s[at.value..]
                         && forall j :: 0 <= j < at.value ==> !(sub <= s[j..])
    ensures at.None? ==> forall j :: 0 <= j <= |s| ==> !(sub <= s[j..])
  {
    if sub <= s then Some(0)
    else if s == [] then None
    else
      var rest := Find(s[1..], sub);
      assert forall j :: 1 <= j <= |s| ==> s[j..] == s[1..][j - 1..];
      if rest.Some? then Some(rest.value + 1) else None
  }

  /** `str::find` for a set of characters. */
  function FindAny(s: string, wanted: set<char>): (at: Option<nat>)
    ensures at.Some? ==> at.value < |s| && s[at.value] in wanted
                         && forall j :: 0 <= j < at.value ==> s[j] !in wanted
    ensures at.None? ==> forall j :: 0 <= j < |s| ==> s[j] !in wanted
  {
    if s == [] then None
    else if s[0] in wanted then Some(0)
    else
      var rest := FindAny(s[1..], wanted);
      if rest.Some? then Some(rest.value + 1) else None
  }

  /** Where the last of some characters occurs. */
  function FindLast(s: string, wanted: set<char>): (at: Option<nat>)
    ensures at.Some? ==> at.value < |s| && s[at.value] in wanted
                         && forall j :: at.value < j < |s| ==> s[j] !in wanted
    ensures at.None? ==> forall j :: 0 <= j < |s| ==> s[j] !in wanted
  {
    if s == [] then None
    else if s[|s| - 1] in wanted then Some(|s| - 1)
    else FindLast(s[..|s| - 1], wanted)
  }

  /** ASCII case folding; every other character is left alone. */
  function Lower(c: char): char {
    if 'A' <= c <= 'Z' then c - 'A' + 'a' else c
  }

  predicate IsAsciiAlphanumeric(c: char) {
    'a' <= c <= 'z' || 'A' <= c <= 'Z' || '0' <= c <= '9'
  }

  /** Lexicographic order of strings, which is the byte order Rust compares by (`Utf8.LessIsByteOrder`). */
  predicate Less(a: string, b: string) {
    if b == [] then false
    else if a == [] then true
    else a[0] < b[0] || (a[0] == b[0] && Less(a[1..], b[1..]))
  }

  lemma {:induction false} LessIsTotal(a: string, b: string)
    ensures Less(a, b) || a == b || Less(b, a)
    ensures !(Less(a, b) && Less(b, a)) && !Less(a, a)
  {
    if a != [] && b != [] {
      LessIsTotal(a[1..], b[1..]);
      LessIsTotal(a[1..], a[1..]);
      assert a == [a[0]] + a[1..] && b == [b[0]] + b[1..];
    } else if a != [] {
      LessIsTotal(a[1..], a[1..]);
    }
  }

  lemma {:induction false} LessIsTransitive(a: string, b: string, c: string)
    requires Less(a, b) && Less(b, c)
    ensures Less(a, c)
  {
    if a != [] && a[0] == b[0] == c[0] {
      LessIsTransitive(a[1..], b[1..], c[1..]);
    }
  }

  /** Fields of equal width compare left to right. */
  lemma {:induction false} LessByFields(a: string, b: string, c: string, d: string)
    requires |a| == |b|
    ensures Less(a + c, b + d) <==> Less(a, b) || (a == b && Less(c, d))
  {
    if a == [] {
      assert a + c == c && b + d == d;
    } else {
      assert (a + c)[1..] == a[1..] + c && (b + d)[1..] == b[1..] + d;
      LessByFields(a[1..], b[1..], c, d);
      assert a == [a[0]] + a[1..] && b == [b[0]] + b[1..];
    }
  }

  /** `str::split`: the pieces between occurrences of a separator, at least one. */
  function Split(s: string, sep: string): (parts: seq<string>)
    requires sep != []
    ensures parts != []
    decreases |s|
  {
    var at := Find(s, sep);
    if at.None? then [s] else [s[..at.value]] + Split(s[at.value + |sep|..], sep)
  }

  function Join(parts: seq<string>, sep: string): string {
    if parts == [] then ""
    else if |parts| == 1 then parts[0]
    else parts[0] + sep + Join(parts[1..], sep)
  }

  lemma SplitAtFound(s: string, sep: string, at: nat)
    requires at + |sep| <= |s| && sep <= s[at..]
    ensures s == s[..at] + sep + s[at + |sep|..]
  {
    assert s[at..][..|sep|] == sep;
  }

  lemma JoinFirst(first: string, rest: seq<string>, sep: string)
    requires rest != []
    ensures Join([first] + rest, sep) == first + sep + Join(rest, sep)
  {
    assert ([first] + rest)[1..] == rest;
  }

  /** Joining undoes splitting, whatever the text. */
  lemma {:induction false} JoinSplit(s: string, sep: string)
    requires sep != []
    ensures Join(Split(s, sep), sep) == s
    decreases |s|
  {
    var at := Find(s, sep);
    if at.Some? {
      var front, rest := s[..at.value], s[at.value + |sep|..];
      JoinSplit(rest, sep);
      JoinFirst(front, Split(rest, sep), sep);
      SplitAtFound(s, sep, at.value);
    }
  }

  lemma FindFirst(part: string, c: char, rest: string)
    requires c !in part
    ensures Find(part + [c] + rest, [c]) == Some(|part|)
  {
    var s := part + [c] + rest;
    assert [c] <= s[|part|..];
    forall j | 0 <= j < |part| ensures !([c] <= s[j..]) {
      assert s[j..][0] == part[j] && part[j] in part;
    }
  }

  lemma FindAbsent(s: string, c: char)
    ensures Find(s, [c]).None? <==> c !in s
  {
    var at := Find(s, [c]);
    if at.Some? {
      assert s[at.value] == s[at.value..][0] == c;
    }
    if c in s {
      var j :| 0 <= j < |s| && s[j] == c;
      assert [c] <= s[j..];
    }
  }

  lemma SplitFirst(first: string, c: char, rest: string)
    requires c !in first
    ensures Split(first + [c] + rest, [c]) == [first] + Split(rest, [c])
  {
    var s := first + [c] + rest;
    FindFirst(first, c, rest);
    assert s[..|first|] == first && s[|first| + 1..] == rest;
  }

  /** Splitting undoes joining exactly when no piece holds the separator. */
  lemma {:induction false} SplitJoin(parts: seq<string>, c: char)
    requires parts != [] && forall i :: 0 <= i < |parts| ==> c !in parts[i]
    ensures Split(Join(parts, [c]), [c]) == parts
  {
    if |parts| == 1 {
      FindAbsent(parts[0], c);
    } else {
      var first, rest := parts[0], parts[1..];
      SplitJoin(rest, c);
      SplitFirst(first, c, Join(rest, [c]));
      assert parts == [first] + rest;
    }
  }

  lemma {:induction false} SplitPartsLack(s: string, c: char)
    ensures forall i :: 0 <= i < |Split(s, [c])| ==> c !in Split(s, [c])[i]
    decreases |s|
  {
    var at := Find(s, [c]);
    FindAbsent(s, c);
    if at.Some? {
      forall j | 0 <= j < at.value ensures s[j] != c {
        assert !([c] <= s[j..]) && s[j..][0] == s[j];
      }
      SplitPartsLack(s[at.value + 1..], c);
    }
  }
}

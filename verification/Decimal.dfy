/**
 Decimal text: the allocation-free renderer addresses are built with, what it must
 produce, and the integer parser that reads it back.
 */
module Decimal {
  import opened Utf8

  const U32_MAX := 0xFFFF_FFFF
  const U64_MAX := 0xFFFF_FFFF_FFFF_FFFF

  predicate IsDigit(c: char) { '0' <= c <= '9' }

  predicate AllDigits(s: string) { forall i :: 0 <= i < |s| ==> IsDigit(s[i]) }

  function Digit(d: nat): char
    requires d < 10
  {
    '0' + d as char
  }

  /** The number a digit string denotes, most significant digit first. */
  function Value(s: string): nat
    requires AllDigits(s)
  {
    if s == [] then 0 else Value(s[..|s| - 1]) * 10 + (s[|s| - 1] - '0') as nat
  }

  /** Decimal text without leading zeros: what `Display` prints. */
  function Render(n: nat): (s: string)
    ensures |s| > 0 && AllDigits(s)
  {
    if n < 10 then [Digit(n)] else Render(n / 10) + [Digit(n % 10)]
  }

  predicate Canonical(s: string) {
    s != [] && AllDigits(s) && (s[0] == '0' ==> |s| == 1)
  }

  /** Rendering is the canonical text of exactly its number. */
  lemma {:induction false} RenderIsCanonical(n: nat)
    ensures Canonical(Render(n)) && Value(Render(n)) == n
    ensures n > 0 ==> Render(n)[0] != '0'
  {
    if n < 10 {
      assert [Digit(n)][..0] == [];
    } else {
      RenderIsCanonical(n / 10);
      assert Render(n)[..|Render(n)| - 1] == Render(n / 10);
    }
  }

  /** Canonical text is rendered from its value: the two directions make a bijection. */
  lemma {:induction false} CanonicalIsRendered(s: string)
    requires Canonical(s)
    ensures Render(Value(s)) == s
    ensures s[0] != '0' ==> Value(s) > 0
  {
    var front, d := s[..|s| - 1], (s[|s| - 1] - '0') as nat;
    if front == [] {
      assert Value(s) == d;
    } else {
      CanonicalIsRendered(front);
      assert Value(s) / 10 == Value(front) && Value(s) % 10 == d;
      assert s == front + [Digit(d)];
    }
  }

  function Zeros(n: nat): string { seq(n, _ => '0') }

  function Pow10(n: nat): nat { if n == 0 then 1 else 10 * Pow10(n - 1) }

  lemma EncodeDigit(front: string, d: nat)
    requires d < 10
    ensures Encode(front + [Digit(d)]) == Encode(front) + ['0' as int + d]
  {
    EncodeConcat(front, [Digit(d)]);
    assert Encode([Digit(d)]) == EncodeChar(Digit(d)) + Encode([]);
  }

  /** One step of the renderer, on the text it stands for. */
  lemma DigitMoves(v: nat, tail: seq<Byte>)
    ensures Encode(Render(v)) + tail
         == (if v < 10 then [] else Encode(Render(v / 10))) + (['0' as int + v % 10] + tail)
  {
    EncodeDigit(if v < 10 then "" else Render(v / 10), v % 10);
  }

  /** The renderer: digits are written backwards into a 20-byte buffer, `start` moving down. */
  method Itoa64(value: nat) returns (buffer: array<Byte>, start: nat)
    requires value <= U64_MAX
    ensures fresh(buffer) && buffer.Length == 20 && start < 20
    ensures buffer[start..] == Encode(Render(value))
  {
    buffer := new Byte[20](_ => 0);
    start := 20;
    var v: nat := value;
    ghost var text := Encode(Render(value));
    PowersOfTen();
    while true
      invariant start <= 20 && v < Pow10(start) && (start < 20 ==> v > 0)
      invariant text == Encode(Render(v)) + buffer[start..]
      decreases start
    {
      DigitMoves(v, buffer[start..]);
      ghost var tail := buffer[start..];
      start := start - 1;
      buffer[start] := '0' as int + v % 10;
      assert buffer[start..] == [buffer[start]] + tail;
      v := v / 10;
      if v == 0 {
        return;
      }
    }
  }

  lemma PowersOfTen()
    ensures Pow10(20) == 100_000_000_000_000_000_000
  {
    assert Pow10(4) == 10_000;
    assert Pow10(8) == 100_000_000;
    assert Pow10(12) == 1_000_000_000_000;
    assert Pow10(16) == 10_000_000_000_000_000;
  }

  datatype Parsed = Number(value: nat) | NotANumber

  /** `str::parse::<u32>`: an optional `+`, at least one digit, and no overflow. */
  function ParseU32(s: string): Parsed {
    var digits := if s != [] && s[0] == '+' then s[1..] else s;
    if digits == [] || !AllDigits(digits) || Value(digits) > U32_MAX then NotANumber
    else Number(Value(digits))
  }

  lemma ParseRendered(n: nat)
    ensures ParseU32(Render(n)) == if n <= U32_MAX then Number(n) else NotANumber
  {
    RenderIsCanonical(n);
  }

  /** A parsed ordinal prints as the text it came from exactly when that text was canonical. */
  lemma RenderParsed(s: string)
    requires ParseU32(s).Number?
    ensures Render(ParseU32(s).value) == s <==> Canonical(s)
  {
    RenderIsCanonical(ParseU32(s).value);
    if Canonical(s) {
      CanonicalIsRendered(s);
    }
  }
}

/** Small value-level building blocks shared by every other module: optional and
    fallible results, the machine integer widths of the original program, and the
    string facts the program relies on (UTF-8 length, whitespace trimming and
    the decimal and hexadecimal renderings produced by `format!`). */

module Wrappers {

  datatype Option<+T> = None | Some(value: T)

  datatype Result<+T, +E> = Ok(value: T) | Err(error: E)
}

module Ints {

  const U32_MODULUS: int := 0x1_0000_0000
  const U64_MODULUS: int := 0x1_0000_0000_0000_0000

  type byte = x: int | 0 <= x < 0x100
  type u32 = x: int | 0 <= x < U32_MODULUS
  type u64 = x: int | 0 <= x < U64_MODULUS

  /** Rust's `x as u32`: two's-complement truncation to the low 32 bits. */
  function AsU32(x: int): (r: u32)
    ensures 0 <= x < U32_MODULUS ==> r == x
    ensures (x - r) % U32_MODULUS == 0
  {
    x % U32_MODULUS
  }

  /** Rust's `x as usize` from an `i64` on a 64-bit target: negatives wrap around. */
  function AsUsize(x: int): (r: u64)
    ensures 0 <= x < U64_MODULUS ==> r == x
    ensures (x - r) % U64_MODULUS == 0
  {
    x % U64_MODULUS
  }

  /** Rust's `x as i64` on a 64-bit `usize`: values from 2^63 up wrap to negatives. */
  function AsI64(x: u64): (r: int)
    ensures -0x8000_0000_0000_0000 <= r < 0x8000_0000_0000_0000
    ensures x < 0x8000_0000_0000_0000 ==> r == x
    ensures x >= 0x8000_0000_0000_0000 ==> r == x - U64_MODULUS
  {
    if x < 0x8000_0000_0000_0000 then x else x - U64_MODULUS
  }
}

module Strings {

  /** Number of bytes the UTF-8 encoding of `c` occupies. */
  function Utf8Width(c: char): (w: nat)
    ensures 1 <= w <= 4
    ensures w == 1 <==> c as int < 0x80
  {
    if c as int < 0x80 then 1
    else if c as int < 0x800 then 2
    else if c as int < 0x1_0000 then 3
    else 4
  }

  /** Rust's `str::len`: the length in bytes of the UTF-8 encoding. */
  function Utf8Length(s: string): nat
  {
    if s == [] then 0 else Utf8Length(s[..|s| - 1]) + Utf8Width(s[|s| - 1])
  }

  lemma {:induction false} Utf8LengthBounds(s: string)
    ensures |s| <= Utf8Length(s) <= 4 * |s|
    ensures Utf8Length(s) == |s| <==> forall i :: 0 <= i < |s| ==> s[i] as int < 0x80
  {
    if s != [] {
      var p := s[..|s| - 1];
      Utf8LengthBounds(p);
      assert forall i :: 0 <= i < |p| ==> p[i] == s[i];
    }
  }

  /** Unicode White_Space, which is what Rust's `char::is_whitespace` and `str::trim` use. */
  predicate IsWhitespace(c: char)
  {
    || ('\t' <= c <= '\r')
    || c == ' ' || c == '\U{85}' || c == '\U{A0}' || c == '\U{1680}'
    || ('\U{2000}' <= c <= '\U{200A}')
    || c == '\U{2028}' || c == '\U{2029}' || c == '\U{202F}' || c == '\U{205F}' || c == '\U{3000}'
  }

  function TrimStart(s: string): (r: string)
    ensures |r| <= |s| && r == s[|s| - |r|..]
    ensures r != [] ==> !IsWhitespace(r[0])
  {
    if s != [] && IsWhitespace(s[0]) then TrimStart(s[1..]) else s
  }

  function TrimEnd(s: string): (r: string)
    ensures |r| <= |s| && r == s[..|r|]
    ensures r != [] ==> !IsWhitespace(r[|r| - 1])
  {
    if s != [] && IsWhitespace(s[|s| - 1]) then TrimEnd(s[..|s| - 1]) else s
  }

  /** Rust's `str::trim`. */
  function Trim(s: string): string
  {
    TrimEnd(TrimStart(s))
  }

  predicate AllWhitespace(s: string)
  {
    forall i :: 0 <= i < |s| ==> IsWhitespace(s[i])
  }

  /** Trimming leaves nothing exactly when every character is whitespace. */
  lemma {:induction false} TrimEmptyIffAllWhitespace(s: string)
    ensures Trim(s) == [] <==> AllWhitespace(s)
  {
    TrimStartEmptyIff(s);
    var t := TrimStart(s);
    if t != [] {
      assert TrimEnd(t) != [] by {
        if TrimEnd(t) == [] { TrimEndEmptyImplies(t); }
      }
    }
  }

  lemma {:induction false} TrimStartEmptyIff(s: string)
    ensures TrimStart(s) == [] <==> AllWhitespace(s)
  {
    if s != [] && IsWhitespace(s[0]) {
      TrimStartEmptyIff(s[1..]);
      assert forall i :: 1 <= i < |s| ==> s[i] == s[1..][i - 1];
    }
  }

  lemma {:induction false} TrimEndEmptyImplies(s: string)
    requires TrimEnd(s) == []
    ensures AllWhitespace(s)
  {
    if s != [] {
      TrimEndEmptyImplies(s[..|s| - 1]);
      assert forall i :: 0 <= i < |s| - 1 ==> s[i] == s[..|s| - 1][i];
    }
  }

  /** The digit characters of `format!`'s decimal and lower-case hexadecimal output. */
  function DigitChar(d: nat): char
    requires d < 16
  {
    "0123456789abcdef"[d]
  }

  function DigitValue(c: char): nat
  {
    if '0' <= c <= '9' then c as int - '0' as int
    else if 'a' <= c <= 'f' then c as int - 'a' as int + 10
    else 0
  }

  /** `n` written in base `b` with no leading zeros: `{}` for b = 10, `{:x}` for b = 16. */
  function Render(n: nat, b: nat): (s: string)
    requires 2 <= b <= 16
    ensures s != []
    decreases n
  {
    if n < b then [DigitChar(n)] else Render(n / b, b) + [DigitChar(n % b)]
  }

  function Parse(s: string, b: nat): nat
  {
    if s == [] then 0 else Parse(s[..|s| - 1], b) * b + DigitValue(s[|s| - 1])
  }

  lemma DigitRoundTrip(d: nat)
    requires d < 16
    ensures DigitValue(DigitChar(d)) == d
  {
  }

  lemma ParseSnoc(s: string, c: char, b: nat)
    ensures Parse(s + [c], b) == Parse(s, b) * b + DigitValue(c)
  {
    assert (s + [c])[..|s|] == s;
  }

  lemma SingleDigitRoundTrip(n: nat, b: nat)
    requires 2 <= b <= 16 && n < b
    ensures Parse(Render(n, b), b) == n
  {
    DigitRoundTrip(n);
    assert [DigitChar(n)][..0] == [];
  }

  /** Reading back a rendering gives the number: renderings are injective. */
  lemma {:induction false} ParseRender(n: nat, b: nat)
    requires 2 <= b <= 16
    ensures Parse(Render(n, b), b) == n
    decreases n
  {
    if n < b {
      SingleDigitRoundTrip(n, b);
    } else {
      var q, d := n / b, n % b;
      DivMod(n, b);
      assert Render(n, b) == Render(q, b) + [DigitChar(d)];
      ParseRender(q, b);
      ParseSnoc(Render(q, b), DigitChar(d), b);
      DigitRoundTrip(d);
    }
  }

  lemma DivMod(n: nat, b: nat)
    requires 2 <= b <= n
    ensures n == (n / b) * b + n % b && n % b < b
    ensures n / b < n
  {
    var q := n / b;
    assert q * b >= q * 2;
  }

  lemma RenderInjective(m: nat, n: nat, b: nat)
    requires 2 <= b <= 16
    ensures Render(m, b) == Render(n, b) <==> m == n
  {
    if Render(m, b) == Render(n, b) {
      ParseRender(m, b);
      ParseRender(n, b);
    }
  }

  function Decimal(n: nat): string
  {
    Render(n, 10)
  }

  function LowerHex(n: nat): string
  {
    Render(n, 16)
  }
}

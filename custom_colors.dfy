/**
 * The hex colour initializer `UIColor(hex:)` and the two colours the app
 * builds with it. Channels are kept as integers 0..255, where 255 stands for
 * the float 1.0 that UIKit receives after the division by 255.
 *
 * The scanner's `UInt64` value is a natural number below 2^64; `&` and `>>`
 * on it are `And` and `ShiftRight` below.
 */
module CustomColors {
  import opened Unicode

  datatype Option<T> = None | Some(value: T)
  {
    function GetOr(default: T): T
    {
      if Some? then value else default
    }
  }

  datatype RGBA = RGBA(red: int, green: int, blue: int, alpha: int)

  predicate IsByte(x: int)
  {
    0 <= x < 256
  }

  predicate IsColor(c: RGBA)
  {
    IsByte(c.red) && IsByte(c.green) && IsByte(c.blue) && IsByte(c.alpha)
  }

  const UInt64Max: nat := 0xFFFF_FFFF_FFFF_FFFF

  // ---------------------------------------------------------------------------
  // UInt64 bit operations on natural numbers
  // ---------------------------------------------------------------------------

  function Pow2(n: nat): (p: nat)
    ensures p >= 1
  {
    if n == 0 then 1 else 2 * Pow2(n - 1)
  }

  /** Bitwise `&`, one bit at a time from the least significant. */
  function And(a: nat, b: nat): nat
    decreases a
  {
    if a == 0 || b == 0 then 0
    else 2 * And(a / 2, b / 2) + (if a % 2 == 1 && b % 2 == 1 then 1 else 0)
  }

  /** `<<`, as n doublings. */
  function ShiftLeft(a: nat, n: nat): nat
  {
    if n == 0 then a else 2 * ShiftLeft(a, n - 1)
  }

  /** `>>`, as n halvings. */
  function ShiftRight(a: nat, n: nat): nat
  {
    if n == 0 then a else ShiftRight(a / 2, n - 1)
  }

  // Elementary facts about products, each its own lemma so that the proofs
  // that cite them reason about one small step at a time.

  lemma MulAtLeast(m: int, k: int)
    requires m > 0 && k >= 1
    ensures m * k >= m
  {
  }

  lemma MulDistributes(m: int, x: int, y: int)
    ensures m * (x - y) == m * x - m * y
    ensures m * (x + y) == m * x + m * y
  {
  }

  lemma MulAssociates(a: int, b: int, c: int)
    ensures a * (b * c) == (a * b) * c
  {
  }

  lemma MulMonotonic(m: nat, x: int, y: int)
    requires x <= y
    ensures m * x <= m * y
  {
  }

  /** Quotient and remainder are determined by a == m * q + r with 0 <= r < m. */
  lemma DivModUnique(a: int, m: int, q: int, r: int)
    requires m > 0 && 0 <= r < m && a == m * q + r
    ensures a / m == q && a % m == r
  {
    var q', r' := a / m, a % m;
    assert a == m * q' + r';
    if q' > q {
      MulAtLeast(m, q' - q);
      MulDistributes(m, q', q);
      assert false;
    } else if q' < q {
      MulAtLeast(m, q - q');
      MulDistributes(m, q, q');
      assert false;
    }
  }

  lemma DivDiv(a: nat, b: nat, c: nat)
    requires b > 0 && c > 0
    ensures a / b / c == a / (b * c)
  {
    var q, r := a / b, a % b;
    var q2, r2 := q / c, q % c;
    assert a == b * q + r;
    assert q == c * q2 + r2;
    MulDistributes(b, c * q2, r2);
    MulAssociates(b, c, q2);
    assert a == (b * c) * q2 + (b * r2 + r);
    MulMonotonic(b, r2, c - 1);
    MulDistributes(b, c, 1);
    DivModUnique(a, b * c, q2, b * r2 + r);
  }

  lemma HalfMod(a: nat, p: nat)
    requires p >= 1
    ensures 2 * ((a / 2) % p) + a % 2 == a % (2 * p)
  {
    var q, r := (a / 2) / p, (a / 2) % p;
    assert a / 2 == p * q + r;
    MulAssociates(2, p, q);
    assert a == (2 * p) * q + (2 * r + a % 2);
    DivModUnique(a, 2 * p, q, 2 * r + a % 2);
  }

  /** A mask of the n low bits keeps the value modulo 2^n. */
  lemma {:induction false} AndLowMask(a: nat, n: nat)
    ensures And(a, Pow2(n) - 1) == a % Pow2(n)
  {
    if n == 0 {
      assert Pow2(n) == 1;
      assert And(a, 0) == 0;
    } else if a == 0 {
      assert And(0, Pow2(n) - 1) == 0;
      DivModUnique(0, Pow2(n), 0, 0);
    } else {
      var p := Pow2(n - 1);
      assert Pow2(n) == 2 * p;
      var b := 2 * p - 1;
      assert b % 2 == 1 && b / 2 == p - 1;
      AndLowMask(a / 2, n - 1);
      assert And(a, b) == 2 * ((a / 2) % p) + a % 2;
      HalfMod(a, p);
    }
  }

  lemma AndEven(a: nat, c: nat)
    ensures And(a, 2 * c) == 2 * And(a / 2, c)
  {
    if a > 0 && c > 0 {
      assert (2 * c) / 2 == c && (2 * c) % 2 == 0;
    }
  }

  /** Masking with m shifted left by j is masking the value shifted right. */
  lemma {:induction false} AndShifted(a: nat, m: nat, j: nat)
    ensures And(a, ShiftLeft(m, j)) == ShiftLeft(And(ShiftRight(a, j), m), j)
  {
    if j > 0 {
      AndEven(a, ShiftLeft(m, j - 1));
      AndShifted(a / 2, m, j - 1);
    }
  }

  lemma ShiftRightDouble(x: nat, j: nat)
    requires j > 0
    ensures ShiftRight(ShiftLeft(x, 1), j) == ShiftRight(x, j - 1)
  {
    assert ShiftLeft(x, 1) == 2 * x;
    assert (2 * x) / 2 == x;
  }

  lemma {:induction false} ShiftRightLeft(y: nat, j: nat)
    ensures ShiftRight(ShiftLeft(y, j), j) == y
  {
    if j > 0 {
      ShiftRightLeft(y, j - 1);
      assert (2 * ShiftLeft(y, j - 1)) / 2 == ShiftLeft(y, j - 1);
      ShiftRightDouble(ShiftLeft(y, j - 1), j);
    }
  }

  lemma {:induction false} ShiftRightIsDiv(a: nat, j: nat)
    ensures ShiftRight(a, j) == a / Pow2(j)
  {
    if j > 0 {
      ShiftRightIsDiv(a / 2, j - 1);
      DivDiv(a, 2, Pow2(j - 1));
    }
  }

  /** `(v & (0xFF << s)) >> s` is the byte of v that starts at bit s. */
  lemma ByteAt(v: nat, s: nat)
    ensures ShiftRight(And(v, ShiftLeft(0xFF, s)), s) == (v / Pow2(s)) % 256
  {
    AndShifted(v, 0xFF, s);
    ShiftRightLeft(And(ShiftRight(v, s), 0xFF), s);
    ShiftRightIsDiv(v, s);
    assert Pow2(8) == 256;
    AndLowMask(v / Pow2(s), 8);
  }

  /** One channel: the byte of rgb selected by a mask of eight bits at `shift`. */
  lemma Channel(rgb: nat, mask: nat, shift: nat, unit: nat)
    requires mask == ShiftLeft(0xFF, shift) && unit == Pow2(shift)
    ensures ShiftRight(And(rgb, mask), shift) == (rgb / unit) % 256
  {
    ByteAt(rgb, shift);
  }

  /** The literal masks and units the channel extraction uses. */
  lemma Masks()
    ensures ShiftLeft(0xFF, 0) == 0xFF && ShiftLeft(0xFF, 8) == 0xFF00
    ensures ShiftLeft(0xFF, 16) == 0xFF_0000 && ShiftLeft(0xFF, 24) == 0xFF00_0000
    ensures Pow2(0) == 1 && Pow2(8) == 0x100 && Pow2(16) == 0x1_0000 && Pow2(24) == 0x100_0000
  {
  }

  // ---------------------------------------------------------------------------
  // Channel extraction
  // ---------------------------------------------------------------------------

  /** Six digits, RRGGBB, with alpha full. */
  function Rgb6(rgb: nat): (c: RGBA)
    ensures c == RGBA((rgb / 0x1_0000) % 256, (rgb / 0x100) % 256, rgb % 256, 255)
  {
    Masks();
    Channel(rgb, 0xFF0000, 16, 0x1_0000);
    Channel(rgb, 0x00FF00, 8, 0x100);
    Channel(rgb, 0x0000FF, 0, 1);
    RGBA(ShiftRight(And(rgb, 0xFF0000), 16), ShiftRight(And(rgb, 0x00FF00), 8), And(rgb, 0x0000FF), 255)
  }

  /** Eight digits, read as RRGGBBAA. */
  function Rgba8(rgb: nat): (c: RGBA)
    ensures c == RGBA((rgb / 0x100_0000) % 256, (rgb / 0x1_0000) % 256, (rgb / 0x100) % 256, rgb % 256)
  {
    ByteAt(rgb, 24);
    Masks();
    Channel(rgb, 0xFF0000, 16, 0x1_0000);
    Channel(rgb, 0x00FF00, 8, 0x100);
    Channel(rgb, 0x0000FF, 0, 1);
    RGBA(ShiftRight(And(rgb, 0xFF00_0000), 24), ShiftRight(And(rgb, 0x00FF_0000), 16),
         ShiftRight(And(rgb, 0x0000_FF00), 8), And(rgb, 0x0000_00FF))
  }

  // ---------------------------------------------------------------------------
  // Sanitization
  // ---------------------------------------------------------------------------

  /** The number of leading whitespace characters. */
  function LeadingWhitespace(s: string): (n: nat)
    ensures n <= |s| && forall i :: 0 <= i < n ==> IsWhitespace(s[i])
    ensures n < |s| ==> !IsWhitespace(s[n])
  {
    if s == [] || !IsWhitespace(s[0]) then 0 else 1 + LeadingWhitespace(s[1..])
  }

  /** The number of trailing whitespace characters. */
  function TrailingWhitespace(s: string): (n: nat)
    ensures n <= |s| && forall i :: |s| - n <= i < |s| ==> IsWhitespace(s[i])
    ensures n < |s| ==> !IsWhitespace(s[|s| - 1 - n])
  {
    if s == [] || !IsWhitespace(s[|s| - 1]) then 0 else 1 + TrailingWhitespace(s[..|s| - 1])
  }

  lemma LeadingUnique(s: string, n: nat)
    requires n <= |s| && forall i :: 0 <= i < n ==> IsWhitespace(s[i])
    requires n < |s| ==> !IsWhitespace(s[n])
    ensures LeadingWhitespace(s) == n
  {
  }

  lemma TrailingUnique(s: string, n: nat)
    requires n <= |s| && forall i :: |s| - n <= i < |s| ==> IsWhitespace(s[i])
    requires n < |s| ==> !IsWhitespace(s[|s| - 1 - n])
    ensures TrailingWhitespace(s) == n
  {
  }

  /** `trimmingCharacters(in: .whitespacesAndNewlines)`. */
  function Trim(s: string): (t: string)
    ensures t == [] || (!IsWhitespace(t[0]) && !IsWhitespace(t[|t| - 1]))
    ensures LeadingWhitespace(s) + |t| <= |s|
    ensures t == s[LeadingWhitespace(s)..LeadingWhitespace(s) + |t|]
    ensures AllWhitespace(s[LeadingWhitespace(s) + |t|..])
  {
    var rest := s[LeadingWhitespace(s)..];
    rest[..|rest| - TrailingWhitespace(rest)]
  }

  /** `replacingOccurrences(of: "#", with: "")`: every `c`, wherever it is,
      removed. */
  function Without(s: string, c: char): (r: string)
    ensures c !in r
    ensures |r| <= |s|
    ensures c !in s ==> r == s
  {
    if s == [] then []
    else if s[0] == c then Without(s[1..], c)
    else [s[0]] + Without(s[1..], c)
  }

  /** The text the initializer scans: trimmed, then with every `#` removed. */
  function Sanitize(hex: string): (s: string)
    ensures '#' !in s && |s| <= |hex|
  {
    Without(Trim(hex), '#')
  }

  // ---------------------------------------------------------------------------
  // Scanning a hexadecimal integer
  // ---------------------------------------------------------------------------

  predicate IsHexDigit(c: char)
  {
    '0' <= c <= '9' || 'a' <= c <= 'f' || 'A' <= c <= 'F'
  }

  function DigitValue(c: char): (d: nat)
    requires IsHexDigit(c)
    ensures d < 16
  {
    if c <= '9' then c as int - '0' as int
    else if c <= 'F' then c as int - 'A' as int + 10
    else c as int - 'a' as int + 10
  }

  predicate AllHexDigits(s: string)
  {
    forall i :: 0 <= i < |s| ==> IsHexDigit(s[i])
  }

  /** The length of the leading run of hex digits. */
  function HexRunLength(s: string): (n: nat)
    ensures n <= |s| && forall i :: 0 <= i < n ==> IsHexDigit(s[i])
    ensures n < |s| ==> !IsHexDigit(s[n])
  {
    if s == [] || !IsHexDigit(s[0]) then 0 else 1 + HexRunLength(s[1..])
  }

  lemma HexRunUnique(s: string, n: nat)
    requires n <= |s| && forall i :: 0 <= i < n ==> IsHexDigit(s[i])
    requires n < |s| ==> !IsHexDigit(s[n])
    ensures HexRunLength(s) == n
  {
  }

  /** The value of a run of hex digits, most significant first. */
  function HexValue(ds: string): nat
    requires AllHexDigits(ds)
  {
    if ds == [] then 0 else HexValue(ds[..|ds| - 1]) * 16 + DigitValue(ds[|ds| - 1])
  }

  function Min(a: nat, b: nat): nat
  {
    if a <= b then a else b
  }

  /** `Scanner.scanHexInt64`: skips leading whitespace, reads the longest run
      of hex digits, fails when the run is empty, and saturates at
      `UInt64.max` when the run does not fit. */
  function ScanHex(s: string): (r: Option<nat>)
    ensures r.None? <==> HexRunLength(s[LeadingWhitespace(s)..]) == 0
    ensures r.Some? ==> r.value <= UInt64Max
  {
    var i := LeadingWhitespace(s);
    var n := HexRunLength(s[i..]);
    assert s[i..][..n] == s[i..i + n];
    if n == 0 then None else Some(Min(HexValue(s[i..i + n]), UInt64Max))
  }

  /** One more digit extends the value of the run. */
  lemma HexValueExtend(s: string, i: nat, j: nat)
    requires i <= j < |s| && AllHexDigits(s[i..j]) && IsHexDigit(s[j])
    ensures AllHexDigits(s[i..j + 1])
    ensures HexValue(s[i..j + 1]) == HexValue(s[i..j]) * 16 + DigitValue(s[j])
  {
    assert s[i..j + 1][..j - i] == s[i..j];
  }

  /** The saturating accumulation step agrees with saturating the exact value. */
  lemma SaturatingStep(value: nat, h: nat, d: nat)
    requires value == Min(h, UInt64Max) && d < 16
    ensures (if value > (UInt64Max - d) / 16 then UInt64Max else value * 16 + d) == Min(h * 16 + d, UInt64Max)
  {
  }

  /** The scanner's first phase: the index of the first character that is not
      whitespace. */
  method SkipWhitespace(s: string) returns (i: nat)
    ensures i == LeadingWhitespace(s)
  {
    i := 0;
    while i < |s| && IsWhitespace(s[i])
      invariant i <= |s| && forall k :: 0 <= k < i ==> IsWhitespace(s[k])
    {
      i := i + 1;
    }
    LeadingUnique(s, i);
  }

  /** The scanner's second phase: reads the run of digits from `i`, keeping the
      value saturated at `UInt64.max`. */
  method ScanDigits(s: string, i: nat) returns (j: nat, value: nat)
    requires i <= |s|
    ensures i <= j <= |s| && j - i == HexRunLength(s[i..])
    ensures AllHexDigits(s[i..j]) && value == Min(HexValue(s[i..j]), UInt64Max)
  {
    j := i;
    value := 0;
    while j < |s| && IsHexDigit(s[j])
      invariant i <= j <= |s| && AllHexDigits(s[i..j])
      invariant value == Min(HexValue(s[i..j]), UInt64Max)
    {
      var d := DigitValue(s[j]);
      HexValueExtend(s, i, j);
      SaturatingStep(value, HexValue(s[i..j]), d);
      if value > (UInt64Max - d) / 16 {
        value := UInt64Max;
      } else {
        value := value * 16 + d;
      }
      j := j + 1;
    }
    HexRunAt(s, i, j);
  }

  /** The run read from `i` to a non-digit is the leading run of `s[i..]`. */
  lemma HexRunAt(s: string, i: nat, j: nat)
    requires i <= j <= |s| && AllHexDigits(s[i..j])
    requires j < |s| ==> !IsHexDigit(s[j])
    ensures j - i == HexRunLength(s[i..])
  {
    var t := s[i..];
    assert forall k :: 0 <= k < j - i ==> t[k] == s[i..j][k];
    HexRunUnique(t, j - i);
  }

  /** The scanner, one character at a time. On failure `value` keeps the 0 the
      caller initialized it with. */
  method ScanHexInt64(s: string) returns (ok: bool, value: nat)
    ensures ok <==> ScanHex(s).Some?
    ensures ok ==> value == ScanHex(s).value
    ensures !ok ==> value == 0
  {
    var i := SkipWhitespace(s);
    var j;
    j, value := ScanDigits(s, i);
    assert s[i..][..j - i] == s[i..j];
    ok := j > i;
    if !ok {
      value := 0;
    }
  }

  // ---------------------------------------------------------------------------
  // The initializer
  // ---------------------------------------------------------------------------

  /** `UIColor(hex:)`: None when the scan finds no digit or when the sanitized
      text is neither 6 nor 8 characters long. */
  function HexColor(hex: string): (c: Option<RGBA>)
    ensures c.Some? ==> IsColor(c.value)
    ensures c.Some? ==> |Sanitize(hex)| == 6 || |Sanitize(hex)| == 8
    ensures c.Some? && |Sanitize(hex)| == 6 ==> c.value.alpha == 255
  {
    var s := Sanitize(hex);
    match ScanHex(s)
    case None => None
    case Some(rgb) =>
      if |s| == 6 then Some(Rgb6(rgb))
      else if |s| == 8 then Some(Rgba8(rgb))
      else None
  }

  /** The initializer step by step, as written. */
  method ParseHex(hex: string) returns (color: Option<RGBA>)
    ensures color == HexColor(hex)
  {
    var hexSanitized := Trim(hex);
    hexSanitized := Without(hexSanitized, '#');
    var ok, rgb := ScanHexInt64(hexSanitized);
    if !ok {
      return None;
    }
    var length := |hexSanitized|;
    if length == 6 {
      color := Some(RGBA(ShiftRight(And(rgb, 0xFF0000), 16), ShiftRight(And(rgb, 0x00FF00), 8), And(rgb, 0x0000FF), 255));
    } else if length == 8 {
      color := Some(RGBA(ShiftRight(And(rgb, 0xFF00_0000), 24), ShiftRight(And(rgb, 0x00FF_0000), 16),
                         ShiftRight(And(rgb, 0x0000_FF00), 8), And(rgb, 0x0000_00FF)));
    } else {
      color := None;
    }
  }

  // ---------------------------------------------------------------------------
  // Writing colours as hex digits, and the round trip
  // ---------------------------------------------------------------------------

  function HexDigit(d: nat): (c: char)
    requires d < 16
    ensures IsHexDigit(c) && DigitValue(c) == d
  {
    if d < 10 then ('0' as int + d) as char else ('A' as int + d - 10) as char
  }

  /** A byte as two upper-case hex digits. */
  function ByteHex(b: int): (s: string)
    requires IsByte(b)
    ensures |s| == 2 && AllHexDigits(s)
  {
    [HexDigit(b / 16), HexDigit(b % 16)]
  }

  function Hex6(r: int, g: int, b: int): (s: string)
    requires IsByte(r) && IsByte(g) && IsByte(b)
  {
    ByteHex(r) + ByteHex(g) + ByteHex(b)
  }

  function Hex8(r: int, g: int, b: int, a: int): (s: string)
    requires IsByte(r) && IsByte(g) && IsByte(b) && IsByte(a)
  {
    ByteHex(r) + ByteHex(g) + ByteHex(b) + ByteHex(a)
  }

  /** Appending two digits of a byte multiplies by 256 and adds the byte. */
  lemma HexValueAppendByte(x: string, b: int)
    requires AllHexDigits(x) && IsByte(b)
    ensures AllHexDigits(x + ByteHex(b))
    ensures HexValue(x + ByteHex(b)) == HexValue(x) * 256 + b
  {
    var h, l := HexDigit(b / 16), HexDigit(b % 16);
    var s := x + ByteHex(b);
    assert s == x + [h, l];
    assert AllHexDigits(s) by {
      forall i | 0 <= i < |s| ensures IsHexDigit(s[i]) {
        if i < |x| { assert s[i] == x[i]; }
      }
    }
    assert s[..|s| - 1] == x + [h];
    assert (x + [h])[..|x|] == x;
    assert HexValue(x + [h]) == HexValue(x) * 16 + b / 16;
  }

  /** A text with no `#` and no whitespace at either end is already sanitized. */
  lemma SanitizedAlready(s: string)
    requires '#' !in s
    requires s != [] ==> !IsWhitespace(s[0]) && !IsWhitespace(s[|s| - 1])
    ensures Sanitize(s) == s
  {
    LeadingUnique(s, 0);
    assert s[0..] == s;
    TrailingUnique(s, 0);
    assert s[..|s|] == s;
  }

  lemma HexOnlyIsSanitized(s: string)
    requires AllHexDigits(s)
    ensures Sanitize(s) == s
  {
    assert '#' !in s;
    if s != [] {
      assert IsHexDigit(s[0]) && IsHexDigit(s[|s| - 1]);
    }
    SanitizedAlready(s);
  }

  /** The scan of a text that does not start with whitespace reads its
      leading run of `n` digits. */
  lemma ScanOfRun(s: string, n: nat)
    requires s != [] ==> !IsWhitespace(s[0])
    requires n <= |s| && forall i :: 0 <= i < n ==> IsHexDigit(s[i])
    requires n < |s| ==> !IsHexDigit(s[n])
    ensures AllHexDigits(s[..n])
    ensures ScanHex(s) == if n == 0 then None else Some(Min(HexValue(s[..n]), UInt64Max))
  {
    LeadingUnique(s, 0);
    assert s[0..] == s;
    HexRunUnique(s, n);
    assert s[0..n] == s[..n];
  }

  lemma {:induction false} ScanHexOfDigits(s: string)
    requires AllHexDigits(s) && s != []
    ensures ScanHex(s) == Some(Min(HexValue(s), UInt64Max))
  {
    LeadingUnique(s, 0);
    assert s[0..] == s;
    HexRunUnique(s, |s|);
    assert s[0..|s|] == s;
  }

  /** A text of hex digits only is parsed whole. */
  lemma HexColorOfDigits(s: string)
    requires AllHexDigits(s) && s != [] && HexValue(s) <= UInt64Max
    ensures |s| == 6 ==> HexColor(s) == Some(Rgb6(HexValue(s)))
    ensures |s| == 8 ==> HexColor(s) == Some(Rgba8(HexValue(s)))
  {
    HexOnlyIsSanitized(s);
    ScanHexOfDigits(s);
  }

  /** A text of six or eight digits of value `v` gives the channels of `v`. */
  lemma ParsesTo(s: string, v: nat, c: RGBA)
    requires AllHexDigits(s) && HexValue(s) == v && v <= UInt64Max
    requires |s| == 6 ==> Rgb6(v) == c
    requires |s| == 8 ==> Rgba8(v) == c
    requires |s| == 6 || |s| == 8
    ensures HexColor(s) == Some(c)
  {
    HexColorOfDigits(s);
  }

  /** The value of three bytes written high to low. */
  lemma Rgb6OfBytes(r: int, g: int, b: int)
    requires IsByte(r) && IsByte(g) && IsByte(b)
    ensures Rgb6((r * 256 + g) * 256 + b) == RGBA(r, g, b, 255)
  {
    var v := (r * 256 + g) * 256 + b;
    DivModUnique(v, 0x1_0000, r, g * 256 + b);
    DivModUnique(v, 0x100, r * 256 + g, b);
    DivModUnique(r * 256 + g, 0x100, r, g);
  }

  /** The value of four bytes written high to low. */
  lemma Rgba8OfBytes(r: int, g: int, b: int, a: int)
    requires IsByte(r) && IsByte(g) && IsByte(b) && IsByte(a)
    ensures Rgba8(((r * 256 + g) * 256 + b) * 256 + a) == RGBA(r, g, b, a)
  {
    var rg := r * 256 + g;
    var rgb := rg * 256 + b;
    var v := rgb * 256 + a;
    DivModUnique(v, 0x100_0000, r, (g * 256 + b) * 256 + a);
    DivModUnique(v, 0x1_0000, rg, b * 256 + a);
    DivModUnique(v, 0x100, rgb, a);
    DivModUnique(rg, 0x100, r, g);
    DivModUnique(rgb, 0x100, rg, b);
  }

  lemma Hex6Value(r: int, g: int, b: int)
    requires IsByte(r) && IsByte(g) && IsByte(b)
    ensures AllHexDigits(Hex6(r, g, b)) && |Hex6(r, g, b)| == 6
    ensures HexValue(Hex6(r, g, b)) == (r * 256 + g) * 256 + b
  {
    assert [] + ByteHex(r) == ByteHex(r);
    HexValueAppendByte([], r);
    HexValueAppendByte(ByteHex(r), g);
    HexValueAppendByte(ByteHex(r) + ByteHex(g), b);
  }

  lemma Hex8Value(r: int, g: int, b: int, a: int)
    requires IsByte(r) && IsByte(g) && IsByte(b) && IsByte(a)
    ensures AllHexDigits(Hex8(r, g, b, a)) && |Hex8(r, g, b, a)| == 8
    ensures HexValue(Hex8(r, g, b, a)) == ((r * 256 + g) * 256 + b) * 256 + a
  {
    assert [] + ByteHex(r) == ByteHex(r);
    HexValueAppendByte([], r);
    HexValueAppendByte(ByteHex(r), g);
    HexValueAppendByte(ByteHex(r) + ByteHex(g), b);
    HexValueAppendByte(ByteHex(r) + ByteHex(g) + ByteHex(b), a);
  }

  /** Round trip: six upper-case digits of three bytes parse back to them. */
  lemma Hex6RoundTrip(r: int, g: int, b: int)
    requires IsByte(r) && IsByte(g) && IsByte(b)
    ensures HexColor(Hex6(r, g, b)) == Some(RGBA(r, g, b, 255))
  {
    Hex6Value(r, g, b);
    Rgb6OfBytes(r, g, b);
    ParsesTo(Hex6(r, g, b), (r * 256 + g) * 256 + b, RGBA(r, g, b, 255));
  }

  /** Round trip: eight digits of four bytes parse back as RRGGBBAA. */
  lemma Hex8RoundTrip(r: int, g: int, b: int, a: int)
    requires IsByte(r) && IsByte(g) && IsByte(b) && IsByte(a)
    ensures HexColor(Hex8(r, g, b, a)) == Some(RGBA(r, g, b, a))
  {
    Hex8Value(r, g, b, a);
    Rgba8OfBytes(r, g, b, a);
    ParsesTo(Hex8(r, g, b, a), ((r * 256 + g) * 256 + b) * 256 + a, RGBA(r, g, b, a));
  }

  // ---------------------------------------------------------------------------
  // Properties of sanitization
  // ---------------------------------------------------------------------------

  lemma {:induction false} WithoutAppend(a: string, b: string, c: char)
    ensures Without(a + b, c) == Without(a, c) + Without(b, c)
    decreases |a|
  {
    if a == [] {
      assert a + b == b;
    } else {
      assert (a + b)[1..] == a[1..] + b;
      WithoutAppend(a[1..], b, c);
    }
  }

  /** A non-whitespace prefix does not change the trailing whitespace count. */
  lemma TrailingThroughHash(s: string)
    requires s == [] || !IsWhitespace(s[0])
    ensures TrailingWhitespace("#" + s) == TrailingWhitespace(s)
  {
    var t := "#" + s;
    var n := TrailingWhitespace(s);
    assert n < |s| || n == 0;
    assert forall i :: |t| - n <= i < |t| ==> t[i] == s[i - 1];
    assert t[|t| - 1 - n] == if n < |s| then s[|s| - 1 - n] else '#';
    TrailingUnique(t, n);
  }

  /** Trimming looks through a leading `#`. */
  lemma TrimHashPrefix(s: string)
    requires s == [] || !IsWhitespace(s[0])
    ensures Trim("#" + s) == "#" + Trim(s)
  {
    var t := "#" + s;
    LeadingUnique(t, 0);
    assert t[0..] == t;
    LeadingUnique(s, 0);
    assert s[0..] == s;
    TrailingThroughHash(s);
    var n := TrailingWhitespace(s);
    assert t[..|t| - n] == "#" + s[..|s| - n];
  }

  /** A leading `#` changes nothing when what follows does not start with
      whitespace: "#FF4A4A" and "FF4A4A" give the same colour. */
  lemma HashPrefixIgnored(s: string)
    requires s == [] || !IsWhitespace(s[0])
    ensures HexColor("#" + s) == HexColor(s)
  {
    TrimHashPrefix(s);
    WithoutAppend("#", Trim(s), '#');
    assert Sanitize("#" + s) == Sanitize(s);
  }

  /** Every `#` is removed, not only a leading one: a `#` anywhere in the
      trimmed text is as if it were not there. */
  lemma HashRemovedAnywhere(a: string, b: string)
    ensures Without(a + "#" + b, '#') == Without(a + b, '#')
  {
    WithoutAppend(a + "#", b, '#');
    WithoutAppend(a, "#", '#');
    WithoutAppend(a, b, '#');
    WithoutHash();
  }

  /** A literal evaluated on its own, outside the proof that uses it. */
  lemma WithoutHash()
    ensures Without("#", '#') == []
  {
  }

  /** The initializer fails exactly when the scan fails or the sanitized length
      is neither 6 nor 8. */
  lemma {:induction false} HexColorFailures(hex: string)
    ensures HexColor(hex).None? <==>
      ScanHex(Sanitize(hex)).None? || (|Sanitize(hex)| != 6 && |Sanitize(hex)| != 8)
  {
  }

  /** The scan reads only the leading run of digits: six characters made of
      digits followed by anything else give the colour of those digits alone. */
  lemma {:induction false} LeadingDigitsDecide(digits: string, junk: string)
    requires AllHexDigits(digits) && digits != [] && |digits + junk| == 6
    requires junk != [] ==> !IsHexDigit(junk[0]) && !IsWhitespace(junk[|junk| - 1])
    requires '#' !in junk
    ensures HexColor(digits + junk) == Some(Rgb6(Min(HexValue(digits), UInt64Max)))
  {
    var s := digits + junk;
    assert '#' !in digits && IsHexDigit(digits[0]);
    assert s[0] == digits[0];
    assert s[|s| - 1] == if junk == [] then digits[|digits| - 1] else junk[|junk| - 1];
    SanitizedAlready(s);
    assert s[..|digits|] == digits;
    ScanOfRun(s, |digits|);
  }

  lemma ByteHexValue(b: int)
    requires IsByte(b)
    ensures HexValue(ByteHex(b)) == b
  {
    assert [] + ByteHex(b) == ByteHex(b);
    HexValueAppendByte([], b);
  }

  lemma Rgb6Blue(b: int)
    requires IsByte(b)
    ensures Rgb6(b) == RGBA(0, 0, b, 255)
  {
    Rgb6OfBytes(0, 0, b);
  }

  /** Two digits of a byte followed by four non-digits read as a blue channel. */
  lemma LeadingByteIsBlue(b: int, junk: string)
    requires IsByte(b) && |junk| == 4
    requires !IsHexDigit(junk[0]) && !IsWhitespace(junk[3]) && '#' !in junk
    ensures HexColor(ByteHex(b) + junk) == Some(RGBA(0, 0, b, 255))
  {
    var d := ByteHex(b);
    ByteHexValue(b);
    assert Min(HexValue(d), UInt64Max) == b;
    LeadingDigitsDecide(d, junk);
    Rgb6Blue(b);
  }

  /** A literal evaluated on its own, outside the proof that uses it. */
  lemma JunkText()
    ensures ByteHex(0x12) + "GGGG" == "12GGGG"
  {
  }

  /** "12GGGG" is accepted as blue 0x12, its tail ignored. */
  lemma TrailingJunkAccepted()
    ensures HexColor("12GGGG") == Some(RGBA(0, 0, 0x12, 255))
  {
    JunkText();
    LeadingByteIsBlue(0x12, "GGGG");
  }

  /** Six characters with no leading digit give no colour. */
  lemma NoLeadingDigitRejected()
    ensures HexColor("GGGGGG") == None
  {
    SanitizedAlready("GGGGGG");
    ScanOfRun("GGGGGG", 0);
  }

  /** Only six or eight digits make a colour, with or without a leading `#`. */
  lemma WrongLengthRejected(t: string)
    requires AllHexDigits(t) && |t| != 6 && |t| != 8
    ensures HexColor(t) == None && HexColor("#" + t) == None
  {
    HexOnlyIsSanitized(t);
    HashPrefixIgnored(t);
  }

  /** A literal evaluated on its own, outside the proof that uses it. */
  lemma ShorthandText()
    ensures "#" + "FFF" == "#FFF" && AllHexDigits("FFF")
  {
  }

  /** The three-digit shorthand is not accepted. */
  lemma ShorthandRejected()
    ensures HexColor("#FFF") == None
  {
    ShorthandText();
    WrongLengthRejected("FFF");
  }

  // ---------------------------------------------------------------------------
  // The app's colours
  // ---------------------------------------------------------------------------

  /** UIKit's fallbacks: `.lightGray` (white 2/3) and `.red`. */
  const SystemLightGray := RGBA(0xAA, 0xAA, 0xAA, 0xFF)
  const SystemRed := RGBA(0xFF, 0, 0, 0xFF)

  /** A colour written as "#" and six upper-case digits parses to those bytes. */
  lemma HashHex6(r: int, g: int, b: int)
    requires IsByte(r) && IsByte(g) && IsByte(b)
    ensures HexColor("#" + Hex6(r, g, b)) == Some(RGBA(r, g, b, 255))
  {
    HashPrefixIgnored(Hex6(r, g, b));
    Hex6RoundTrip(r, g, b);
  }

  /** A literal evaluated on its own, outside the proof that uses it. */
  lemma LightGrayHex()
    ensures "#" + Hex6(0xEF, 0xEF, 0xEF) == "#EFEFEF"
  {
  }

  /** A literal evaluated on its own, outside the proof that uses it. */
  lemma PrimaryHex()
    ensures "#" + Hex6(0xFF, 0x4A, 0x4A) == "#FF4A4A"
  {
  }

  /** `Colors.lightGray`: parsed from "#EFEFEF"; the fallback is never used. */
  function LightGray(): (c: RGBA)
    ensures c == RGBA(0xEF, 0xEF, 0xEF, 0xFF)
  {
    LightGrayHex();
    HashHex6(0xEF, 0xEF, 0xEF);
    HexColor("#EFEFEF").GetOr(SystemLightGray)
  }

  /** `Colors.primary`: parsed from "#FF4A4A"; the fallback is never used. */
  function Primary(): (c: RGBA)
    ensures c == RGBA(0xFF, 0x4A, 0x4A, 0xFF)
  {
    PrimaryHex();
    HashHex6(0xFF, 0x4A, 0x4A);
    HexColor("#FF4A4A").GetOr(SystemRed)
  }
}

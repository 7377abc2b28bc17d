/**
 * The player-id hash of hash.js.  Despite its name, `generateMD5HashHex` is
 * not MD5: it is the classic 31-multiplier string hash, kept in a JavaScript
 * number, reduced to 32 bits at the end and printed with `toString(16)`.
 *
 * The model keeps the JavaScript accumulator exactly as the loop computes it
 * (the left shift `<<` works on the ToInt32 image of the accumulator, the
 * subtraction and the addition do not), and proves that modulo 2^32 it agrees
 * with the textbook recurrence h := (31 * h + code) mod 2^32.
 */
module Hash {

  const TwoTo31: int := 0x8000_0000
  const TwoTo32: int := 0x1_0000_0000

  /** The JavaScript ToInt32 conversion of an integral number. */
  function Int32(v: int): (r: int)
    ensures -TwoTo31 <= r < TwoTo31
    ensures r % TwoTo32 == v % TwoTo32
  {
    var m := v % TwoTo32;
    if m >= TwoTo31 then m - TwoTo32 else m
  }

  /**
   * `char.charCodeAt(0)` for a `char` produced by `for…of`: the iteration
   * yields whole code points, and charCodeAt(0) reads the first UTF-16 code
   * unit, which for a code point above U+FFFF is its high surrogate.
   */
  function CharCode(c: char): (code: nat)
    ensures code < 0x1_0000
    ensures c as int < 0x1_0000 ==> code == c as int
  {
    if c as int < 0x1_0000 then c as int
    else 0xD800 + (c as int - 0x1_0000) / 0x400
  }

  /** One pass of the loop body: `(h << 5) - h + char.charCodeAt(0)`. */
  function JsStep(h: int, c: char): (h': int)
    ensures -TwoTo31 <= h' + h - CharCode(c) < TwoTo31
  {
    Int32(Int32(h) * 32) - h + CharCode(c)
  }

  /** The value of `currentHashVal` after the loop has consumed all of `s`. */
  function JsAccumulator(s: string): (h: int)
    ensures |s| == 1 ==> h == CharCode(s[0])
  {
    if s == [] then 0 else JsStep(JsAccumulator(s[..|s| - 1]), s[|s| - 1])
  }

  /** The reference definition: the 31-multiplier hash modulo 2^32. */
  function HashValue(s: string): (h: nat)
    ensures h < TwoTo32
  {
    if s == [] then 0 else (31 * HashValue(s[..|s| - 1]) + CharCode(s[|s| - 1])) % TwoTo32
  }

  /** Lower-case hexadecimal digit for 0 <= d < 16. */
  function HexDigit(d: nat): char
    requires d < 16
  {
    "0123456789abcdef"[d]
  }

  predicate IsHexDigit(c: char)
  {
    '0' <= c <= '9' || 'a' <= c <= 'f'
  }

  function HexDigitValue(c: char): nat
    requires IsHexDigit(c)
  {
    if c <= '9' then c as int - '0' as int else c as int - 'a' as int + 10
  }

  /** `Number.prototype.toString(16)` on a non-negative integer. */
  function ToHex(n: nat): (hex: string)
    ensures |hex| >= 1 && hex[|hex| - 1] == HexDigit(n % 16)
    ensures |hex| == 1 <==> n < 16
  {
    if n < 16 then [HexDigit(n)] else ToHex(n / 16) + [HexDigit(n % 16)]
  }

  /** Reads a string of hexadecimal digits, most significant first. */
  function ParseHex(s: string): nat
    requires forall i :: 0 <= i < |s| ==> IsHexDigit(s[i])
  {
    if s == [] then 0 else 16 * ParseHex(s[..|s| - 1]) + HexDigitValue(s[|s| - 1])
  }

  /**
   * `generateMD5HashHex(string)`: the loop over the characters, then
   * `(currentHashVal >>> 0).toString(16)`; `>>> 0` is ToUint32, which for an
   * integral number is its remainder modulo 2^32.
   */
  method GenerateMD5HashHex(str: string) returns (hex: string)
    ensures hex == ToHex(JsAccumulator(str) % TwoTo32)
    ensures hex == ToHex(HashValue(str))
  {
    var currentHashVal := 0;
    for i := 0 to |str|
      invariant currentHashVal == JsAccumulator(str[..i])
    {
      assert str[..i + 1][..i] == str[..i];
      currentHashVal := Int32(Int32(currentHashVal) * 32) - currentHashVal + CharCode(str[i]);
    }
    assert str[..|str|] == str;
    AccumulatorCongruent(str);
    hex := ToHex(currentHashVal % TwoTo32);
  }

  // ---------------------------------------------------------------------
  // The JavaScript accumulator against the 32-bit recurrence

  lemma StepCongruent(h: int, hv: int, c: char)
    requires h % TwoTo32 == hv % TwoTo32
    ensures JsStep(h, c) % TwoTo32 == (31 * hv + CharCode(c)) % TwoTo32
  {
    var a := Int32(h) * 32;
    var t := Int32(a) - h + CharCode(c);
    assert t % TwoTo32 == (31 * hv + CharCode(c)) % TwoTo32 by {
      var k1 := (h - Int32(h)) / TwoTo32;
      assert h - Int32(h) == TwoTo32 * k1;
      var k2 := (a - Int32(a)) / TwoTo32;
      assert a - Int32(a) == TwoTo32 * k2;
      var k3 := (h - hv) / TwoTo32;
      assert h - hv == TwoTo32 * k3;
      assert t == 31 * hv + CharCode(c) + TwoTo32 * (31 * k3 - 32 * k1 - k2);
      ModOfShift(31 * hv + CharCode(c), 31 * k3 - 32 * k1 - k2);
    }
  }

  lemma ModOfShift(x: int, k: int)
    ensures (x + TwoTo32 * k) % TwoTo32 == x % TwoTo32
  {
  }

  /** Modulo 2^32 the JavaScript accumulator is the 31-multiplier hash. */
  lemma {:induction false} AccumulatorCongruent(s: string)
    ensures JsAccumulator(s) % TwoTo32 == HashValue(s)
  {
    if s != [] {
      var p := s[..|s| - 1];
      AccumulatorCongruent(p);
      StepCongruent(JsAccumulator(p), HashValue(p), s[|s| - 1]);
    }
  }

  /**
   * The accumulator grows by at most 2^31 + 2^16 per character, so for any
   * name shorter than four million characters it stays strictly inside
   * (-2^53, 2^53), where JavaScript numbers are exact integers: the unbounded
   * integers of this model are then the values the engine computes.
   */
  lemma {:induction false} AccumulatorBound(s: string)
    ensures -|s| * (TwoTo31 + 0x1_0000) <= JsAccumulator(s) <= |s| * (TwoTo31 + 0x1_0000)
  {
    if s != [] {
      AccumulatorBound(s[..|s| - 1]);
    }
  }

  lemma AccumulatorExact(s: string)
    requires |s| <= 4_000_000
    ensures -0x20_0000_0000_0000 < JsAccumulator(s) < 0x20_0000_0000_0000
  {
    AccumulatorBound(s);
  }

  // ---------------------------------------------------------------------
  // Properties of the hash

  /** The empty name hashes to "0". */
  lemma HashOfEmpty()
    ensures ToHex(HashValue("")) == "0"
  {
  }

  /** Appending a character applies the recurrence once. */
  lemma HashRecurrence(s: string, c: char)
    ensures HashValue(s + [c]) == (31 * HashValue(s) + CharCode(c)) % TwoTo32
  {
    assert (s + [c])[..|s|] == s;
  }

  /** A one-character name hashes to its character code. */
  lemma HashOfSingleChar(c: char)
    ensures HashValue([c]) == CharCode(c)
    ensures ToHex(HashValue([c])) == ToHex(CharCode(c))
  {
    assert [c][..0] == [];
  }

  function Pow16(k: nat): nat
  {
    if k == 0 then 1 else 16 * Pow16(k - 1)
  }

  lemma {:induction false} HexLength(n: nat, k: nat)
    requires 1 <= k && n < Pow16(k)
    ensures 1 <= |ToHex(n)| <= k
  {
    if n >= 16 {
      HexLength(n / 16, k - 1);
    }
  }

  lemma {:induction false} HexDigits(n: nat)
    ensures forall i :: 0 <= i < |ToHex(n)| ==> IsHexDigit(ToHex(n)[i])
  {
    if n >= 16 {
      HexDigits(n / 16);
    }
  }

  lemma {:induction false} HexNoLeadingZero(n: nat)
    ensures ToHex(n)[0] == '0' <==> n == 0
  {
    if n >= 16 {
      HexNoLeadingZero(n / 16);
      assert ToHex(n)[0] == ToHex(n / 16)[0];
    }
  }

  /**
   * The output format: one to eight lower-case hexadecimal digits, with a
   * leading zero only in the output "0".
   */
  lemma HashFormat(s: string)
    ensures 1 <= |ToHex(HashValue(s))| <= 8
    ensures forall i :: 0 <= i < |ToHex(HashValue(s))| ==> IsHexDigit(ToHex(HashValue(s))[i])
    ensures ToHex(HashValue(s))[0] == '0' <==> ToHex(HashValue(s)) == "0"
  {
    var h := HashValue(s);
    assert Pow16(8) == TwoTo32;
    HexLength(h, 8);
    HexDigits(h);
    HexNoLeadingZero(h);
  }

  lemma {:induction false} HexRoundTrip(n: nat)
    ensures forall i :: 0 <= i < |ToHex(n)| ==> IsHexDigit(ToHex(n)[i])
    ensures ParseHex(ToHex(n)) == n
  {
    HexDigits(n);
    if n >= 16 {
      HexRoundTrip(n / 16);
      assert ToHex(n)[..|ToHex(n)| - 1] == ToHex(n / 16);
    }
  }

  /** Reading the printed id as hexadecimal gives back the 32-bit hash. */
  lemma HashRoundTrip(s: string)
    ensures forall i :: 0 <= i < |ToHex(HashValue(s))| ==> IsHexDigit(ToHex(HashValue(s))[i])
    ensures ParseHex(ToHex(HashValue(s))) == HashValue(s)
  {
    HexRoundTrip(HashValue(s));
  }
}

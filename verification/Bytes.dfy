/** Bytes, the scanning primitives the parsers are built on, and numbers as text.
    SkipWhile stands for ffs_skip_ranges, ffs_findany and ffmem_findbyte, Digits for
    ffs_fromint and HexDigit for ffchar_tohex. */
module Bytes {

  type byte = x: int | 0 <= x < 256

  type bytes = seq<byte>

  datatype Option<+T> = None | Some(value: T)

  const SP: byte := 0x20
  const CR: byte := 0x0d
  const LF: byte := 0x0a
  const COLON: byte := 0x3a
  const SLASH: byte := 0x2f
  const PERCENT: byte := 0x25
  const LBRACKET: byte := 0x5b
  const RBRACKET: byte := 0x5d

  const CRLF: bytes := [CR, LF]

  predicate IsPrintable(b: byte) { 0x21 <= b <= 0x7e }

  predicate IsDigit(b: byte) { 0x30 <= b <= 0x39 }

  predicate IsSpace(b: byte) { b == SP }

  predicate IsEol(b: byte) { b == CR || b == LF }

  predicate NotEol(b: byte) { !IsEol(b) }

  predicate IsHex(b: byte) { HexDigit(b) >= 0 }

  /** Value of a hexadecimal digit of either case, or -1. */
  function HexDigit(b: byte): (v: int)
    ensures -1 <= v < 16
  {
    if 0x30 <= b <= 0x39 then b - 0x30
    else if 0x41 <= b <= 0x46 then b - 0x41 + 10
    else if 0x61 <= b <= 0x66 then b - 0x61 + 10
    else -1
  }

  predicate AllIn(s: bytes, i: nat, j: nat, p: byte -> bool)
    requires i <= j <= |s|
  {
    forall k :: i <= k < j ==> p(s[k])
  }

  predicate Prefix(s: bytes, t: bytes) { |s| <= |t| && t[..|s|] == s }

  /** Index of the first byte at or after i that fails p, or |s|. */
  function SkipWhile(s: bytes, i: nat, p: byte -> bool): (j: nat)
    requires i <= |s|
    ensures i <= j <= |s|
    ensures forall k :: i <= k < j ==> p(s[k])
    ensures j < |s| ==> !p(s[j])
    decreases |s| - i
  {
    if i < |s| && p(s[i]) then SkipWhile(s, i + 1, p) else i
  }

  /** ffs_skip_ranges, ffs_findany: the distance from i to the first byte that fails p, or -1. */
  function Skip(s: bytes, i: nat, p: byte -> bool): (r: int)
    requires i <= |s|
  {
    var j := SkipWhile(s, i, p);
    if j == |s| then -1 else j - i
  }

  /** A scan that stops inside s stops at the same place in every extension of s;
      one that reaches the end of s gets at least that far. */
  lemma SkipExtend(s: bytes, t: bytes, i: nat, p: byte -> bool)
    requires i <= |s| && Prefix(s, t)
    ensures SkipWhile(s, i, p) < |s| ==> SkipWhile(t, i, p) == SkipWhile(s, i, p)
    ensures SkipWhile(s, i, p) == |s| ==> SkipWhile(t, i, p) >= |s|
  {
    assert forall m :: 0 <= m < |s| ==> s[m] == t[..|s|][m] == t[m];
    var j, k := SkipWhile(s, i, p), SkipWhile(t, i, p);
  }

  /** The only index with SkipWhile's properties. */
  lemma SkipUnique(s: bytes, i: nat, p: byte -> bool, j: nat)
    requires i <= j <= |s|
    requires forall k :: i <= k < j ==> p(s[k])
    requires j < |s| ==> !p(s[j])
    ensures SkipWhile(s, i, p) == j
  {
  }

  /** Concatenation of a list of byte strings. */
  function Flat(ss: seq<bytes>): bytes
  {
    if ss == [] then [] else ss[0] + Flat(ss[1..])
  }

  lemma {:induction false} FlatAppend(ss: seq<bytes>, s: bytes)
    ensures Flat(ss + [s]) == Flat(ss) + s
  {
    if ss == [] {
      assert [s][1..] == [];
    } else {
      FlatAppend(ss[1..], s);
      assert (ss + [s])[1..] == ss[1..] + [s];
    }
  }

  lemma {:induction false} FlatConcat(a: seq<bytes>, b: seq<bytes>)
    ensures Flat(a + b) == Flat(a) + Flat(b)
    decreases |a|
  {
    if a == [] {
      assert a + b == b;
    } else {
      assert (a + b)[1..] == a[1..] + b;
      FlatConcat(a[1..], b);
    }
  }

  function Lower(b: byte): byte { if 0x41 <= b <= 0x5a then b + 0x20 else b }

  /** ffs_lower */
  function LowerAll(s: bytes): (r: bytes)
    ensures |r| == |s|
  {
    seq(|s|, i requires 0 <= i < |s| => Lower(s[i]))
  }

  predicate IsAscii(s: string) { forall i :: 0 <= i < |s| ==> s[i] < 128 as char }

  /** The bytes of a text. */
  function Ascii(s: string): (b: bytes)
    requires IsAscii(s)
    ensures |b| == |s| && forall i :: 0 <= i < |s| ==> b[i] == s[i] as int
  {
    seq(|s|, i requires 0 <= i < |s| => s[i] as int)
  }

  // ---------------------------------------------------------- 16-bit ranges

  const W16: nat := 0x1_0000

  /** range16: offset and length of a part of a buffer, each truncated to 16 bits. */
  datatype Range = Range(off: nat, len: nat)

  predicate Fits(r: Range) { r.off < W16 && r.len < W16 }

  function RangeSet(off: nat, len: nat): (r: Range)
    ensures Fits(r)
  {
    Range(off % W16, len % W16)
  }

  /** range16_tostr */
  function Slice(r: Range, t: bytes): bytes
  {
    if r.off + r.len <= |t| then t[r.off..r.off + r.len] else []
  }

  // ---------------------------------------------------------------- numbers

  predicate IsBase(base: nat) { base == 10 || base == 16 }

  /** The digit of value v: lower case for hexadecimal. */
  function DigitChar(v: nat): (b: byte)
    requires v < 16
    ensures HexDigit(b) == v && (v < 10 ==> IsDigit(b))
  {
    if v < 10 then 0x30 + v else 0x61 + v - 10
  }

  /** Digits of n, most significant first, without leading zeros. */
  function Digits(n: nat, base: nat): (s: bytes)
    requires IsBase(base)
    ensures |s| >= 1
    ensures forall i :: 0 <= i < |s| ==> 0 <= HexDigit(s[i]) < base
  {
    if n < base then [DigitChar(n)] else Digits(n / base, base) + [DigitChar(n % base)]
  }

  predicate AllDigits(s: bytes, base: nat)
  {
    forall i :: 0 <= i < |s| ==> 0 <= HexDigit(s[i]) < base
  }

  /** Value of a digit string read after the digits worth `acc`. */
  function ValueFrom(acc: nat, s: bytes, base: nat): nat
    requires IsBase(base) && AllDigits(s, base)
    decreases |s|
  {
    if s == [] then acc else ValueFrom(acc * base + HexDigit(s[0]), s[1..], base)
  }

  function Value(s: bytes, base: nat): nat
    requires IsBase(base) && AllDigits(s, base)
  {
    ValueFrom(0, s, base)
  }

  lemma {:induction false} ValueAppend(acc: nat, s: bytes, d: byte, base: nat)
    requires IsBase(base) && AllDigits(s, base) && 0 <= HexDigit(d) < base
    ensures AllDigits(s + [d], base)
    ensures ValueFrom(acc, s + [d], base) == ValueFrom(acc, s, base) * base + HexDigit(d)
    decreases |s|
  {
    if s == [] {
      assert (s + [d])[1..] == [];
    } else {
      ValueAppend(acc * base + HexDigit(s[0]), s[1..], d, base);
      assert (s + [d])[1..] == s[1..] + [d];
    }
  }

  /** Printing then reading a number gives it back. */
  lemma {:induction false} DigitsValue(n: nat, base: nat)
    requires IsBase(base)
    ensures Value(Digits(n, base), base) == n
  {
    if n < base {
      assert Digits(n, base) == [DigitChar(n)];
      assert ValueFrom(0, [DigitChar(n)], base) == ValueFrom(n, [], base);
    } else {
      DigitsValue(n / base, base);
      ValueAppend(0, Digits(n / base, base), DigitChar(n % base), base);
    }
  }

  function Pow(base: nat, k: nat): nat { if k == 0 then 1 else base * Pow(base, k - 1) }

  /** A number below base^k has at most k digits. */
  lemma {:induction false} DigitsLength(n: nat, base: nat, k: nat)
    requires IsBase(base) && k >= 1 && n < Pow(base, k)
    ensures |Digits(n, base)| <= k
  {
    if k == 1 {
      assert Pow(base, 1) == base;
    } else if n >= base {
      DigitsLength(n / base, base, k - 1);
    }
  }

  lemma {:induction false} ValueGrows(acc: nat, s: bytes, base: nat)
    requires IsBase(base) && AllDigits(s, base)
    ensures ValueFrom(acc, s, base) >= acc
    decreases |s|
  {
    if s == [] {
    } else {
      ValueGrows(acc * base + HexDigit(s[0]), s[1..], base);
    }
  }

  // ---------------------------------------------------------------- places

  /** A part of a buffer (ffstr). */
  datatype Span = Span(off: nat, len: nat)

  /** x is in s at i. */
  predicate At(s: bytes, i: nat, x: bytes) { i + |x| <= |s| && s[i..i + |x|] == x }

  lemma AtSplit(s: bytes, i: nat, x: bytes, y: bytes)
    requires At(s, i, x + y)
    ensures At(s, i, x) && At(s, i + |x|, y)
  {
    var t := s[i..i + |x + y|];
    assert t[..|x|] == x && t[|x|..] == y;
    assert s[i..i + |x|] == t[..|x|] && s[i + |x|..i + |x| + |y|] == t[|x|..];
  }

  /** ffmem_copy into a buffer; the result is the next write position. */
  method Put(buf: array<byte>, p: nat, s: bytes) returns (q: nat)
    requires p + |s| <= buf.Length
    modifies buf
    ensures q == p + |s| && buf[..q] == old(buf[..p]) + s
  {
    forall i | 0 <= i < |s| {
      buf[p + i] := s[i];
    }
    q := p + |s|;
  }
}

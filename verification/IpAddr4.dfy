/** IPv4 addresses as text: parser, printer, the textual forms and the round trip. */
module IpAddr4 {
  import opened Bytes

  const DOT: byte := 0x2e

  /** A decimal octet: one to three digits, at most 255. Leading zeros are allowed. */
  predicate IsOctet(o: bytes) { 1 <= |o| <= 3 && AllDecimal(o) && Value(o, 10) <= 255 }

  predicate AllDecimal(o: bytes)
    ensures AllDecimal(o) ==> AllDigits(o, 10)
  {
    forall i :: 0 <= i < |o| ==> IsDigit(o[i])
  }

  predicate AreOctets(os: seq<bytes>) { forall o :: o in os ==> IsOctet(o) }

  /** Every octet followed by '.'. */
  function Dots(os: seq<bytes>): bytes
  {
    if os == [] then [] else Dots(os[..|os| - 1]) + (os[|os| - 1] + [DOT])
  }

  function Octets(os: seq<bytes>): (a: bytes)
    requires AreOctets(os)
    ensures |a| == |os|
  {
    if os == [] then []
    else
      assert IsOctet(os[|os| - 1]);
      Octets(os[..|os| - 1]) + [Value(os[|os| - 1], 10)]
  }

  /** The text of three octets and the last one. */
  function Text(os: seq<bytes>): bytes
    requires |os| == 4
  {
    Dots(os[..3]) + os[3]
  }

  // ------------------------------------------------------------- ffip4_parse

  datatype Scan = Scan(out: bytes, b: byte, ndig: nat)

  predicate ScanOk(st: Scan) { |st.out| <= 3 && st.ndig <= 3 }

  datatype Step = Go(st: Scan) | Accept | Reject

  function StepOn(st: Scan, ch: byte): (r: Step)
    requires ScanOk(st)
    ensures r.Go? ==> ScanOk(r.st)
    ensures r.Accept? ==> |st.out| == 3 && st.ndig != 0
  {
    if IsDigit(ch) && st.ndig != 3 then
      var b: int := st.b as int * 10 + HexDigit(ch);
      if b > 255 then Reject else Go(Scan(st.out, b, st.ndig + 1))
    else if st.ndig == 0 then Reject
    else if |st.out| == 3 then Accept
    else if ch == DOT then Go(Scan(st.out + [st.b], 0, 0))
    else Reject
  }

  /** The number of bytes of the address at the start of s and its value, or None. */
  function ParseFrom(s: bytes, i: nat, st: Scan): (r: Option<(nat, bytes)>)
    requires i <= |s| && ScanOk(st)
    ensures r.Some? ==> r.value.0 <= |s| && |r.value.1| == 4
    decreases |s| - i
  {
    if i == |s| then
      if |st.out| == 3 && st.ndig != 0 then Some((i, st.out + [st.b])) else None
    else match StepOn(st, s[i])
         case Go(st') => ParseFrom(s, i + 1, st')
         case Accept => Some((i, st.out + [st.b]))
         case Reject => None
  }

  const SCAN0 := Scan([], 0, 0)

  function Parse4(s: bytes): (r: Option<(nat, bytes)>)
    ensures r.Some? ==> r.value.0 <= |s| && |r.value.1| == 4
  {
    ParseFrom(s, 0, SCAN0)
  }

  /** The C result code: 0 when everything was processed. */
  function Code(r: Option<(nat, bytes)>, len: nat): int
  {
    match r
    case None => -1
    case Some((n, _)) => if n == len then 0 else n
  }

  /** ffip4_parse. On failure the buffer holds whatever was written so far. */
  method Ip4Parse(dst: array<byte>, s: bytes) returns (r: int)
    requires dst.Length == 4
    modifies dst
    ensures r == Code(Parse4(s), |s|)
    ensures Parse4(s).Some? ==> dst[..] == Parse4(s).value.1
  {
    var nadr: nat, ndig: nat, b: int, i: nat := 0, 0, 0, 0;
    assert dst[..0] == [];
    while i != |s|
      invariant 0 <= i <= |s| && nadr <= 3 && 0 <= b <= 255 && ScanOk(Scan(dst[..nadr], b, ndig))
      invariant ParseFrom(s, 0, SCAN0) == ParseFrom(s, i, Scan(dst[..nadr], b, ndig))
      decreases |s| - i
    {
      var ch := s[i];
      if IsDigit(ch) && ndig != 3 {
        b := b * 10 + HexDigit(ch);
        if b > 255 { return -1; }
        ndig := ndig + 1;
      } else if ndig == 0 {
        return -1;
      } else if nadr == 3 {
        dst[nadr] := b;
        assert dst[..] == dst[..3] + [b];
        return i;
      } else if ch == DOT {
        dst[nadr] := b;
        assert dst[..nadr + 1] == dst[..nadr] + [b];
        nadr := nadr + 1;
        b, ndig := 0, 0;
      } else {
        return -1;
      }
      i := i + 1;
    }
    if nadr == 3 && ndig != 0 {
      dst[nadr] := b;
      assert dst[..] == dst[..3] + [b];
      return 0;
    }
    r := -1;
  }

  // ------------------------------------------- what ffip4_parse accepts

  /** The scanned text: finished octets and the digits of the one being read. */
  predicate Shaped(p: bytes, st: Scan, os: seq<bytes>, cur: bytes)
  {
    && AreOctets(os) && |os| <= 3 && AllDecimal(cur) && |cur| <= 3
    && p == Dots(os) + cur && Value(cur, 10) <= 255
    && st == Scan(Octets(os), Value(cur, 10), |cur|)
  }

  lemma ShapedStep(p: bytes, st: Scan, os: seq<bytes>, cur: bytes, ch: byte)
    returns (os': seq<bytes>, cur': bytes)
    requires ScanOk(st) && Shaped(p, st, os, cur) && StepOn(st, ch).Go?
    ensures Shaped(p + [ch], StepOn(st, ch).st, os', cur')
  {
    if IsDigit(ch) && st.ndig != 3 {
      os', cur' := os, cur + [ch];
      ValueAppend(0, cur, ch, 10);
    } else {
      os', cur' := os + [cur], [];
      assert os'[..|os'| - 1] == os;
    }
  }

  /** The accepted address is a textual form of the result: four octets, and the last one ends
      where its digits end or after three. */
  lemma {:induction false} ParsedIsText(s: bytes, i: nat, st: Scan, os: seq<bytes>, cur: bytes)
    returns (all: seq<bytes>)
    requires i <= |s| && ScanOk(st) && Shaped(s[..i], st, os, cur) && ParseFrom(s, i, st).Some?
    ensures var (n, a) := ParseFrom(s, i, st).value;
            && |all| == 4 && AreOctets(all) && s[..n] == Text(all) && a == Octets(all)
            && (n < |s| ==> !IsDigit(s[n]) || |all[3]| == 3)
    decreases |s| - i
  {
    if i < |s| && StepOn(st, s[i]).Go? {
      assert s[..i + 1] == s[..i] + [s[i]];
      var os', cur' := ShapedStep(s[..i], st, os, cur, s[i]);
      all := ParsedIsText(s, i + 1, StepOn(st, s[i]).st, os', cur');
    } else {
      all := os + [cur];
      assert all[..|all| - 1] == os == all[..3];
    }
  }

  lemma ParsedText(s: bytes) returns (os: seq<bytes>)
    requires Parse4(s).Some?
    ensures var (n, a) := Parse4(s).value;
            && |os| == 4 && AreOctets(os) && s[..n] == Text(os) && a == Octets(os)
            && (n < |s| ==> !IsDigit(s[n]) || |os[3]| == 3)
  {
    assert s[..0] == [];
    os := ParsedIsText(s, 0, SCAN0, [], []);
  }

  lemma {:induction false} ScanDigits(s: bytes, i: nat, st: Scan, o: bytes)
    requires ScanOk(st) && At(s, i, o) && AllDecimal(o)
    requires st.ndig + |o| <= 3 && ValueFrom(st.b, o, 10) <= 255
    ensures ParseFrom(s, i, st) == ParseFrom(s, i + |o|, Scan(st.out, ValueFrom(st.b, o, 10), st.ndig + |o|))
    decreases |o|
  {
    if o == [] {
    } else {
      AtSplit(s, i, [o[0]], o[1..]);
      assert o == [o[0]] + o[1..] && s[i] == s[i..i + 1][0] == o[0];
      var b: int := st.b as int * 10 + HexDigit(o[0]);
      ValueGrows(b, o[1..], 10);
      assert StepOn(st, s[i]) == Go(Scan(st.out, b, st.ndig + 1));
      ScanDigits(s, i + 1, Scan(st.out, b, st.ndig + 1), o[1..]);
    }
  }

  lemma {:induction false} ScanOctets(s: bytes, os: seq<bytes>)
    requires AreOctets(os) && |os| <= 3 && At(s, 0, Dots(os))
    ensures ParseFrom(s, 0, SCAN0) == ParseFrom(s, |Dots(os)|, Scan(Octets(os), 0, 0))
    decreases |os|
  {
    hide ParseFrom;
    if os == [] {
    } else {
      var init, o := os[..|os| - 1], os[|os| - 1];
      AtSplit(s, 0, Dots(init), o + [DOT]);
      ScanOctets(s, init);
      ScanOctet(s, |Dots(init)|, Octets(init), o);
    }
  }

  lemma ScanOctet(s: bytes, i: nat, out: bytes, o: bytes)
    requires |out| < 3 && IsOctet(o) && At(s, i, o + [DOT])
    ensures ParseFrom(s, i, Scan(out, 0, 0)) == ParseFrom(s, i + |o| + 1, Scan(out + [Value(o, 10)], 0, 0))
  {
    AtSplit(s, i, o, [DOT]);
    ScanDigits(s, i, Scan(out, 0, 0), o);
    var k := i + |o|;
    assert s[k] == s[k..k + 1][0] == DOT;
  }

  /** Every textual form is accepted and gives its address. */
  lemma ParseText(s: bytes, os: seq<bytes>)
    requires |os| == 4 && AreOctets(os) && At(s, 0, Text(os))
    requires |Text(os)| < |s| ==> !IsDigit(s[|Text(os)|]) || |os[3]| == 3
    ensures Parse4(s) == Some((|Text(os)|, Octets(os)))
  {
    AtSplit(s, 0, Dots(os[..3]), os[3]);
    assert IsOctet(os[3]) && os[..4 - 1] == os[..3];
    ScanOctets(s, os[..3]);
    ScanDigits(s, |Dots(os[..3])|, Scan(Octets(os[..3]), 0, 0), os[3]);
  }

  /** Exactly the textual forms are accepted. */
  lemma Parse4Meaning(s: bytes, n: nat, a: bytes)
    requires n <= |s|
    ensures Parse4(s) == Some((n, a)) <==>
            exists os: seq<bytes> ::
              && |os| == 4 && AreOctets(os) && s[..n] == Text(os) && a == Octets(os)
              && (n < |s| ==> !IsDigit(s[n]) || |os[3]| == 3)
  {
    if Parse4(s) == Some((n, a)) {
      var os := ParsedText(s);
    }
    if os: seq<bytes> :|
       && |os| == 4 && AreOctets(os) && s[..n] == Text(os) && a == Octets(os)
       && (n < |s| ==> !IsDigit(s[n]) || |os[3]| == 3) {
      ParseText(s, os);
    }
  }

  // ------------------------------------------------------------- ffip4_tostr

  function OctetText(v: byte): (o: bytes)
    ensures IsOctet(o) && Value(o, 10) == v
  {
    assert v < Pow(10, 3) by {
      assert Pow(10, 3) == 1000;
    }
    DigitsLength(v, 10, 3);
    DigitsValue(v, 10);
    var o := Digits(v, 10);
    assert forall i :: 0 <= i < |o| ==> IsDigit(o[i]) by {
      forall i | 0 <= i < |o| ensures IsDigit(o[i]) {
        assert 0 <= HexDigit(o[i]) < 10;
      }
    }
    o
  }

  function OctetTexts(a: bytes): (os: seq<bytes>)
    ensures |os| == |a| && AreOctets(os) && Octets(os) == a
  {
    if a == [] then []
    else
      var os := OctetTexts(a[..|a| - 1]) + [OctetText(a[|a| - 1])];
      assert os[..|os| - 1] == OctetTexts(a[..|a| - 1]);
      os
  }

  const IP4_STRLEN := 15

  lemma {:induction false} DotsLength(os: seq<bytes>)
    requires AreOctets(os)
    ensures |Dots(os)| <= 4 * |os|
    decreases |os|
  {
    if os == [] {
    } else {
      DotsLength(os[..|os| - 1]);
      assert IsOctet(os[|os| - 1]);
    }
  }

  lemma DotsNext(os: seq<bytes>, i: nat)
    requires i < |os| && forall k :: 0 <= k < |os| ==> IsOctet(os[k])
    ensures Dots(os[..0]) == [] && |Dots(os[..i])| <= 4 * i && 1 <= |os[i]| <= 3
    ensures Dots(os[..i + 1]) == Dots(os[..i]) + (os[i] + [DOT])
  {
    assert os[..i + 1][..i] == os[..i];
    DotsLength(os[..i]);
  }

  /** ffip4_tostr */
  method Ip4ToStr(a: bytes, dst: array<byte>) returns (r: nat)
    requires |a| == 4
    modifies dst
    ensures if dst.Length < IP4_STRLEN then r == 0
            else 0 < r <= IP4_STRLEN && dst[..r] == Text(OctetTexts(a))
  {
    if dst.Length < IP4_STRLEN { return 0; }
    hide OctetTexts, OctetText, Dots, IsOctet;
    ghost var os := OctetTexts(a);
    r := 0;
    DotsNext(os, 0);
    assert dst[..0] == [] && os[..0] == [];
    for i := 0 to 4
      invariant 0 <= r <= 4 * i && (i == 4 ==> 0 < r <= IP4_STRLEN)
      invariant dst[..r] == if i == 4 then Text(os) else Dots(os[..i])
    {
      OctetTextsAt(a, i);
      DotsNext(os, i);
      r := PutOctet(dst, r, OctetText(a[i]), i != 3);
    }
  }

  /** An octet, with the '.' after it. */
  method PutOctet(dst: array<byte>, p: nat, o: bytes, dot: bool) returns (q: nat)
    requires p + |o| + (if dot then 1 else 0) <= dst.Length
    modifies dst
    ensures q == p + |o| + (if dot then 1 else 0)
    ensures dst[..q] == old(dst[..p]) + if dot then o + [DOT] else o
  {
    q := Put(dst, p, o);
    if dot {
      q := Put(dst, q, [DOT]);
    }
  }

  lemma {:induction false} OctetTextsAt(a: bytes, i: nat)
    requires i < |a|
    ensures OctetTexts(a)[i] == OctetText(a[i])
    decreases |a|
  {
    if i < |a| - 1 {
      OctetTextsAt(a[..|a| - 1], i);
    }
  }

  /** For every address, printing it and parsing the text gives the address back, also when
      something other than a digit follows. */
  lemma Ip4RoundTrip(a: bytes, rest: bytes)
    requires |a| == 4 && (rest != [] ==> !IsDigit(rest[0]))
    ensures var text := Text(OctetTexts(a));
            Parse4(text + rest) == Some((|text|, a))
  {
    var text := Text(OctetTexts(a));
    if rest != [] {
      assert (text + rest)[|text|] == rest[0];
    }
    ParseText(text + rest, OctetTexts(a));
  }
}

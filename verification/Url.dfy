/** URL escaping, the two-pass unescaping, and the URL splitter. */
module Url {
  import opened Bytes

  /** Upper-case hexadecimal digit (ffHEX). */
  function HexUpper(v: nat): (b: byte)
    requires v < 16
    ensures HexDigit(b) == v && IsPlain(b)
  {
    if v < 10 then 0x30 + v else 0x41 + v - 10
  }

  /** Bytes that stand for themselves in an escaped URL: printable except '%', or >= 0x80. */
  predicate IsPlain(b: byte)
  {
    0x21 <= b <= 0x24 || 0x26 <= b <= 0x7e || 0x80 <= b
  }

  // -------------------------------------------------- the text they stand for

  function EscapeByte(b: byte): (s: bytes)
    ensures |s| == if IsPrintable(b) then 1 else 3
  {
    if IsPrintable(b) then [b] else [PERCENT, HexUpper(b / 16), HexUpper(b % 16)]
  }

  /** Escaping, one byte at a time. */
  function Escape(s: bytes): bytes
  {
    if s == [] then [] else EscapeByte(s[0]) + Escape(s[1..])
  }

  /** "%XX" at the start of s. */
  predicate IsTriple(s: bytes)
  {
    |s| >= 3 && s[0] == PERCENT && IsHex(s[1]) && IsHex(s[2])
  }

  /** The bytes an escaped text stands for (RFC 3986, section 2.1), or None if it is malformed. */
  function Unescape(s: bytes): Option<bytes>
    decreases |s|
  {
    if s == [] then Some([])
    else if IsPlain(s[0]) then After([s[0]], Unescape(s[1..]))
    else if IsTriple(s) then After([HexDigit(s[1]) * 16 + HexDigit(s[2])], Unescape(s[3..]))
    else None
  }

  function After(o: bytes, t: Option<bytes>): Option<bytes>
  {
    if t.Some? then Some(o + t.value) else None
  }

  lemma AfterTwice(o: bytes, o': bytes, t: Option<bytes>)
    ensures After(o, After(o', t)) == After(o + o', t)
    ensures After([], t) == t
  {
    if t.Some? {
      assert o + (o' + t.value) == (o + o') + t.value;
      assert [] + t.value == t.value;
    }
  }

  /** A run of plain bytes stands for itself. */
  lemma {:induction false} UnescapeRun(s: bytes, r: nat)
    requires r <= |s| && forall k :: 0 <= k < r ==> IsPlain(s[k])
    ensures Unescape(s) == After(s[..r], Unescape(s[r..]))
    decreases r
  {
    AfterTwice([], [], Unescape(s));
    if r == 0 {
      assert s[0..] == s;
    } else {
      UnescapeRun(s[1..], r - 1);
      assert s[1..][r - 1..] == s[r..];
      assert s[..r] == [s[0]] + s[1..][..r - 1];
      AfterTwice([s[0]], s[1..][..r - 1], Unescape(s[r..]));
    }
  }

  lemma EscapeFirst(s: bytes)
    requires s != [] && IsPrintable(s[0])
    ensures Escape(s) == [s[0]] + Escape(s[1..])
  {
  }

  lemma {:induction false} EscapeRun(s: bytes, r: nat)
    requires r <= |s| && forall k :: 0 <= k < r ==> IsPrintable(s[k])
    ensures Escape(s) == s[..r] + Escape(s[r..])
    decreases r
  {
    if r == 0 {
      assert s[0..] == s;
    } else {
      EscapeRun(s[1..], r - 1);
      var rest := Escape(s[r..]);
      assert s[1..][r - 1..] == s[r..];
      assert s[..r] == [s[0]] + s[1..][..r - 1];
      EscapeFirst(s);
      hide Escape;
      Assoc([s[0]], s[1..][..r - 1], rest);
    }
  }

  // ------------------------------------------------------------ httpurl_escape

  /** Succeeds, with the escaped text in the buffer, exactly when that text fits. */
  method UrlEscape(buf: array<byte>, cap: nat, url: bytes) returns (r: int)
    requires cap <= buf.Length
    modifies buf
    ensures r == if |Escape(url)| <= cap then |Escape(url)| else -1
    ensures r >= 0 ==> buf[..r] == Escape(url)
  {
    hide Escape, EscapeByte, SkipWhile;
    var d, p := 0, 0;
    ghost var out: bytes := [];
    while d != |url|
      invariant 0 <= d <= |url| && 0 <= p <= cap
      invariant buf[..p] == out && Escape(url) == out + Escape(url[d..])
      decreases |url| - d
    {
      var n := Skip(url, d, IsPrintable);
      if n < 0 { n := |url| - d; }
      EscapeSpan(url, out, d, n);
      if n > cap - p { return -1; }
      p := Put(buf, p, url[d..d + n]);
      out := out + url[d..d + n];
      d := d + n;
      if d == |url| { break; }

      EscapeOne(url, out, d);
      assert !IsPrintable(url[d]);
      if 3 > cap - p { return -1; }
      var e := EscapeByte(url[d]);
      p := Put(buf, p, e);
      out := out + e;
      d := d + 1;
    }
    r := p;
    EscapeAll(url, out);
  }

  lemma EscapeAll(s: bytes, out: bytes)
    ensures out + Escape(s[|s|..]) == out
  {
  }

  lemma EscapeSpan(s: bytes, out: bytes, d: nat, n: nat)
    requires d + n <= |s| && forall k :: d <= k < d + n ==> IsPrintable(s[k])
    ensures out + Escape(s[d..]) == (out + s[d..d + n]) + Escape(s[d + n..])
  {
    EscapeRun(s[d..], n);
    assert s[d..][..n] == s[d..d + n] && s[d..][n..] == s[d + n..];
    Assoc(out, s[d..d + n], Escape(s[d + n..]));
  }

  lemma EscapeOne(s: bytes, out: bytes, d: nat)
    requires d < |s|
    ensures out + Escape(s[d..]) == (out + EscapeByte(s[d])) + Escape(s[d + 1..])
  {
    assert s[d..][0] == s[d] && s[d..][1..] == s[d + 1..];
    Assoc(out, EscapeByte(s[d]), Escape(s[d + 1..]));
  }

  lemma Assoc(a: bytes, b: bytes, c: bytes)
    ensures a + (b + c) == (a + b) + c
  {
  }

  lemma UnescapeSpan(s: bytes, d: nat, n: nat)
    requires d + n <= |s| && forall k :: d <= k < d + n ==> IsPlain(s[k])
    ensures Unescape(s[d..]) == After(s[d..d + n], Unescape(s[d + n..]))
  {
    UnescapeRun(s[d..], n);
    assert s[d..][..n] == s[d..d + n] && s[d..][n..] == s[d + n..];
  }

  // ---------------------------------------------------------- httpurl_unescape

  /** Number of plain bytes and triples, a cut triple at the end counting as one. */
  function Units(s: bytes): nat
    decreases |s|
  {
    if s == [] then 0
    else if IsPlain(s[0]) then 1 + Units(s[1..])
    else if |s| < 3 then 1 else 1 + Units(s[3..])
  }

  lemma {:induction false} UnitsRun(s: bytes, r: nat)
    requires r <= |s| && forall k :: 0 <= k < r ==> IsPlain(s[k])
    ensures Units(s) == r + Units(s[r..])
    decreases r
  {
    if r == 0 {
      assert s[0..] == s;
    } else {
      UnitsRun(s[1..], r - 1);
      assert s[1..][r - 1..] == s[r..];
    }
  }

  /** The length pass (buf == NULL). The read position may step beyond the end of a text whose
      last triple is cut. */
  method UnescapedLength(url: bytes) returns (cap: nat)
    ensures cap == Units(url)
  {
    hide SkipWhile, Units;
    cap := 0;
    var d := 0;
    assert url[0..] == url;
    UnitsOne(url, |url|);
    while d < |url|
      invariant Units(url) == cap + (if d < |url| then Units(url[d..]) else 0)
      decreases |url| - d
    {
      var n := Skip(url, d, IsPlain);
      UnitsSpan(url, d, if n < 0 then |url| - d else n);
      if n < 0 {
        n := |url| - d;
      } else {
        UnitsOne(url, d + n);
        cap := cap + 1;
        d := d + 3;
      }
      d := d + n;
      cap := cap + n;
    }
  }

  lemma UnitsSpan(s: bytes, d: nat, n: nat)
    requires d + n <= |s| && forall k :: d <= k < d + n ==> IsPlain(s[k])
    ensures Units(s[d..]) == n + Units(s[d + n..])
  {
    UnitsRun(s[d..], n);
    assert s[d..][n..] == s[d + n..];
  }

  lemma UnitsOne(s: bytes, d: nat)
    requires d <= |s| && (d < |s| ==> !IsPlain(s[d]))
    ensures Units(s[|s|..]) == 0
    ensures d < |s| ==> Units(s[d..]) == 1 + if d + 3 < |s| then Units(s[d + 3..]) else 0
  {
    if d + 3 <= |s| {
      assert s[d..][3..] == s[d + 3..];
    }
  }

  /** The write pass. It fails exactly when the text is malformed or its bytes do not fit. */
  method UrlUnescape(buf: array<byte>, cap: nat, url: bytes) returns (r: int)
    requires cap <= buf.Length
    modifies buf
    ensures var t := Unescape(url);
            if t.Some? && |t.value| <= cap then r == |t.value| && buf[..r] == t.value else r == -1
  {
    hide Unescape, SkipWhile;
    var d, p := 0, 0;
    ghost var out: bytes := [];
    AfterTwice([], [], Unescape(url));
    while d != |url|
      invariant 0 <= d <= |url| && 0 <= p <= cap
      invariant buf[..p] == out && Unescape(url) == After(out, Unescape(url[d..]))
      decreases |url| - d
    {
      var n := Skip(url, d, IsPlain);
      if n < 0 { n := |url| - d; }
      UnescapeSpan(url, d, n);
      AfterTwice(out, url[d..d + n], Unescape(url[d + n..]));
      if n > cap - p { return -1; }
      p := Put(buf, p, url[d..d + n]);
      out := out + url[d..d + n];
      d := d + n;
      if d == |url| { break; }

      UnescapeOne(url, d);
      if d + 3 > |url| || url[d] != PERCENT { return -1; }
      var h, l := HexDigit(url[d + 1]), HexDigit(url[d + 2]);
      if h < 0 || l < 0 { return -1; }
      if p == cap { return -1; }
      AfterTwice(out, [h * 16 + l], Unescape(url[d + 3..]));
      p := Put(buf, p, [h * 16 + l]);
      out := out + [h * 16 + l];
      d := d + 3;
    }
    r := p;
    UnescapeNothing(url);
  }

  lemma UnescapeNothing(s: bytes)
    ensures Unescape(s[|s|..]) == Some([])
  {
  }

  /** What comes after a run of plain bytes. */
  lemma UnescapeOne(s: bytes, d: nat)
    requires d < |s| && !IsPlain(s[d])
    ensures Unescape(s[d..]) ==
            if d + 3 > |s| || s[d] != PERCENT || HexDigit(s[d + 1]) < 0 || HexDigit(s[d + 2]) < 0 then None
            else After([HexDigit(s[d + 1]) * 16 + HexDigit(s[d + 2])], Unescape(s[d + 3..]))
  {
    var t := s[d..];
    assert t[0] == s[d];
    if |t| >= 3 {
      assert t[1] == s[d + 1] && t[2] == s[d + 2] && t[3..] == s[d + 3..];
    }
  }

  /** The length pass counts exactly the bytes of a well-formed text. */
  lemma {:induction false} LengthIsExact(s: bytes)
    requires Unescape(s).Some?
    ensures |Unescape(s).value| == Units(s)
    decreases |s|
  {
    if s == [] {
    } else {
      LengthIsExact(if IsPlain(s[0]) then s[1..] else s[3..]);
    }
  }

  /** Both passes, as the request parser runs them: allocating what the first pass counts, the
      second one fails exactly when the text is malformed, and fills the buffer exactly. */
  method UnescapeAlloc(url: bytes) returns (r: int, text: bytes)
    ensures Unescape(url).Some? ==> r == |text| && Some(text) == Unescape(url) && |text| == Units(url)
    ensures Unescape(url).None? ==> r == -1
  {
    var n := UnescapedLength(url);
    var buf := new byte[n](_ => 0);
    if Unescape(url).Some? {
      LengthIsExact(url);
    }
    r := UrlUnescape(buf, n, url);
    text := if r >= 0 then buf[..r] else [];
  }

  /** Unescaping undoes escaping for every text without '%'. */
  lemma {:induction false} EscapeRoundTrip(s: bytes)
    requires PERCENT !in s
    ensures Unescape(Escape(s)) == Some(s)
    decreases |s|
  {
    if s == [] {
    } else {
      EscapeRoundTrip(s[1..]);
      var e, t := EscapeByte(s[0]), Escape(s[1..]);
      if IsPrintable(s[0]) {
        assert (e + t)[1..] == t;
      } else {
        assert (e + t)[3..] == t && IsTriple(e + t);
      }
      assert s == [s[0]] + s[1..];
    }
  }

  /** Unescaping an escaped text never gives more bytes than the text had. */
  lemma {:induction false} EscapeNeverGrows(s: bytes)
    requires Unescape(Escape(s)).Some?
    ensures |Unescape(Escape(s)).value| <= |s|
    ensures PERCENT in s ==> |Unescape(Escape(s)).value| < |s|
    decreases |s|
  {
    if s == [] {
    } else {
      var e, t := EscapeByte(s[0]), Escape(s[1..]);
      if s[0] == PERCENT {
        assert Escape(s)[1..] == t;
        EscapedHexPair(s[1..]);
        assert Escape(s)[3..] == t[2..];
        EscapeNeverGrows(s[3..]);
      } else if IsPrintable(s[0]) {
        assert (e + t)[1..] == t;
        EscapeNeverGrows(s[1..]);
      } else {
        assert (e + t)[3..] == t;
        EscapeNeverGrows(s[1..]);
      }
    }
  }

  /** Two hexadecimal digits at the start of an escaped text were there before escaping. */
  lemma EscapedHexPair(s: bytes)
    requires |Escape(s)| >= 2 && IsHex(Escape(s)[0]) && IsHex(Escape(s)[1])
    ensures |s| >= 2 && Escape(s)[2..] == Escape(s[2..])
  {
    assert IsPrintable(s[0]) && Escape(s) == [s[0]] + Escape(s[1..]);
    assert Escape(s[1..])[0] == Escape(s)[1];
    assert IsPrintable(s[1]) && Escape(s[1..]) == [s[1]] + Escape(s[1..][1..]);
    assert s[1..][1..] == s[2..];
  }

  /** The round trip holds exactly for the texts without '%', which escaping leaves as is. */
  lemma EscapeRoundTripIff(s: bytes)
    ensures Unescape(Escape(s)) == Some(s) <==> PERCENT !in s
  {
    if PERCENT !in s {
      EscapeRoundTrip(s);
    } else if Unescape(Escape(s)).Some? {
      EscapeNeverGrows(s);
    }
  }

  /** Printable ASCII stays as it is, and any other byte becomes '%' and two upper-case hexadecimal
      digits. */
  lemma EscapeByteIs(b: byte)
    ensures EscapeByte(b) ==
            if 0x21 <= b <= 0x7e then [b]
            else [0x25, Ascii("0123456789ABCDEF")[b / 16], Ascii("0123456789ABCDEF")[b % 16]]
  {
    if !(0x21 <= b <= 0x7e) {
      HexUpperIs(b / 16);
      HexUpperIs(b % 16);
    }
  }

  lemma HexUpperIs(v: nat)
    requires v < 16
    ensures HexUpper(v) == Ascii("0123456789ABCDEF")[v]
  {
  }

  /** This holds of every byte, wherever it stands in the text. */
  lemma {:induction false} EscapeAt(a: bytes, b: byte, rest: bytes)
    ensures Escape(a + [b] + rest) == Escape(a) + EscapeByte(b) + Escape(rest)
    decreases |a|
  {
    hide EscapeByte;
    var s := a + [b] + rest;
    if a == [] {
      assert s[1..] == rest && s[0] == b;
      assert Escape([]) + EscapeByte(b) == EscapeByte(b);
    } else {
      EscapeAt(a[1..], b, rest);
      assert s[1..] == a[1..] + [b] + rest && s[0] == a[0];
      Assoc(EscapeByte(a[0]), Escape(a[1..]), EscapeByte(b) + Escape(rest));
      Assoc(Escape(a[1..]), EscapeByte(b), Escape(rest));
      Assoc(Escape(a), EscapeByte(b), Escape(rest));
    }
  }

  /** What the first byte of an escaped text stands for: itself, if it is printable and not '%' or
      not ASCII; with two hexadecimal digits after '%', their value; and anything else nothing. */
  lemma UnescapeFirst(b: byte, rest: bytes)
    ensures Unescape([b] + rest) ==
            if b == 0x25 then
              if |rest| >= 2 && IsHex(rest[0]) && IsHex(rest[1]) then
                After([HexDigit(rest[0]) * 16 + HexDigit(rest[1])], Unescape(rest[2..]))
              else None
            else if 0x21 <= b <= 0x7e || b >= 0x80 then After([b], Unescape(rest))
            else None
  {
    hide HexDigit;
    var s := [b] + rest;
    assert s[1..] == rest && s[0] == b;
    if |rest| >= 2 { assert s[3..] == rest[2..] && s[1] == rest[0] && s[2] == rest[1]; }
  }

  // ------------------------------------------------------------- httpurl_split

  const QUESTION: byte := 0x3f
  const HASH: byte := 0x23

  predicate NotHostStop(b: byte) { b != COLON && b != LBRACKET && b != SLASH }

  predicate NotSlash(b: byte) { b != SLASH }

  predicate NotBracket(b: byte) { b != RBRACKET }

  predicate NotPathStop(b: byte) { b != QUESTION && b != HASH }

  predicate NotHash(b: byte) { b != HASH }

  /** struct httpurl_parts: six parts of the URL, each set on its own. */
  datatype UrlParts = UrlParts(scheme: Span, host: Span, port: Span, path: Span, query: Span, hash: Span)

  const NO_SPAN := Span(0, 0)
  const NO_PARTS := UrlParts(NO_SPAN, NO_SPAN, NO_SPAN, NO_SPAN, NO_SPAN, NO_SPAN)

  /** "://" at i, with something after it. */
  predicate IsSchemeEnd(url: bytes, i: nat)
  {
    i + 3 < |url| && url[i] == COLON && url[i + 1] == SLASH && url[i + 2] == SLASH
  }

  /** httpurl_split: whether it returns 0, and the parts that are set. */
  function Split(url: bytes): (r: (bool, UrlParts))
    ensures Within(r.1.path, |url|) && Within(r.1.query, |url|)
  {
    var r := SkipWhile(url, 0, NotHostStop);
    if r == |url| then (true, NO_PARTS.(host := Span(0, r)))
    else if IsSchemeEnd(url, r) then
      var u, parts := r + 3, NO_PARTS.(scheme := Span(0, r + 3));
      var k := SkipWhile(url, u, NotHostStop);
      if k == |url| then (true, parts.(host := Span(u, k - u))) else SplitHost(url, u, k, parts)
    else SplitHost(url, 0, r, NO_PARTS)
  }

  predicate Within(x: Span, n: nat) { x.off + x.len <= n }

  /** From the host at u, whose scan ended at the byte p. */
  function SplitHost(url: bytes, u: nat, p: nat, parts: UrlParts): (r: (bool, UrlParts))
    requires u <= p < |url| && parts.path == parts.query == NO_SPAN
    ensures Within(r.1.path, |url|) && Within(r.1.query, |url|)
  {
    var end := |url|;
    if url[p] == LBRACKET then
      var b := SkipWhile(url, p, NotBracket);
      if b == end || b + 1 == end then (true, parts.(host := Span(u, end - u)))
      else SplitPort(url, b + 1, parts.(host := Span(u, b + 1 - u)))
    else SplitPort(url, p, parts.(host := Span(u, p - u)))
  }

  /** From the byte u after the host. */
  function SplitPort(url: bytes, u: nat, parts: UrlParts): (r: (bool, UrlParts))
    requires u < |url| && parts.path == parts.query == NO_SPAN
    ensures Within(r.1.path, |url|) && Within(r.1.query, |url|)
  {
    if url[u] == COLON then
      var e := SkipWhile(url, u, NotSlash);
      if e == |url| then (true, parts.(port := Span(u, e - u))) else SplitPath(url, e, parts.(port := Span(u, e - u)))
    else SplitPath(url, u, parts.(port := Span(u, 0)))
  }

  /** From the byte u after the port. */
  function SplitPath(url: bytes, u: nat, parts: UrlParts): (r: (bool, UrlParts))
    requires u < |url| && parts.path == parts.query == NO_SPAN
    ensures Within(r.1.path, |url|) && Within(r.1.query, |url|)
  {
    if url[u] != SLASH then (false, parts)
    else
      var a := SkipWhile(url, u, NotPathStop);
      if a == |url| then (true, parts.(path := Span(u, a - u)))
      else SplitQuery(url, a, parts.(path := Span(u, a - u)))
  }

  /** From the mark at a. */
  function SplitQuery(url: bytes, a: nat, parts: UrlParts): (r: (bool, UrlParts))
    requires a < |url| && Within(parts.path, |url|) && parts.query == NO_SPAN
    ensures Within(r.1.path, |url|) && Within(r.1.query, |url|)
  {
    if url[a] != QUESTION then (true, parts.(hash := Span(a, |url| - a)))
    else
      var q := SkipWhile(url, a, NotHash);
      if q == |url| then (true, parts.(query := Span(a, q - a)))
      else (true, parts.(query := Span(a, q - a), hash := Span(q, |url| - q)))
  }

  /** httpurl_split: the cursor u stands at the start of the next part, p at its end. */
  method HttpurlSplit(url: bytes) returns (r: int, parts: UrlParts)
    ensures (r == 0, parts) == Split(url) && (r == 0 || r == -1)
  {
    hide SkipWhile, SplitHost;
    var u, end := 0, |url|;
    parts := NO_PARTS;
    r := 0;
    var k := Skip(url, u, NotHostStop);
    if k < 0 {
      parts := parts.(host := Span(u, end - u));
      return;
    }
    var p := u + k;
    if p + 3 < end && url[p] == COLON && url[p + 1] == SLASH && url[p + 2] == SLASH {
      parts := parts.(scheme := Span(u, p + 3 - u));
      u := p + 3;
      k := Skip(url, u, NotHostStop);
      if k < 0 {
        parts := parts.(host := Span(u, end - u));
        return;
      }
      p := u + k;
    }
    r, parts := UrlRest(url, u, p, parts);
  }

  /** The part of httpurl_split from the host on. */
  method UrlRest(url: bytes, from: nat, hostEnd: nat, before: UrlParts) returns (r: int, parts: UrlParts)
    requires from <= hostEnd < |url| && before.path == before.query == NO_SPAN
    ensures (r == 0, parts) == SplitHost(url, from, hostEnd, before) && (r == 0 || r == -1)
  {
    hide SkipWhile, SplitPath;
    var p, u, end := hostEnd, from, |url|;
    parts := before;
    r := 0;
    var k := 0;
    if url[p] == LBRACKET {
      k := Skip(url, p, NotBracket);
      if k < 0 || p + k + 1 == end {
        parts := parts.(host := Span(u, end - u));
        return;
      }
      p := p + k + 1;
    }
    parts := parts.(host := Span(u, p - u));
    u := p;
    if url[p] == COLON {
      k := Skip(url, u, NotSlash);
      if k < 0 {
        parts := parts.(port := Span(u, end - u));
        return;
      }
      p := u + k;
    }
    parts := parts.(port := Span(u, p - u));
    r, parts := UrlPath(url, p, parts);
  }

  /** The part of httpurl_split from the path on. */
  method UrlPath(url: bytes, from: nat, before: UrlParts) returns (r: int, parts: UrlParts)
    requires from < |url| && before.path == before.query == NO_SPAN
    ensures (r == 0, parts) == SplitPath(url, from, before) && (r == 0 || r == -1)
  {
    hide SkipWhile;
    var u, end := from, |url|;
    parts := before;
    r := 0;
    if url[u] != SLASH { return -1, parts; }
    var k := Skip(url, u, NotPathStop);
    if k < 0 {
      parts := parts.(path := Span(u, end - u));
      return;
    }
    parts := parts.(path := Span(u, k));
    u := u + k;
    if url[u] == QUESTION {
      k := Skip(url, u, NotHash);
      if k < 0 {
        parts := parts.(query := Span(u, end - u));
        return;
      }
      parts := parts.(query := Span(u, k));
      u := u + k;
    }
    parts := parts.(hash := Span(u, end - u));
  }

  // ------------------------------------------------------------ the URL grammar

  /** Where the parts of a URL end: scheme [0, s), host [s, h), port [h, p), path [p, a), query
      [a, q), hash [q, |url|). */
  datatype Cuts = Cuts(s: nat, h: nat, p: nat, a: nat, q: nat)

  /** A scheme is everything up to the first ':', '[' or '/', if that is a "://" with something
      after it, together with the "://". */
  function SchemeLength(url: bytes): (u: nat)
    ensures u <= |url|
  {
    var r := SkipWhile(url, 0, NotHostStop);
    if IsSchemeEnd(url, r) then r + 3 else 0
  }

  /** The host [u, h) stops at the first ':', '[' or '/', except that a bracketed address
      extends it to the ']', or to the end of the URL. */
  predicate IsHost(url: bytes, u: nat, h: nat)
    requires u <= h <= |url|
  {
    var k := SkipWhile(url, u, NotHostStop);
    if k < |url| && url[k] == LBRACKET then
      var b := SkipWhile(url, k, NotBracket);
      h == if b < |url| then b + 1 else b
    else h == k
  }

  /** The port [h, p) is empty or starts with ':' and extends to the '/' or the end. */
  predicate IsPort(url: bytes, h: nat, p: nat)
    requires h <= p <= |url|
  {
    if h < |url| && url[h] == COLON then
      h < p && AllIn(url, h, p, NotSlash) && (p < |url| ==> url[p] == SLASH)
    else h == p
  }

  /** Path [p, a), query [a, q) and the hash after it: each empty or starting with its mark. */
  predicate IsPathQueryHash(url: bytes, p: nat, a: nat, q: nat)
    requires p <= a <= q <= |url|
  {
    && (p < |url| ==> p < a && url[p] == SLASH && AllIn(url, p, a, NotPathStop))
    && (a < q ==> url[a] == QUESTION && AllIn(url, a, q, NotHash))
    && (q < |url| ==> url[q] == HASH)
  }

  /** The URL reads as scheme, host, port, path, query and hash with these ends. */
  predicate IsSplit(url: bytes, c: Cuts)
  {
    && c.s <= c.h <= c.p <= c.a <= c.q <= |url|
    && c.s == SchemeLength(url)
    && IsHost(url, c.s, c.h)
    && IsPort(url, c.h, c.p)
    && IsPathQueryHash(url, c.p, c.a, c.q)
  }

  /** The span is [i, j), or both are empty. */
  predicate Covers(x: Span, i: nat, j: nat) { i <= j && x.len == j - i && (x.len > 0 ==> x.off == i) }

  predicate SameParts(parts: UrlParts, c: Cuts, n: nat)
  {
    && Covers(parts.scheme, 0, c.s) && Covers(parts.host, c.s, c.h) && Covers(parts.port, c.h, c.p)
    && Covers(parts.path, c.p, c.a) && Covers(parts.query, c.a, c.q) && Covers(parts.hash, c.q, n)
  }

  // The parts that are set from each point of the program on, in terms of the grammar.

  lemma QuerySound(url: bytes, p: nat, a: nat, parts: UrlParts) returns (q: nat)
    requires p < a < |url| && url[p] == SLASH && AllIn(url, p, a, NotPathStop) && !NotPathStop(url[a])
    requires Within(parts.path, |url|) && parts.query == parts.hash == NO_SPAN
    ensures a <= q <= |url| && IsPathQueryHash(url, p, a, q)
    ensures var r := SplitQuery(url, a, parts);
            && r.0 && r.1 == parts.(query := r.1.query, hash := r.1.hash)
            && Covers(r.1.query, a, q) && Covers(r.1.hash, q, |url|)
  {
    hide SkipWhile;
    q := if url[a] == QUESTION then SkipWhile(url, a, NotHash) else a;
  }

  lemma PathSound(url: bytes, p: nat, parts: UrlParts) returns (a: nat, q: nat)
    requires p < |url| && parts.path == parts.query == parts.hash == NO_SPAN
    ensures var r := SplitPath(url, p, parts);
            if url[p] == SLASH then
              && p <= a <= q <= |url| && IsPathQueryHash(url, p, a, q)
              && r.0 && r.1 == parts.(path := r.1.path, query := r.1.query, hash := r.1.hash)
              && Covers(r.1.path, p, a) && Covers(r.1.query, a, q) && Covers(r.1.hash, q, |url|)
            else r == (false, parts)
  {
    hide SkipWhile, SplitQuery;
    a, q := SkipWhile(url, p, NotPathStop), |url|;
    if url[p] == SLASH && a < |url| {
      q := QuerySound(url, p, a, parts.(path := Span(p, a - p)));
    }
  }

  lemma PortSound(url: bytes, h: nat, parts: UrlParts) returns (p: nat, a: nat, q: nat)
    requires h < |url| && parts.port == parts.path == parts.query == parts.hash == NO_SPAN
    ensures var r := SplitPort(url, h, parts);
            if url[h] == COLON || url[h] == SLASH then
              && h <= p <= a <= q <= |url| && IsPort(url, h, p) && IsPathQueryHash(url, p, a, q)
              && r.0 && r.1 == parts.(port := r.1.port, path := r.1.path, query := r.1.query, hash := r.1.hash)
              && Covers(r.1.port, h, p) && Covers(r.1.path, p, a) && Covers(r.1.query, a, q)
              && Covers(r.1.hash, q, |url|)
            else !r.0
  {
    hide SkipWhile, SplitPath, IsPathQueryHash;
    p := if url[h] == COLON then SkipWhile(url, h, NotSlash) else h;
    if p == |url| {
      a, q := p, p;
      NothingLeft(url);
    } else {
      a, q := PathSound(url, p, parts.(port := Span(h, p - h)));
    }
  }

  lemma NothingLeft(url: bytes)
    ensures IsPort(url, |url|, |url|) && IsPathQueryHash(url, |url|, |url|, |url|)
  {
  }

  lemma HostSound(url: bytes, u: nat, k: nat, parts: UrlParts) returns (h: nat, p: nat, a: nat, q: nat)
    requires u <= k < |url| && k == SkipWhile(url, u, NotHostStop)
    requires parts.host == parts.port == parts.path == parts.query == parts.hash == NO_SPAN
    ensures var r := SplitHost(url, u, k, parts);
            && u <= h <= |url| && IsHost(url, u, h)
            && if h == |url| || url[h] == COLON || url[h] == SLASH then
                 && h <= p <= a <= q <= |url| && IsPort(url, h, p) && IsPathQueryHash(url, p, a, q)
                 && r.0 && r.1 == parts.(host := r.1.host, port := r.1.port, path := r.1.path, query := r.1.query,
                                         hash := r.1.hash)
                 && Covers(r.1.host, u, h) && Covers(r.1.port, h, p) && Covers(r.1.path, p, a)
                 && Covers(r.1.query, a, q) && Covers(r.1.hash, q, |url|)
               else !r.0
  {
    hide SkipWhile, SplitPort, IsPort, IsPathQueryHash;
    h := k;
    if url[k] == LBRACKET {
      var b := SkipWhile(url, k, NotBracket);
      h := if b < |url| then b + 1 else b;
    }
    if h == |url| {
      p, a, q := h, h, h;
      NothingLeft(url);
    } else {
      p, a, q := PortSound(url, h, parts.(host := Span(u, h - u)));
    }
  }

  /** Splitting succeeds exactly when the host is followed by nothing, a port or a path, and then
      sets the parts of the grammar. */
  lemma SplitSound(url: bytes) returns (c: Cuts)
    ensures c.s <= c.h <= |url| && c.s == SchemeLength(url) && IsHost(url, c.s, c.h)
    ensures Split(url).0 <==> c.h == |url| || url[c.h] == COLON || url[c.h] == SLASH
    ensures Split(url).0 ==> IsSplit(url, c) && SameParts(Split(url).1, c, |url|)
  {
    hide SkipWhile, SplitHost, IsPort, IsPathQueryHash;
    var u, n := SchemeLength(url), |url|;
    var k := SkipWhile(url, u, NotHostStop);
    if k == n {
      c := Cuts(u, n, n, n, n);
      NothingLeft(url);
    } else {
      var h, p, a, q := HostSound(url, u, k, if u > 0 then NO_PARTS.(scheme := Span(0, u)) else NO_PARTS);
      c := Cuts(u, h, p, a, q);
    }
  }

  /** A refused URL has no path and no query. */
  lemma RefusedPath(url: bytes)
    requires !Split(url).0
    ensures Split(url).1.path == Split(url).1.query == NO_SPAN
  {
    hide SkipWhile;
  }

  /** Every URL is split in at most one way. */
  lemma SplitUnique(url: bytes, c: Cuts, c': Cuts)
    requires IsSplit(url, c) && IsSplit(url, c')
    ensures c == c'
  {
    hide SkipWhile, SchemeLength;
    assert c.s == c'.s && c.h == c'.h;
    PortUnique(url, c.h, c.p, c'.p);
    PathUnique(url, c.p, c.a, c.q, c'.a, c'.q);
  }

  lemma PortUnique(url: bytes, h: nat, p: nat, p': nat)
    requires h <= p <= |url| && h <= p' <= |url| && IsPort(url, h, p) && IsPort(url, h, p')
    ensures p == p'
  {
    if h < |url| && url[h] == COLON {
      SkipUnique(url, h, NotSlash, p);
      SkipUnique(url, h, NotSlash, p');
    }
  }

  lemma PathUnique(url: bytes, p: nat, a: nat, q: nat, a': nat, q': nat)
    requires p <= a <= q <= |url| && p <= a' <= q' <= |url|
    requires IsPathQueryHash(url, p, a, q) && IsPathQueryHash(url, p, a', q')
    ensures a == a' && q == q'
  {
    if p < |url| {
      SkipUnique(url, p, NotPathStop, a);
      SkipUnique(url, p, NotPathStop, a');
      if a < |url| && url[a] == QUESTION {
        SkipUnique(url, a, NotHash, q);
        SkipUnique(url, a, NotHash, q');
      }
    }
  }

  /** httpurl_split finds exactly the parts of the grammar: it returns 0 with these parts if and
      only if the URL reads that way. */
  lemma SplitMeaning(url: bytes, c: Cuts)
    ensures Split(url).0 && SameParts(Split(url).1, c, |url|) <==> IsSplit(url, c)
  {
    hide Split, IsSplit, SameParts, IsHost, SchemeLength;
    var c' := SplitSound(url);
    if IsSplit(url, c) {
      SplitEnds(url, c, c');
      SplitUnique(url, c, c');
    }
    if Split(url).0 && SameParts(Split(url).1, c, |url|) {
      SamePartsUnique(Split(url).1, c, c', |url|);
    }
  }

  /** A URL that reads as parts has nothing, a port or a path after its host. */
  lemma SplitEnds(url: bytes, c: Cuts, c': Cuts)
    requires IsSplit(url, c)
    requires c'.s <= c'.h <= |url| && c'.s == SchemeLength(url) && IsHost(url, c'.s, c'.h)
    ensures c'.h == |url| || url[c'.h] == COLON || url[c'.h] == SLASH
  {
    hide SchemeLength, SkipWhile;
  }

  lemma SamePartsUnique(parts: UrlParts, c: Cuts, c': Cuts, n: nat)
    requires SameParts(parts, c, n) && SameParts(parts, c', n)
    ensures c == c'
  {
  }

  // -------------------------------------------------------------- no byte lost

  function SpanList(parts: UrlParts): seq<Span>
  {
    [parts.scheme, parts.host, parts.port, parts.path, parts.query, parts.hash]
  }

  /** Every span that is not empty starts where the one before it ends, the first at `at`, and the
      last ends at n. */
  predicate Adjacent(xs: seq<Span>, at: nat, n: nat)
  {
    if xs == [] then at == n
    else (xs[0].len > 0 ==> xs[0].off == at) && Adjacent(xs[1..], at + xs[0].len, n)
  }

  /** The text of a part; an empty one has none, wherever it points. */
  function PartText(url: bytes, x: Span): bytes
  {
    if x.len > 0 && Within(x, |url|) then url[x.off..x.off + x.len] else []
  }

  function Joined(url: bytes, xs: seq<Span>): bytes
  {
    if xs == [] then [] else PartText(url, xs[0]) + Joined(url, xs[1..])
  }

  lemma PartAt(url: bytes, x: Span, at: nat)
    requires (x.len > 0 ==> x.off == at) && at + x.len <= |url|
    ensures PartText(url, x) == url[at..at + x.len]
  {
  }

  /** Adjacent parts make up the URL. */
  lemma {:induction false} AdjacentJoined(url: bytes, xs: seq<Span>, at: nat)
    requires at <= |url| && Adjacent(xs, at, |url|)
    ensures Joined(url, xs) == url[at..]
    decreases |xs|
  {
    hide PartText;
    if xs == [] {
    } else {
      var next := at + xs[0].len;
      AdjacentFits(xs[1..], next, |url|);
      AdjacentJoined(url, xs[1..], next);
      PartAt(url, xs[0], at);
      assert url[at..next] + url[next..] == url[at..];
    }
  }

  lemma {:induction false} AdjacentWithin(xs: seq<Span>, at: nat, n: nat)
    requires Adjacent(xs, at, n)
    ensures forall k :: 0 <= k < |xs| && xs[k].len > 0 ==> Within(xs[k], n)
    decreases |xs|
  {
    if xs == [] {
    } else {
      AdjacentFits(xs[1..], at + xs[0].len, n);
      AdjacentWithin(xs[1..], at + xs[0].len, n);
      assert forall k :: 0 < k < |xs| ==> xs[k] == xs[1..][k - 1];
    }
  }

  lemma {:induction false} AdjacentFits(xs: seq<Span>, at: nat, n: nat)
    requires Adjacent(xs, at, n)
    ensures at <= n
    decreases |xs|
  {
    if xs == [] {
    } else {
      AdjacentFits(xs[1..], at + xs[0].len, n);
    }
  }

  /** Whenever httpurl_split returns 0, the six parts lie within the URL, those that are not empty
      are adjacent, and scheme, host, port, path, query and hash together are the URL. */
  lemma SplitLossless(url: bytes)
    requires Split(url).0
    ensures var xs := SpanList(Split(url).1);
            && Adjacent(xs, 0, |url|) && Joined(url, xs) == url
            && forall k :: 0 <= k < |xs| && xs[k].len > 0 ==> Within(xs[k], |url|)
  {
    hide Split, IsSplit;
    var c := SplitSound(url);
    AdjacentParts(Split(url).1, c, |url|);
    AdjacentJoined(url, SpanList(Split(url).1), 0);
    AdjacentWithin(SpanList(Split(url).1), 0, |url|);
  }

  lemma AdjacentParts(parts: UrlParts, c: Cuts, n: nat)
    requires SameParts(parts, c, n)
    ensures Adjacent(SpanList(parts), 0, n)
  {
    var xs := SpanList(parts);
    assert xs[5..] == [parts.hash] && xs[5..][1..] == [];
    assert Adjacent(xs[5..], c.q, n);
    assert xs[4..][1..] == xs[5..] && Adjacent(xs[4..], c.a, n);
    assert xs[3..][1..] == xs[4..] && Adjacent(xs[3..], c.p, n);
    assert xs[2..][1..] == xs[3..] && Adjacent(xs[2..], c.h, n);
    assert xs[1..][1..] == xs[2..] && Adjacent(xs[1..], c.s, n);
  }
}

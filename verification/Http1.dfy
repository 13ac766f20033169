/** The incremental HTTP/1 line parsers. Each parser is given the bytes received so far and
    answers "need more data", "bad" or the number of bytes of the line. A grammar, written
    without reference to the parsers, says which lines there are; the parsers are proved to
    find exactly the lines of the grammar, and their verdicts to be stable when more data
    arrives. */
module Http1 {
  import opened Bytes

  datatype Verdict<+T> = More | Bad | Line(n: nat, value: T)

  predicate IsUpper(b: byte) { 0x41 <= b <= 0x5a }

  const DASH: byte := 0x2d

  predicate IsNameChar(b: byte)
  {
    b == DASH || IsDigit(b) || IsUpper(b) || 0x61 <= b <= 0x7a
  }

  predicate IsText(b: byte) { 0x20 <= b <= 0x7e }

  /** Line end at i: LF, or CR LF. */
  predicate IsEolAt(s: bytes, i: nat, n: nat)
  {
    || (n == i + 1 && n <= |s| && s[i] == LF)
    || (n == i + 2 && n <= |s| && s[i] == CR && s[i + 1] == LF)
  }

  function Eol(s: bytes, i: nat): (v: Verdict<()>)
    requires i < |s|
    ensures v.Line? ==> i < v.n <= |s|
  {
    if s[i] == CR then
      if i + 1 == |s| then More
      else if s[i + 1] == LF then Line(i + 2, ()) else Bad
    else if s[i] == LF then Line(i + 1, ()) else Bad
  }

  // ------------------------------------------------------------ request line

  /** A non-empty run [i, a) of bytes in p and the spaces [a, b) after it. */
  predicate IsWord(s: bytes, i: nat, p: byte -> bool, a: nat, b: nat)
  {
    && i < a < b < |s|
    && AllIn(s, i, a, p)
    && AllIn(s, a, b, IsSpace)
    && s[b] != SP
  }

  /** Scan one word and the spaces after it: the steps http_req_parse takes for the method
      and again for the target. */
  function Word(s: bytes, i: nat, p: byte -> bool): (v: Verdict<nat>)
    requires i <= |s|
    ensures v.Line? ==> i < v.value < v.n < |s|
  {
    var a := SkipWhile(s, i, p);
    if a == |s| then More
    else if a == i || s[a] != SP then Bad
    else
      var b := SkipWhile(s, a + 1, IsSpace);
      if b == |s| then More else Line(b, a)
  }

  lemma WordMeaning(s: bytes, i: nat, p: byte -> bool, a: nat, b: nat)
    requires i <= |s| && !p(SP)
    ensures Word(s, i, p) == Line(b, a) <==> IsWord(s, i, p, a, b)
  {
    if IsWord(s, i, p, a, b) {
      SkipUnique(s, i, p, a);
      SkipUnique(s, a + 1, IsSpace, b);
    }
  }

  lemma WordExtend(s: bytes, t: bytes, i: nat, p: byte -> bool)
    requires i <= |s| && Prefix(s, t) && !Word(s, i, p).More?
    ensures Word(t, i, p) == Word(s, i, p)
  {
    assert forall m :: 0 <= m < |s| ==> s[m] == t[..|s|][m] == t[m];
    SkipExtend(s, t, i, p);
    var a := SkipWhile(s, i, p);
    if a != i && s[a] == SP {
      SkipExtend(s, t, a + 1, IsSpace);
    }
  }

  /** Boundaries of a request line: method [0, a), spaces [a, b), target [b, c),
      spaces [c, d), version [d, e), spaces [e, f). */
  datatype ReqCut = ReqCut(a: nat, b: nat, c: nat, d: nat, e: nat, f: nat)

  /** "HTTP/1.0" or "HTTP/1.1" at d. */
  predicate IsVersion(s: bytes, d: nat)
    requires d + 8 <= |s|
  {
    s[d..d + 7] == [0x48, 0x54, 0x54, 0x50, 0x2f, 0x31, 0x2e] && (s[d + 7] == 0x30 || s[d + 7] == 0x31)
  }

  /** The first n bytes of s are a request line with these boundaries. */
  predicate IsRequestLine(s: bytes, cut: ReqCut, n: nat)
  {
    && IsWord(s, 0, IsUpper, cut.a, cut.b)
    && IsWord(s, cut.b, IsPrintable, cut.c, cut.d)
    && IsVersionEnd(s, cut.d, cut.e, cut.f, n)
  }

  /** From d: a version token [d, e) of at least 8 bytes, spaces [e, f) and the line end. */
  predicate IsVersionEnd(s: bytes, d: nat, e: nat, f: nat, n: nat)
  {
    && d + 8 <= e <= f < |s|
    && IsVersion(s, d)
    && AllIn(s, d, e, IsPrintable)
    && AllIn(s, e, f, IsSpace)
    && IsEolAt(s, f, n)
  }

  /** The buffer ends inside a version token, starting at d, that is longer than 8 bytes. */
  predicate IsLongVersion(s: bytes, d: nat)
  {
    d + 8 < |s| && IsVersion(s, d) && AllIn(s, d, |s|, IsPrintable)
  }

  predicate EndsInLongVersion(s: bytes)
  {
    var m := Word(s, 0, IsUpper);
    m.Line? &&
    var u := Word(s, m.n, IsPrintable);
    u.Line? && IsLongVersion(s, u.n)
  }

  /** What http_req_parse answers from the version token on. */
  function VersionEnd(s: bytes, d: nat): (v: Verdict<(nat, nat)>)
    requires d < |s|
  {
    if d + 8 <= |s| && !IsVersion(s, d) then Bad
    else
      var e := SkipWhile(s, d, IsPrintable);
      if e == |s| then (if d + 8 < |s| then Bad else More)
      else if e < d + 8 then Bad
      else
        var f := SkipWhile(s, e, IsSpace);
        if f == |s| then More
        else match Eol(s, f)
             case More => More
             case Bad => Bad
             case Line(n, _) => Line(n, (e, f))
  }

  /** What http_req_parse answers. */
  function ReqLine(s: bytes): (v: Verdict<ReqCut>)
  {
    match Word(s, 0, IsUpper)
    case More => More
    case Bad => Bad
    case Line(b, a) =>
      match Word(s, b, IsPrintable)
      case More => More
      case Bad => Bad
      case Line(d, c) =>
        match VersionEnd(s, d)
        case More => More
        case Bad => Bad
        case Line(n, ef) => Line(n, ReqCut(a, b, c, d, ef.0, ef.1))
  }

  lemma VersionEndMeaning(s: bytes, d: nat, e: nat, f: nat, n: nat)
    requires d < |s|
    ensures VersionEnd(s, d) == Line(n, (e, f)) <==> IsVersionEnd(s, d, e, f, n)
  {
    if IsVersionEnd(s, d, e, f, n) {
      SkipUnique(s, d, IsPrintable, e);
      SkipUnique(s, e, IsSpace, f);
    }
  }

  /** http_req_parse finds exactly the request lines of the grammar, with their boundaries. */
  lemma ReqLineMeaning(s: bytes, cut: ReqCut, n: nat)
    ensures ReqLine(s) == Line(n, cut) <==> IsRequestLine(s, cut, n)
  {
    WordMeaning(s, 0, IsUpper, cut.a, cut.b);
    if IsWord(s, 0, IsUpper, cut.a, cut.b) {
      WordMeaning(s, cut.b, IsPrintable, cut.c, cut.d);
      if IsWord(s, cut.b, IsPrintable, cut.c, cut.d) {
        VersionEndMeaning(s, cut.d, cut.e, cut.f, n);
      }
    }
  }

  lemma VersionEndExtend(s: bytes, t: bytes, d: nat)
    requires d < |s| && Prefix(s, t) && !VersionEnd(s, d).More? && !IsLongVersion(s, d)
    ensures VersionEnd(t, d) == VersionEnd(s, d)
  {
    assert forall m :: 0 <= m < |s| ==> s[m] == t[..|s|][m] == t[m];
    if d + 8 <= |s| {
      assert s[d..d + 7] == t[d..d + 7];
    }
    SkipExtend(s, t, d, IsPrintable);
    var e := SkipWhile(s, d, IsPrintable);
    if e < |s| && d + 8 <= e {
      SkipExtend(s, t, e, IsSpace);
    }
  }

  /** The exception is real: such a buffer is rejected, yet accepted once a LF follows. */
  lemma LongVersionRejected(s: bytes)
    requires EndsInLongVersion(s)
    ensures ReqLine(s).Bad? && ReqLine(s + [LF]).Line?
  {
    hide Word, VersionEnd, IsLongVersion;
    var m := Word(s, 0, IsUpper);
    var u := Word(s, m.n, IsPrintable);
    var t := s + [LF];
    WordExtend(s, t, 0, IsUpper);
    WordExtend(s, t, m.n, IsPrintable);
    LongVersionEnd(s, u.n);
  }

  lemma LongVersionEnd(s: bytes, d: nat)
    requires d < |s| && IsLongVersion(s, d)
    ensures VersionEnd(s, d).Bad? && VersionEnd(s + [LF], d).Line?
  {
    var t := s + [LF];
    SkipUnique(s, d, IsPrintable, |s|);
    assert t[d..d + 7] == s[d..d + 7];
    VersionEndMeaning(t, d, |s|, |s|, |s| + 1);
  }

  /** A complete request line stays complete at the same length and boundaries when more data
      arrives; a rejection stays a rejection unless the buffer ends inside an over-long
      version token. */
  lemma ReqLineStable(s: bytes, t: bytes)
    requires Prefix(s, t)
    requires ReqLine(s).Line? || (ReqLine(s).Bad? && !EndsInLongVersion(s))
    ensures ReqLine(t) == ReqLine(s)
  {
    if EndsInLongVersion(s) {
      LongVersionRejected(s);
    } else {
      WordExtend(s, t, 0, IsUpper);
      var m := Word(s, 0, IsUpper);
      if m.Line? {
        WordExtend(s, t, m.n, IsPrintable);
        var u := Word(s, m.n, IsPrintable);
        if u.Line? {
          VersionEndExtend(s, t, u.n);
        }
      }
    }
  }

  /** A rejection is final exactly when the buffer does not end inside an over-long version
      token. */
  lemma ReqLineBadFinal(s: bytes)
    requires ReqLine(s).Bad?
    ensures (forall t :: Prefix(s, t) ==> ReqLine(t).Bad?) <==> !EndsInLongVersion(s)
  {
    if EndsInLongVersion(s) {
      LongVersionRejected(s);
      assert Prefix(s, s + [LF]);
    } else {
      forall t | Prefix(s, t) ensures ReqLine(t).Bad? {
        ReqLineStable(s, t);
      }
    }
  }

  // ------------------------------------------------------------ header line

  /** A header line: name [0, name), value [from, to). An empty name is the blank line that
      ends the header block. */
  datatype Header = Header(name: nat, from: nat, to: nat)

  /** A header field's text. */
  datatype Field = Field(name: bytes, val: bytes)

  function TrimEnd(s: bytes, i: nat, j: nat): (k: nat)
    requires i <= j <= |s|
    ensures i <= k <= j
    ensures AllIn(s, k, j, IsSpace)
    ensures k == i || s[k - 1] != SP
  {
    if i < j && s[j - 1] == SP then TrimEnd(s, i, j - 1) else j
  }

  /** The first n bytes of s are a header line or the blank line. The value has no spaces at
      its ends, no CR and no LF; [to, end) are the spaces after it. */
  predicate IsHeader(s: bytes, h: Header, end: nat, n: nat)
  {
    if h.name == 0 then h == Header(0, 0, 0) && end == 0 && IsEolAt(s, 0, n)
    else
      && h.name < h.from <= h.to <= end < |s|
      && AllIn(s, 0, h.name, IsNameChar) && s[0] != DASH
      && s[h.name] == COLON
      && AllIn(s, h.name + 1, h.from, IsSpace)
      && AllIn(s, h.from, h.to, NotEol)
      && AllIn(s, h.to, end, IsSpace)
      && (h.from < h.to ==> s[h.from] != SP && s[h.to - 1] != SP)
      && (h.from == h.to ==> end == h.to)
      && IsEolAt(s, end, n)
  }

  /** What http_hdr_parse answers. */
  function HeaderLine(s: bytes): (v: Verdict<Header>)
    ensures v.Line? ==> 0 < v.n <= |s| && v.value.name <= v.value.from <= v.value.to <= v.n
  {
    var a := SkipWhile(s, 0, IsNameChar);
    if a == |s| then More
    else if a == 0 then HeaderEol(s, 0, Header(0, 0, 0))
    else if s[a] != COLON || s[0] == DASH then Bad
    else
      var b := SkipWhile(s, a + 1, IsSpace);
      if b == |s| then More
      else
        var c := SkipWhile(s, b, NotEol);
        if c == |s| then More
        else HeaderEol(s, c, Header(a, b, TrimEnd(s, b, c)))
  }

  function HeaderEol(s: bytes, i: nat, h: Header): (v: Verdict<Header>)
    requires i < |s|
    ensures v.Line? ==> i < v.n <= |s| && v.value == h
  {
    match Eol(s, i)
    case More => More
    case Bad => Bad
    case Line(n, _) => Line(n, h)
  }

  /** http_hdr_parse finds exactly the header lines of the grammar. */
  lemma HeaderLineMeaning(s: bytes, h: Header, n: nat)
    ensures HeaderLine(s) == Line(n, h) <==> exists end :: IsHeader(s, h, end, n)
  {
    hide IsHeader, HeaderLine;
    if end :| IsHeader(s, h, end, n) {
      if h.name == 0 { BlankLineComplete(s, h, end, n); } else { HeaderLineComplete(s, h, end, n); }
    }
    if HeaderLine(s) == Line(n, h) {
      HeaderLineSound(s);
    }
  }

  lemma BlankLineComplete(s: bytes, h: Header, end: nat, n: nat)
    requires h.name == 0 && IsHeader(s, h, end, n)
    ensures HeaderLine(s) == Line(n, h)
  {
    SkipUnique(s, 0, IsNameChar, 0);
  }

  lemma HeaderLineSound(s: bytes)
    requires HeaderLine(s).Line?
    ensures var n, h := HeaderLine(s).n, HeaderLine(s).value;
            IsHeader(s, h, if h.name == 0 then 0 else SkipWhile(s, h.from, NotEol), n)
  {
    hide SkipWhile, TrimEnd;
  }

  lemma HeaderLineComplete(s: bytes, h: Header, end: nat, n: nat)
    requires h.name != 0 && IsHeader(s, h, end, n)
    ensures HeaderLine(s) == Line(n, h)
  {
    hide SkipWhile, TrimEnd, AllIn;
    SkipAllIn(s, 0, IsNameChar, h.name);
    assert h.from < h.to ==> NotEol(s[h.from]) by { AllInAt(s, h.from, h.to, NotEol, h.from); }
    assert h.to < end ==> IsSpace(s[h.to]) by { AllInAt(s, h.to, end, IsSpace, h.to); }
    SkipAllIn(s, h.name + 1, IsSpace, h.from);
    HeaderValueEnd(s, h.from, h.to, end);
    SkipAllIn(s, h.from, NotEol, end);
    TrimEndUnique(s, h.from, h.to, end);
  }

  lemma SkipAllIn(s: bytes, i: nat, p: byte -> bool, j: nat)
    requires i <= j <= |s| && AllIn(s, i, j, p) && (j < |s| ==> !p(s[j]))
    ensures SkipWhile(s, i, p) == j
  {
    SkipUnique(s, i, p, j);
  }

  lemma AllInAt(s: bytes, i: nat, j: nat, p: byte -> bool, k: nat)
    requires i <= j <= |s| && AllIn(s, i, j, p)
    ensures i <= k < j ==> p(s[k])
  {
  }

  lemma HeaderValueEnd(s: bytes, from: nat, to: nat, end: nat)
    requires from <= to <= end < |s| && AllIn(s, from, to, NotEol) && AllIn(s, to, end, IsSpace)
    ensures AllIn(s, from, end, NotEol)
  {
    assert forall k :: to <= k < end ==> IsSpace(s[k]);
  }

  lemma TrimEndUnique(s: bytes, i: nat, k: nat, j: nat)
    requires i <= k <= j <= |s| && AllIn(s, k, j, IsSpace) && (k == i || s[k - 1] != SP)
    ensures TrimEnd(s, i, j) == k
    decreases j
  {
    if k < j {
      assert IsSpace(s[j - 1]);
      TrimEndUnique(s, i, k, j - 1);
    }
  }

  lemma HeaderEolStable(s: bytes, t: bytes, i: nat, h: Header)
    requires i < |s| && Prefix(s, t) && !HeaderEol(s, i, h).More?
    ensures HeaderEol(t, i, h) == HeaderEol(s, i, h)
  {
    PrefixAt(s, t, i);
    if i + 1 < |s| { PrefixAt(s, t, i + 1); }
  }

  lemma PrefixAt(s: bytes, t: bytes, i: nat)
    requires i < |s| && Prefix(s, t)
    ensures t[i] == s[i]
  {
    assert t[..|s|][i] == t[i];
  }

  /** Every verdict but "need more data" is final. */
  lemma HeaderLineStable(s: bytes, t: bytes)
    requires Prefix(s, t) && !HeaderLine(s).More?
    ensures HeaderLine(t) == HeaderLine(s)
  {
    hide SkipWhile, HeaderEol, TrimEnd;
    SkipExtend(s, t, 0, IsNameChar);
    var a := SkipWhile(s, 0, IsNameChar);
    if a < |s| {
      PrefixAt(s, t, a);
      PrefixAt(s, t, 0);
      if a == 0 {
        HeaderEolStable(s, t, 0, Header(0, 0, 0));
      } else if s[a] == COLON && s[0] != DASH {
        HeaderValueStable(s, t, a);
      }
    }
  }

  lemma HeaderValueStable(s: bytes, t: bytes, a: nat)
    requires Prefix(s, t) && a < |s|
    requires SkipWhile(s, a + 1, IsSpace) < |s|
    requires SkipWhile(s, SkipWhile(s, a + 1, IsSpace), NotEol) < |s|
    requires var b := SkipWhile(s, a + 1, IsSpace);
             var c := SkipWhile(s, b, NotEol);
             !HeaderEol(s, c, Header(a, b, TrimEnd(s, b, c))).More?
    ensures var b := SkipWhile(s, a + 1, IsSpace);
            var c := SkipWhile(s, b, NotEol);
            && SkipWhile(t, a + 1, IsSpace) == b && SkipWhile(t, b, NotEol) == c && TrimEnd(t, b, c) == TrimEnd(s, b, c)
            && HeaderEol(t, c, Header(a, b, TrimEnd(s, b, c))) == HeaderEol(s, c, Header(a, b, TrimEnd(s, b, c)))
  {
    hide SkipWhile, HeaderEol, TrimEnd;
    SkipExtend(s, t, a + 1, IsSpace);
    var b := SkipWhile(s, a + 1, IsSpace);
    SkipExtend(s, t, b, NotEol);
    var c := SkipWhile(s, b, NotEol);
    TrimEndExtend(s, t, b, c);
    HeaderEolStable(s, t, c, Header(a, b, TrimEnd(s, b, c)));
  }

  lemma TrimEndExtend(s: bytes, t: bytes, i: nat, j: nat)
    requires i <= j <= |s| && Prefix(s, t)
    ensures TrimEnd(s, i, j) == TrimEnd(t, i, j)
  {
    assert forall m :: 0 <= m < |s| ==> s[m] == t[..|s|][m] == t[m];
  }

  // ----------------------------------------------------------- response line

  /** A response line: version [0, a), code, message [a + 5, e). */
  datatype RespCut = RespCut(a: nat, code: nat, e: nat)

  predicate IsResponseLine(s: bytes, cut: RespCut, n: nat)
  {
    && 0 < cut.a && cut.a + 5 <= cut.e < |s|
    && AllIn(s, 0, cut.a, IsPrintable)
    && s[cut.a] == SP && s[cut.a + 4] == SP
    && AllDigits(s[cut.a + 1..cut.a + 4], 10)
    && Value(s[cut.a + 1..cut.a + 4], 10) == cut.code
    && AllIn(s, cut.a + 5, cut.e, IsText)
    && IsEolAt(s, cut.e, n)
  }

  function Dec(b: byte): int { b as int - 0x30 }

  /** What http_resp_parse answers. */
  function RespLine(s: bytes): (v: Verdict<RespCut>)
  {
    var a := SkipWhile(s, 0, IsPrintable);
    if a == |s| then More
    else if a == 0 || s[a] != SP then Bad
    else
      var b := SkipWhile(s, a + 1, IsDigit);
      if b == |s| then More
      else if b != a + 4 || s[b] != SP then Bad
      else
        var e := SkipWhile(s, b + 1, IsText);
        if e == |s| then More
        else
          var code := Dec(s[a + 1]) * 100 + Dec(s[a + 2]) * 10 + Dec(s[a + 3]);
          match Eol(s, e)
          case More => More
          case Bad => Bad
          case Line(n, _) => Line(n, RespCut(a, code, e))
  }

  lemma ThreeDigits(s: bytes)
    requires |s| == 3
    ensures AllDigits(s, 10) <==> IsDigit(s[0]) && IsDigit(s[1]) && IsDigit(s[2])
    ensures AllDigits(s, 10) ==>
              Value(s, 10) == Dec(s[0]) * 100 + Dec(s[1]) * 10 + Dec(s[2])
  {
    assert forall i :: 0 <= i < 3 ==> (0 <= HexDigit(s[i]) < 10 <==> IsDigit(s[i]));
    if AllDigits(s, 10) {
      assert s[1..][1..] == s[2..] && s[2..][1..] == [];
      assert ValueFrom(0, s, 10) == ValueFrom(HexDigit(s[0]), s[1..], 10)
          == ValueFrom(HexDigit(s[0]) * 10 + HexDigit(s[1]), s[2..], 10);
    }
  }

  /** http_resp_parse finds exactly the response lines of the grammar. */
  lemma RespLineMeaning(s: bytes, cut: RespCut, n: nat)
    ensures RespLine(s) == Line(n, cut) <==> IsResponseLine(s, cut, n)
  {
    if cut.a + 4 < |s| {
      ThreeDigits(s[cut.a + 1..cut.a + 4]);
    }
    if IsResponseLine(s, cut, n) {
      SkipUnique(s, 0, IsPrintable, cut.a);
      SkipUnique(s, cut.a + 1, IsDigit, cut.a + 4);
      SkipUnique(s, cut.a + 5, IsText, cut.e);
    }
  }
}

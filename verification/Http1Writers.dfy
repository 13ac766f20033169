/** The HTTP/1 writers, the response head built with them, and the proof that the parsers undo
    them. */
module Http1Writers {
  import opened Bytes
  import opened Http1

  const HTTP11: bytes := Ascii("HTTP/1.1")

  function ReqLineText(verb: bytes, path: bytes): bytes
  {
    verb + ([SP] + (path + ([SP] + (HTTP11 + CRLF))))
  }

  /** The code is written as three digits. */
  function CodeText(code: nat): bytes
    requires code < 1000
  {
    [0x30 + code / 100, 0x30 + code % 100 / 10, 0x30 + code % 10]
  }

  function RespLineText(code: nat, msg: bytes): bytes
    requires code < 1000
  {
    HTTP11 + ([SP] + (CodeText(code) + ([SP] + (msg + CRLF))))
  }

  function HdrText(name: bytes, val: bytes): bytes
  {
    name + ([COLON, SP] + (val + CRLF))
  }

  // ---------------------------------------------------------------- writers

  /** http_req_write without escaping. */
  method HttpReqWrite(buf: array<byte>, p: nat, cap: nat, verb: bytes, path: bytes) returns (r: int)
    requires p + cap <= buf.Length
    modifies buf
    ensures var text := ReqLineText(verb, path);
            if |text| <= cap then r == |text| && buf[..p + r] == old(buf[..p]) + text
            else r == -1 && buf[..] == old(buf[..])
  {
    var n := |verb| + |path| + 8 + 4;
    if n > cap { return -1; }
    ghost var o := buf[..p];
    var q := Put(buf, p, verb);
    q := Put(buf, q, [SP]);
    q := Put(buf, q, path);
    q := Put(buf, q, [SP]);
    q := Put(buf, q, HTTP11 + CRLF);
    assert buf[..q] == o + ReqLineText(verb, path);
    r := n;
  }

  /** http_resp_write */
  method HttpRespWrite(buf: array<byte>, p: nat, cap: nat, code: nat, msg: bytes) returns (r: int)
    requires p + cap <= buf.Length && code < 1000
    modifies buf
    ensures var text := RespLineText(code, msg);
            if |text| <= cap then r == |text| && buf[..p + r] == old(buf[..p]) + text
            else r == -1 && buf[..] == old(buf[..])
  {
    var n := 8 + 3 + |msg| + 4;
    if n > cap { return -1; }
    ghost var o := buf[..p];
    var q := Put(buf, p, HTTP11);
    q := Put(buf, q, [SP]);
    q := Put(buf, q, CodeText(code));
    q := Put(buf, q, [SP]);
    q := Put(buf, q, msg);
    q := Put(buf, q, CRLF);
    assert buf[..q] == o + RespLineText(code, msg);
    r := n;
  }

  /** http_hdr_write: nothing is written when the line does not fit; without a buffer, and with a
      capacity that is too small, the result is the length that is needed. */
  method HttpHdrWrite(buf: array?<byte>, p: nat, cap: nat, name: bytes, val: bytes) returns (r: nat)
    requires if buf != null then p + cap <= buf.Length else cap < |HdrText(name, val)|
    modifies buf
    ensures var text := HdrText(name, val);
            if buf == null then r == |text|
            else if |text| <= cap then r == |text| && buf[..p + r] == old(buf[..p]) + text
            else r == 0 && buf[..] == old(buf[..])
  {
    var n := |name| + |val| + 4;
    if n > cap { return if buf != null then 0 else n; }
    ghost var o := buf[..p];
    var q := Put(buf, p, name);
    q := Put(buf, q, [COLON, SP]);
    q := Put(buf, q, val);
    q := Put(buf, q, CRLF);
    assert buf[..q] == o + HdrText(name, val);
    r := n;
  }

  // ---------------------------------------------------- parsers undo the writers

  predicate IsVerb(s: bytes) { s != [] && AllIn(s, 0, |s|, IsUpper) }

  predicate IsTarget(s: bytes) { s != [] && AllIn(s, 0, |s|, IsPrintable) }

  predicate IsName(s: bytes) { s != [] && AllIn(s, 0, |s|, IsNameChar) && s[0] != DASH }

  /** Free of CR and LF and of spaces at its ends. */
  predicate IsValue(s: bytes)
  {
    AllIn(s, 0, |s|, NotEol) && (s != [] ==> s[0] != SP && s[|s| - 1] != SP)
  }

  /** Take the text x off the front of s[i..]. */
  lemma Peel(s: bytes, i: nat, x: bytes, y: bytes, rest: bytes)
    requires i <= |s| && s[i..] == (x + y) + rest
    ensures i + |x| <= |s| && s[i..i + |x|] == x && s[i + |x|..] == y + rest
    ensures Holds(s, i, x)
  {
    var t := s[i..];
    assert t == x + (y + rest);
    assert t[..|x|] == x && t[|x|..] == y + rest;
    assert forall k :: i <= k < i + |x| ==> s[k] == t[k - i];
  }

  /** The bytes of s around i are those of x. */
  predicate Holds(s: bytes, i: nat, x: bytes)
  {
    i + |x| <= |s| && forall k :: i <= k < i + |x| ==> s[k] == x[k - i]
  }

  lemma HoldsSlice(s: bytes, i: nat, x: bytes)
    requires Holds(s, i, x)
    ensures s[i..i + |x|] == x
  {
  }

  lemma ReqLineLayout(s: bytes, verb: bytes, path: bytes, rest: bytes)
    requires s == ReqLineText(verb, path) + rest
    ensures var a, d := |verb|, |verb| + |path| + 2;
            && Holds(s, 0, verb) && Holds(s, a, [SP]) && Holds(s, a + 1, path) && Holds(s, d - 1, [SP])
            && Holds(s, d, HTTP11) && Holds(s, d + 8, CRLF)
  {
    hide Holds;
    var a, d := |verb|, |verb| + |path| + 2;
    var t3 := HTTP11 + CRLF;
    var t2 := path + ([SP] + t3);
    assert s[0..] == s;
    Peel(s, 0, verb, [SP] + t2, rest);
    Peel(s, a, [SP], t2, rest);
    Peel(s, a + 1, path, [SP] + t3, rest);
    Peel(s, d - 1, [SP], t3, rest);
    Peel(s, d, HTTP11, CRLF, rest);
    assert CRLF + [] == CRLF;
    Peel(s, d + 8, CRLF, [], rest);
  }

  lemma ReqLineFromParts(s: bytes, verb: bytes, path: bytes)
    requires IsVerb(verb) && IsTarget(path)
    requires var a, d := |verb|, |verb| + |path| + 2;
             && Holds(s, 0, verb) && Holds(s, a, [SP]) && Holds(s, a + 1, path) && Holds(s, d - 1, [SP])
             && Holds(s, d, HTTP11) && Holds(s, d + 8, CRLF)
    ensures var a, d := |verb|, |verb| + |path| + 2;
            ReqLine(s) == Line(d + 10, ReqCut(a, a + 1, d - 1, d, d + 8, d + 8))
  {
    hide IsWord, IsVersionEnd, ReqLine;
    var a, d := |verb|, |verb| + |path| + 2;
    assert s[a] == [SP][0] && s[a + 1] == path[0];
    assert s[d - 1] == [SP][0] && s[d] == HTTP11[0];
    WordFromParts(s, 0, verb, IsUpper);
    WordFromParts(s, a + 1, path, IsPrintable);
    VersionFromParts(s, d);
    ReqLineMeaning(s, ReqCut(a, a + 1, d - 1, d, d + 8, d + 8), d + 10);
  }

  lemma WordFromParts(s: bytes, i: nat, word: bytes, p: byte -> bool)
    requires word != [] && AllIn(word, 0, |word|, p)
    requires Holds(s, i, word) && i + |word| + 1 < |s| && s[i + |word|] == SP && s[i + |word| + 1] != SP
    ensures IsWord(s, i, p, i + |word|, i + |word| + 1)
  {
  }

  lemma VersionFromParts(s: bytes, d: nat)
    requires Holds(s, d, HTTP11) && Holds(s, d + 8, CRLF)
    ensures IsVersionEnd(s, d, d + 8, d + 8, d + 10)
  {
    assert s[d + 7] == HTTP11[7] && s[d..d + 7] == HTTP11[..7];
    assert s[d + 8] == CRLF[0] && s[d + 9] == CRLF[1];
  }

  /** http_req_parse gives back the method and the target that http_req_write wrote. */
  lemma ReqLineRoundTrip(s: bytes, verb: bytes, path: bytes, rest: bytes)
    requires IsVerb(verb) && IsTarget(path) && s == ReqLineText(verb, path) + rest
    ensures var a, d := |verb|, |verb| + |path| + 2;
            && ReqLine(s) == Line(|ReqLineText(verb, path)|, ReqCut(a, a + 1, d - 1, d, d + 8, d + 8))
            && s[..a] == verb && s[a + 1..d - 1] == path && s[d..d + 8] == HTTP11
  {
    hide ReqLine, IsVerb, IsTarget, Holds;
    ReqLineLayout(s, verb, path, rest);
    ReqLineFromParts(s, verb, path);
    HoldsSlice(s, 0, verb);
    HoldsSlice(s, |verb| + 1, path);
    HoldsSlice(s, |verb| + |path| + 2, HTTP11);
  }

  lemma RespLineLayout(s: bytes, code: nat, msg: bytes, rest: bytes)
    requires code < 1000 && s == RespLineText(code, msg) + rest
    ensures && Holds(s, 0, HTTP11) && Holds(s, 8, [SP]) && Holds(s, 9, CodeText(code)) && Holds(s, 12, [SP])
            && Holds(s, 13, msg) && Holds(s, 13 + |msg|, CRLF)
  {
    hide Holds;
    var t1 := CodeText(code) + ([SP] + (msg + CRLF));
    assert s[0..] == s;
    Peel(s, 0, HTTP11, [SP] + t1, rest);
    Peel(s, 8, [SP], t1, rest);
    Peel(s, 9, CodeText(code), [SP] + (msg + CRLF), rest);
    Peel(s, 12, [SP], msg + CRLF, rest);
    Peel(s, 13, msg, CRLF, rest);
    assert CRLF + [] == CRLF;
    Peel(s, 13 + |msg|, CRLF, [], rest);
  }

  lemma RespLineFromParts(s: bytes, code: nat, msg: bytes)
    requires code < 1000 && AllIn(msg, 0, |msg|, IsText)
    requires Holds(s, 0, HTTP11) && Holds(s, 8, [SP]) && Holds(s, 9, CodeText(code)) && Holds(s, 12, [SP])
    requires Holds(s, 13, msg) && Holds(s, 13 + |msg|, CRLF)
    ensures RespLine(s) == Line(15 + |msg|, RespCut(8, code, 13 + |msg|))
  {
    hide RespLine;
    var e := 13 + |msg|;
    assert s[8] == [SP][0] && s[12] == [SP][0] && s[e] == CRLF[0] && s[e + 1] == CRLF[1];
    assert s[9..12] == CodeText(code);
    ThreeDigits(CodeText(code));
    assert AllIn(s, 0, 8, IsPrintable);
    RespLineMeaning(s, RespCut(8, code, e), e + 2);
  }

  /** http_resp_parse gives back the code and the message that http_resp_write wrote. */
  lemma RespLineRoundTrip(s: bytes, code: nat, msg: bytes, rest: bytes)
    requires code < 1000 && AllIn(msg, 0, |msg|, IsText) && s == RespLineText(code, msg) + rest
    ensures RespLine(s) == Line(|RespLineText(code, msg)|, RespCut(8, code, 13 + |msg|))
    ensures s[..8] == HTTP11 && s[13..13 + |msg|] == msg
  {
    hide RespLine, Holds;
    RespLineLayout(s, code, msg, rest);
    RespLineFromParts(s, code, msg);
    HoldsSlice(s, 0, HTTP11);
    HoldsSlice(s, 13, msg);
  }

  lemma HdrLayout(s: bytes, name: bytes, val: bytes, rest: bytes)
    requires s == HdrText(name, val) + rest
    ensures var b := |name| + 2;
            && Holds(s, 0, name) && Holds(s, |name|, [COLON, SP]) && Holds(s, b, val)
            && Holds(s, b + |val|, CRLF)
  {
    hide Holds;
    var b := |name| + 2;
    assert s[0..] == s;
    Peel(s, 0, name, [COLON, SP] + (val + CRLF), rest);
    Peel(s, |name|, [COLON, SP], val + CRLF, rest);
    Peel(s, b, val, CRLF, rest);
    assert CRLF + [] == CRLF;
    Peel(s, b + |val|, CRLF, [], rest);
  }

  lemma HdrFromParts(s: bytes, name: bytes, val: bytes)
    requires IsName(name) && IsValue(val)
    requires var b := |name| + 2;
             && Holds(s, 0, name) && Holds(s, |name|, [COLON, SP]) && Holds(s, b, val)
             && Holds(s, b + |val|, CRLF)
    ensures var b, e := |name| + 2, |name| + 2 + |val|;
            HeaderLine(s) == Line(e + 2, Header(|name|, b, e))
  {
    var b, e := |name| + 2, |name| + 2 + |val|;
    assert s[0] == name[0];
    assert s[|name|] == [COLON, SP][0] && s[|name| + 1] == [COLON, SP][1];
    assert s[e] == CRLF[0] && s[e + 1] == CRLF[1];
    assert val != [] ==> s[b] == val[0] && s[e - 1] == val[|val| - 1];
    HeaderLineComplete(s, Header(|name|, b, e), e, e + 2);
  }

  /** http_hdr_parse gives back the name and the value that http_hdr_write wrote. */
  lemma HdrRoundTrip(s: bytes, name: bytes, val: bytes, rest: bytes)
    requires IsName(name) && IsValue(val) && s == HdrText(name, val) + rest
    ensures var b := |name| + 2;
            && HeaderLine(s) == Line(|HdrText(name, val)|, Header(|name|, b, b + |val|))
            && s[..|name|] == name && s[b..b + |val|] == val
  {
    hide HeaderLine, Holds, IsName, IsValue;
    HdrLayout(s, name, val, rest);
    HdrFromParts(s, name, val);
    HoldsSlice(s, 0, name);
    HoldsSlice(s, |name| + 2, val);
  }

  // ------------------------------------------------------------ header blocks

  /** Repeated http_hdr_parse, up to and including the blank line. */
  function HeaderBlock(s: bytes): (v: Verdict<seq<Field>>)
    ensures v.Line? ==> 0 < v.n <= |s|
    decreases |s|
  {
    match HeaderLine(s)
    case More => More
    case Bad => Bad
    case Line(n, h) =>
      if h.name == 0 then Line(n, [])
      else match HeaderBlock(s[n..])
           case More => More
           case Bad => Bad
           case Line(m, fs) => Line(n + m, [Field(s[..h.name], s[h.from..h.to])] + fs)
  }

  function FieldsText(fs: seq<Field>): bytes
  {
    if fs == [] then [] else HdrText(fs[0].name, fs[0].val) + FieldsText(fs[1..])
  }

  predicate AreFields(fs: seq<Field>)
  {
    forall f :: f in fs ==> IsName(f.name) && IsValue(f.val)
  }

  lemma BlankLine(rest: bytes)
    ensures HeaderBlock(CRLF + rest) == Line(2, [])
  {
    var s := CRLF + rest;
    assert IsHeader(s, Header(0, 0, 0), 0, 2);
    HeaderLineMeaning(s, Header(0, 0, 0), 2);
  }

  lemma NamePresent(name: bytes)
    requires IsName(name)
    ensures |name| > 0
  {
  }

  lemma HeaderBlockNext(s: bytes, n: nat, h: Header, m: nat, fs: seq<Field>)
    requires HeaderLine(s) == Line(n, h) && h.name > 0 && HeaderBlock(s[n..]) == Line(m, fs)
    ensures HeaderBlock(s) == Line(n + m, [Field(s[..h.name], s[h.from..h.to])] + fs)
  {
    hide HeaderLine;
  }

  lemma HeaderBlockStep(f: Field, more: bytes)
    requires IsName(f.name) && IsValue(f.val) && HeaderBlock(more).Line?
    ensures HeaderBlock(HdrText(f.name, f.val) + more)
         == Line(|HdrText(f.name, f.val)| + HeaderBlock(more).n, [f] + HeaderBlock(more).value)
  {
    hide HeaderLine, HeaderBlock, HdrText, IsName, IsValue;
    var s := HdrText(f.name, f.val) + more;
    HdrRoundTrip(s, f.name, f.val, more);
    NamePresent(f.name);
    assert s[|HdrText(f.name, f.val)|..] == more;
    var b := |f.name| + 2;
    HeaderBlockNext(s, |HdrText(f.name, f.val)|, Header(|f.name|, b, b + |f.val|), HeaderBlock(more).n, HeaderBlock(more).value);
  }

  /** Repeated http_hdr_parse gives back the fields that were written and consumes exactly
      their text and the blank line. */
  lemma {:induction false} HeaderBlockRoundTrip(fs: seq<Field>, rest: bytes)
    requires AreFields(fs)
    ensures HeaderBlock(FieldsText(fs) + CRLF + rest) == Line(|FieldsText(fs)| + 2, fs)
  {
    hide HeaderBlock, HdrText, IsName, IsValue;
    var s := FieldsText(fs) + CRLF + rest;
    if fs == [] {
      assert s == CRLF + rest;
      BlankLine(rest);
    } else {
      HeaderBlockRoundTrip(fs[1..], rest);
      HeaderBlockStep(fs[0], FieldsText(fs[1..]) + CRLF + rest);
      assert s == HdrText(fs[0].name, fs[0].val) + (FieldsText(fs[1..]) + CRLF + rest);
      assert fs == [fs[0]] + fs[1..];
    }
  }

  // ------------------------------------------------------------ response head

  const CONTENT_LENGTH: bytes := Ascii("Content-Length")
  const LOCATION: bytes := Ascii("Location")
  const LAST_MODIFIED: bytes := Ascii("Last-Modified")
  const CONTENT_TYPE: bytes := Ascii("Content-Type")
  const SERVER: bytes := Ascii("Server")
  const CONNECTION: bytes := Ascii("Connection")
  const KEEP_ALIVE: bytes := Ascii("keep-alive")
  const CLOSE: bytes := Ascii("close")

  /** What ahresp_process writes; an empty value means the field is left out. */
  datatype HeadInfo = HeadInfo(
    code: nat, msg: bytes, contentLength: Option<nat>, location: bytes, lastModified: bytes,
    contentType: bytes, server: bytes, keepAlive: bool)

  /** A field that is present when its value is not empty. */
  function Present(name: bytes, val: bytes): seq<Field>
  {
    if val == [] then [] else [Field(name, val)]
  }

  /** The fields of the head, in order. */
  function HeadFields(h: HeadInfo): seq<Field>
  {
    (if h.contentLength.Some? then [Field(CONTENT_LENGTH, Digits(h.contentLength.value, 10))] else [])
    + Present(LOCATION, h.location)
    + Present(LAST_MODIFIED, h.lastModified)
    + Present(CONTENT_TYPE, h.contentType)
    + Present(SERVER, h.server)
    + [Field(CONNECTION, if h.keepAlive then KEEP_ALIVE else CLOSE)]
  }

  /** The whole head, when there is room for it. */
  function Head(h: HeadInfo): bytes
    requires h.code < 1000
  {
    RespLineText(h.code, h.msg) + FieldsText(HeadFields(h)) + CRLF
  }

  predicate IsHeadInfo(h: HeadInfo)
  {
    && h.code < 1000 && AllIn(h.msg, 0, |h.msg|, IsText)
    && IsValue(h.location) && IsValue(h.lastModified) && IsValue(h.contentType) && IsValue(h.server)
  }

  lemma DigitsAreValue(n: nat)
    ensures IsValue(Digits(n, 10))
  {
    var s := Digits(n, 10);
    assert forall i :: 0 <= i < |s| ==> HexDigit(s[i]) >= 0;
    assert HexDigit(s[0]) >= 0 && HexDigit(s[|s| - 1]) >= 0;
  }

  lemma NamesAreNames()
    ensures IsName(CONTENT_LENGTH) && IsName(LOCATION) && IsName(LAST_MODIFIED)
    ensures IsName(CONTENT_TYPE) && IsName(SERVER) && IsName(CONNECTION)
    ensures IsValue(KEEP_ALIVE) && IsValue(CLOSE)
  {
  }

  lemma HeadFieldsAreFields(h: HeadInfo)
    requires IsHeadInfo(h)
    ensures AreFields(HeadFields(h))
  {
    hide IsName, IsValue, Digits;
    if h.contentLength.Some? {
      DigitsAreValue(h.contentLength.value);
    }
    NamesAreNames();
  }

  lemma InfoText(h: HeadInfo)
    requires IsHeadInfo(h)
    ensures h.code < 1000 && AllIn(h.msg, 0, |h.msg|, IsText)
  {
  }

  /** A client that runs http_resp_parse and then http_hdr_parse repeatedly gets back the code,
      the message and the fields, and consumes exactly the head, whatever body follows. */
  lemma HeadRoundTrip(h: HeadInfo, body: bytes)
    requires IsHeadInfo(h)
    ensures var s, n := Head(h) + body, |RespLineText(h.code, h.msg)|;
            && RespLine(s) == Line(n, RespCut(8, h.code, 13 + |h.msg|))
            && s[13..13 + |h.msg|] == h.msg
            && HeaderBlock(s[n..]) == Line(|Head(h)| - n, HeadFields(h))
  {
    hide RespLine, HeaderBlock, HeadFields, FieldsText, RespLineText, AreFields;
    InfoText(h);
    var line, fields := RespLineText(h.code, h.msg), FieldsText(HeadFields(h));
    var more := fields + CRLF + body;
    assert Head(h) + body == line + more;
    RespLineRoundTrip(line + more, h.code, h.msg, more);
    assert (line + more)[|line|..] == more;
    HeadFieldsAreFields(h);
    HeaderBlockRoundTrip(HeadFields(h), body);
  }

  // ---------------------------------------------------- the head in a buffer

  /** http_hdr_write drops a line that does not fit. */
  function AddFields(room: nat, out: bytes, fs: seq<Field>): (r: bytes)
    requires |out| <= room
    ensures |r| <= room
    decreases |fs|
  {
    if fs == [] then out
    else
      var t := HdrText(fs[0].name, fs[0].val);
      AddFields(room, if |out| + |t| <= room then out + t else out, fs[1..])
  }

  /** _ffs_copycz copies what fits. */
  function AddText(room: nat, out: bytes, t: bytes): (r: bytes)
    requires |out| <= room
    ensures |r| <= room
  {
    if |out| + |t| <= room then out + t else out + t[..room - |out|]
  }

  /** ffs_fromint writes nothing when the digits do not fit. */
  function AddDigits(room: nat, out: bytes, n: nat): (r: bytes)
    requires |out| <= room
    ensures |r| <= room
  {
    if |out| + |Digits(n, 10)| <= room then out + Digits(n, 10) else out
  }

  const LENGTH_PREFIX: bytes := CONTENT_LENGTH + [COLON, SP]

  function AddLength(room: nat, out: bytes, n: Option<nat>): (r: bytes)
    requires |out| <= room
    ensures |r| <= room
  {
    if n.None? then out
    else AddText(room, AddDigits(room, AddText(room, out, LENGTH_PREFIX), n.value), CRLF)
  }

  /** The fields after Content-Length. */
  function OtherFields(h: HeadInfo): seq<Field>
  {
    Present(LOCATION, h.location)
    + Present(LAST_MODIFIED, h.lastModified)
    + Present(CONTENT_TYPE, h.contentType)
    + Present(SERVER, h.server)
    + [Field(CONNECTION, if h.keepAlive then KEEP_ALIVE else CLOSE)]
  }

  /** The head as ahresp_process builds it in a buffer of `cap` bytes, of which two are kept
      for the blank line; None when even the response line does not fit. */
  function HeadText(cap: nat, h: HeadInfo): (r: Option<bytes>)
    requires h.code < 1000 && cap >= 2
    ensures r.Some? ==> 2 <= |r.value| <= cap
  {
    var line := RespLineText(h.code, h.msg);
    if |line| > cap - 2 then None
    else Some(AddFields(cap - 2, AddLength(cap - 2, line, h.contentLength), OtherFields(h)) + CRLF)
  }

  lemma {:induction false} AddFieldsConcat(room: nat, out: bytes, a: seq<Field>, b: seq<Field>)
    requires |out| <= room
    ensures AddFields(room, out, a + b) == AddFields(room, AddFields(room, out, a), b)
    decreases |a|
  {
    if a == [] {
      assert a + b == b;
    } else {
      var t := HdrText(a[0].name, a[0].val);
      assert (a + b)[1..] == a[1..] + b;
      AddFieldsConcat(room, if |out| + |t| <= room then out + t else out, a[1..], b);
    }
  }

  lemma {:induction false} AddFieldsFits(room: nat, out: bytes, fs: seq<Field>)
    requires |out| + |FieldsText(fs)| <= room
    ensures AddFields(room, out, fs) == out + FieldsText(fs)
    decreases |fs|
  {
    if fs == [] {
    } else {
      var t := HdrText(fs[0].name, fs[0].val);
      AddFieldsFits(room, out + t, fs[1..]);
      assert out + (t + FieldsText(fs[1..])) == (out + t) + FieldsText(fs[1..]);
    }
  }

  lemma LengthFits(room: nat, out: bytes, n: nat)
    requires |out| + |HdrText(CONTENT_LENGTH, Digits(n, 10))| <= room
    ensures AddLength(room, out, Some(n)) == out + HdrText(CONTENT_LENGTH, Digits(n, 10))
  {
    var d := Digits(n, 10);
    assert out + HdrText(CONTENT_LENGTH, d) == ((out + LENGTH_PREFIX) + d) + CRLF;
  }

  lemma HeadSplit(h: HeadInfo)
    ensures FieldsText(HeadFields(h)) ==
            (if h.contentLength.Some? then HdrText(CONTENT_LENGTH, Digits(h.contentLength.value, 10)) else [])
            + FieldsText(OtherFields(h))
  {
    if h.contentLength.Some? {
      var f := Field(CONTENT_LENGTH, Digits(h.contentLength.value, 10));
      assert HeadFields(h) == [f] + OtherFields(h);
      assert HeadFields(h)[1..] == OtherFields(h);
    } else {
      assert HeadFields(h) == OtherFields(h);
    }
  }

  /** The buffer holds the whole head exactly when it is large enough for it; otherwise fields
      are dropped or cut. */
  lemma HeadFits(cap: nat, h: HeadInfo)
    requires h.code < 1000 && cap >= 2
    ensures HeadText(cap, h) == Some(Head(h)) <==> |Head(h)| <= cap
  {
    hide RespLineText, FieldsText, HeadFields, OtherFields, AddFields, AddText, AddDigits, HdrText, Digits;
    if |Head(h)| <= cap {
      var line := RespLineText(h.code, h.msg);
      HeadSplit(h);
      if h.contentLength.Some? {
        LengthFits(cap - 2, line, h.contentLength.value);
      }
      AddFieldsFits(cap - 2, AddLength(cap - 2, line, h.contentLength), OtherFields(h));
      assert AddLength(cap - 2, line, h.contentLength) + FieldsText(OtherFields(h)) + CRLF == Head(h);
    }
  }

  /** A field is written only when it has a value, and the write position moves by what was written. */
  method AddHeader(buf: array<byte>, d: nat, end: nat, name: bytes, val: bytes) returns (d': nat)
    requires d <= end <= buf.Length
    modifies buf
    ensures d <= d' <= end
    ensures buf[..d'] == AddFields(end, old(buf[..d]), Present(name, val))
  {
    d' := d;
    if |val| != 0 {
      var n := HttpHdrWrite(buf, d, end - d, name, val);
      d' := d + n;
    }
  }

  /** _ffs_copycz */
  method CopyText(buf: array<byte>, d: nat, end: nat, t: bytes) returns (d': nat)
    requires d <= end <= buf.Length
    modifies buf
    ensures d <= d' <= end
    ensures buf[..d'] == AddText(end, old(buf[..d]), t)
  {
    var n := if |t| <= end - d then |t| else end - d;
    assert t[..|t|] == t;
    d' := Put(buf, d, t[..n]);
  }

  /** "Content-Length: N CRLF", when the length is known. */
  method AddContentLength(buf: array<byte>, d: nat, end: nat, n: Option<nat>) returns (d': nat)
    requires d <= end <= buf.Length
    modifies buf
    ensures d <= d' <= end
    ensures buf[..d'] == AddLength(end, old(buf[..d]), n)
  {
    d' := d;
    if n.Some? {
      d' := CopyText(buf, d', end, LENGTH_PREFIX);
      var digits := Digits(n.value, 10);
      if |digits| <= end - d' {
        d' := Put(buf, d', digits);
      }
      d' := CopyText(buf, d', end, CRLF);
    }
  }

  method AddOthers(buf: array<byte>, d: nat, end: nat, h: HeadInfo) returns (d': nat)
    requires d <= end <= buf.Length
    modifies buf
    ensures d <= d' <= end
    ensures buf[..d'] == AddFields(end, old(buf[..d]), OtherFields(h))
  {
    OtherFieldsSteps(end, buf[..d], h);
    d' := AddHeader(buf, d, end, LOCATION, h.location);
    d' := AddHeader(buf, d', end, LAST_MODIFIED, h.lastModified);
    d' := AddHeader(buf, d', end, CONTENT_TYPE, h.contentType);
    d' := AddHeader(buf, d', end, SERVER, h.server);
    d' := AddHeader(buf, d', end, CONNECTION, if h.keepAlive then KEEP_ALIVE else CLOSE);
  }

  /** The head building of ahresp_process, with its write cursor d. The result is the length of
      the head, or -1. */
  method BuildHead(buf: array<byte>, h: HeadInfo) returns (r: int)
    requires buf.Length >= 2 && h.code < 1000
    modifies buf
    ensures match HeadText(buf.Length, h)
            case None => r == -1
            case Some(text) => r == |text| && buf[..r] == text
  {
    var end := buf.Length - 2;
    var d := HttpRespWrite(buf, 0, end, h.code, h.msg);
    if d < 0 { return -1; }
    assert [] + RespLineText(h.code, h.msg) == RespLineText(h.code, h.msg);
    d := AddContentLength(buf, d, end, h.contentLength);
    d := AddOthers(buf, d, end, h);
    r := Put(buf, d, CRLF);
  }

  /** OtherFields is written field by field. */
  lemma OtherFieldsSteps(room: nat, o: bytes, h: HeadInfo)
    requires |o| <= room
    ensures var o1 := AddFields(room, o, Present(LOCATION, h.location));
            var o2 := AddFields(room, o1, Present(LAST_MODIFIED, h.lastModified));
            var o3 := AddFields(room, o2, Present(CONTENT_TYPE, h.contentType));
            var o4 := AddFields(room, o3, Present(SERVER, h.server));
            AddFields(room, o, OtherFields(h))
              == AddFields(room, o4, Present(CONNECTION, if h.keepAlive then KEEP_ALIVE else CLOSE))
  {
    var l, m, t := Present(LOCATION, h.location), Present(LAST_MODIFIED, h.lastModified),
                   Present(CONTENT_TYPE, h.contentType);
    var v := Present(SERVER, h.server);
    AddFieldsConcat(room, o, l, m);
    AddFieldsConcat(room, o, l + m, t);
    AddFieldsConcat(room, o, l + m + t, v);
    AddFieldsConcat(room, o, l + m + t + v, Present(CONNECTION, if h.keepAlive then KEEP_ALIVE else CLOSE));
  }
}

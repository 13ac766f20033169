/** Parsing a request out of the receive buffer. The parser starts again from the beginning of
    the buffer whenever more data has arrived, with the fields the previous attempts have set
    still in place. */
module Request {
  import opened Bytes
  import opened Http1
  import P = Http1Parsers
  import Url

  /** The request's parts, as ranges of the buffer, and the decoded path. */
  datatype Req = Req(full: Range, line: Range, verb: Range, path: Range, query: Range, host: Range, ims: Range,
                     unescaped: bytes)

  const REQ0 := Req(Range(0, 0), Range(0, 0), Range(0, 0), Range(0, 0), Range(0, 0), Range(0, 0), Range(0, 0), [])

  const HOST: bytes := Ascii("host")
  const CONNECTION: bytes := Ascii("connection")
  const KEEP_ALIVE: bytes := Ascii("keep-alive")
  const CLOSE: bytes := Ascii("close")
  const IF_MODIFIED_SINCE: bytes := Ascii("if-modified-since")

  /** What the header loop updates; ka is 1 for keep-alive, -1 for close. */
  datatype Fields = Fields(host: Range, ims: Range, ka: int)

  /** One header line, at `pos` in the buffer. The first Host with a value counts, and the last
      Connection and If-Modified-Since. */
  function Apply(s: bytes, pos: nat, h: Header, f: Fields): Fields
    requires pos <= |s| && h.name <= h.from <= h.to <= |s| - pos
  {
    var name, val := LowerAll(s[pos..pos + h.name]), LowerAll(s[pos + h.from..pos + h.to]);
    var r := RangeSet(pos + h.from, h.to - h.from);
    if name == HOST && f.host.len == 0 then f.(host := r)
    else if name == CONNECTION then
      if val == KEEP_ALIVE then f.(ka := 1) else if val == CLOSE then f.(ka := -1) else f
    else if name == IF_MODIFIED_SINCE then f.(ims := r)
    else f
  }

  datatype HeadersResult = HMore(f: Fields) | HBad(f: Fields) | HDone(end: nat, f: Fields)

  /** The header loop from `pos`. */
  function Headers(s: bytes, pos: nat, f: Fields): (r: HeadersResult)
    requires pos <= |s|
    ensures r.HDone? ==> pos < r.end <= |s|
    decreases |s| - pos
  {
    match HeaderLine(s[pos..])
    case More => HMore(f)
    case Bad => HBad(f)
    case Line(n, h) => if h.name == 0 then HDone(pos + n, f) else Headers(s, pos + n, Apply(s, pos, h, f))
  }

  /** done: the request filter goes on; otherwise more data is needed. bad: status 400. */
  datatype Parsed = Parsed(done: bool, bad: bool, keepAlive: bool, req: Req)

  function LineRange(s: bytes, n: nat): Range
    requires 2 <= n <= |s|
  {
    Range(0, (if s[n - 2] == CR then n - 2 else n - 1) % W16)
  }

  /** ahreq_parse on the buffer s, with q left by the previous attempts. norm is
      ffpath_normalize, with an empty result for failure. */
  function Parse(norm: bytes -> bytes, s: bytes, q: Req): Parsed
  {
    match ReqLine(s)
    case More => Parsed(false, false, false, q)
    case Bad => Parsed(true, true, false, q)
    case Line(n, cut) =>
      LineBounds(s);
      var q1 := q.(line := LineRange(s, n));
      match Headers(s, n, Fields(q.host, q.ims, 0))
      case HMore(f) => Parsed(false, false, false, q1.(host := f.host, ims := f.ims))
      case HBad(f) => Parsed(true, true, false, q1.(host := f.host, ims := f.ims))
      case HDone(end, f) =>
        Finish(norm, s, cut, q1.(host := f.host, ims := f.ims, full := RangeSet(0, end)), f.ka)
  }

  lemma LineBounds(s: bytes)
    requires ReqLine(s).Line?
    ensures var n, cut := ReqLine(s).n, ReqLine(s).value;
            0 < cut.a < cut.b < cut.c < cut.d && cut.d + 8 <= cut.e <= cut.f < n <= |s| && n >= 2
  {
    ReqLineMeaning(s, ReqLine(s).value, ReqLine(s).n);
  }

  /** The request is complete: keep-alive, the mandatory Host of HTTP/1.1, the URL. */
  function Finish(norm: bytes -> bytes, s: bytes, cut: ReqCut, q: Req, ka: int): Parsed
    requires cut.b <= cut.c <= cut.d && cut.d + 8 <= |s|
  {
    var proto1 := s[cut.d + 7] == 0x31;
    var keepAlive := if ka > 0 then true else if ka < 0 then false else proto1;
    if proto1 && q.host.len == 0 then Parsed(true, true, false, q)
    else
      var url := s[cut.b..cut.c];
      var parts := Url.Split(url).1;
      var q1 := q.(verb := RangeSet(0, cut.a), path := RangeSet(cut.b + parts.path.off, parts.path.len),
                   query := RangeSet(cut.b + parts.query.off, parts.query.len));
      var path := DecodedPath(norm, url[parts.path.off..parts.path.off + parts.path.len]);
      if path == [] then Parsed(true, true, false, q1)
      else Parsed(true, false, keepAlive, q1.(unescaped := path))
  }

  /** The unescaped and normalized path, empty when either step fails. */
  function DecodedPath(norm: bytes -> bytes, path: bytes): bytes
  {
    match Url.Unescape(path)
    case None => []
    case Some(text) => if text == [] then [] else norm(text)
  }

  method DecodePath(norm: bytes -> bytes, path: bytes) returns (p: bytes)
    ensures p == DecodedPath(norm, path)
  {
    var len, text := Url.UnescapeAlloc(path);
    if len <= 0 { return []; }
    p := norm(text);
  }

  // ------------------------------------------------------------ the program

  /** The header loop of ahreq_parse. */
  method ParseHeaders(s: bytes, from: nat, f0: Fields) returns (r: HeadersResult)
    requires from <= |s|
    ensures r == Headers(s, from, f0)
  {
    hide HeaderLine, Apply;
    var pos, f := from, f0;
    while true
      invariant from <= pos <= |s| && Headers(s, pos, f) == Headers(s, from, f0)
      decreases |s| - pos
    {
      var n, name, val := P.HttpHdrParse(s[pos..]);
      if n == 0 { return HMore(f); }
      if n < 0 { return HBad(f); }
      if name.len == 0 { return HDone(pos + n, f); }
      var h := Header(name.len, val.off, val.off + val.len);
      f := Apply(s, pos, h, f);
      pos := pos + n;
    }
  }

  /** ahreq_parse */
  method ReqParse(norm: bytes -> bytes, s: bytes, q: Req) returns (p: Parsed)
    ensures p == Parse(norm, s, q)
  {
    hide ReqLine, Headers, Finish;
    var n, verb, target, proto := P.HttpReqParse(s);
    if ReqLine(s).Line? { LineBounds(s); }
    if n == 0 { return Parsed(false, false, false, q); }
    if n < 0 { return Parsed(true, true, false, q); }
    var q1 := q.(line := LineRange(s, n));
    var r := ParseHeaders(s, n, Fields(q.host, q.ims, 0));
    q1 := q1.(host := r.f.host, ims := r.f.ims);
    if r.HMore? { return Parsed(false, false, false, q1); }
    if r.HBad? { return Parsed(true, true, false, q1); }
    q1 := q1.(full := RangeSet(0, r.end));
    p := FinishParse(norm, s, verb, target, proto, q1, r.f.ka, ReqLine(s).value);
  }

  /** The part of ahreq_parse after the header loop. */
  method FinishParse(norm: bytes -> bytes, s: bytes, verb: Span, target: Span, proto: Span, q: Req, ka: int,
                     ghost cut: ReqCut)
    returns (p: Parsed)
    requires cut.b <= cut.c <= cut.d && cut.d + 8 <= |s|
    requires verb == Span(0, cut.a) && target == Span(cut.b, cut.c - cut.b) && proto.off == cut.d
    ensures p == Finish(norm, s, cut, q, ka)
  {
    hide Url.Split, DecodedPath;
    var proto1 := s[proto.off + 7] == 0x31;
    var keepAlive := proto1;
    if ka > 0 {
      keepAlive := true;
    } else if ka < 0 {
      keepAlive := false;
    }
    if proto1 && q.host.len == 0 { return Parsed(true, true, false, q); }

    var url := s[target.off..target.off + target.len];
    var _, parts := Url.HttpurlSplit(url);
    var q1 := q.(verb := RangeSet(verb.off, verb.len), path := RangeSet(target.off + parts.path.off, parts.path.len),
                 query := RangeSet(target.off + parts.query.off, parts.query.len));
    var path := DecodePath(norm, url[parts.path.off..parts.path.off + parts.path.len]);
    if |path| <= 0 { return Parsed(true, true, false, q1); }
    p := Parsed(true, false, keepAlive, q1.(unescaped := path));
  }

  // ------------------------------------------------------ more data arrives

  lemma PrefixFrom(s: bytes, t: bytes, pos: nat)
    requires Prefix(s, t) && pos <= |s|
    ensures Prefix(s[pos..], t[pos..])
    ensures forall i, j :: 0 <= i <= j <= |s| ==> s[i..j] == t[i..j]
  {
    var n := |s|;
    assert t[pos..][..n - pos] == t[..n][pos..];
    forall i, j | 0 <= i <= j <= |s| ensures s[i..j] == t[i..j] {
      assert t[..n][i..j] == t[i..j];
    }
  }

  lemma PrefixSlice(s: bytes, t: bytes, i: nat, j: nat)
    requires Prefix(s, t) && i <= j <= |s|
    ensures t[i..j] == s[i..j]
  {
    assert t[..|s|][i..j] == t[i..j];
  }

  /** Every outcome of the header loop but "need more data" is final. */
  lemma {:induction false} HeadersStable(s: bytes, t: bytes, pos: nat, f: Fields)
    requires Prefix(s, t) && pos <= |s| && !Headers(s, pos, f).HMore?
    ensures Headers(t, pos, f) == Headers(s, pos, f)
    decreases |s| - pos
  {
    hide HeaderLine, Apply;
    PrefixFrom(s, t, pos);
    HeaderLineStable(s[pos..], t[pos..]);
    var v := HeaderLine(s[pos..]);
    if v.Line? && v.value.name != 0 {
      SameApply(s, t, pos, v.value, f);
      HeadersStable(s, t, pos + v.n, Apply(s, pos, v.value, f));
    }
  }

  /** Every outcome of ahreq_parse is final: a request that was accepted or rejected is accepted
      or rejected in the same way, with the same fields, whatever follows it, unless it was
      rejected because the buffer ends inside an over-long version token. */
  lemma ParseStable(norm: bytes -> bytes, s: bytes, t: bytes, q: Req)
    requires Prefix(s, t) && Parse(norm, s, q).done
    requires ReqLine(s).Bad? ==> !EndsInLongVersion(s)
    ensures Parse(norm, t, q) == Parse(norm, s, q)
  {
    hide ReqLine, Headers, Url.Split, DecodedPath, EndsInLongVersion;
    ReqLineStable(s, t);
    if ReqLine(s).Line? {
      var n, cut := ReqLine(s).n, ReqLine(s).value;
      LineBounds(s);
      PrefixAt(s, t, n - 2);
      PrefixAt(s, t, cut.d + 7);
      HeadersStable(s, t, n, Fields(q.host, q.ims, 0));
      PrefixSlice(s, t, cut.b, cut.c);
    }
  }

  /** Fields kept from an attempt that ended with e, seen from the fresh fields f somewhere
      before that end. */
  predicate Kept(f: Fields, kept: Fields, e: Fields)
  {
    && f.ka == kept.ka
    && (kept.host == f.host || (kept.host == e.host && f.host.len == 0))
    && (kept.ims == f.ims || kept.ims == e.ims)
    && (f.host.len != 0 ==> e.host == f.host)
  }

  /** Going over the same header lines again with the fields of the previous attempt still in
      place ends with the same fields. */
  lemma {:induction false} HeadersAgain(s: bytes, t: bytes, pos: nat, f: Fields, kept: Fields)
    requires Prefix(s, t) && pos <= |s| && Headers(s, pos, f).HMore?
    requires Kept(f, kept, Headers(s, pos, f).f)
    ensures Headers(t, pos, kept) == Headers(t, pos, f)
    decreases |s| - pos
  {
    hide HeaderLine, Apply, Kept;
    PrefixFrom(s, t, pos);
    var v := HeaderLine(s[pos..]);
    if v.Line? {
      HeaderLineStable(s[pos..], t[pos..]);
      var f1, kept1 := Apply(s, pos, v.value, f), Apply(s, pos, v.value, kept);
      HostSticks(s, pos + v.n, f1);
      KeptApply(s, pos, v.value, f, kept, Headers(s, pos, f).f);
      SameApply(s, t, pos, v.value, f);
      SameApply(s, t, pos, v.value, kept);
      HeadersAgain(s, t, pos + v.n, f1, kept1);
    } else {
      KeptNothing(f, kept);
    }
  }

  lemma SameApply(s: bytes, t: bytes, pos: nat, h: Header, f: Fields)
    requires Prefix(s, t) && pos <= |s| && h.name <= h.from <= h.to <= |s| - pos
    ensures Apply(t, pos, h, f) == Apply(s, pos, h, f)
  {
    PrefixFrom(s, t, pos);
    assert t[pos..pos + h.name] == s[pos..pos + h.name] && t[pos + h.from..pos + h.to] == s[pos + h.from..pos + h.to];
  }

  lemma KeptNothing(f: Fields, kept: Fields)
    requires Kept(f, kept, f)
    ensures kept == f
  {
  }

  lemma KeptApply(s: bytes, pos: nat, h: Header, f: Fields, kept: Fields, e: Fields)
    requires pos <= |s| && h.name <= h.from <= h.to <= |s| - pos
    requires Kept(f, kept, e)
    requires var f1 := Apply(s, pos, h, f); f1.host.len != 0 ==> e.host == f1.host
    ensures Kept(Apply(s, pos, h, f), Apply(s, pos, h, kept), e)
  {
  }

  /** A Host that is set stays. */
  lemma {:induction false} HostSticks(s: bytes, pos: nat, f: Fields)
    requires pos <= |s|
    ensures f.host.len != 0 ==> Headers(s, pos, f).f.host == f.host
    decreases |s| - pos
  {
    hide HeaderLine;
    var v := HeaderLine(s[pos..]);
    if v.Line? && v.value.name != 0 {
      HostSticks(s, pos + v.n, Apply(s, pos, v.value, f));
    }
  }

  /** Attempts do not disturb each other: after an attempt on s that needed more data, parsing
      the longer buffer t gives the same outcome and fields as parsing it once, from scratch. */
  lemma ParseAgain(norm: bytes -> bytes, s: bytes, t: bytes)
    requires Prefix(s, t) && !Parse(norm, s, REQ0).done
    ensures Parse(norm, t, Parse(norm, s, REQ0).req) == Parse(norm, t, REQ0)
  {
    hide ReqLine, Headers, Url.Split, DecodedPath;
    if ReqLine(s).Line? {
      var n, q := ReqLine(s).n, Parse(norm, s, REQ0).req;
      LineBounds(s);
      ReqLineStable(s, t);
      var f := Fields(REQ0.host, REQ0.ims, 0);
      HostSticks(s, n, f);
      HeadersAgain(s, t, n, f, Fields(q.host, q.ims, 0));
    }
  }

  // -------------------------------------------------------- request stream

  /** The length of the complete request at the start of s. */
  function RequestEnd(s: bytes): (r: Option<nat>)
    ensures r.Some? ==> 0 < r.value <= |s|
  {
    match ReqLine(s)
    case More => None
    case Bad => None
    case Line(n, _) =>
      LineBounds(s);
      match Headers(s, n, Fields(Range(0, 0), Range(0, 0), 0))
      case HMore(_) => None
      case HBad(_) => None
      case HDone(end, _) => Some(end)
  }

  /** The requests of a byte stream. */
  function Requests(s: bytes): seq<bytes>
    decreases |s|
  {
    match RequestEnd(s)
    case None => []
    case Some(n) => [s[..n]] + Requests(s[n..])
  }

  /** Keep-alive is only decided for a complete request, whose length is then known. */
  lemma KeepAliveRequest(norm: bytes -> bytes, s: bytes)
    requires Parse(norm, s, REQ0).keepAlive && |s| < W16
    ensures Parse(norm, s, REQ0).done && !Parse(norm, s, REQ0).bad
    ensures RequestEnd(s).Some? && Parse(norm, s, REQ0).req.full == Range(0, RequestEnd(s).value)
  {
    hide ReqLine, Headers, Url.Split, DecodedPath;
    LineBounds(s);
  }

  /** The recorded length of a finished parse is that of the request, if there is one. */
  lemma FullLength(norm: bytes -> bytes, s: bytes)
    requires Parse(norm, s, REQ0).done && |s| < W16
    ensures Parse(norm, s, REQ0).req.full ==
            Range(0, if RequestEnd(s).Some? then RequestEnd(s).value else 0)
  {
    hide ReqLine, Headers, Url.Split, DecodedPath;
    if ReqLine(s).Line? { LineBounds(s); }
  }

  /** The decoded path is no longer than the buffer, if normalizing does not lengthen it. */
  lemma PathBound(norm: bytes -> bytes, s: bytes)
    requires forall p :: |norm(p)| <= |p|
    ensures |Parse(norm, s, REQ0).req.unescaped| <= |s|
  {
    hide ReqLine, Headers, Url.Split, DecodedPath;
    if ReqLine(s).Line? {
      LineBounds(s);
      var cut := ReqLine(s).value;
      var url := s[cut.b..cut.c];
      var x := Url.Split(url).1.path;
      DecodedBound(norm, url[x.off..x.off + x.len]);
    }
  }

  lemma DecodedBound(norm: bytes -> bytes, path: bytes)
    requires forall p :: |norm(p)| <= |p|
    ensures |DecodedPath(norm, path)| <= |path|
  {
    if Url.Unescape(path).Some? {
      Url.LengthIsExact(path);
      UnitsBound(path);
    }
  }

  lemma {:induction false} UnitsBound(s: bytes)
    ensures Url.Units(s) <= |s|
    decreases |s|
  {
    if s != [] && (Url.IsPlain(s[0]) || |s| >= 3) {
      UnitsBound(if Url.IsPlain(s[0]) then s[1..] else s[3..]);
    }
  }

  lemma RequestEndStable(s: bytes, t: bytes)
    requires Prefix(s, t) && RequestEnd(s).Some?
    ensures RequestEnd(t) == RequestEnd(s)
  {
    hide ReqLine, Headers;
    ReqLineStable(s, t);
    LineBounds(s);
    HeadersStable(s, t, ReqLine(s).n, Fields(Range(0, 0), Range(0, 0), 0));
  }

  /** A request is delimited by its own bytes alone. */
  lemma RequestEndLocal(s: bytes)
    requires RequestEnd(s).Some?
    ensures RequestEnd(s[..RequestEnd(s).value]) == RequestEnd(s)
  {
    var end := RequestEnd(s).value;
    var n, cut := ReqLine(s).n, ReqLine(s).value;
    var p := s[..end];
    LineBounds(s);
    assert n <= end;
    ReqLineLocal(s, end);
    HeadersLocal(s, n, Fields(Range(0, 0), Range(0, 0), 0));
  }

  lemma ReqLineLocal(s: bytes, end: nat)
    requires ReqLine(s).Line? && ReqLine(s).n <= end <= |s|
    ensures ReqLine(s[..end]) == ReqLine(s)
  {
    var n, cut, p := ReqLine(s).n, ReqLine(s).value, s[..end];
    ReqLineMeaning(s, cut, n);
    hide ReqLine, IsRequestLine;
    RequestLineLocal(s, cut, n, end);
    ReqLineMeaning(p, cut, n);
  }

  lemma RequestLineLocal(s: bytes, cut: ReqCut, n: nat, end: nat)
    requires IsRequestLine(s, cut, n) && n <= end <= |s|
    ensures IsRequestLine(s[..end], cut, n)
  {
    assert s[..end][cut.d..cut.d + 7] == s[cut.d..cut.d + 7];
  }

  lemma HeaderLineLocal(s: bytes, end: nat)
    requires HeaderLine(s).Line? && HeaderLine(s).n <= end <= |s|
    ensures HeaderLine(s[..end]) == HeaderLine(s)
  {
    var n, h, p := HeaderLine(s).n, HeaderLine(s).value, s[..end];
    hide HeaderLine, IsHeader;
    HeaderLineMeaning(s, h, n);
    var e :| IsHeader(s, h, e, n);
    HeaderLocal(s, h, e, n, end);
    HeaderLineMeaning(p, h, n);
  }

  lemma HeaderLocal(s: bytes, h: Header, e: nat, n: nat, end: nat)
    requires IsHeader(s, h, e, n) && n <= end <= |s|
    ensures IsHeader(s[..end], h, e, n)
  {
  }

  lemma {:induction false} HeadersLocal(s: bytes, pos: nat, f: Fields)
    requires pos <= |s| && Headers(s, pos, f).HDone?
    ensures Headers(s[..Headers(s, pos, f).end], pos, f) == Headers(s, pos, f)
    decreases |s| - pos
  {
    hide HeaderLine, Apply;
    var end := Headers(s, pos, f).end;
    var p, v := s[..end], HeaderLine(s[pos..]);
    assert p[pos..] == s[pos..][..end - pos];
    HeaderLineLocal(s[pos..], end - pos);
    if v.value.name != 0 {
      assert Prefix(p, s);
      SameApply(p, s, pos, v.value, f);
      HeadersLocal(s, pos + v.n, Apply(s, pos, v.value, f));
    }
  }

  /** A list of byte strings each of which is one complete request. */
  predicate AreRequests(rs: seq<bytes>)
  {
    forall i :: 0 <= i < |rs| ==> RequestEnd(rs[i]) == Some(|rs[i]|)
  }

  /** Requests taken off the front of a stream are its first requests. */
  lemma {:induction false} RequestsOf(rs: seq<bytes>, rest: bytes)
    requires AreRequests(rs)
    ensures Requests(Flat(rs) + rest) == rs + Requests(rest)
    decreases |rs|
  {
    hide RequestEnd;
    if rs == [] {
      assert Flat(rs) + rest == rest;
    } else {
      var s := Flat(rs) + rest;
      assert s == rs[0] + (Flat(rs[1..]) + rest);
      assert Prefix(rs[0], s);
      RequestEndStable(rs[0], s);
      assert s[|rs[0]|..] == Flat(rs[1..]) + rest;
      assert AreRequests(rs[1..]);
      RequestsOf(rs[1..], rest);
      assert rs == [rs[0]] + rs[1..];
    }
  }

  /** Splitting a stream gives complete requests and a rest without one. */
  lemma {:induction false} RequestsSplit(s: bytes)
    ensures AreRequests(Requests(s)) && Prefix(Flat(Requests(s)), s)
    ensures RequestEnd(s[|Flat(Requests(s))|..]).None?
    decreases |s|
  {
    hide RequestEnd;
    if RequestEnd(s).None? {
      assert s[0..] == s;
    } else {
      var n := RequestEnd(s).value;
      var rest := Requests(s[n..]);
      RequestEndLocal(s);
      RequestsSplit(s[n..]);
      var k := |Flat(rest)|;
      assert Flat(Requests(s)) == s[..n] + Flat(rest) == s[..n] + s[n..][..k] == s[..n + k];
      assert s[n..][k..] == s[n + k..];
    }
  }

  /** More data does not change the requests already complete. */
  lemma RequestsGrow(s: bytes, x: bytes)
    ensures Requests(s) <= Requests(s + x)
  {
    hide Requests, RequestEnd;
    RequestsSplit(s);
    var rs := Requests(s);
    var rest := s[|Flat(rs)|..];
    assert s + x == Flat(rs) + (rest + x);
    RequestsOf(rs, rest + x);
  }

  /** A complete request is rejected by no attempt on a part of it exactly when its version token
      has eight bytes: a longer one is rejected when a read ends inside it. */
  lemma NoEarlyReject(s: bytes)
    requires ReqLine(s).Line?
    ensures (forall k :: 0 <= k <= |s| ==> !ReqLine(s[..k]).Bad?) <==>
            ReqLine(s).value.e == ReqLine(s).value.d + 8
  {
    hide ReqLine;
    var cut := ReqLine(s).value;
    LineBounds(s);
    if cut.e > cut.d + 8 {
      EarlyReject(s);
      assert ReqLine(s[..cut.d + 9]).Bad?;
    } else {
      forall k | 0 <= k <= |s| ensures !ReqLine(s[..k]).Bad? {
        NoEarlyRejectAt(s, k);
      }
    }
  }

  lemma EarlyReject(s: bytes)
    requires ReqLine(s).Line? && ReqLine(s).value.e > ReqLine(s).value.d + 8
    ensures ReqLine(s).value.d + 9 <= |s| && ReqLine(s[..ReqLine(s).value.d + 9]).Bad?
  {
    hide ReqLine, Word;
    var cut, n := ReqLine(s).value, ReqLine(s).n;
    ReqLineMeaning(s, cut, n);
    var p := s[..cut.d + 9];
    assert p[cut.d..cut.d + 7] == s[cut.d..cut.d + 7];
    WordMeaning(p, 0, IsUpper, cut.a, cut.b);
    WordMeaning(p, cut.b, IsPrintable, cut.c, cut.d);
    LongVersionRejected(p);
  }

  lemma NoEarlyRejectAt(s: bytes, k: nat)
    requires k <= |s| && ReqLine(s).Line? && ReqLine(s).value.e == ReqLine(s).value.d + 8
    ensures !ReqLine(s[..k]).Bad?
  {
    hide ReqLine, EndsInLongVersion;
    var p := s[..k];
    if ReqLine(p).Bad? {
      if EndsInLongVersion(p) {
        LongVersionStays(p, s);
      } else {
        ReqLineStable(p, s);
      }
    }
  }

  /** A line that goes on after a buffer that ended inside a long version has a long version. */
  lemma LongVersionStays(p: bytes, s: bytes)
    requires Prefix(p, s) && EndsInLongVersion(p) && ReqLine(s).Line?
    ensures ReqLine(s).value.e > ReqLine(s).value.d + 8
  {
    hide ReqLine, Word, IsWord;
    var cut := ReqLine(s).value;
    ReqLineMeaning(s, cut, ReqLine(s).n);
    WordExtend(p, s, 0, IsUpper);
    WordMeaning(s, 0, IsUpper, cut.a, cut.b);
    WordExtend(p, s, cut.b, IsPrintable);
    WordMeaning(s, cut.b, IsPrintable, cut.c, cut.d);
    assert IsLongVersion(p, cut.d);
    assert p[cut.d + 8] == s[..|p|][cut.d + 8] == s[cut.d + 8];
    assert IsPrintable(s[cut.d + 8]);
    AfterVersion(s, cut, ReqLine(s).n);
  }

  /** The byte after the version token is not part of it. */
  lemma AfterVersion(s: bytes, cut: ReqCut, n: nat)
    requires IsVersionEnd(s, cut.d, cut.e, cut.f, n)
    ensures cut.d + 8 <= cut.e < |s| && !IsPrintable(s[cut.e])
  {
  }

  // -------------------------------------------------- a request in pieces

  /** The version token of the request line has eight bytes. */
  predicate ShortVersion(s: bytes)
  {
    ReqLine(s).Line? && ReqLine(s).value.e == ReqLine(s).value.d + 8
  }

  lemma CompleteDone(norm: bytes -> bytes, s: bytes)
    requires RequestEnd(s).Some?
    ensures Parse(norm, s, REQ0).done && ReqLine(s).Line?
  {
    hide ReqLine, Headers, DecodedPath, Url.Split;
  }

  /** However much of a stream has arrived behind its first request, parsing gives what parsing
      that request alone gives. */
  lemma ArrivedRequest(norm: bytes -> bytes, s: bytes, k: nat)
    requires RequestEnd(s).Some? && RequestEnd(s).value <= k <= |s|
    ensures RequestEnd(s[..k]) == RequestEnd(s) && Parse(norm, s[..k], REQ0).done
    ensures Parse(norm, s[..k], REQ0) == Parse(norm, s[..RequestEnd(s).value], REQ0)
  {
    hide ReqLine, Headers, Parse, RequestEnd, EndsInLongVersion;
    var n := RequestEnd(s).value;
    RequestEndLocal(s);
    assert Prefix(s[..n], s[..k]) by { assert s[..k][..n] == s[..n]; }
    CompleteDone(norm, s[..n]);
    RequestEndStable(s[..n], s[..k]);
    ParseStable(norm, s[..n], s[..k], REQ0);
  }

  /** A part of a request with a version token of eight bytes is neither accepted nor rejected. */
  lemma PartOfRequest(norm: bytes -> bytes, s: bytes, k: nat)
    requires RequestEnd(s).Some? && ShortVersion(s) && k < RequestEnd(s).value
    ensures !Parse(norm, s[..k], REQ0).done
  {
    hide ReqLine, Headers, Url.Split, DecodedPath;
    var p := s[..k];
    NoEarlyRejectAt(s, k);
    if ReqLine(p).Line? {
      var n, f := ReqLine(p).n, Fields(Range(0, 0), Range(0, 0), 0);
      LineBounds(p);
      LineStays(p, s);
      if !Headers(p, n, f).HMore? {
        HeadersStable(p, s, n, f);
      }
    }
  }

  lemma LineStays(p: bytes, s: bytes)
    requires Prefix(p, s) && ReqLine(p).Line?
    ensures ReqLine(s) == ReqLine(p)
  {
    hide ReqLine;
    ReqLineStable(p, s);
  }

  /** A request is parsed when its last byte has arrived, and not before, wherever it is cut:
      exactly when its version token has eight bytes. */
  lemma CutRequest(norm: bytes -> bytes, s: bytes)
    requires RequestEnd(s).Some?
    ensures (forall k :: 0 <= k <= |s| ==> (Parse(norm, s[..k], REQ0).done <==> k >= RequestEnd(s).value))
            <==> ShortVersion(s)
  {
    hide ReqLine, Parse, RequestEnd, Headers;
    CompleteDone(norm, s);
    if ShortVersion(s) {
      forall k | 0 <= k <= |s| ensures Parse(norm, s[..k], REQ0).done <==> k >= RequestEnd(s).value {
        if k >= RequestEnd(s).value { ArrivedRequest(norm, s, k); } else { PartOfRequest(norm, s, k); }
      }
    } else {
      CutTooEarly(norm, s);
    }
  }

  /** A longer token is rejected when only nine bytes of it have arrived. */
  lemma CutTooEarly(norm: bytes -> bytes, s: bytes)
    requires RequestEnd(s).Some? && ReqLine(s).Line? && !ShortVersion(s)
    ensures var k := ReqLine(s).value.d + 9; k < RequestEnd(s).value && Parse(norm, s[..k], REQ0).done
  {
    hide ReqLine, Headers;
    LineBounds(s);
    EarlyReject(s);
  }

  // ----------------------------------------------------- values of a request

  predicate NoEol(s: bytes) { AllIn(s, 0, |s|, NotEol) }

  lemma PartNoEol(s: bytes, off: nat, len: nat)
    requires off + len <= |s| < W16 && AllIn(s, off, off + len, NotEol)
    ensures NoEol(Slice(RangeSet(off, len), s))
  {
  }

  /** A parsed Host has no line end in it. */
  lemma {:induction false} HostNoEol(s: bytes, pos: nat, f: Fields)
    requires pos <= |s| < W16 && NoEol(Slice(f.host, s))
    ensures NoEol(Slice(Headers(s, pos, f).f.host, s))
    decreases |s| - pos
  {
    hide HeaderLine, RangeSet, Slice, NoEol;
    var v := HeaderLine(s[pos..]);
    if v.Line? && v.value.name != 0 {
      var h := v.value;
      HeaderValueNoEol(s, pos);
      PartNoEol(s, pos + h.from, h.to - h.from);
      HostNoEol(s, pos + v.n, Apply(s, pos, h, f));
    }
  }

  lemma HeaderValueNoEol(s: bytes, pos: nat)
    requires pos <= |s| && HeaderLine(s[pos..]).Line? && HeaderLine(s[pos..]).value.name != 0
    ensures var h := HeaderLine(s[pos..]).value;
            pos + h.to <= |s| && AllIn(s, pos + h.from, pos + h.to, NotEol)
  {
    var t := s[pos..];
    var n, h := HeaderLine(t).n, HeaderLine(t).value;
    HeaderLineMeaning(t, h, n);
    assert AllIn(t, h.from, h.to, NotEol);
    forall k | pos + h.from <= k < pos + h.to ensures NotEol(s[k]) {
      assert t[k - pos] == s[k];
    }
  }

  /** Neither the parsed Host nor the parsed path has a line end in it. */
  lemma HostAndPathNoEol(norm: bytes -> bytes, s: bytes)
    requires |s| < W16
    ensures NoEol(Slice(Parse(norm, s, REQ0).req.host, s)) && NoEol(Slice(Parse(norm, s, REQ0).req.path, s))
  {
    hide ReqLine, Headers, DecodedPath, Url.Split, Slice, NoEol;
    assert NoEol(Slice(Range(0, 0), s)) by { EmptyNoEol(s); }
    if ReqLine(s).Line? {
      var n, cut := ReqLine(s).n, ReqLine(s).value;
      LineBounds(s);
      HostNoEol(s, n, Fields(Range(0, 0), Range(0, 0), 0));
      var x := Url.Split(s[cut.b..cut.c]).1.path;
      TargetNoEol(s);
      PartNoEol(s, cut.b + x.off, x.len);
    }
  }

  lemma EmptyNoEol(s: bytes)
    ensures NoEol(Slice(Range(0, 0), s))
  {
  }

  lemma TargetNoEol(s: bytes)
    requires ReqLine(s).Line?
    ensures var cut := ReqLine(s).value; cut.b <= cut.c <= |s| && AllIn(s, cut.b, cut.c, NotEol)
  {
    ReqLineMeaning(s, ReqLine(s).value, ReqLine(s).n);
    var cut := ReqLine(s).value;
    forall k | cut.b <= k < cut.c ensures NotEol(s[k]) {
      assert IsPrintable(s[k]);
    }
  }
}

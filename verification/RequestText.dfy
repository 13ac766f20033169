/** What a request says, read off the grammars of its lines, of URLs and of escaped text, and that
    the request parser takes exactly this from it. */
module RequestText {
  import opened Bytes
  import H = Http1
  import R = Request
  import Url

  // ------------------------------------------------------------ the grammar

  /** A request: its first line, the three parts of that line, and the header fields. `v1` is set
      for HTTP/1.1. */
  datatype Text = Text(line: bytes, verb: bytes, target: bytes, v1: bool, fields: seq<H.Field>)

  /** The header line at pos, n bytes long, holds the field f. */
  ghost predicate IsField(s: bytes, pos: nat, f: H.Field, n: nat)
    requires pos <= |s|
  {
    exists h, end ::
      && H.IsHeader(s[pos..], h, end, n) && h.name > 0
      && f == H.Field(s[pos..][..h.name], s[pos..][h.from..h.to])
  }

  /** The fields from pos on, each on its line, and the blank line, which ends at `end`. */
  ghost predicate IsBlock(s: bytes, pos: nat, fs: seq<H.Field>, end: nat)
    requires pos <= |s|
    decreases |fs|
  {
    if fs == [] then pos <= end <= |s| && H.IsEolAt(s[pos..], 0, end - pos)
    else exists n: nat :: n <= |s| - pos && IsField(s, pos, fs[0], n) && IsBlock(s, pos + n, fs[1..], end)
  }

  ghost predicate IsFirstLine(s: bytes, t: Text, cut: H.ReqCut, n: nat)
  {
    && H.IsRequestLine(s, cut, n)
    && t.line == s[..cut.f] && t.verb == s[..cut.a] && t.target == s[cut.b..cut.c] && (t.v1 <==> s[cut.d + 7] == 0x31)
  }

  /** All of s is the request t. */
  ghost predicate IsRequest(s: bytes, t: Text)
  {
    exists cut, n: nat :: n <= |s| && IsFirstLine(s, t, cut, n) && IsBlock(s, n, t.fields, |s|)
  }

  // ------------------------------------------------------------- the meaning

  predicate Named(f: H.Field, name: bytes) { LowerAll(f.name) == name }

  /** The first Host that has a value. */
  function Host(fs: seq<H.Field>): bytes
  {
    if fs == [] then []
    else if Named(fs[0], Ascii("host")) && fs[0].val != [] then fs[0].val
    else Host(fs[1..])
  }

  /** The last If-Modified-Since. */
  function ModifiedSince(fs: seq<H.Field>): bytes
  {
    if fs == [] then []
    else
      var f := fs[|fs| - 1];
      if Named(f, Ascii("if-modified-since")) then f.val else ModifiedSince(fs[..|fs| - 1])
  }

  /** What the last Connection that is keep-alive or close asks for. */
  function Connection(fs: seq<H.Field>): Option<bool>
  {
    if fs == [] then None
    else
      var f := fs[|fs| - 1];
      if Named(f, Ascii("connection")) && LowerAll(f.val) == Ascii("keep-alive") then Some(true)
      else if Named(f, Ascii("connection")) && LowerAll(f.val) == Ascii("close") then Some(false)
      else Connection(fs[..|fs| - 1])
  }

  /** How the grammar of URLs divides a target, if it is a URL. */
  ghost function Cut(target: bytes): (r: Option<Url.Cuts>)
    ensures r.Some? ==> r.value.p <= r.value.a <= r.value.q <= |target|
  {
    if exists c :: Url.IsSplit(target, c) then
      var c :| Url.IsSplit(target, c);
      Some(c)
    else None
  }

  /** The path of a target; none when the target is not a URL. */
  ghost function PathText(target: bytes): bytes
  {
    match Cut(target) case None => [] case Some(c) => target[c.p..c.a]
  }

  ghost function QueryText(target: bytes): bytes
  {
    match Cut(target) case None => [] case Some(c) => target[c.a..c.q]
  }

  /** The unescaped and normalized path, when there is one. */
  ghost function Path(norm: bytes -> bytes, target: bytes): Option<bytes>
  {
    match Url.Unescape(PathText(target))
    case None => None
    case Some(text) => if text != [] && norm(text) != [] then Some(norm(text)) else None
  }

  /** What a request asks for. */
  datatype Ask = Rejected
               | Ask(verb: bytes, path: bytes, url: bytes, query: bytes, host: bytes, since: bytes, keepAlive: bool)

  /** A request is rejected exactly when it is HTTP/1.1 without a Host, or has no well-formed path
      that can be normalized. */
  ghost function Meaning(norm: bytes -> bytes, t: Text): Ask
  {
    var fs, path := t.fields, Path(norm, t.target);
    if (t.v1 && Host(fs) == []) || path.None? then Rejected
    else Ask(t.verb, path.value, PathText(t.target), QueryText(t.target), Host(fs), ModifiedSince(fs),
             match Connection(fs) case Some(b) => b case None => t.v1)
  }

  // ------------------------------------------------------- the header fields

  lemma {:induction false} HostAppend(fs: seq<H.Field>, f: H.Field)
    ensures Host(fs + [f]) == if Host(fs) != [] then Host(fs) else if Named(f, R.HOST) then f.val else []
  {
    if fs == [] {
      assert [f][1..] == [];
    } else {
      HostAppend(fs[1..], f);
      assert (fs + [f])[1..] == fs[1..] + [f];
    }
  }

  lemma LastAppend(fs: seq<H.Field>, f: H.Field)
    ensures ModifiedSince(fs + [f]) == if Named(f, R.IF_MODIFIED_SINCE) then f.val else ModifiedSince(fs)
    ensures Connection(fs + [f]) ==
            if Named(f, R.CONNECTION) && LowerAll(f.val) == R.KEEP_ALIVE then Some(true)
            else if Named(f, R.CONNECTION) && LowerAll(f.val) == R.CLOSE then Some(false)
            else Connection(fs)
  {
    assert (fs + [f])[..|fs + [f]| - 1] == fs;
  }

  /** The range holds this text. */
  predicate Holds(s: bytes, r: Range, x: bytes) { r.len == |x| && r.off + r.len <= |s| && Slice(r, s) == x }

  function Decided(k: Option<bool>): int
  {
    match k
    case None => 0
    case Some(b) => if b then 1 else -1
  }

  /** What the header loop has set after the fields fs. */
  predicate Reads(s: bytes, f: R.Fields, fs: seq<H.Field>)
  {
    && Holds(s, f.host, Host(fs)) && Holds(s, f.ims, ModifiedSince(fs)) && f.ka == Decided(Connection(fs))
  }

  /** One line, in terms of its text. */
  lemma AppliedIs(s: bytes, pos: nat, h: H.Header, f: R.Fields, x: H.Field)
    requires pos <= |s| < W16 && h.name <= h.from <= h.to <= |s| - pos
    requires x == H.Field(s[pos..pos + h.name], s[pos + h.from..pos + h.to])
    ensures var r, v := Range(pos + h.from, h.to - h.from), LowerAll(x.val);
            && Holds(s, r, x.val)
            && R.Apply(s, pos, h, f) ==
               (if Named(x, R.HOST) && f.host.len == 0 then f.(host := r)
                else if Named(x, R.CONNECTION) then
                  if v == R.KEEP_ALIVE then f.(ka := 1) else if v == R.CLOSE then f.(ka := -1) else f
                else if Named(x, R.IF_MODIFIED_SINCE) then f.(ims := r)
                else f)
  {
    hide LowerAll, RangeSet, Slice;
    SliceIs(s, pos + h.from, h.to - h.from);
  }

  lemma NamesDiffer(x: H.Field)
    ensures Named(x, R.HOST) ==> !Named(x, R.CONNECTION) && !Named(x, R.IF_MODIFIED_SINCE)
    ensures Named(x, R.CONNECTION) ==> !Named(x, R.IF_MODIFIED_SINCE)
  {
    hide LowerAll;
    assert |R.HOST| == 4 && |R.CONNECTION| == 10 && |R.IF_MODIFIED_SINCE| == 17;
  }

  lemma ReadsField(s: bytes, pos: nat, h: H.Header, f: R.Fields, fs: seq<H.Field>, x: H.Field)
    requires pos <= |s| < W16 && h.name <= h.from <= h.to <= |s| - pos
    requires x == H.Field(s[pos..pos + h.name], s[pos + h.from..pos + h.to]) && Reads(s, f, fs)
    ensures Reads(s, R.Apply(s, pos, h, f), fs + [x])
  {
    hide Holds, LowerAll, Host, ModifiedSince, Connection, R.Apply, Named;
    HostAppend(fs, x);
    LastAppend(fs, x);
    AppliedIs(s, pos, h, f, x);
    HoldsLength(s, f.host, Host(fs));
    NamesDiffer(x);
    HoldsNothing(s, f.host);
  }

  lemma HoldsNothing(s: bytes, r: Range)
    ensures Holds(s, r, []) ==> r.len == 0
  {
  }

  lemma HoldsLength(s: bytes, r: Range, x: bytes)
    requires Holds(s, r, x)
    ensures r.len == |x|
  {
  }

  /** The header loop goes over exactly the fields of the block, and sets what they say. */
  lemma {:induction false} BlockRead(s: bytes, pos: nat, f: R.Fields, before: seq<H.Field>, fs: seq<H.Field>, end: nat)
    requires pos <= |s| < W16 && Reads(s, f, before) && IsBlock(s, pos, fs, end)
    ensures R.Headers(s, pos, f).HDone? && R.Headers(s, pos, f).end == end
    ensures Reads(s, R.Headers(s, pos, f).f, before + fs)
    decreases |fs|
  {
    hide Reads, H.IsHeader, R.Apply, H.HeaderLine;
    if fs == [] {
      BlankRead(s, pos, end);
      assert before + fs == before;
    } else {
      var n: nat :| n <= |s| - pos && IsField(s, pos, fs[0], n) && IsBlock(s, pos + n, fs[1..], end);
      var h := FieldRead(s, pos, fs[0], n);
      ReadsField(s, pos, h, f, before, fs[0]);
      BlockRead(s, pos + n, R.Apply(s, pos, h, f), before + [fs[0]], fs[1..], end);
      assert before + [fs[0]] + fs[1..] == before + fs;
    }
  }

  lemma BlankRead(s: bytes, pos: nat, end: nat)
    requires pos <= end <= |s| && H.IsEolAt(s[pos..], 0, end - pos)
    ensures H.HeaderLine(s[pos..]) == H.Line(end - pos, H.Header(0, 0, 0))
  {
    assert H.IsHeader(s[pos..], H.Header(0, 0, 0), 0, end - pos);
    H.HeaderLineMeaning(s[pos..], H.Header(0, 0, 0), end - pos);
  }

  lemma FieldHeader(s: bytes, pos: nat, x: H.Field, n: nat) returns (h: H.Header, end: nat)
    requires pos <= |s| && IsField(s, pos, x, n)
    ensures H.IsHeader(s[pos..], h, end, n) && 0 < h.name <= h.from <= h.to <= |s| - pos
    ensures x == H.Field(s[pos..][..h.name], s[pos..][h.from..h.to])
  {
    h, end :| H.IsHeader(s[pos..], h, end, n) && h.name > 0
              && x == H.Field(s[pos..][..h.name], s[pos..][h.from..h.to]);
  }

  lemma FieldRead(s: bytes, pos: nat, x: H.Field, n: nat) returns (h: H.Header)
    requires pos <= |s| && n <= |s| - pos && IsField(s, pos, x, n)
    ensures H.HeaderLine(s[pos..]) == H.Line(n, h) && h.name > 0 && h.name <= h.from <= h.to <= |s| - pos
    ensures x == H.Field(s[pos..pos + h.name], s[pos + h.from..pos + h.to])
  {
    hide H.IsHeader, IsField, H.HeaderLine;
    var end;
    h, end := FieldHeader(s, pos, x, n);
    H.HeaderLineMeaning(s[pos..], h, n);
    assert s[pos..][..h.name] == s[pos..pos + h.name] && s[pos..][h.from..h.to] == s[pos + h.from..pos + h.to];
  }

  /** What the header loop went over is a block. */
  lemma {:induction false} ReadBlock(s: bytes, pos: nat, f: R.Fields) returns (fs: seq<H.Field>)
    requires pos <= |s| && R.Headers(s, pos, f).HDone?
    ensures IsBlock(s, pos, fs, R.Headers(s, pos, f).end)
    decreases |s| - pos
  {
    hide H.IsHeader, R.Apply, H.HeaderLine;
    var n, h := H.HeaderLine(s[pos..]).n, H.HeaderLine(s[pos..]).value;
    H.HeaderLineMeaning(s[pos..], h, n);
    var end :| H.IsHeader(s[pos..], h, end, n);
    if h.name == 0 {
      fs := [];
      BlankLine(s, pos, h, end, n);
    } else {
      var x := H.Field(s[pos..][..h.name], s[pos..][h.from..h.to]);
      var more := ReadBlock(s, pos + n, R.Apply(s, pos, h, f));
      fs := [x] + more;
      assert IsField(s, pos, fs[0], n) && fs[1..] == more;
    }
  }

  lemma BlankLine(s: bytes, pos: nat, h: H.Header, end: nat, n: nat)
    requires pos <= |s| && H.IsHeader(s[pos..], h, end, n) && h.name == 0
    ensures H.IsEolAt(s[pos..], 0, n)
  {
  }

  // ---------------------------------------------------------- the first line

  lemma FirstLineRead(s: bytes, t: Text, cut: H.ReqCut, n: nat)
    requires n <= |s| && IsFirstLine(s, t, cut, n)
    ensures H.ReqLine(s) == H.Line(n, cut) && R.LineRange(s, n) == Range(0, |t.line| % W16)
    ensures 0 < cut.a < cut.b < cut.c < cut.d && cut.d + 8 <= cut.e <= cut.f < n <= |s| && n >= 2
    ensures t.line == s[..cut.f] && t.verb == s[..cut.a] && t.target == s[cut.b..cut.c] && (t.v1 <==> s[cut.d + 7] == 0x31)
  {
    hide H.ReqLine;
    H.ReqLineMeaning(s, cut, n);
    hide H.IsWord, H.IsVersion;
    LineEnd(s, cut.d, cut.e, cut.f, n);
    R.LineBounds(s);
  }

  /** The line end takes one byte, or two when the first is CR. */
  lemma LineEnd(s: bytes, d: nat, e: nat, f: nat, n: nat)
    requires H.IsVersionEnd(s, d, e, f, n)
    ensures f < n <= |s| && n >= 2 && f == if s[n - 2] == CR then n - 2 else n - 1
  {
    if n == f + 1 {
      assert if e < f then IsSpace(s[f - 1]) else IsPrintable(s[f - 1]);
    }
  }

  lemma HeadersFrom(s: bytes, t: Text, n: nat)
    requires n <= |s| < W16 && IsBlock(s, n, t.fields, |s|)
    ensures var r := R.Headers(s, n, R.Fields(Range(0, 0), Range(0, 0), 0));
            r.HDone? && r.end == |s| && Reads(s, r.f, t.fields)
  {
    hide IsBlock, R.Headers;
    assert Reads(s, R.Fields(Range(0, 0), Range(0, 0), 0), []);
    BlockRead(s, n, R.Fields(Range(0, 0), Range(0, 0), 0), [], t.fields, |s|);
    assert [] + t.fields == t.fields;
  }

  // ------------------------------------------------------------------ the URL

  /** The splitter's path and query are those of the grammar. */
  lemma PathRead(target: bytes)
    ensures var parts := Url.Split(target).1;
            && parts.path.off + parts.path.len <= |target| && parts.query.off + parts.query.len <= |target|
            && target[parts.path.off..parts.path.off + parts.path.len] == PathText(target)
            && target[parts.query.off..parts.query.off + parts.query.len] == QueryText(target)
  {
    hide Url.Split, Url.IsSplit, Url.SameParts;
    var c := Url.SplitSound(target);
    if Url.Split(target).0 {
      assert Url.IsSplit(target, c);
      var d := Cut(target).value;
      assert Url.IsSplit(target, d);
      Url.SplitUnique(target, c, d);
      SplitPlace(target, c);
    } else {
      if Cut(target).Some? { Url.SplitMeaning(target, Cut(target).value); }
      Url.RefusedPath(target);
    }
  }

  lemma SplitPlace(target: bytes, c: Url.Cuts)
    requires c.p <= c.a <= c.q <= |target| && Url.SameParts(Url.Split(target).1, c, |target|)
    ensures var x := Url.Split(target).1.path; x.off + x.len <= |target| && target[x.off..x.off + x.len] == target[c.p..c.a]
    ensures var x := Url.Split(target).1.query; x.off + x.len <= |target| && target[x.off..x.off + x.len] == target[c.a..c.q]
  {
    hide Url.Split;
  }

  lemma PathReadDecoded(norm: bytes -> bytes, target: bytes)
    ensures var x, path := Url.Split(target).1.path, Path(norm, target);
            R.DecodedPath(norm, target[x.off..x.off + x.len]) == if path.Some? then path.value else []
  {
    hide Url.Split, PathText, QueryText, Url.Unescape;
    PathRead(target);
  }

  // ------------------------------------------------------------ the request

  /** What the parser has set, as text of the buffer. */
  function Taken(p: R.Parsed, s: bytes): Ask
  {
    if p.bad then Rejected
    else Ask(Slice(p.req.verb, s), p.req.unescaped, Slice(p.req.path, s), Slice(p.req.query, s), Slice(p.req.host, s),
             Slice(p.req.ims, s), p.keepAlive)
  }

  /** The parser takes from a request exactly what it says, wherever the request stands at the
      front of the buffer s. */
  lemma RequestMeaning(norm: bytes -> bytes, s: bytes, t: Text)
    requires IsRequest(s, t) && |s| < W16
    ensures var p := R.Parse(norm, s, R.REQ0);
            && p.done && Taken(p, s) == Meaning(norm, t)
            && p.req.full == Range(0, |s|) && p.req.line == Range(0, |t.line|)
            && Within(p.req, |s|)
  {
    hide IsBlock, IsFirstLine, R.Headers, H.ReqLine, R.Finish, Reads, Taken, Meaning, LineCut;
    var cut, n: nat :| n <= |s| && IsFirstLine(s, t, cut, n) && IsBlock(s, n, t.fields, |s|);
    FirstLineRead(s, t, cut, n);
    HeadersFrom(s, t, n);
    var f := R.Headers(s, n, R.Fields(Range(0, 0), Range(0, 0), 0)).f;
    var q := R.REQ0.(line := R.LineRange(s, n), host := f.host, ims := f.ims, full := RangeSet(0, |s|));
    assert R.Parse(norm, s, R.REQ0) == R.Finish(norm, s, cut, q, f.ka);
    assert LineCut(s, t, cut) by { CutOk(s, t, cut, n); }
    FinishMeaning(norm, s, t, cut, q, f);
  }

  lemma CutOk(s: bytes, t: Text, cut: H.ReqCut, n: nat)
    requires n <= |s| < W16 && IsFirstLine(s, t, cut, n)
    ensures LineCut(s, t, cut)
  {
    FirstLineRead(s, t, cut, n);
  }

  predicate Within(q: R.Req, n: nat)
  {
    && q.verb.off + q.verb.len <= n && q.path.off + q.path.len <= n && q.query.off + q.query.len <= n
    && q.host.off + q.host.len <= n && q.ims.off + q.ims.len <= n
  }

  /** The line at the start of s is that of t, cut at these places. */
  predicate LineCut(s: bytes, t: Text, cut: H.ReqCut)
  {
    && 0 < cut.a < cut.b < cut.c < cut.d && cut.d + 8 <= |s| < W16
    && t.verb == s[..cut.a] && t.target == s[cut.b..cut.c] && (t.v1 <==> s[cut.d + 7] == 0x31)
  }

  /** The ranges that the last part of the parser sets. */
  function Ranges(q: R.Req, t: Text, cut: H.ReqCut): R.Req
  {
    var parts := Url.Split(t.target).1;
    q.(verb := RangeSet(0, cut.a), path := RangeSet(cut.b + parts.path.off, parts.path.len),
       query := RangeSet(cut.b + parts.query.off, parts.query.len))
  }

  lemma FinishIs(norm: bytes -> bytes, s: bytes, t: Text, cut: H.ReqCut, q: R.Req, ka: int)
    requires LineCut(s, t, cut)
    ensures var path := Path(norm, t.target);
            R.Finish(norm, s, cut, q, ka) ==
            if t.v1 && q.host.len == 0 then R.Parsed(true, true, false, q)
            else if path.None? then R.Parsed(true, true, false, Ranges(q, t, cut))
            else R.Parsed(true, false, if ka > 0 then true else if ka < 0 then false else t.v1,
                          Ranges(q, t, cut).(unescaped := path.value))
  {
    hide Url.Split, Path, R.DecodedPath, RangeSet;
    PathReadDecoded(norm, t.target);
    PathSome(norm, t.target);
  }

  lemma FinishMeaning(norm: bytes -> bytes, s: bytes, t: Text, cut: H.ReqCut, q: R.Req, f: R.Fields)
    requires LineCut(s, t, cut) && Reads(s, f, t.fields) && q.host == f.host && q.ims == f.ims
    requires q.verb == q.path == q.query == Range(0, 0)
    ensures var p := R.Finish(norm, s, cut, q, f.ka);
            && p.done && Taken(p, s) == Meaning(norm, t)
            && p.req.full == q.full && p.req.line == q.line && Within(p.req, |s|)
  {
    hide Url.Split, PathText, QueryText, Path, Slice, RangeSet, R.Finish;
    FinishIs(norm, s, t, cut, q, f.ka);
    ReadsWhat(s, f, t.fields);
    hide Reads, Host, ModifiedSince, Connection;
    PathRead(t.target);
    SliceIs(s, 0, cut.a);
    PathPlace(s, cut.b, t.target, Url.Split(t.target).1.path);
    PathPlace(s, cut.b, t.target, Url.Split(t.target).1.query);
  }

  lemma ReadsWhat(s: bytes, f: R.Fields, fs: seq<H.Field>)
    requires Reads(s, f, fs)
    ensures Slice(f.host, s) == Host(fs) && f.host.off + f.host.len <= |s| && (f.host.len == 0 <==> Host(fs) == [])
    ensures Slice(f.ims, s) == ModifiedSince(fs) && f.ims.off + f.ims.len <= |s|
    ensures f.ka > 0 <==> Connection(fs) == Some(true)
    ensures f.ka < 0 <==> Connection(fs) == Some(false)
  {
    hide Slice, Host, ModifiedSince, Connection;
  }

  lemma SliceIs(s: bytes, i: nat, n: nat)
    requires i + n <= |s| < W16
    ensures Slice(RangeSet(i, n), s) == s[i..i + n] && RangeSet(i, n) == Range(i, n)
  {
  }

  lemma PathPlace(s: bytes, b: nat, target: bytes, x: Span)
    requires b + |target| <= |s| < W16 && target == s[b..b + |target|] && x.off + x.len <= |target|
    ensures Slice(RangeSet(b + x.off, x.len), s) == target[x.off..x.off + x.len]
    ensures RangeSet(b + x.off, x.len) == Range(b + x.off, x.len)
  {
    hide RangeSet, Slice;
    SliceIs(s, b + x.off, x.len);
    PartOfPart(s, b, |target|, x.off, x.len);
  }

  lemma PartOfPart(s: bytes, b: nat, m: nat, i: nat, n: nat)
    requires b + m <= |s| && i + n <= m
    ensures s[b..b + m][i..i + n] == s[b + i..b + i + n]
  {
    var x, y := s[b..b + m][i..i + n], s[b + i..b + i + n];
    forall k | 0 <= k < n ensures x[k] == y[k] {
      assert x[k] == s[b..b + m][i + k];
    }
  }

  lemma PathSome(norm: bytes -> bytes, target: bytes)
    ensures Path(norm, target).Some? ==> Path(norm, target).value != []
  {
  }

  /** Every complete request has a meaning. */
  lemma RequestHasText(s: bytes) returns (t: Text)
    requires R.RequestEnd(s) == Some(|s|)
    ensures IsRequest(s, t)
  {
    hide IsBlock, R.Headers, H.ReqLine;
    var n, cut := H.ReqLine(s).n, H.ReqLine(s).value;
    R.LineBounds(s);
    H.ReqLineMeaning(s, cut, n);
    var fs := ReadBlock(s, n, R.Fields(Range(0, 0), Range(0, 0), 0));
    t := Text(s[..cut.f], s[..cut.a], s[cut.b..cut.c], s[cut.d + 7] == 0x31, fs);
    assert IsFirstLine(s, t, cut, n);
  }

  /** What has a meaning is a complete request. */
  lemma TextIsRequest(s: bytes, t: Text)
    requires IsRequest(s, t)
    ensures R.RequestEnd(s) == Some(|s|)
  {
    hide IsBlock, IsFirstLine, R.Headers, H.ReqLine;
    var cut, n: nat :| n <= |s| && IsFirstLine(s, t, cut, n) && IsBlock(s, n, t.fields, |s|);
    FirstLineRead(s, t, cut, n);
    BlockEnd(s, n, R.Fields(Range(0, 0), Range(0, 0), 0), t.fields, |s|);
  }

  lemma {:induction false} BlockEnd(s: bytes, pos: nat, f: R.Fields, fs: seq<H.Field>, end: nat)
    requires pos <= |s| && IsBlock(s, pos, fs, end)
    ensures R.Headers(s, pos, f).HDone? && R.Headers(s, pos, f).end == end
    decreases |fs|
  {
    hide H.IsHeader, R.Apply, H.HeaderLine;
    if fs == [] {
      BlankRead(s, pos, end);
    } else {
      var n: nat :| n <= |s| - pos && IsField(s, pos, fs[0], n) && IsBlock(s, pos + n, fs[1..], end);
      var h := FieldRead(s, pos, fs[0], n);
      BlockEnd(s, pos + n, R.Apply(s, pos, h, f), fs[1..], end);
    }
  }

  /** A request reads in one way only. */
  lemma TextUnique(s: bytes, t: Text, t': Text)
    requires IsRequest(s, t) && IsRequest(s, t')
    ensures t == t'
  {
    hide IsBlock, IsFirstLine, H.ReqLine;
    var cut, n: nat :| n <= |s| && IsFirstLine(s, t, cut, n) && IsBlock(s, n, t.fields, |s|);
    var cut', n': nat :| n' <= |s| && IsFirstLine(s, t', cut', n') && IsBlock(s, n', t'.fields, |s|);
    FirstLineRead(s, t, cut, n);
    FirstLineRead(s, t', cut', n');
    BlockUnique(s, n, t.fields, t'.fields, |s|);
  }

  lemma {:induction false} BlockUnique(s: bytes, pos: nat, fs: seq<H.Field>, fs': seq<H.Field>, end: nat)
    requires pos <= |s| && IsBlock(s, pos, fs, end) && IsBlock(s, pos, fs', end)
    ensures fs == fs'
    decreases |fs|
  {
    hide H.IsHeader, H.HeaderLine, IsField;
    if fs == [] {
      BlankRead(s, pos, end);
      if fs' != [] { var n, h := BlockFirst(s, pos, fs', end); }
    } else if fs' == [] {
      BlankRead(s, pos, end);
      var n, h := BlockFirst(s, pos, fs, end);
    } else {
      var n, h := BlockFirst(s, pos, fs, end);
      var n', h' := BlockFirst(s, pos, fs', end);
      BlockUnique(s, pos + n, fs[1..], fs'[1..], end);
      assert fs == [fs[0]] + fs[1..] && fs' == [fs'[0]] + fs'[1..];
    }
  }

  /** The first field of a block, and the rest. */
  lemma BlockFirst(s: bytes, pos: nat, fs: seq<H.Field>, end: nat) returns (n: nat, h: H.Header)
    requires pos <= |s| && fs != [] && IsBlock(s, pos, fs, end)
    ensures n <= |s| - pos && IsBlock(s, pos + n, fs[1..], end)
    ensures H.HeaderLine(s[pos..]) == H.Line(n, h) && h.name > 0 && h.name <= h.from <= h.to <= |s| - pos
    ensures fs[0] == H.Field(s[pos..pos + h.name], s[pos + h.from..pos + h.to])
  {
    hide H.IsHeader, H.HeaderLine, IsField;
    n :| n <= |s| - pos && IsField(s, pos, fs[0], n) && IsBlock(s, pos + n, fs[1..], end);
    h := FieldRead(s, pos, fs[0], n);
  }

  // ------------------------------------------------- the front of the buffer

  /** What the parser takes from a buffer is what the request at its front says, whatever follows;
      bytes that do not start with a request, and are not waited for, are rejected. */
  lemma FrontMeaning(norm: bytes -> bytes, s: bytes, t: Text)
    requires R.Parse(norm, s, R.REQ0).done && |s| < W16
    ensures R.RequestEnd(s).None? ==> Taken(R.Parse(norm, s, R.REQ0), s) == Rejected
    ensures R.RequestEnd(s).Some? && IsRequest(s[..R.RequestEnd(s).value], t) ==>
              Taken(R.Parse(norm, s, R.REQ0), s) == Meaning(norm, t)
  {
    hide R.Parse, R.RequestEnd, Meaning, IsRequest, Taken;
    if R.RequestEnd(s).None? {
      NoRequestBad(norm, s);
    } else if IsRequest(s[..R.RequestEnd(s).value], t) {
      var r := s[..R.RequestEnd(s).value];
      RequestMeaning(norm, r, t);
      R.ArrivedRequest(norm, s, |s|);
      assert s[..|s|] == s;
      SameTaken(R.Parse(norm, s, R.REQ0), s, |r|);
    }
  }

  lemma NoRequestBad(norm: bytes -> bytes, s: bytes)
    requires R.Parse(norm, s, R.REQ0).done && R.RequestEnd(s).None?
    ensures Taken(R.Parse(norm, s, R.REQ0), s) == Rejected
  {
    hide H.ReqLine, R.Headers, R.Finish;
  }

  lemma SameSlice(r: Range, s: bytes, n: nat)
    requires r.off + r.len <= n <= |s|
    ensures Slice(r, s) == Slice(r, s[..n])
  {
  }

  lemma SameTaken(p: R.Parsed, s: bytes, n: nat)
    requires n <= |s| && Within(p.req, n)
    ensures Taken(p, s) == Taken(p, s[..n])
  {
    hide Slice;
    SameSlice(p.req.verb, s, n);
    SameSlice(p.req.path, s, n);
    SameSlice(p.req.query, s, n);
    SameSlice(p.req.host, s, n);
    SameSlice(p.req.ims, s, n);
  }

  // ---------------------------------------------------------------- places

  /** A Host that the header loop sets stands behind the first line. */
  lemma {:induction false} HostPlace(s: bytes, pos: nat, f: R.Fields, n: nat)
    requires n <= pos <= |s| < W16 && (f.host.len > 0 ==> f.host.off >= n)
    ensures var h := R.Headers(s, pos, f).f.host; h.len > 0 ==> h.off >= n
    decreases |s| - pos
  {
    hide H.HeaderLine, R.Apply;
    var v := H.HeaderLine(s[pos..]);
    if v.Line? && v.value.name != 0 {
      AppliedHost(s, pos, v.value, f);
      HostPlace(s, pos + v.n, R.Apply(s, pos, v.value, f), n);
    }
  }

  lemma AppliedHost(s: bytes, pos: nat, h: H.Header, f: R.Fields)
    requires pos <= |s| < W16 && h.name <= h.from <= h.to <= |s| - pos
    ensures var r := R.Apply(s, pos, h, f).host; r == f.host || r == Range(pos + h.from, h.to - h.from)
  {
    hide LowerAll;
  }

  lemma HostOf(norm: bytes -> bytes, s: bytes)
    requires H.ReqLine(s).Line? && R.Headers(s, H.ReqLine(s).n, R.Fields(Range(0, 0), Range(0, 0), 0)).HDone?
    ensures R.Parse(norm, s, R.REQ0).req.host == R.Headers(s, H.ReqLine(s).n, R.Fields(Range(0, 0), Range(0, 0), 0)).f.host
  {
    hide H.ReqLine, R.Headers, Url.Split, R.DecodedPath, RangeSet;
    R.LineBounds(s);
  }

  lemma TextFits(target: bytes)
    ensures |PathText(target)| <= |target|
  {
    hide Url.IsSplit;
  }

  lemma SliceLength(r: Range, s: bytes)
    requires r.off + r.len <= |s|
    ensures |Slice(r, s)| == r.len
  {
  }

  /** Host and path of an accepted request are parts of the request that do not overlap, nor do
      they make up all of it. */
  lemma HostAndPathFit(norm: bytes -> bytes, s: bytes, t: Text)
    requires IsRequest(s, t) && |s| < W16 && !R.Parse(norm, s, R.REQ0).bad
    ensures var q := R.Parse(norm, s, R.REQ0).req; q.host.len + q.path.len + 12 <= |s| && Within(q, |s|)
  {
    hide IsBlock, IsFirstLine, R.Headers, H.ReqLine, R.Parse, PathText, QueryText, Slice, Path, Host, ModifiedSince,
         Connection;
    RequestMeaning(norm, s, t);
    var cut, n: nat :| n <= |s| && IsFirstLine(s, t, cut, n) && IsBlock(s, n, t.fields, |s|);
    FirstLineRead(s, t, cut, n);
    HeadersFrom(s, t, n);
    HostOf(norm, s);
    HostPlace(s, n, R.Fields(Range(0, 0), Range(0, 0), 0), n);
    TextFits(t.target);
    SliceLength(R.Parse(norm, s, R.REQ0).req.path, s);
  }

  /** The same wherever the request stands at the front of a buffer. */
  lemma FrontFits(norm: bytes -> bytes, s: bytes)
    requires R.Parse(norm, s, R.REQ0).done && !R.Parse(norm, s, R.REQ0).bad && |s| < W16
    ensures var q := R.Parse(norm, s, R.REQ0).req; q.host.len + q.path.len + 12 <= |s| && Within(q, |s|)
  {
    hide R.Parse, R.RequestEnd;
    AcceptedEnd(norm, s);
    var r := s[..R.RequestEnd(s).value];
    R.RequestEndLocal(s);
    var t := RequestHasText(r);
    R.ArrivedRequest(norm, s, |s|);
    assert s[..|s|] == s;
    HostAndPathFit(norm, r, t);
  }

  lemma AcceptedEnd(norm: bytes -> bytes, s: bytes)
    requires R.Parse(norm, s, R.REQ0).done && !R.Parse(norm, s, R.REQ0).bad
    ensures R.RequestEnd(s).Some?
  {
    hide H.ReqLine, R.Headers, R.Finish;
  }
}

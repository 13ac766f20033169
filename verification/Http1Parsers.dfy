/** The line parsers as the program runs them: a read position advanced over the buffer, with
    the parts found so far as output parameters. Results: >0 bytes processed, 0 need more
    data, <0 error. */
module Http1Parsers {
  import opened Bytes
  import opened Http1

  /** The C result code of a verdict. */
  function Code<T>(v: Verdict<T>): int
  {
    match v
    case More => 0
    case Bad => -1
    case Line(n, _) => n
  }

  /** Steps over spaces, one at a time, to the first other byte or the end. */
  method SkipSpaces(s: bytes, from: nat) returns (d: nat)
    requires from <= |s|
    ensures d == SkipWhile(s, from, IsSpace)
  {
    d := from;
    while d != |s| && s[d] == SP
      invariant from <= d <= |s|
      invariant SkipWhile(s, from, IsSpace) == SkipWhile(s, d, IsSpace)
      decreases |s| - d
    {
      d := d + 1;
    }
  }

  /** The line end at d: an optional CR, then LF. The result is the position after it. */
  method EolParse(s: bytes, from: nat) returns (r: int)
    requires from < |s|
    ensures r == Code(Eol(s, from))
  {
    var d := from;
    if s[d] == CR {
      d := d + 1;
      if d == |s| { return 0; }
    }
    if s[d] != LF { return -1; }
    r := d + 1;
  }

  /** One word and the spaces after it. The result is the position after the spaces. */
  method WordParse(s: bytes, d: nat, p: byte -> bool) returns (r: int, word: Span)
    requires d <= |s|
    ensures r == Code(Word(s, d, p))
    ensures Word(s, d, p).Line? ==> word == Span(d, Word(s, d, p).value - d)
  {
    word := Span(d, 0);
    r := Skip(s, d, p);
    if r < 0 { return 0, word; }
    if r == 0 || s[d + r] != SP { return -1, word; }
    word := Span(d, r);
    r := SkipSpaces(s, d + r + 1);
    if r == |s| { r := 0; }
  }

  /** The version token, the spaces after it and the line end. */
  method VersionParse(s: bytes, from: nat) returns (r: int, proto: Span)
    requires from < |s|
    ensures r == Code(VersionEnd(s, from))
    ensures VersionEnd(s, from).Line? ==> proto == Span(from, VersionEnd(s, from).value.0 - from)
  {
    proto := Span(from, 0);
    var d := from;
    if d + 8 <= |s| && !IsVersion(s, d) { return -1, proto; }
    r := Skip(s, d, IsPrintable);
    if r < 0 {
      return if d + 8 < |s| then -1 else 0, proto;
    } else if r < 8 {
      return -1, proto;
    }
    proto := Span(d, r);
    d := d + r;
    while s[d] == SP
      invariant from + r <= d < |s|
      invariant SkipWhile(s, from + r, IsSpace) == SkipWhile(s, d, IsSpace)
      decreases |s| - d
    {
      d := d + 1;
      if d == |s| { return 0, proto; }
    }
    r := EolParse(s, d);
  }

  /** http_req_parse */
  method HttpReqParse(req: bytes) returns (r: int, verb: Span, path: Span, proto: Span)
    ensures r == Code(ReqLine(req))
    ensures ReqLine(req).Line? ==>
              var cut := ReqLine(req).value;
              && verb == Span(0, cut.a)
              && path == Span(cut.b, cut.c - cut.b)
              && proto == Span(cut.d, cut.e - cut.d)
  {
    path, proto := Span(0, 0), Span(0, 0);
    r, verb := WordParse(req, 0, IsUpper);
    if r > 0 {
      r, path := WordParse(req, r, IsPrintable);
      if r > 0 {
        r, proto := VersionParse(req, r);
      }
    }
  }

  /** The value part of a header line, from the byte after ':', without the spaces around it.
      The result is the position of the line end. */
  method ValueParse(s: bytes, from: nat) returns (r: int, value: Span)
    requires from <= |s|
    ensures var b := SkipWhile(s, from, IsSpace);
            var c := SkipWhile(s, b, NotEol);
            if b == |s| || c == |s| then r == -1
            else r == c && value == Span(b, TrimEnd(s, b, c) - b)
  {
    hide SkipWhile, TrimEnd;
    var d := SkipSpaces(s, from);
    value := Span(d, 0);
    if d == |s| { return -1, value; }
    r := Skip(s, d, NotEol);
    if r < 0 { return -1, value; }
    r := d + r;
    value := TrimSpaces(s, d, r);
  }

  /** The loop that cuts the spaces after the value. */
  method TrimSpaces(s: bytes, from: nat, to: nat) returns (value: Span)
    requires from <= to <= |s|
    ensures value == Span(from, TrimEnd(s, from, to) - from)
  {
    value := Span(from, to - from);
    while value.len != 0 && s[value.off + value.len - 1] == SP
      invariant value.off == from && from + value.len <= to
      invariant TrimEnd(s, from, to) == TrimEnd(s, from, from + value.len)
      decreases value.len
    {
      value := value.(len := value.len - 1);
    }
  }

  /** http_hdr_parse. The name and value are meaningful for a line with a name. */
  method HttpHdrParse(data: bytes) returns (r: int, name: Span, value: Span)
    ensures r == Code(HeaderLine(data))
    ensures HeaderLine(data).Line? ==>
              var h := HeaderLine(data).value;
              name == Span(0, h.name) && (h.name != 0 ==> value == Span(h.from, h.to - h.from))
  {
    name, value := Span(0, 0), Span(0, 0);
    r := Skip(data, 0, IsNameChar);
    if r < 0 { return 0, name, value; }
    if r != 0 {
      if data[r] != COLON || data[0] == DASH { return -1, name, value; }
      name := Span(0, r);
      r, value := ValueParse(data, r + 1);
      if r < 0 { return 0, name, value; }
    }
    r := EolParse(data, r);
  }

  /** http_resp_parse */
  method HttpRespParse(resp: bytes) returns (r: int, proto: Span, code: nat, msg: Span)
    ensures r == Code(RespLine(resp))
    ensures RespLine(resp).Line? ==>
              var cut := RespLine(resp).value;
              && proto == Span(0, cut.a)
              && code == cut.code
              && msg == Span(cut.a + 5, cut.e - cut.a - 5)
  {
    proto, code, msg := Span(0, 0), 0, Span(0, 0);
    var d := 0;
    r := Skip(resp, d, IsPrintable);
    if r < 0 { return 0, proto, code, msg; }
    if r == 0 || resp[d + r] != SP { return -1, proto, code, msg; }
    proto := Span(d, r);
    d := d + r + 1;

    r := Skip(resp, d, IsDigit);
    if r < 0 { return 0, proto, code, msg; }
    if r != 3 || resp[d + r] != SP { return -1, proto, code, msg; }
    code := Dec(resp[d]) * 100 + Dec(resp[d + 1]) * 10 + Dec(resp[d + 2]);
    d := d + 4;

    r := Skip(resp, d, IsText);
    if r < 0 { return 0, proto, code, msg; }
    msg := Span(d, r);
    r := EolParse(resp, d + r);
  }
}

/** What the client gets: for every finished exchange of every run the calls that were made, the
    status, the head and the body, in terms of the request's text and the answers to the calls; and
    when the connection is kept. */
module ChainResponses {
  import opened Bytes
  import opened Chain
  import opened ChainEngine
  import opened ChainData
  import opened ChainInv
  import opened ChainSteps
  import opened ChainRun
  import opened ChainAnswer
  import opened ChainAnswerSteps
  import opened ChainAnswerRun
  import ChainLog
  import H = Http1
  import R = Request
  import T = RequestText
  import W = Http1Writers

  /** The responses that were completed. */
  function Completed(o: Outcome): seq<Exchange> { if o.Panic? then [] else Client(o).eng.log }

  /** Completed responses are within the limit, and each of them is exact. */
  lemma CompletedOk(conf: Conf, es: seq<Env>)
    requires GoodConf(conf)
    ensures !Run(conf, es).Panic?
    ensures LogOk(conf, Completed(Run(conf, es)))
    ensures conf.maxKeepAlive > 0 ==> |Completed(Run(conf, es))| <= conf.maxKeepAlive
  {
    hide ExchangeOk, Start, Step, EngInv, Wire, Taken, Attempted, Handled, R.AreRequests, GoodConf, EndsRejected;
    RunInv(conf, es);
    RunConf(conf, es);
  }

  /** The k-th response of the run is to a request that asks for q, with the calls a. */
  ghost predicate Exchanged(conf: Conf, es: seq<Env>, k: nat, q: T.Ask, a: Calls, x: Exchange)
  {
    && k < |Completed(Run(conf, es))| && k < |Made(conf, es).past|
    && x == Completed(Run(conf, es))[k] && a == Made(conf, es).past[k]
    && Means(conf.normalize, x.request, q)
  }

  lemma MeansUnique(norm: bytes -> bytes, request: bytes, q: T.Ask, q': T.Ask)
    requires Means(norm, request, q) && Means(norm, request, q')
    ensures q == q'
  {
    hide T.IsRequest, T.Meaning;
    if request != [] {
      var t :| T.IsRequest(request, t) && q == T.Meaning(norm, t);
      var t' :| T.IsRequest(request, t') && q' == T.Meaning(norm, t');
      T.TextUnique(request, t, t');
    }
  }

  /** Every finished exchange has a request that asks for something, and the calls made for it. */
  lemma EveryExchange(conf: Conf, es: seq<Env>, k: nat) returns (q: T.Ask)
    requires GoodConf(conf) && k < |Completed(Run(conf, es))|
    ensures |Made(conf, es).past| == |Completed(Run(conf, es))|
    ensures Exchanged(conf, es, k, q, Made(conf, es).past[k], Completed(Run(conf, es))[k])
  {
    hide GoodConf, Run, Made, Means, Answers, Says;
    RunTold(conf, es);
    assert Answered(conf, Completed(Run(conf, es))[k], Made(conf, es).past[k]);
    q :| Means(conf.normalize, Completed(Run(conf, es))[k].request, q)
         && Answers(conf, q, Made(conf, es).past[k], Completed(Run(conf, es))[k]);
  }

  /** The response is the one that the request and the answers call for. */
  lemma ResponseIs(conf: Conf, es: seq<Env>, k: nat, q: T.Ask, a: Calls, x: Exchange)
    requires GoodConf(conf) && Exchanged(conf, es, k, q, a, x)
    ensures Answers(conf, q, a, x)
  {
    hide GoodConf, Run, Made, Means, Answers, Says;
    RunTold(conf, es);
    assert Answered(conf, x, a);
    var q' :| Means(conf.normalize, x.request, q') && Answers(conf, q', a, x);
    MeansUnique(conf.normalize, x.request, q, q');
  }

  // ------------------------------------------------------- calls and statuses

  /** Which calls are made: the index file is looked for exactly when the path ends with a slash;
      what then still does is listed; a GET or HEAD for anything else opens the file of that name
      below the document root; and the properties of every opened file are asked for. */
  predicate CallsOf(conf: Conf, q: T.Ask, a: Calls)
  {
    && (a.index.Some? <==> q.Ask? && EndsWithSlash(q.path))
    && (if q.Rejected? then a.dir.None? && a.open.None?
        else
          var path := q.path + if a.index == Some(true) then conf.index else [];
          && (a.dir.Some? <==> EndsWithSlash(path))
          && (a.open.Some? <==> !EndsWithSlash(path) && (q.verb == Ascii("GET") || q.verb == Ascii("HEAD")))
          && (a.open.Some? ==> a.name == conf.www + path + [0]))
    && (a.info.Some? <==> a.open.Some? && a.open.value.Opened?)
    && a.open != Some(OpenWait) && a.info != Some(InfoWait)
  }

  /** The file has not changed since the time that the request gives. */
  predicate IsCurrent(q: T.Ask, a: Calls) { Regular(a) && q.Ask? && q.since != [] && q.since == a.info.value.lastModified }

  /** Which status goes with which request and answers. */
  predicate StatusOf(q: T.Ask, a: Calls, status: nat)
  {
    && (status == 400 <==> q.Rejected?)
    && (status == 405 <==> q.Ask? && a.dir.None? && q.verb != Ascii("GET") && q.verb != Ascii("HEAD"))
    && (status == 404 <==> a.dir == Some(DirMissing) || a.open == Some(OpenMissing))
    && (status == 500 <==> a.open == Some(OpenError))
    && (status == 403 <==> a.dir == Some(DirError) || a.info == Some(InfoError))
    && (status == 301 <==> a.info.Some? && a.info.value.Info? && a.info.value.isDir)
    && (status == 304 <==> IsCurrent(q, a))
    && (status == 200 <==> (a.dir.Some? && a.dir.value.Listing?) || (Regular(a) && !IsCurrent(q, a)))
  }

  /** Every status goes with its message. */
  predicate MessageOf(status: nat, msg: bytes)
  {
    status in {200, 301, 304, 400, 403, 404, 405, 500} && msg == Message(status)
  }

  lemma AnswersCalls(conf: Conf, q: T.Ask, a: Calls, x: Exchange)
    requires Answers(conf, q, a, x)
    ensures CallsOf(conf, q, a)
  {
    hide HeadFor, Status, ContentLength, EndsWithSlash, Html, Ascii;
  }

  lemma AnswersStatus(conf: Conf, q: T.Ask, a: Calls, x: Exchange)
    requires Answers(conf, q, a, x)
    ensures StatusOf(q, a, x.info.code) && MessageOf(x.info.code, x.info.msg)
  {
    hide ContentLength, ContentType, Location, LastModified, EndsWithSlash, Html, Ascii;
  }

  /** For every request of every run: the calls made, the status, and its message. */
  lemma Statuses(conf: Conf, es: seq<Env>, k: nat, q: T.Ask, a: Calls, x: Exchange)
    requires GoodConf(conf) && Exchanged(conf, es, k, q, a, x)
    ensures CallsOf(conf, q, a) && StatusOf(q, a, x.info.code) && MessageOf(x.info.code, x.info.msg)
  {
    hide GoodConf, Exchanged, Answers, CallsOf, StatusOf, MessageOf;
    ResponseIs(conf, es, k, q, a, x);
    AnswersCalls(conf, q, a, x);
    AnswersStatus(conf, q, a, x);
  }

  // ----------------------------------------------------------------- the head

  /** What the head of the response x says. */
  predicate HeadOf(conf: Conf, q: T.Ask, a: Calls, x: Exchange)
  {
    && x.info.contentLength == Some(x.length)
    && (x.info.code != 200 ==> x.length == |x.info.msg| && x.info.contentType == Ascii("text/plain"))
    && (x.info.code == 200 && Regular(a) ==>
          x.length == a.info.value.size && x.info.contentType == a.info.value.contentType)
    && (x.info.code == 200 && !Regular(a) ==> x.length == |x.listing| && x.info.contentType == [])
    && x.info.lastModified == (if Regular(a) then a.info.value.lastModified else [])
    && x.info.location ==
       (if x.info.code == 301 && q.Ask? then Ascii("http://") + q.host + q.url + Ascii("/") else [])
    && x.info.server == conf.server
    && (x.info.keepAlive <==> q.Ask? && q.keepAlive)
  }

  lemma AnswersHead(conf: Conf, q: T.Ask, a: Calls, x: Exchange)
    requires Answers(conf, q, a, x)
    ensures HeadOf(conf, q, a, x)
  {
    hide EndsWithSlash, Ascii, Status, Calling, IsFile;
  }

  /** For every request of every run: what the head says. */
  lemma Heads(conf: Conf, es: seq<Env>, k: nat, q: T.Ask, a: Calls, x: Exchange)
    requires GoodConf(conf) && Exchanged(conf, es, k, q, a, x)
    ensures HeadOf(conf, q, a, x)
  {
    hide GoodConf, Exchanged, Answers, HeadOf;
    ResponseIs(conf, es, k, q, a, x);
    AnswersHead(conf, q, a, x);
  }

  /** In every state in which the head is built, it was built from the response as it is, and from
      the configured server name and the flag that keeps the connection. */
  lemma HeadRecorded(conf: Conf, c: Cl, i: nat)
    requires GoodConf(conf) && Reached(conf, c, i) && Sized(c.eng) && HasRequest(c.eng) && c.eng.mods[RESP].done
    ensures c.resp.info.code == c.resp.code && c.resp.info.msg == c.resp.msg
    ensures c.resp.info.contentLength == c.resp.contentLength && c.resp.info.location == Deref(c, c.resp.location)
    ensures c.resp.info.lastModified == c.resp.lastModified && c.resp.info.contentType == c.resp.contentType
    ensures c.resp.info.server == conf.server && c.resp.info.keepAlive == c.fl.keepAlive
  {
    hide GoodConf, Inv, Says, Reached;
    ReachedInv(conf, c, i);
    var a := ReachedSays(conf, c, i);
    Built(c, i);
    HeadIsFor(c, a);
    HeadBuiltFor(c, a);
  }

  /** Every state of a run says what some calls call for. */
  lemma ReachedSays(conf: Conf, c: Cl, i: nat) returns (a: Calls)
    requires GoodConf(conf) && Reached(conf, c, i)
    ensures Says(c, a)
  {
    hide GoodConf, Run, Made, Says, Answered;
    var es :| Run(conf, es) == Go(c, i) || Run(conf, es) == Wait(c, i);
    RunTold(conf, es);
    a := Made(conf, es).now;
  }

  lemma Built(c: Cl, i: nat)
    requires Inv(c, i) && Sized(c.eng) && HasRequest(c.eng) && c.eng.mods[RESP].done
    ensures Entered(c.eng, FILE) && c.eng.mods[ERROR].done && c.resp.contentLength.Some?
  {
    hide Pipe, LogOk, GoodConf, Transferring, Reads, Whole, Sending;
    NotEnteredAfter(c.eng, i);
    assert Entered(c.eng, RESP) && Entered(c.eng, ERROR) && Entered(c.eng, FILE);
  }

  lemma HeadBuiltFor(c: Cl, a: Calls)
    requires Says(c, a) && HasRequest(c.eng) && c.eng.mods[RESP].done
    ensures c.resp.info == HeadFor(c.conf, Asked(c), a)
  {
    hide PathSays, FileSays, StatusSays, HeadFor;
  }

  // ----------------------------------------------------------------- the body

  /** The bytes that follow the head. A HEAD for a file has none, and a GET is given the file, whole
      when the contents are as long as announced; any other response is followed by the listing or
      the status message, which have the announced length. */
  predicate BodyOf(q: T.Ask, a: Calls, x: Exchange, body: bytes)
  {
    if a.open.Some? && q.Ask? && q.verb == Ascii("HEAD") then body == []
    else if a.open.Some? && x.info.code == 200 then
      a.open.value.Opened? && (|a.open.value.content| == x.length ==> body == a.open.value.content)
    else body == (if x.info.code == 200 then Html(a) else x.info.msg) && |body| == x.length
  }

  /** What the socket accepted for a finished exchange. */
  lemma SentIs(conf: Conf, x: Exchange)
    requires ExchangeOk(conf, x)
    ensures x.info.code < 1000 && conf.respBuf >= 2 && W.HeadText(conf.respBuf, x.info) == Some(x.head)
    ensures Prefix(x.head, x.sent)
    ensures var body := x.sent[|x.head|..];
            && (x.headMethod ==> body == [])
            && (!x.headMethod && x.file.Some? && |x.file.value| == x.length ==> body == x.file.value)
            && (!x.headMethod && x.file.None? ==>
                  body == (if x.failed then x.info.msg else x.listing) && |body| == x.length)
  {
    hide W.HeadText, Clamp;
    if |Flat(x.fed)| == x.length {
      BodyIsContent(x.length, x.fed);
    }
    assert x.sent[|x.head|..] == Body(x.headMethod, x.length, x.fed);
  }

  lemma AnswersBody(conf: Conf, q: T.Ask, a: Calls, x: Exchange, body: bytes)
    requires Answers(conf, q, a, x)
    requires x.headMethod ==> body == []
    requires !x.headMethod && x.file.Some? && |x.file.value| == x.length ==> body == x.file.value
    requires !x.headMethod && x.file.None? ==> body == (if x.failed then x.info.msg else x.listing) && |body| == x.length
    ensures BodyOf(q, a, x, body)
  {
    hide Message, ContentLength, ContentType, Location, LastModified, EndsWithSlash, Html, Ascii, Target;
  }

  lemma CompletedExchange(conf: Conf, es: seq<Env>, x: Exchange)
    requires GoodConf(conf) && x in Completed(Run(conf, es))
    ensures ExchangeOk(conf, x)
  {
    CompletedOk(conf, es);
    hide GoodConf, Run, Completed, ExchangeOk;
  }

  /** Framing: in every run, with every choice of read and send sizes and suspensions, the socket
      has accepted for each completed response exactly the head and the body, once and in order,
      and the body is the one that the request's method and the answers call for. */
  lemma Framing(conf: Conf, es: seq<Env>, k: nat, q: T.Ask, a: Calls, x: Exchange)
    requires GoodConf(conf) && Exchanged(conf, es, k, q, a, x)
    ensures x.info.code < 1000 && conf.respBuf >= 2 && W.HeadText(conf.respBuf, x.info) == Some(x.head)
    ensures Prefix(x.head, x.sent) && BodyOf(q, a, x, x.sent[|x.head|..])
  {
    ResponseIs(conf, es, k, q, a, x);
    ExchangedIn(conf, es, k, q, a, x);
    CompletedExchange(conf, es, x);
    hide GoodConf, Exchanged, Run, Made, Answers, BodyOf, ExchangeOk, W.HeadText;
    SentIs(conf, x);
    AnswersBody(conf, q, a, x, x.sent[|x.head|..]);
  }

  lemma ExchangedIn(conf: Conf, es: seq<Env>, k: nat, q: T.Ask, a: Calls, x: Exchange)
    requires Exchanged(conf, es, k, q, a, x)
    ensures x in Completed(Run(conf, es))
  {
    hide Run, Made, Means, Completed;
  }

  /** The contents of a file are the body. */
  predicate FileServed(q: T.Ask, a: Calls, x: Exchange)
  {
    q.Ask? && q.verb == Ascii("GET") && a.open.Some? && a.open.value.Opened? && x.info.code == 200
  }

  lemma ServedFile(conf: Conf, es: seq<Env>, k: nat, q: T.Ask, a: Calls, x: Exchange)
    requires GoodConf(conf) && Exchanged(conf, es, k, q, a, x) && FileServed(q, a, x)
    ensures !x.headMethod && x.file == Some(a.open.value.content) && ExchangeOk(conf, x)
  {
    ResponseIs(conf, es, k, q, a, x);
    ExchangedIn(conf, es, k, q, a, x);
    CompletedExchange(conf, es, x);
    hide GoodConf, Exchanged, Run, Made, ExchangeOk;
    AnswersFile(conf, q, a, x);
  }

  lemma AnswersFile(conf: Conf, q: T.Ask, a: Calls, x: Exchange)
    requires Answers(conf, q, a, x) && FileServed(q, a, x)
    ensures !x.headMethod && x.file == Some(a.open.value.content)
  {
    hide Message, ContentLength, ContentType, Location, LastModified, EndsWithSlash, Html, Target;
    assert |Ascii("GET")| == 3 && |Ascii("HEAD")| == 4;
  }

  /** The body of a file has the announced length exactly when the reads total at least that much
      and only the last read reached it: once the announced length is used up, later reads pass
      whole. The last input of the transfer filter is the empty one that marks the end. */
  lemma FileLength(conf: Conf, es: seq<Env>, k: nat, q: T.Ask, a: Calls, x: Exchange)
    requires GoodConf(conf) && Exchanged(conf, es, k, q, a, x) && FileServed(q, a, x)
    ensures x.fed != [] && a.open.value.content == Flat(x.fed[..|x.fed| - 1]) && Prefix(x.head, x.sent)
    ensures var parts := x.fed[..|x.fed| - 1];
            |x.sent| == |x.head| + x.length <==>
            |a.open.value.content| >= x.length && (|parts| > 1 ==> |Flat(parts[..|parts| - 1])| < x.length)
  {
    hide GoodConf, Exchanged, Run, Made, ExchangeOk, FileServed;
    ServedFile(conf, es, k, q, a, x);
    LengthOf(conf, x);
  }

  lemma LengthOf(conf: Conf, x: Exchange)
    requires ExchangeOk(conf, x) && !x.headMethod && x.file.Some?
    ensures x.fed != [] && x.file.value == Flat(x.fed[..|x.fed| - 1]) && Prefix(x.head, x.sent)
    ensures var parts := x.fed[..|x.fed| - 1];
            |x.sent| == |x.head| + x.length <==>
            |x.file.value| >= x.length && (|parts| > 1 ==> |Flat(parts[..|parts| - 1])| < x.length)
  {
    hide HeadOk, Clamp, Flat, Finished;
    var parts := x.fed[..|x.fed| - 1];
    assert x.fed == parts + [[]];
    ClampEmpty(x.length, parts);
    BodyLength(x.length, parts);
  }

  /** The bytes of the body of a file: the file up to the announced length, as far as the read that
      reaches it, and then all later reads. So the body is the file exactly when that read does not
      go beyond the announced length, and otherwise a prefix of it only by coincidence. */
  lemma FileBody(conf: Conf, es: seq<Env>, k: nat, q: T.Ask, a: Calls, x: Exchange)
    requires GoodConf(conf) && Exchanged(conf, es, k, q, a, x) && FileServed(q, a, x)
    ensures x.fed != [] && a.open.value.content == Flat(x.fed[..|x.fed| - 1]) && Prefix(x.head, x.sent)
    ensures var parts := x.fed[..|x.fed| - 1];
            var j := Reach(x.length, parts);
            var first, after, body := Flat(parts[..j]), Flat(parts[j..]), x.sent[|x.head|..];
            && body == (if |first| <= x.length then first else first[..x.length]) + after
            && (body == a.open.value.content <==> |first| <= x.length)
            && (Prefix(body, a.open.value.content) <==>
                  |first| <= x.length || Prefix(after, first[x.length..] + after))
  {
    hide GoodConf, Exchanged, Run, Made, ExchangeOk, FileServed;
    ServedFile(conf, es, k, q, a, x);
    PartsSent(conf, x);
  }

  lemma PartsSent(conf: Conf, x: Exchange)
    requires ExchangeOk(conf, x) && !x.headMethod && x.file.Some?
    ensures x.fed != [] && x.file.value == Flat(x.fed[..|x.fed| - 1]) && Prefix(x.head, x.sent)
    ensures var parts := x.fed[..|x.fed| - 1];
            var j := Reach(x.length, parts);
            var first, after, body := Flat(parts[..j]), Flat(parts[j..]), x.sent[|x.head|..];
            && body == (if |first| <= x.length then first else first[..x.length]) + after
            && (body == x.file.value <==> |first| <= x.length)
            && (Prefix(body, x.file.value) <==> |first| <= x.length || Prefix(after, first[x.length..] + after))
  {
    hide HeadOk, Clamp, Flat, Finished, Reach;
    var parts := x.fed[..|x.fed| - 1];
    assert x.fed == parts + [[]];
    ClampEmpty(x.length, parts);
    ClampShape(x.length, parts);
    ClampKeeps(x.length, parts);
    assert (x.head + Clamp(x.length, parts))[|x.head|..] == Clamp(x.length, parts);
  }

  // ----------------------------------------------------------------- the peer

  /** A field that is only there when it has a value. */
  function Optional(name: bytes, val: bytes): seq<H.Field> { if val == [] then [] else [H.Field(name, val)] }

  /** The header fields of a response, in order. */
  function FieldsFor(x: Exchange): seq<H.Field>
  {
    [H.Field(Ascii("Content-Length"), Digits(x.length, 10))]
    + Optional(Ascii("Location"), x.info.location)
    + Optional(Ascii("Last-Modified"), x.info.lastModified)
    + Optional(Ascii("Content-Type"), x.info.contentType)
    + Optional(Ascii("Server"), x.info.server)
    + [H.Field(Ascii("Connection"), if x.info.keepAlive then Ascii("keep-alive") else Ascii("close"))]
  }

  lemma FieldsAre(x: Exchange)
    requires x.info.contentLength == Some(x.length)
    ensures W.HeadFields(x.info) == FieldsFor(x)
  {
    hide Digits, Ascii;
  }

  /** What the peer makes of any response whose head fits the buffer: parsing the accepted bytes
      gives the status with its message, the fields, and then exactly the body. */
  lemma PeerReads(conf: Conf, es: seq<Env>, k: nat, q: T.Ask, a: Calls, x: Exchange)
    requires GoodConf(conf) && Exchanged(conf, es, k, q, a, x)
    requires W.IsHeadInfo(x.info) && |W.Head(x.info)| <= conf.respBuf
    ensures var n := 13 + |x.info.msg| + 2;
            && n <= |x.head| <= |x.sent|
            && H.RespLine(x.sent) == H.Line(n, H.RespCut(8, x.info.code, 13 + |x.info.msg|))
            && x.sent[13..13 + |x.info.msg|] == x.info.msg
            && W.HeaderBlock(x.sent[n..]) == H.Line(|x.head| - n, FieldsFor(x))
            && BodyOf(q, a, x, x.sent[|x.head|..])
  {
    hide GoodConf, Exchanged, Run, W.HeadText, W.Head, H.RespLine, W.HeaderBlock, W.HeadFields, W.IsHeadInfo, Digits,
         BodyOf, HeadOf, FieldsFor, W.RespLineText;
    Framing(conf, es, k, q, a, x);
    Heads(conf, es, k, q, a, x);
    HeadLength(conf, q, a, x);
    W.HeadFits(conf.respBuf, x.info);
    var body := x.sent[|x.head|..];
    assert x.sent == x.head + body;
    W.HeadRoundTrip(x.info, body);
    FieldsAre(x);
    HeadLonger(x.info);
  }

  lemma HeadLength(conf: Conf, q: T.Ask, a: Calls, x: Exchange)
    requires HeadOf(conf, q, a, x)
    ensures x.info.contentLength == Some(x.length)
  {
  }

  lemma HeadLonger(h: W.HeadInfo)
    requires h.code < 1000
    ensures |W.RespLineText(h.code, h.msg)| == 13 + |h.msg| + 2 <= |W.Head(h)|
  {
    hide W.HeadFields, W.FieldsText;
  }

  // ------------------------------------------------- keeping the connection

  /** o closes the connection exactly when the response of c announced so, or was the last that is
      allowed. Otherwise the next request starts with exactly the bytes behind this one, and they
      are looked at before more is received if there are any. */
  predicate KeepsOrCloses(conf: Conf, c: Cl, o: Outcome)
  {
    && (o.Closed? || o.Go?) && |o.c.eng.log| == |c.eng.log| + 1
    && (o.Closed? <==> !c.resp.info.keepAlive || |c.eng.log| + 1 == ChainLog.Limit(conf))
    && (o.Go? ==>
          && o.i == RECV && o.c.eng.log[|c.eng.log|].request + o.c.rx.buf == c.rx.buf
          && (o.c.rx.unprocessed <==> o.c.rx.buf != []))
  }

  /** What happens to the connection when the entry of a response is written. */
  lemma KeptOrClosed(conf: Conf, c: Cl, e: Env)
    requires GoodConf(conf) && Reached(conf, c, LOG) && e.log.Logged?
    ensures Sized(c.eng) && KeepsOrCloses(conf, c, Step(c, LOG, e))
  {
    hide GoodConf, Inv, Reached, Step, ThisExchange;
    ReachedInv(conf, c, LOG);
    ChainLog.LogOutcome(c, e);
    AtLog(conf, c);
    RequestIs(c);
    var n := c.req.full.len;
    if n <= |c.rx.buf| {
      assert c.rx.buf[..n] + c.rx.buf[n..] == c.rx.buf;
    }
  }

  lemma RequestIs(c: Cl)
    ensures c.req.full.len <= |c.rx.buf| ==> ThisExchange(c).request == c.rx.buf[..c.req.full.len]
    ensures ThisExchange(c).info == c.resp.info
  {
  }

  lemma AtLog(conf: Conf, c: Cl)
    requires GoodConf(conf) && Reached(conf, c, LOG)
    ensures c.resp.info.keepAlive == c.fl.keepAlive
  {
    hide GoodConf, Inv, Reached;
    ReachedInv(conf, c, LOG);
    LogEntered(c);
    HeadRecorded(conf, c, LOG);
  }

  /** Whoever got another response was told that the connection stays, and so was everyone whose
      connection is still open; and no connection has more responses than allowed. */
  ghost predicate KeptSoFar(conf: Conf, o: Outcome)
  {
    && !o.Panic?
    && var log := Client(o).eng.log;
       && |log| <= ChainLog.Limit(conf)
       && (forall k :: 0 <= k < |log| - 1 ==> log[k].info.keepAlive)
       && (!o.Closed? ==> |log| < ChainLog.Limit(conf) && forall k :: 0 <= k < |log| ==> log[k].info.keepAlive)
  }

  /** A response that announces the end of the connection is its last. */
  lemma {:induction false} KeptAsAnnounced(conf: Conf, es: seq<Env>)
    requires GoodConf(conf)
    ensures KeptSoFar(conf, Run(conf, es))
    decreases |es|
  {
    hide Inv, Step, GoodConf, Start, Ended;
    if es == [] {
      StartTold(conf);
      SomeAllowed(conf);
    } else {
      var before, e := es[..|es| - 1], es[|es| - 1];
      var o := Run(conf, before);
      KeptAsAnnounced(conf, before);
      RunInv(conf, before);
      RunInv(conf, es);
      RunConf(conf, before);
      if o.Go? || o.Wait? {
        InvFacts(o.c, o.i);
        assert Run(conf, before) == Go(o.c, o.i) || Run(conf, before) == Wait(o.c, o.i);
        StepKept(conf, o, e);
      }
    }
  }

  lemma SomeAllowed(conf: Conf)
    ensures ChainLog.Limit(conf) > 0
  {
  }

  lemma StepKept(conf: Conf, o: Outcome, e: Env)
    requires GoodConf(conf) && (o.Go? || o.Wait?) && Reached(conf, o.c, o.i) && KeptSoFar(conf, o)
    requires Inv(o.c, o.i) && o.i < N && Sized(o.c.eng) && o.c.conf == conf
    ensures !Step(o.c, o.i, e).Panic? ==> KeptSoFar(conf, Step(o.c, o.i, e))
  {
    hide Inv, Step, GoodConf, Reached, ThisExchange;
    var c := o.c;
    if o.i < LOG {
      SameLog(c, o.i, e);
    } else {
      ChainLog.LogOutcome(c, e);
      AtLog(conf, c);
      RequestIs(c);
    }
  }

  /** A connection that ends with a response: it was the last allowed, or the request did not ask to
      keep the connection, or was rejected. */
  lemma EndsWithResponse(conf: Conf, es: seq<Env>, q: T.Ask, a: Calls, x: Exchange)
    requires GoodConf(conf) && Run(conf, es).Closed?
    requires var k := |Completed(Run(conf, es))|; k > 0 && Exchanged(conf, es, k - 1, q, a, x)
    requires es != [] && |Completed(Run(conf, es))| > |Completed(Run(conf, es[..|es| - 1]))|
    ensures |Completed(Run(conf, es))| == ChainLog.Limit(conf) || q.Rejected? || !q.keepAlive
  {
    hide GoodConf, Inv, Step, Exchanged, HeadOf, ThisExchange, Made, Means, Ended;
    var before, e, n := es[..|es| - 1], es[|es| - 1], |Completed(Run(conf, es))|;
    Heads(conf, es, n - 1, q, a, x);
    HeadKeeps(conf, q, a, x);
    assert x == Completed(Run(conf, es))[n - 1] by { ExchangedAt(conf, es, n - 1, q, a, x); }
    RunInv(conf, before);
    RunConf(conf, before);
    var o := Run(conf, before);
    if o.Go? || o.Wait? {
      InvFacts(o.c, o.i);
      assert Reached(conf, o.c, o.i);
      if o.i < LOG { SameLog(o.c, o.i, e); }
      LastStep(conf, o.c, e);
    }
  }

  lemma LastStep(conf: Conf, c: Cl, e: Env)
    requires GoodConf(conf)
    ensures Reached(conf, c, LOG) && Sized(c.eng) && Step(c, LOG, e).Closed? && |Step(c, LOG, e).c.eng.log| > |c.eng.log| ==>
              var log := Step(c, LOG, e).c.eng.log;
              |log| == |c.eng.log| + 1 && (|log| == ChainLog.Limit(conf) || !log[|log| - 1].info.keepAlive)
  {
    hide GoodConf, Inv, Reached, Step, ThisExchange;
    if Reached(conf, c, LOG) {
      ReachedInv(conf, c, LOG);
      ChainLog.LogOutcome(c, e);
      AtLog(conf, c);
      RequestIs(c);
    }
  }

  lemma HeadKeeps(conf: Conf, q: T.Ask, a: Calls, x: Exchange)
    requires HeadOf(conf, q, a, x)
    ensures x.info.keepAlive <==> q.Ask? && q.keepAlive
  {
    hide Ascii;
  }

  lemma ExchangedAt(conf: Conf, es: seq<Env>, k: nat, q: T.Ask, a: Calls, x: Exchange)
    requires Exchanged(conf, es, k, q, a, x)
    ensures k < |Completed(Run(conf, es))| && x == Completed(Run(conf, es))[k]
  {
    hide Run, Made, Means, Completed;
  }
}

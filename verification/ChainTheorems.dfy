/** What holds of every connection, whatever the outside world answers: back-pressure, pipelining,
    and the use of the filters. */
module ChainTheorems {
  import opened Bytes
  import opened Chain
  import opened ChainEngine
  import opened ChainData
  import opened ChainInv
  import opened ChainSteps
  import opened ChainRun
  import ChainFile
  import ChainSend
  import H = Http1
  import R = Request
  import W = Http1Writers

  // ---------------------------------------------------------------- sending

  /** At every moment what was sent of a file is a prefix of the head and the file. */
  lemma SentSoFar(conf: Conf, c: Cl, i: nat)
    requires GoodConf(conf) && Reached(conf, c, i)
    requires Sized(c.eng) && HasRequest(c.eng) && c.eng.mods[RESP].done
    requires c.file.state == 2 && |c.file.content| == Length(c)
    ensures Prefix(c.tx.sent, c.resp.head + c.file.content)
  {
    ReachedInv(conf, c, i);
    SentFile(c, i);
  }

  lemma SentFile(c: Cl, i: nat)
    requires Inv(c, i) && HasRequest(c.eng) && c.eng.mods[RESP].done
    requires c.file.state == 2 && |c.file.content| == Length(c)
    ensures Prefix(c.tx.sent, c.resp.head + c.file.content)
  {
    hide Inv, Clamp, Flat;
    InvFacts(c, i);
    Unsent(c, i);
    FedPrefix(c, i);
    var body := Clamp(Length(c), c.fed);
    ClampLength(Length(c), c.fed);
    assert Prefix(c.resp.head + body, c.resp.head + c.file.content) by {
      assert (c.resp.head + c.file.content)[..|c.resp.head + body|] == c.resp.head + c.file.content[..|body|];
    }
    PrefixTrans(c.tx.sent, c.resp.head + body, c.resp.head + c.file.content);
  }

  lemma FedPrefix(c: Cl, i: nat)
    requires Inv(c, i) && HasRequest(c.eng) && c.file.state == 2
    ensures Prefix(Flat(c.fed), c.file.content) && !c.fl.headMethod
  {
    hide Pipe, EngInv, LogOk, GoodConf, Sending, Transferring, Whole, Flat, Deref;
    var rest := (if i == ERROR || i == TRANS then Deref(c, c.input) else []) + c.file.disk;
    assert c.file.content == Flat(c.fed) + rest;
  }

  // ---------------------------------------------------------- back-pressure

  /** Whenever the file filter is called, and so whenever a read into the file buffer starts or
      is in progress, nothing unsent refers to that buffer. */
  lemma BackPressure(conf: Conf, c: Cl)
    requires GoodConf(conf) && Reached(conf, c, FILE)
    ensures Sized(c.eng) && c.tx.iov == [] && c.output == NULL
    ensures c.input.len > 0 ==> !c.eng.mods[FILE].isOpen && FileOpen(c).1 == Skip
  {
    hide Inv, Reached, GoodConf, Slice, StatusMsg, ChainFile.AtFile;
    ReachedInv(conf, c, FILE);
    ChainFile.FileFacts(c);
    FilePending(c);
  }

  lemma FilePending(c: Cl)
    requires ChainFile.AtFile(c)
    ensures c.output == NULL
    ensures c.input.len > 0 ==> !c.eng.mods[FILE].isOpen && FileOpen(c).1 == Skip
  {
    hide Slice, StatusMsg;
  }

  // ------------------------------------------------------------- pipelining

  /** In every outcome, also when the connection has ended, the requests answered are consecutive
      slices from the front of the received bytes, in order, none dropped or used twice, and the
      first requests of the stream. Only the last answer may be to malformed bytes instead. */
  lemma AnsweredInOrder(conf: Conf, es: seq<Env>)
    requires GoodConf(conf)
    ensures !Run(conf, es).Panic?
    ensures var c := Client(Run(conf, es));
            var rs := Handled(c.eng.log);
            && Prefix(Flat(rs), c.rx.received)
            && if R.AreRequests(rs) then rs <= R.Requests(c.rx.received)
               else EndsRejected(conf.normalize, rs, c.rx.received[|Flat(rs)|..])
                    && R.Requests(c.rx.received) == rs[..|rs| - 1]
  {
    hide Run, Inv, Ended, Handled, R.AreRequests, R.Requests, GoodConf, EndsRejected, Flat;
    RunInv(conf, es);
    RunConf(conf, es);
    var o := Run(conf, es);
    if o.Closed? {
      assert Served(o.c) by { EndedServed(o.c); }
      ServedStream(o.c);
    } else {
      InvServed(o.c, o.i);
      ServedStream(o.c);
    }
  }

  lemma EndedServed(c: Cl)
    requires Ended(c)
    ensures Served(c)
  {
    hide Served, LogOk, SentPrefix;
  }

  lemma InvServed(c: Cl, i: nat)
    requires Inv(c, i)
    ensures Served(c)
  {
    hide EngInv, Wire, LogOk, GoodConf, Pipe, R.AreRequests, Handled, Flat;
    PipeNow(c, i);
  }

  /** Served requests are the first requests of what was received. */
  lemma ServedStream(c: Cl)
    requires Served(c)
    ensures var rs := Handled(c.eng.log);
            && Prefix(Flat(rs), c.rx.received)
            && if R.AreRequests(rs) then rs <= R.Requests(c.rx.received)
               else EndsRejected(c.conf.normalize, rs, c.rx.received[|Flat(rs)|..])
                    && R.Requests(c.rx.received) == rs[..|rs| - 1]
  {
    hide Handled, R.AreRequests, R.Requests, Flat, R.RequestEnd, R.Parse;
    var rs := Handled(c.eng.log);
    var rest := c.rx.received[|Flat(rs)|..];
    assert c.rx.received == Flat(rs) + rest;
    if R.AreRequests(rs) {
      R.RequestsOf(rs, rest);
    } else {
      var before := rs[..|rs| - 1];
      assert rs == before + [[]];
      FlatAppend(before, []);
      assert Flat(before) + [] == Flat(before);
      R.RequestsOf(before, rest);
      NoRequests(rest);
      assert before + [] == before;
    }
  }

  lemma NoRequests(s: bytes)
    requires R.RequestEnd(s).None?
    ensures R.Requests(s) == []
  {
    hide R.RequestEnd;
  }

  /** As long as the connection is not closed, the received bytes are the requests answered and the
      buffer. */
  lemma NothingDropped(conf: Conf, c: Cl, i: nat)
    requires GoodConf(conf) && Reached(conf, c, i)
    ensures c.rx.received == Flat(Handled(c.eng.log)) + c.rx.buf
    ensures R.Requests(c.rx.received) == Handled(c.eng.log) + R.Requests(c.rx.buf)
  {
    ReachedInv(conf, c, i);
    PipeStream(c, i);
  }

  lemma PipeStream(c: Cl, i: nat)
    requires Pipe(c, i)
    ensures c.rx.received == Flat(Handled(c.eng.log)) + c.rx.buf
    ensures R.Requests(c.rx.received) == Handled(c.eng.log) + R.Requests(c.rx.buf)
  {
    hide R.AreRequests, R.Requests, R.RequestEnd, R.Parse, Handled, Flat, Taken, Attempted;
    R.RequestsOf(Handled(c.eng.log), c.rx.buf);
  }

  /** When a connection waits for more data, all the requests received were handled. */
  lemma AllHandled(conf: Conf, es: seq<Env>)
    requires GoodConf(conf) && Run(conf, es).Wait? && Run(conf, es).i == RECV
    ensures Handled(Run(conf, es).c.eng.log) == R.Requests(Run(conf, es).c.rx.received)
  {
    hide Start, Step, GoodConf, Inv, R.Requests;
    var c := Run(conf, es).c;
    RunInv(conf, es);
    InvFacts(c, RECV);
    var before := Run(conf, es[..|es| - 1]);
    RunInv(conf, es[..|es| - 1]);
    WaitsEmpty(before.c, before.i, es[|es| - 1]);
    WaitingPipe(c);
  }

  lemma WaitsEmpty(c: Cl, i: nat, e: Env)
    requires Inv(c, i) && i < N && Sized(c.eng) && Step(c, i, e).Wait? && Step(c, i, e).i == RECV
    ensures !Step(c, i, e).c.rx.unprocessed
  {
    hide Inv, Step, FilterCall, RecvProcess;
    InvFacts(c, i);
    WaitsThere(c, i, e);
    CallRuns(c, RECV, e);
    RecvWaits(c.(eng := After(c.eng, RECV, false)), e);
  }

  lemma WaitsThere(c: Cl, i: nat, e: Env)
    requires i < N && Sized(c.eng) && Step(c, i, e).Wait?
    ensures Step(c, i, e) == Wait(FilterCall(c, i, e).0, i) && FilterCall(c, i, e).1 == Async
  {
    hide FilterCall, CloseMods, Reset;
  }

  lemma RecvWaits(c: Cl, e: Env)
    requires RecvProcess(c, e).1 == Async
    ensures !RecvProcess(c, e).0.rx.unprocessed
  {
  }

  lemma WaitingPipe(c: Cl)
    requires Inv(c, RECV) && Sized(c.eng) && !HasRequest(c.eng) && !c.rx.unprocessed
    ensures Handled(c.eng.log) == R.Requests(c.rx.received)
  {
    hide EngInv, Wire, LogOk, GoodConf, R.AreRequests, R.Parse, R.RequestEnd, Handled, Flat;
    PipeStream(c, RECV);
    Incomplete(c.conf.normalize, c.rx.buf);
    assert Handled(c.eng.log) + [] == Handled(c.eng.log);
  }

  lemma Incomplete(norm: bytes -> bytes, s: bytes)
    requires !R.Parse(norm, s, R.REQ0).done
    ensures R.RequestEnd(s) == None
  {
    hide H.ReqLine, R.Headers, R.DecodedPath;
    if H.ReqLine(s).Line? { R.LineBounds(s); }
  }

  /** Requests with version tokens of eight bytes, as HTTP has them. */
  predicate Regular(rs: seq<bytes>)
  {
    && R.AreRequests(rs)
    && forall k :: 0 <= k < |rs| ==> R.ShortVersion(rs[k])
  }

  /** What remains of a regular stream starts with its next request. */
  lemma NextOf(rs: seq<bytes>, k: nat)
    requires Regular(rs) && k < |rs|
    ensures var s := Flat(rs[k..]);
            && R.RequestEnd(s) == Some(|rs[k]|) && R.ShortVersion(s) && s[..|rs[k]|] == rs[k]
  {
    hide R.RequestEnd, H.ReqLine, Flat;
    var s := Flat(rs[k..]);
    assert s == rs[k] + Flat(rs[k + 1..]) by { FlatFirst(rs[k..]); }
    assert Prefix(rs[k], s) && s[..|rs[k]|] == rs[k];
    R.RequestEndStable(rs[k], s);
    R.LineStays(rs[k], s);
  }

  lemma FlatFirst(ss: seq<bytes>)
    requires ss != []
    ensures Flat(ss) == ss[0] + Flat(ss[1..])
  {
  }

  lemma OnlyRequests(rs: seq<bytes>)
    requires R.AreRequests(rs)
    ensures R.Requests(Flat(rs)) == rs
  {
    R.RequestsOf(rs, []);
    assert Flat(rs) + [] == Flat(rs);
    NoRequests([]) by { NothingComplete(); }
    assert rs + [] == rs;
  }

  /** The first requests of a longer stream are those of its front. */
  lemma FrontRequests(answered: seq<bytes>, rest: bytes, x: bytes)
    requires R.AreRequests(answered)
    ensures answered <= R.Requests(Flat(answered) + rest + x)
  {
    hide R.AreRequests, R.Requests, Flat;
    R.RequestsOf(answered, rest);
    R.RequestsGrow(Flat(answered) + rest, x);
  }

  lemma AfterFront(rs: seq<bytes>, k: nat, rest: bytes, x: bytes)
    requires k <= |rs| && Flat(rs) == Flat(rs[..k]) + rest + x
    ensures Flat(rs[k..]) == rest + x
  {
    hide Flat;
    assert rs == rs[..k] + rs[k..];
    FlatConcat(rs[..k], rs[k..]);
    assert Flat(rs[..k]) + rest + x == Flat(rs[..k]) + (rest + x);
    CancelFront(Flat(rs[..k]), Flat(rs[k..]), rest + x);
  }

  /** The requests answered of a part of a regular stream are its first ones, and what is left is a
      part of the others. */
  lemma PartOfStream(rs: seq<bytes>, answered: seq<bytes>, rest: bytes)
    requires R.AreRequests(rs) && R.AreRequests(answered) && Prefix(Flat(answered) + rest, Flat(rs))
    ensures answered <= rs && Prefix(rest, Flat(rs[|answered|..]))
  {
    hide R.AreRequests, R.Requests, Flat;
    var x := Flat(rs)[|Flat(answered) + rest|..];
    assert Flat(rs) == Flat(answered) + rest + x;
    OnlyRequests(rs);
    FrontRequests(answered, rest, x);
    assert rs[..|answered|] == answered;
    AfterFront(rs, |answered|, rest, x);
  }

  lemma CancelFront(a: bytes, b: bytes, c: bytes)
    requires a + b == a + c
    ensures b == c
  {
    assert (a + b)[|a|..] == b && (a + c)[|a|..] == c;
  }

  lemma NothingComplete()
    ensures R.RequestEnd([]).None?
  {
  }

  /** A regular stream, at the request filter: wherever the stream was cut, the filter asks for more
      data as long as the last byte of the next request has not arrived, and when it has, takes
      exactly that request, with the verdict and the fields that the request alone gives. No cut
      has it rejected, and none ends the connection when the next request fits the buffer. */
  lemma NoCutEnds(conf: Conf, c: Cl, rs: seq<bytes>)
    requires GoodConf(conf) && Reached(conf, c, REQ) && Regular(rs) && Prefix(c.rx.received, Flat(rs))
    ensures Handled(c.eng.log) <= rs
    ensures var k, (c1, r) := |c.eng.log|, ReqProcess(c);
            if k < |rs| && |c.rx.buf| >= |rs[k]| then
              && r == Result.Done && c1.req.full == Range(0, |rs[k]|) && c.rx.buf[..|rs[k]|] == rs[k]
              && R.Parse(conf.normalize, c.rx.buf, c.req) == R.Parse(conf.normalize, rs[k], R.REQ0)
            else r == if |c.rx.buf| < conf.recvBuf then Back else Err
    ensures var k := |c.eng.log|; (k < |rs| ==> |rs[k]| <= conf.recvBuf) ==> ReqProcess(c).1 != Err
  {
    hide Reached, Inv, Handled, R.AreRequests, Flat, Regular, R.Parse, R.ShortVersion, R.RequestEnd;
    ReachedInv(conf, c, REQ);
    RequestState(c);
    RegularRequests(rs);
    var k, buf := |c.eng.log|, c.rx.buf;
    PartOfStream(rs, Handled(c.eng.log), buf);
    HandledLength(c.eng.log);
    if k < |rs| {
      NextOf(rs, k);
      var s := Flat(rs[k..]);
      assert s[..|buf|] == buf;
      if |buf| >= |rs[k]| {
        R.ArrivedRequest(conf.normalize, s, |buf|);
        R.FullLength(conf.normalize, buf);
        assert buf[..|rs[k]|] == s[..|buf|][..|rs[k]|] == s[..|rs[k]|];
      } else {
        R.PartOfRequest(conf.normalize, s, |buf|);
      }
    } else {
      EndOfStream(rs[k..], buf);
      NothingToParse(conf.normalize);
    }
  }

  lemma RegularRequests(rs: seq<bytes>)
    requires Regular(rs)
    ensures R.AreRequests(rs)
  {
  }

  lemma HandledLength(log: seq<Exchange>)
    ensures |Handled(log)| == |log|
  {
  }

  lemma EndOfStream(rs: seq<bytes>, rest: bytes)
    requires rs == [] && Prefix(rest, Flat(rs))
    ensures rest == []
  {
  }

  lemma NothingToParse(norm: bytes -> bytes)
    ensures !R.Parse(norm, [], R.REQ0).done
  {
  }

  /** What the invariant says at the request filter. */
  lemma RequestState(c: Cl)
    requires Inv(c, REQ)
    ensures c.rx.received == Flat(Handled(c.eng.log)) + c.rx.buf && R.AreRequests(Handled(c.eng.log))
    ensures R.Parse(c.conf.normalize, c.rx.buf, c.req) == R.Parse(c.conf.normalize, c.rx.buf, R.REQ0)
    ensures c.rx.cap == c.conf.recvBuf && 0 < c.conf.recvBuf < W16 && |c.rx.buf| <= c.conf.recvBuf
  {
    InvFacts(c, REQ);
    hide EngInv, Wire, LogOk, R.Parse, R.AreRequests, Handled, Flat;
    R.ParseAgain(c.conf.normalize, c.rx.tried, c.rx.buf);
  }

  /** In every outcome of every run on a regular stream, closed connections included, the requests
      answered are the first requests of the stream: no cut has anything else answered. */
  lemma AnsweredOfStream(conf: Conf, es: seq<Env>, rs: seq<bytes>)
    requires GoodConf(conf) && Regular(rs)
    ensures !Run(conf, es).Panic?
    ensures var c := Client(Run(conf, es));
            Prefix(c.rx.received, Flat(rs)) ==> Handled(c.eng.log) <= rs
  {
    hide Run, GoodConf, Handled, R.AreRequests, R.Requests, Regular, Flat, EndsRejected;
    AnsweredInOrder(conf, es);
    RegularRequests(rs);
    var c := Client(Run(conf, es));
    var answered := Handled(c.eng.log);
    var rest := c.rx.received[|Flat(answered)|..];
    assert c.rx.received == Flat(answered) + rest;
    if Prefix(c.rx.received, Flat(rs)) {
      if !R.AreRequests(answered) {
        NotRejected(conf.normalize, rs, answered, rest);
      }
      PartOfStream(rs, answered, rest);
    }
  }

  /** No part of a regular stream is rejected. */
  lemma NotRejected(norm: bytes -> bytes, rs: seq<bytes>, answered: seq<bytes>, rest: bytes)
    requires Regular(rs) && Prefix(Flat(answered) + rest, Flat(rs))
    ensures !EndsRejected(norm, answered, rest)
  {
    hide R.AreRequests, R.RequestEnd, R.Parse, Flat, R.ShortVersion, Regular;
    if EndsRejected(norm, answered, rest) {
      var before := answered[..|answered| - 1];
      assert answered == before + [[]];
      FlatAppend(before, []);
      assert Flat(before) + [] == Flat(before);
      RegularRequests(rs);
      PartOfStream(rs, before, rest);
      var k := |before|;
      if k < |rs| {
        NextOf(rs, k);
        var s := Flat(rs[k..]);
        assert s[..|rest|] == rest;
        if |rest| >= |rs[k]| {
          R.ArrivedRequest(norm, s, |rest|);
        } else {
          R.PartOfRequest(norm, s, |rest|);
        }
      } else {
        EndOfStream(rs[k..], rest);
        NothingToParse(norm);
      }
    }
  }

  /** Packet boundaries do not matter: two connections that wait after the same bytes have answered
      the same requests, whatever the bytes are. Of two connections on the same regular stream, as
      far as each has come, also when it was closed, one has answered the same requests as the
      other, or the first of them. */
  lemma CutsDoNotMatter(conf: Conf, es1: seq<Env>, es2: seq<Env>, rs: seq<bytes>)
    requires GoodConf(conf)
    ensures !Run(conf, es1).Panic? && !Run(conf, es2).Panic?
    ensures var o1, o2 := Run(conf, es1), Run(conf, es2);
            var c1, c2 := Client(o1), Client(o2);
            var h1, h2 := Handled(c1.eng.log), Handled(c2.eng.log);
            && (o1.Wait? && o1.i == RECV && o2.Wait? && o2.i == RECV && c1.rx.received == c2.rx.received ==> h1 == h2)
            && (Regular(rs) && Prefix(c1.rx.received, Flat(rs)) && Prefix(c2.rx.received, Flat(rs)) ==>
                  h1 <= h2 || h2 <= h1)
  {
    hide Run, GoodConf, Regular, Handled, Flat, R.Requests, Inv, Ended;
    RunInv(conf, es1);
    RunInv(conf, es2);
    var o1, o2 := Run(conf, es1), Run(conf, es2);
    if Regular(rs) {
      AnsweredOfStream(conf, es1, rs);
      AnsweredOfStream(conf, es2, rs);
    }
    if o1.Wait? && o1.i == RECV { AllHandled(conf, es1); }
    if o2.Wait? && o2.i == RECV { AllHandled(conf, es2); }
  }

  /** The request being answered: what was read from the buffer is what one parse of any longer
      stream gives, unless the buffer ended inside an over-long version token. */
  lemma RequestFromStream(conf: Conf, c: Cl, i: nat, more: bytes)
    requires GoodConf(conf) && Reached(conf, c, i)
    requires Sized(c.eng) && HasRequest(c.eng)
    requires H.ReqLine(c.rx.buf).Bad? ==> !H.EndsInLongVersion(c.rx.buf)
    ensures var p := R.Parse(conf.normalize, c.rx.buf + more, R.REQ0);
            && p.done && c.req == p.req.(unescaped := c.req.unescaped) && (c.fl.keepAlive ==> p.keepAlive)
  {
    ReachedInv(conf, c, i);
    assert Prefix(c.rx.buf, c.rx.buf + more);
    PipeTaken(c, i);
    hide Inv, R.Parse, GoodConf, Reached, H.EndsInLongVersion, H.ReqLine;
    R.ParseStable(conf.normalize, c.rx.buf, c.rx.buf + more, R.REQ0);
  }

  lemma PipeTaken(c: Cl, i: nat)
    requires Pipe(c, i) && HasRequest(c.eng)
    ensures Taken(c, i)
  {
    hide R.AreRequests, Handled, Flat, Taken;
  }

  // ------------------------------------------------------------ the filters

  /** In every state: the filters before the cursor were entered, none twice for a request; and
      at the send filter the response is complete or the file filter is still producing. */
  lemma FilterOrder(conf: Conf, c: Cl, i: nat)
    requires GoodConf(conf) && Reached(conf, c, i)
    ensures i < N && Sized(c.eng)
    ensures forall k :: 0 <= k < i ==> Entered(c.eng, k)
    ensures forall k :: 0 <= k < N ==> c.eng.calls[k] == if Entered(c.eng, k) then 1 else 0
    ensures forall k :: 0 <= k < N ==> c.eng.opens[k] == c.eng.closes[k] + if c.eng.mods[k].isOpen then 1 else 0
    ensures i == SEND ==> c.fl.respDone || (c.file.state == 2 && !c.eng.mods[FILE].done)
    ensures i == RECV ==> !c.eng.chainBack || c.eng.mods[REQ].isOpen
  {
    ReachedInv(conf, c, i);
    if i == SEND { SendProducer(c); }
    hide Reached, Pipe, Wire, LogOk, GoodConf, Responding;
  }

  lemma SendProducer(c: Cl)
    requires Inv(c, SEND)
    ensures c.fl.respDone || (c.file.state == 2 && Sized(c.eng) && !c.eng.mods[FILE].done)
  {
    ChainSend.SendFacts(c);
    hide EngInv, Pipe, LogOk, GoodConf, Transferring, Reads, Sending, Whole;
  }

  /** When a connection has ended, on its own or destroyed while it waited, every opened filter
      was closed exactly once for each request and both timers are off. */
  lemma ClosedOnce(conf: Conf, es: seq<Env>)
    requires GoodConf(conf) && !Run(conf, es).Panic?
    ensures var o := Run(conf, es);
            (o.Go? || o.Wait? ==> Sized(o.c.eng)) &&
            var c := if o.Closed? then o.c else CloseMods(o.c);
            && Sized(c.eng) && (forall k :: 0 <= k < N ==> c.eng.opens[k] == c.eng.closes[k])
            && !c.rx.timer && !c.tx.timer
  {
    RunInv(conf, es);
    var o := Run(conf, es);
    hide Run, Inv, CloseMods, GoodConf, LogOk, R.AreRequests, SentPrefix, Clamp, ThisExchange;
    if !o.Closed? { DestroyEnds(o.c, o.i); }
  }

  // --------------------------------------------------------------- redirect

  /** The Location of a redirect is made from the parsed Host and path: it is always a value that
      a parser of the response gives back unchanged. */
  lemma RedirectLocation(conf: Conf, c: Cl)
    requires GoodConf(conf) && Reached(conf, c, FILE)
    ensures var c' := Redirect(c); W.IsValue(Deref(c', c'.resp.location))
  {
    hide Inv, Reached, R.Parse, W.IsValue, R.NoEol, Slice, StatusMsg, Deref;
    ReachedInv(conf, c, FILE);
    InvFacts(c, FILE);
    RequestPlace(c);
    R.HostAndPathNoEol(conf.normalize, c.rx.buf);
    var host, path := Slice(c.req.host, c.rx.buf), Slice(c.req.path, c.rx.buf);
    LocationText(c);
    LocationValue(host, path);
    NoLocation();
  }

  lemma RequestPlace(c: Cl)
    requires Inv(c, FILE) && Sized(c.eng) && HasRequest(c.eng)
    ensures |c.rx.buf| < W16
    ensures var q := R.Parse(c.conf.normalize, c.rx.buf, R.REQ0).req; c.req.host == q.host && c.req.path == q.path
  {
    hide EngInv, Wire, LogOk, R.Parse, R.AreRequests, Handled, Flat;
  }

  lemma LocationText(c: Cl)
    ensures var c', host, path := Redirect(c), Slice(c.req.host, c.rx.buf), Slice(c.req.path, c.rx.buf);
            var loc := Deref(c', c'.resp.location);
            loc == HTTP_SCHEME + host + path + [SLASH] || loc == []
  {
    hide Slice, StatusMsg;
  }

  lemma LocationValue(host: bytes, path: bytes)
    requires R.NoEol(host) && R.NoEol(path)
    ensures W.IsValue(HTTP_SCHEME + host + path + [SLASH])
  {
    var s := HTTP_SCHEME + host + path + [SLASH];
    var a, b := 7 + |host|, 7 + |host| + |path|;
    forall k | 0 <= k < |s| ensures NotEol(s[k]) {
      if k < 7 {
        assert s[k] == HTTP_SCHEME[k];
      } else if k < a {
        assert s[k] == host[k - 7];
      } else if k < b {
        assert s[k] == path[k - a];
      }
    }
    assert s[0] == HTTP_SCHEME[0] && s[|s| - 1] == SLASH;
  }

  lemma NoLocation()
    ensures W.IsValue([])
  {
  }
}

/** The access-log filter and the step to the next request keep the invariant. */
module ChainLog {
  import opened Bytes
  import opened Chain
  import opened ChainEngine
  import opened ChainData
  import opened ChainInv
  import opened ChainSteps
  import opened ChainServe
  import R = Request

  lemma LogFacts(c: Cl)
    requires Inv(c, LOG)
    ensures Sized(c.eng) && HasRequest(c.eng) && !c.eng.chainBack && !c.eng.mods[LOG].done
    ensures Wire(c, LOG) && c.output == NULL && c.input.len == 0 && c.tx.iov == []
    ensures c.fl.respDone && c.eng.mods[RESP].done && c.eng.mods[FILE].done && Entered(c.eng, TRANS)
  {
    hide Pipe, LogOk, GoodConf, Transferring, Reads, HeadOk, Clamp, AllInBounds, Total, IovBytes, Deref;
    NotEnteredAfter(c.eng, LOG);
    assert Entered(c.eng, RESP) && Entered(c.eng, FILE) && Entered(c.eng, TRANS);
  }

  /** The response is complete when the access-log filter is reached. */
  lemma Complete(c: Cl)
    requires Wire(c, LOG) && HasRequest(c.eng) && c.input.len == 0
    requires c.eng.mods[RESP].done && c.eng.mods[FILE].done && Entered(c.eng, TRANS)
    ensures ExchangeOk(c.conf, ThisExchange(c)) && SentPrefix(c)
  {
    hide HeadOk, Body;
    assert c.tx.sent + [] + [] == c.tx.sent;
    assert c.file.state == 2 ==> c.file.content == c.file.read + [] == c.file.read == Flat(c.fed) + [] == Flat(c.fed);
  }

  lemma LogWaits(c: Cl, c1: Cl)
    requires Inv(c, LOG) && Sized(c.eng) && c1 == c.(eng := After(c.eng, LOG, false))
    ensures Good(c, LOG, Switch(c1, LOG, Async))
  {
    hide EngInv, Pipe, Wire, LogOk, GoodConf, Good, Switch, HasRequest, After;
    LogFacts(c);
    PathFits(c, LOG);
    EngWait(c.eng, LOG, c.fl.respDone);
    LogEngine(c.eng);
    PipeKeeps(c, LOG, c1, LOG);
    LogWire(c, c1);
    WaitGood(c, LOG, c1);
  }

  lemma LogEngine(g: Engine)
    requires Sized(g)
    ensures var g1 := After(g, LOG, false);
            && g1.log == g.log && g1.keepAliveN == g.keepAliveN && g1.chainBack == g.chainBack
            && (forall k :: 0 <= k < LOG ==> g1.mods[k] == g.mods[k])
            && (HasRequest(g) ==> HasRequest(g1))
  {
    assert REQ < LOG;
  }

  lemma LogWire(c: Cl, c1: Cl)
    requires Wire(c, LOG) && HasRequest(c.eng) && c1 == c.(eng := c1.eng) && Sized(c1.eng) && !c1.eng.chainBack
    requires forall k :: 0 <= k < LOG ==> c1.eng.mods[k] == c.eng.mods[k]
    ensures Wire(c1, LOG)
  {
    hide Clamp, Finished, HeadOk, IovBytes, Flat;
    SameBytes(c, c1, c.tx.iov);
    assert FILE < LOG && ERROR < LOG && TRANS < LOG && RESP < LOG && SEND < LOG && RECV < LOG && REQ < LOG;
  }

  // ---------------------------------------------------------- the next request

  lemma HandledAppend(log: seq<Exchange>, x: Exchange)
    ensures Handled(log + [x]) == Handled(log) + [x.request]
  {
  }

  /** Where the request ends in the buffer; rejected bytes are not taken. */
  lemma RequestTaken(c: Cl, i: nat)
    requires Pipe(c, i) && HasRequest(c.eng) && c.conf.recvBuf < W16
    ensures Parsed(c, c.rx.buf).done && c.req.full.len <= |c.rx.buf|
    ensures if R.RequestEnd(c.rx.buf).Some? then
              R.RequestEnd(c.rx.buf) == R.RequestEnd(c.rx.buf[..c.req.full.len]) == Some(c.req.full.len)
            else c.req.full.len == 0
    ensures c.fl.keepAlive ==> R.RequestEnd(c.rx.buf).Some?
  {
    hide R.RequestEnd, R.Parse, R.AreRequests, Handled;
    R.FullLength(c.conf.normalize, c.rx.buf);
    if c.fl.keepAlive { R.KeepAliveRequest(c.conf.normalize, c.rx.buf); }
    if R.RequestEnd(c.rx.buf).Some? { R.RequestEndLocal(c.rx.buf); }
  }

  /** The receive buffer of the next request: what follows this one. */
  function Leftover(rx: Rx, n: nat): Rx
    requires n <= |rx.buf|
  {
    Rx(rx.buf[n..], rx.cap, rx.buf[n..] != [], false, rx.received, [])
  }

  /** The received bytes are the requests answered, with this one, and the rest of the buffer. */
  lemma NextRequests(c: Cl, i: nat)
    requires Pipe(c, i) && HasRequest(c.eng) && c.conf.recvBuf < W16
    requires c.req.full.len <= |c.rx.buf|
    ensures var rs := Handled(Record(c).eng.log);
            && rs == Handled(c.eng.log) + [c.rx.buf[..c.req.full.len]]
            && c.rx.received == Flat(rs) + c.rx.buf[c.req.full.len..]
            && (R.RequestEnd(c.rx.buf).Some? ==> R.AreRequests(rs))
  {
    hide R.RequestEnd, R.Parse, Handled, Flat;
    RequestTaken(c, i);
    var n := c.req.full.len;
    var rq, before := c.rx.buf[..n], Handled(c.eng.log);
    HandledAppend(c.eng.log, ThisExchange(c));
    FlatAppend(before, rq);
    assert Flat(before) + c.rx.buf == Flat(before) + rq + c.rx.buf[n..];
  }

  /** Whatever the last answer was to, the requests answered are served in order. */
  lemma LastServed(c: Cl, i: nat)
    requires Pipe(c, i) && HasRequest(c.eng) && c.conf.recvBuf < W16
    ensures Served(Record(c))
  {
    hide R.RequestEnd, R.Parse, Handled, Flat, R.AreRequests, Pipe;
    RequestTaken(c, i);
    NextRequests(c, i);
    PipeNow(c, i);
    var n, rs := c.req.full.len, Handled(Record(c).eng.log);
    var rest := c.rx.buf[n..];
    assert (Flat(rs) + rest)[|Flat(rs)|..] == rest && (Flat(rs) + rest)[..|Flat(rs)|] == Flat(rs);
    if R.RequestEnd(c.rx.buf).None? {
      assert rest == c.rx.buf && rs[..|rs| - 1] == Handled(c.eng.log) && rs[|rs| - 1] == [];
    }
  }

  lemma ResetIs(c: Cl)
    requires Sized(c.eng) && c.eng.mods[REQ].isOpen && c.req.full.len <= |c.rx.buf|
    ensures var g := c.eng;
            Reset(c) == Fresh(c.conf,
                              g.(ka := true,
                                 closes := seq(N, k requires 0 <= k < N => g.closes[k] + (if g.mods[k].isOpen then 1 else 0))),
                              Leftover(c.rx, c.req.full.len))
  {
  }

  lemma NextEngine(g: Engine, conf: Conf, rx: Rx, log: seq<Exchange>, n: nat)
    requires Sized(g) && Books(g, LOG)
    ensures var g2 := Fresh(conf, g.(ka := true, log := log, keepAliveN := n,
                        closes := seq(N, k requires 0 <= k < N => g.closes[k] + (if g.mods[k].isOpen then 1 else 0))), rx).eng;
            EngInv(g2, RECV, false) && !HasRequest(g2)
  {
  }

  lemma NextPipe(c: Cl, c3: Cl)
    requires Pipe(c, LOG) && HasRequest(c.eng) && c.fl.keepAlive && GoodConf(c.conf)
    requires c.eng.keepAliveN + 1 != c.conf.maxKeepAlive && c.eng.keepAliveN + 1 < KEEPALIVE_MOD
    requires c.req.full.len <= |c.rx.buf| && Sized(c3.eng) && !HasRequest(c3.eng)
    requires c3.eng.log == Record(c).eng.log && c3.eng.keepAliveN == c.eng.keepAliveN + 1
    requires c3.conf == c.conf && c3.rx == Leftover(c.rx, c.req.full.len) && c3.req == R.REQ0 && c3.fl == FLAGS0
    ensures Pipe(c3, RECV)
  {
    hide R.RequestEnd, R.Parse, Handled, Flat, R.AreRequests, ThisExchange;
    RequestTaken(c, LOG);
    NextRequests(c, LOG);
    NothingParsed(c.conf.normalize);
  }

  lemma NothingParsed(norm: bytes -> bytes)
    ensures !R.Parse(norm, [], R.REQ0).done && R.Parse(norm, [], R.REQ0).req == R.REQ0
  {
  }

  lemma NextLess(c: Cl, c3: Cl)
    requires Sized(c.eng) && Sized(c3.eng) && c3.conf == c.conf && c3.eng.keepAliveN == c.eng.keepAliveN + 1
    requires c.eng.keepAliveN + 1 != c.conf.maxKeepAlive && c.eng.keepAliveN + 1 < KEEPALIVE_MOD
    requires c.conf.maxKeepAlive > 0 ==> c.eng.keepAliveN < c.conf.maxKeepAlive
    ensures Less(c3, RECV, c, LOG)
  {
  }

  /** c2 is c after the last filter, with the exchange recorded. */
  ghost predicate Recorded(c: Cl, c2: Cl)
    requires Sized(c.eng)
  {
    var g := After(c.eng, LOG, false);
    && Sized(c2.eng) && c2 == c.(eng := c2.eng, input := NULL)
    && c2.eng.opens == g.opens && c2.eng.closes == c.eng.closes && c2.eng.calls == g.calls
    && c2.eng.mods == ChainEngine.Done(g, LOG).mods && c2.eng.log == Record(c).eng.log
  }

  /** The next request starts. */
  lemma NextGood(c: Cl, c2: Cl)
    requires Inv(c, LOG) && c.fl.keepAlive && Sized(c.eng) && Recorded(c, c2)
    requires c2.eng.keepAliveN == c.eng.keepAliveN + 1 && c2.eng.keepAliveN != c.conf.maxKeepAlive
    requires c2.eng.keepAliveN < KEEPALIVE_MOD
    ensures Inv(Reset(c2), RECV) && Less(Reset(c2), RECV, c, LOG)
  {
    hide EngInv, Pipe, Wire, LogOk, GoodConf, HasRequest, Less, Reset, CloseMods, ThisExchange, Fresh, ExchangeOk,
         R.RequestEnd, R.Parse;
    LogFacts(c);
    Complete(c);
    GoodFacts(c.conf);
    RequestTaken(c, LOG);
    LastEngine(c, c2);
    ResetIs(c2);
    NextEngine(c2.eng, c.conf, Leftover(c.rx, c.req.full.len), c2.eng.log, c2.eng.keepAliveN);
    FreshParts(c.conf, c2.eng.(ka := true,
                 closes := seq(N, k requires 0 <= k < N => c2.eng.closes[k] + (if c2.eng.mods[k].isOpen then 1 else 0))),
               Leftover(c.rx, c.req.full.len));
    var c3 := Reset(c2);
    NextPipe(c, c3);
    KeptCount(c);
    NextLess(c, c3);
    LogGrows(c.conf, c.eng.log, ThisExchange(c));
  }

  lemma GoodFacts(f: Conf)
    requires GoodConf(f)
    ensures f.recvBuf < W16
  {
  }

  lemma KeptCount(c: Cl)
    requires Pipe(c, LOG)
    ensures c.conf.maxKeepAlive > 0 ==> c.eng.keepAliveN < c.conf.maxKeepAlive
    ensures |c.eng.log| == c.eng.keepAliveN
  {
    hide R.AreRequests, Handled, Taken, Attempted;
  }

  lemma LogGrows(conf: Conf, log: seq<Exchange>, x: Exchange)
    requires LogOk(conf, log) && ExchangeOk(conf, x)
    ensures LogOk(conf, log + [x])
  {
    hide ExchangeOk;
  }

  lemma FreshParts(conf: Conf, g: Engine, rx: Rx)
    requires !rx.timer && rx.tried == []
    ensures var c := Fresh(conf, g, rx);
            && c.conf == conf && c.rx == rx && c.req == R.REQ0 && c.fl == FLAGS0
            && c.eng.log == g.log && c.eng.keepAliveN == g.keepAliveN
            && Sized(c.eng) == (|g.opens| == |g.closes| == N)
            && (Sized(c.eng) ==> Wire(c, RECV))
  {
    assert rx == rx.(timer := false, tried := []);
  }

  lemma LastEngine(c: Cl, c2: Cl)
    requires EngInv(c.eng, LOG, c.fl.respDone) && Sized(c.eng) && Recorded(c, c2) && HasRequest(c.eng)
    ensures Books(c2.eng, LOG) && c2.eng.mods[REQ].isOpen && HasRequest(c2.eng)
  {
    hide Books, ThisExchange;
    assert REQ < LOG;
    assert Books(c.eng, LOG) && c.eng.mods[REQ].isOpen;
    LastBooks(c.eng, c2.eng);
  }

  lemma LastBooks(g: Engine, g2: Engine)
    requires Sized(g) && Books(g, LOG) && Sized(g2)
    requires g2.opens == After(g, LOG, false).opens && g2.closes == g.closes && g2.calls == After(g, LOG, false).calls
    requires g2.mods == ChainEngine.Done(After(g, LOG, false), LOG).mods
    ensures Books(g2, LOG)
  {
    assert forall k :: 0 <= k < LOG ==> g2.mods[k] == g.mods[k];
    assert Entered(g2, LOG);
    assert forall k :: 0 <= k < LOG ==> (Entered(g2, k) <==> Entered(g, k));
  }

  // ------------------------------------------------------------- the outcomes

  /** The client after the last filter. */
  function Finished(c: Cl): (c2: Cl)
    requires Sized(c.eng)
    ensures Sized(c2.eng)
  {
    Moved(c.(eng := After(c.eng, LOG, false)), LOG, true)
  }

  lemma FinishedIs(c: Cl)
    requires Sized(c.eng) && c.output == NULL
    ensures var c2, g := Finished(c), After(c.eng, LOG, false);
            && c2 == c.(eng := c2.eng, input := NULL)
            && c2.eng.opens == g.opens && c2.eng.closes == c.eng.closes && c2.eng.calls == g.calls
            && c2.eng.mods == ChainEngine.Done(g, LOG).mods && c2.eng.log == c.eng.log
            && c2.eng.keepAliveN == c.eng.keepAliveN && ThisExchange(c2) == ThisExchange(c)
  {
  }

  /** The last response ends the connection. */
  lemma LastGood(c: Cl, c2: Cl)
    requires Inv(c, LOG) && Sized(c.eng) && Recorded(c, c2)
    ensures Ended(CloseMods(c2))
  {
    hide EngInv, Pipe, Wire, LogOk, GoodConf, Less, CloseMods, ThisExchange, ExchangeOk, SentPrefix, Responding, Books,
         Served, HasRequest;
    LogFacts(c);
    GoodFacts(c.conf);
    Complete(c);
    LastEngine(c, c2);
    LastTimers(c, c2);
    LastServed(c, LOG);
    KeptCount(c);
    LogGrows(c.conf, c.eng.log, ThisExchange(c));
    assert Served(c2) by { SameServed(Record(c), c2); }
    LastClosable(c, c2);
    CloseEnds(c2);
  }

  lemma SameServed(c: Cl, c2: Cl)
    requires Served(c) && c2.eng.log == c.eng.log && c2.rx == c.rx && c2.conf == c.conf
    ensures Served(c2)
  {
    hide EndsRejected, R.AreRequests, Flat;
  }

  lemma LastTimers(c: Cl, c2: Cl)
    requires Wire(c, LOG) && Sized(c2.eng) && c2.rx == c.rx && c2.tx == c.tx
    requires c2.eng.mods == ChainEngine.Done(After(c.eng, LOG, false), LOG).mods
    ensures (c2.rx.timer ==> c2.eng.mods[RECV].isOpen) && (c2.tx.timer ==> c2.eng.mods[SEND].isOpen)
    ensures c2.eng.mods[RESP] == c.eng.mods[RESP]
  {
    hide Producing, Transferring, Reads, Whole, Sending;
    assert RECV < LOG && SEND < LOG && RESP < LOG;
  }

  lemma LastClosable(c: Cl, c2: Cl)
    requires Sized(c.eng) && Sized(c2.eng) && Books(c2.eng, LOG) && c2 == c.(eng := c2.eng, input := NULL)
    requires (c2.rx.timer ==> c2.eng.mods[RECV].isOpen) && (c2.tx.timer ==> c2.eng.mods[SEND].isOpen)
    requires c2.eng.mods[RESP] == c.eng.mods[RESP] && SentPrefix(c)
    requires LogOk(c.conf, c2.eng.log) && Served(c2)
    requires c.conf.maxKeepAlive > 0 ==> |c2.eng.log| <= c.conf.maxKeepAlive
    ensures Closable(c2)
  {
    hide LogOk, Served, Body;
  }

  lemma LogDone(c: Cl)
    requires Inv(c, LOG) && Sized(c.eng) && c.output == NULL
    ensures Good(c, LOG, KeepAlive(Finished(c)))
  {
    hide EngInv, Pipe, Wire, LogOk, GoodConf, Less, CloseMods, Finished, Reset, After, Ended, ThisExchange;
    FinishedIs(c);
    var c2 := Record(Finished(c));
    assert Recorded(c, c2);
    if !c2.fl.keepAlive {
      LastGood(c, c2);
    } else {
      var c3 := c2.(eng := c2.eng.(keepAliveN := (c2.eng.keepAliveN + 1) % KEEPALIVE_MOD));
      CountFacts(c);
      if c3.eng.keepAliveN == c.conf.maxKeepAlive {
        LastGood(c, c3);
      } else {
        assert c3.eng.keepAliveN == c.eng.keepAliveN + 1;
        NextGood(c, c3);
      }
    }
  }

  lemma CountFacts(c: Cl)
    requires Pipe(c, LOG) && GoodConf(c.conf)
    ensures c.eng.keepAliveN < KEEPALIVE_MOD
    ensures c.eng.keepAliveN + 1 == KEEPALIVE_MOD ==> c.conf.maxKeepAlive == 0
  {
    hide R.AreRequests, Handled, Taken, Attempted, Flat;
  }

  lemma LogFails(c: Cl, c1: Cl)
    requires Inv(c, LOG) && Sized(c.eng) && c1 == c.(eng := After(c.eng, LOG, false))
    ensures Good(c, LOG, Switch(c1, LOG, Err))
  {
    hide EngInv, Pipe, LogOk, GoodConf, Good, Switch, HasRequest, Producing, Transferring, Reads, Sending, After, SentPrefix;
    LogFacts(c);
    LogEngine(c.eng);
    Complete(c);
    assert RECV < LOG && SEND < LOG && RESP < LOG;
    assert SentPrefix(c1) by { SameSent(c, c1); }
    CloseGood(c, LOG, c1, Err, false);
  }

  lemma SameSent(c: Cl, c1: Cl)
    requires Sized(c.eng) && Sized(c1.eng) && SentPrefix(c) && c1 == c.(eng := c1.eng)
    requires c1.eng.mods[RESP] == c.eng.mods[RESP]
    ensures SentPrefix(c1)
  {
  }

  lemma StepLog(c: Cl, e: Env)
    requires Inv(c, LOG)
    ensures Good(c, LOG, Step(c, LOG, e))
  {
    hide EngInv, Pipe, Wire, LogOk, GoodConf, Good, HasRequest, FilterCall, After, KeepAlive;
    LogFacts(c);
    CallRuns(c, LOG, e);
    var c1 := c.(eng := After(c.eng, LOG, false));
    assert FilterCall(c, LOG, e) == LogProcess(c1, e);
    match e.log {
      case LogWait => LogWaits(c, c1);
      case LogError => LogFails(c, c1);
      case Logged =>
        assert Switch(c1, LOG, Result.Done) == KeepAlive(Finished(c));
        LogDone(c);
    }
  }

  /** How many requests a connection may have; a limit of zero is only met when the 16-bit counter
      wraps. */
  function Limit(conf: Conf): nat { if conf.maxKeepAlive == 0 then KEEPALIVE_MOD else conf.maxKeepAlive }

  /** After the entry is written: the exchange is complete, and the connection is closed exactly when
      it is not to be kept or has had all its requests. Otherwise the next request starts, with the
      bytes that are in the buffer behind this one. */
  lemma LogOutcome(c: Cl, e: Env)
    requires Inv(c, LOG) && Sized(c.eng)
    ensures var o := Step(c, LOG, e);
            match e.log
            case LogWait => o == Wait(c.(eng := After(c.eng, LOG, false)), LOG)
            case LogError => o.Closed? && o.c.eng.log == c.eng.log && o.c.conf == c.conf
            case Logged =>
              && (o.Closed? || o.Go?) && o.c.eng.log == c.eng.log + [ThisExchange(c)] && o.c.conf == c.conf
              && (o.Closed? <==> !c.fl.keepAlive || |c.eng.log| + 1 == Limit(c.conf))
              && (o.Go? ==>
                    && o.i == RECV && c.req.full.len <= |c.rx.buf| && o.c.rx.buf == c.rx.buf[c.req.full.len..]
                    && (o.c.rx.unprocessed <==> o.c.rx.buf != []) && o.c.rx.received == c.rx.received
                    && Sized(o.c.eng) && !HasRequest(o.c.eng))
  {
    hide EngInv, Pipe, Wire, LogOk, GoodConf, Good, HasRequest, FilterCall, After, KeepAlive, CloseMods;
    LogFacts(c);
    CallRuns(c, LOG, e);
    var c1 := c.(eng := After(c.eng, LOG, false));
    assert FilterCall(c, LOG, e) == LogProcess(c1, e);
    match e.log {
      case LogWait =>
      case LogError => ClosedFields(c1); KeptLog(c.eng);
      case Logged =>
        assert Switch(c1, LOG, Result.Done) == KeepAlive(Finished(c));
        KeepOutcome(c);
    }
  }

  lemma KeptLog(g: Engine)
    requires Sized(g)
    ensures After(g, LOG, false).log == g.log
  {
  }

  lemma KeepOutcome(c: Cl)
    requires Inv(c, LOG) && Sized(c.eng) && c.output == NULL && HasRequest(c.eng)
    ensures var o := KeepAlive(Finished(c));
            && (o.Closed? || o.Go?) && o.c.eng.log == c.eng.log + [ThisExchange(c)] && o.c.conf == c.conf
            && (o.Closed? <==> !c.fl.keepAlive || |c.eng.log| + 1 == Limit(c.conf))
            && (o.Go? ==>
                  && o.i == RECV && c.req.full.len <= |c.rx.buf| && o.c.rx.buf == c.rx.buf[c.req.full.len..]
                  && (o.c.rx.unprocessed <==> o.c.rx.buf != []) && o.c.rx.received == c.rx.received
                  && Sized(o.c.eng) && !HasRequest(o.c.eng))
  {
    hide EngInv, Pipe, Wire, LogOk, GoodConf, CloseMods, Finished, Reset, After, ThisExchange, HasRequest, SentPrefix;
    FinishedIs(c);
    CountFacts(c);
    KeptCount(c);
    LimitFacts(c.conf);
    var c2 := Record(Finished(c));
    assert Recorded(c, c2);
    ClosedFields(c2);
    if c2.fl.keepAlive {
      var c3 := c2.(eng := c2.eng.(keepAliveN := (c2.eng.keepAliveN + 1) % KEEPALIVE_MOD));
      ClosedFields(c3);
      if c3.eng.keepAliveN != c.conf.maxKeepAlive {
        NextStart(c, c3);
      }
    }
  }

  lemma NextStart(c: Cl, c3: Cl)
    requires Inv(c, LOG) && Sized(c.eng) && HasRequest(c.eng) && Recorded(c, c3)
    ensures var c' := Reset(c3);
            && c.req.full.len <= |c.rx.buf|
            && c'.eng.log == c3.eng.log && c'.conf == c.conf && c'.rx.buf == c.rx.buf[c.req.full.len..]
            && (c'.rx.unprocessed <==> c'.rx.buf != []) && c'.rx.received == c.rx.received
            && Sized(c'.eng) && !HasRequest(c'.eng)
  {
    hide EngInv, Pipe, Wire, LogOk, GoodConf, Reset, After, ThisExchange, R.Parse, R.RequestEnd, HasRequest;
    GoodFacts(c.conf);
    RequestTaken(c, LOG);
    LastEngine(c, c3);
    FreshStart(c3);
  }

  lemma LimitFacts(conf: Conf)
    requires GoodConf(conf)
    ensures conf.maxKeepAlive < KEEPALIVE_MOD
  {
  }

  lemma FreshStart(c: Cl)
    requires Sized(c.eng) && c.eng.mods[REQ].isOpen && c.req.full.len <= |c.rx.buf|
    ensures var c' := Reset(c);
            && c'.eng.log == c.eng.log && c'.conf == c.conf && c'.rx.buf == c.rx.buf[c.req.full.len..]
            && (c'.rx.unprocessed <==> c'.rx.buf != []) && c'.rx.received == c.rx.received
            && Sized(c'.eng) && !HasRequest(c'.eng)
  {
    ResetIs(c);
  }
}

/** The receive and request filters keep the invariant. */
module ChainReceive {
  import opened Bytes
  import opened Chain
  import opened ChainEngine
  import opened ChainData
  import opened ChainInv
  import opened ChainSteps
  import R = Request

  // ---------------------------------------------------------------- receive

  /** The receive filter changes the receive buffer only: it passes on data that is there, or
      appends to the buffer. */
  lemma RecvResult(c: Cl, e: Env)
    requires !c.fl.respDone && |c.rx.buf| <= c.conf.recvBuf
    requires c.rx.cap == c.conf.recvBuf || (c.rx.cap == 0 && c.rx.buf == [])
    ensures var (c1, r) := RecvProcess(c, e);
            && c1 == c.(rx := c1.rx)
            && (r == Fwd || r == Async || r == Err || r == Fin)
            && (r == Fwd && c.rx.unprocessed ==> c1 == c)
            && (!c.rx.unprocessed ==> c1.rx.cap == c.conf.recvBuf)
            && (r == Fwd && !c.rx.unprocessed ==>
                  var d := c1.rx.buf[|c.rx.buf|..];
                  && |c.rx.buf| < |c1.rx.buf| <= c.conf.recvBuf && c1.rx.buf == c.rx.buf + d
                  && c1.rx == c.rx.(cap := c.conf.recvBuf, buf := c.rx.buf + d, timer := false,
                                    received := c.rx.received + d))
            && (r == Async ==> c1.rx == c.rx.(cap := c.conf.recvBuf, timer := true) && !c.rx.unprocessed)
            && (r == Err || r == Fin ==> c1.rx == c.rx.(cap := c.conf.recvBuf) && !c.rx.unprocessed)
  {
    if e.recv.RecvData? && !c.rx.unprocessed {
      var room := c.conf.recvBuf - |c.rx.buf|;
      var d := if |e.recv.data| <= room then e.recv.data else e.recv.data[..room];
      assert (c.rx.buf + d)[|c.rx.buf|..] == d;
    }
  }

  /** The opened receive filter, before its process function. */
  function Received(c: Cl): (c0: Cl)
    requires Sized(c.eng)
    ensures Sized(c0.eng)
  {
    c.(eng := After(c.eng, RECV, false))
  }

  lemma StepRecv(c: Cl, e: Env)
    requires Inv(c, RECV)
    ensures Good(c, RECV, Step(c, RECV, e))
  {
    hide Pipe, EngInv, GoodConf, LogOk, Wire, HasRequest, Good, Switch, RecvProcess, FilterCall, After;
    InvFacts(c, RECV);
    BufferFacts(c, RECV);
    var c0 := Received(c);
    CallRuns(c, RECV, e);
    assert FilterCall(c, RECV, e) == RecvProcess(c0, e);
    RecvResult(c0, e);
    var (c1, r) := RecvProcess(c0, e);
    if r == Fwd {
      RecvForward(c, c1);
    } else if r == Async {
      RecvWait(c, c1);
    } else {
      NotResponding(c, RECV);
      RecvEnds(c, c1, r);
    }
  }

  lemma BufferFacts(c: Cl, i: nat)
    requires Pipe(c, i)
    ensures |c.rx.buf| <= c.conf.recvBuf && (c.rx.cap == c.conf.recvBuf || (c.rx.cap == 0 && c.rx.buf == []))
  {
    hide Handled, R.AreRequests, Flat, Taken, Attempted;
  }

  lemma RecvEnds(c: Cl, c1: Cl, r: Result)
    requires Inv(c, RECV) && Sized(c.eng) && (r == Err || r == Fin)
    requires c1 == Received(c).(rx := c1.rx) && c1.rx == c.rx.(cap := c.conf.recvBuf)
    requires !c.eng.mods[RESP].done && c.tx.sent == []
    ensures Good(c, RECV, Switch(c1, RECV, r))
  {
    hide Pipe, GoodConf, LogOk, EngInv, Good, Switch, Idle, Producing, Transferring, Reads, Whole, Sending;
    CloseGood(c, RECV, c1, r, false);
  }

  /** No response exists before the request is complete. */
  lemma NotResponding(c: Cl, i: nat)
    requires Inv(c, i) && !HasRequest(c.eng)
    ensures !c.eng.mods[RESP].done && c.tx.sent == []
    ensures forall k :: INDEX <= k < N ==> !Entered(c.eng, k)
  {
    hide Pipe, LogOk, GoodConf;
    NotEnteredAfter(c.eng, i);
    assert !Entered(c.eng, RESP);
  }

  /** Data was appended to the buffer, or was there already. */
  predicate More(c: Cl, rx: Rx)
  {
    if c.rx.unprocessed then rx == c.rx
    else
      && |c.rx.buf| < |rx.buf| <= c.conf.recvBuf
      && var d := rx.buf[|c.rx.buf|..];
         && rx.buf == c.rx.buf + d
         && rx == c.rx.(cap := c.conf.recvBuf, buf := c.rx.buf + d, timer := false, received := c.rx.received + d)
  }

  lemma RecvForward(c: Cl, c1: Cl)
    requires Inv(c, RECV) && !HasRequest(c.eng)
    requires c1 == Received(c).(rx := c1.rx) && More(c, c1.rx)
    ensures Good(c, RECV, Switch(c1, RECV, Fwd))
  {
    hide EngInv, Pipe, Wire, LogOk, Less, More, GoodConf, HasRequest;
    InvFacts(c, RECV);
    var c2 := Moved(c1, RECV, false);
    EngForward(c.eng, RECV, c.fl.respDone, false, false, c.fl.respDone);
    assert c2.eng == After(c.eng, RECV, false).(chainBack := false);
    assert c2 == c.(eng := c2.eng, rx := c1.rx, input := NULL);
    RecvEngine(c.eng, c2.eng);
    RecvPipe(c, c2);
    RecvWire(c, c2);
    RecvLess(c, c2);
    ForwardGood(c, RECV, c1, Fwd);
  }

  /** The request is still incomplete; filters from the third on are as before. */
  predicate SameStage(g: Engine, g': Engine)
  {
    && Sized(g) && Sized(g') && HasRequest(g') == HasRequest(g) && g'.log == g.log && g'.keepAliveN == g.keepAliveN
    && (g.mods[RECV].isOpen ==> g'.mods[RECV].isOpen)
    && (g.mods[SEND].isOpen ==> g'.mods[SEND].isOpen)
  }

  lemma RecvEngine(g: Engine, g': Engine)
    requires Sized(g) && g' == After(g, RECV, false).(chainBack := false) && !g.mods[RECV].done
    ensures SameStage(g, g')
  {
  }

  lemma RecvPipe(c: Cl, c2: Cl)
    requires Pipe(c, RECV) && !HasRequest(c.eng)
    requires c2 == c.(eng := c2.eng, rx := c2.rx, input := NULL) && SameStage(c.eng, c2.eng) && More(c, c2.rx)
    ensures Pipe(c2, REQ)
  {
    hide R.AreRequests, Handled, R.Parse;
    if !c.rx.unprocessed {
      var d := c2.rx.buf[|c.rx.buf|..];
      assert Flat(Handled(c.eng.log)) + c.rx.buf + d == Flat(Handled(c.eng.log)) + (c.rx.buf + d);
      assert Prefix(c.rx.tried, c.rx.buf + d) by {
        assert (c.rx.buf + d)[..|c.rx.tried|] == c.rx.buf[..|c.rx.tried|];
      }
    }
  }

  lemma RecvWire(c: Cl, c2: Cl)
    requires Wire(c, RECV) && !HasRequest(c.eng)
    requires c2 == c.(eng := c2.eng, rx := c2.rx, input := NULL) && SameStage(c.eng, c2.eng) && More(c, c2.rx)
    ensures Wire(c2, REQ)
  {
    hide Producing, Sending;
  }

  lemma RecvLess(c: Cl, c2: Cl)
    requires Sized(c.eng) && !HasRequest(c.eng)
    requires c2 == c.(eng := c2.eng, rx := c2.rx, input := NULL) && SameStage(c.eng, c2.eng) && More(c, c2.rx)
    ensures Less(c2, REQ, c, RECV)
  {
  }

  lemma RecvWait(c: Cl, c1: Cl)
    requires Inv(c, RECV) && !HasRequest(c.eng) && !c.rx.unprocessed
    requires c1 == Received(c).(rx := c.rx.(cap := c.conf.recvBuf, timer := true))
    ensures Good(c, RECV, Switch(c1, RECV, Async))
  {
    hide EngInv, Pipe, Wire, LogOk, GoodConf, HasRequest;
    InvFacts(c, RECV);
    EngWait(c.eng, RECV, c.fl.respDone);
    assert c1 == c.(eng := After(c.eng, RECV, false), rx := c.rx.(cap := c.conf.recvBuf, timer := true));
    RecvWaitParts(c, c1);
    WaitGood(c, RECV, c1);
  }

  lemma RecvWaitParts(c: Cl, c1: Cl)
    requires Pipe(c, RECV) && Wire(c, RECV) && !HasRequest(c.eng) && !c.rx.unprocessed && !c.eng.mods[RECV].done
    requires c1 == c.(eng := After(c.eng, RECV, false), rx := c.rx.(cap := c.conf.recvBuf, timer := true))
    ensures Pipe(c1, RECV) && Wire(c1, RECV)
  {
    hide R.AreRequests, Handled, R.Parse, Producing, Sending;
  }

  // ---------------------------------------------------------------- request

  function Requested(c: Cl): (c0: Cl)
    requires Sized(c.eng)
    ensures Sized(c0.eng)
  {
    c.(eng := After(c.eng, REQ, false))
  }

  lemma StepReq(c: Cl, e: Env)
    requires Inv(c, REQ)
    ensures Good(c, REQ, Step(c, REQ, e))
  {
    assert !HasRequest(c.eng);
    ReqCall(c, e);
    hide EngInv, Wire, LogOk, GoodConf, HasRequest, R.Parse;
    var c0 := Requested(c);
    R.ParseAgain(c.conf.normalize, c.rx.tried, c.rx.buf);
    if Parsed(c, c.rx.buf).done {
      ReqDone(c);
    } else if |c.rx.buf| == c.rx.cap {
      hide Pipe;
      NotResponding(c, REQ);
      ReqErr(c);
    } else {
      ReqBack(c);
    }
  }

  lemma ReqCall(c: Cl, e: Env)
    requires Sized(c.eng) && !HasRequest(c.eng)
    ensures FilterCall(c, REQ, e) == ReqProcess(Requested(c))
  {
    hide ReqProcess;
    CallRuns(c, REQ, e);
  }

  lemma ReqErr(c: Cl)
    requires Inv(c, REQ) && !HasRequest(c.eng)
    requires !c.eng.mods[RESP].done && c.tx.sent == []
    requires forall k :: INDEX <= k < N ==> !Entered(c.eng, k)
    ensures Good(c, REQ, Switch(ReqProcess(Requested(c)).0, REQ, Err))
  {
    hide EngInv, Pipe, LogOk, GoodConf, R.Parse;
    CloseGood(c, REQ, ReqProcess(Requested(c)).0, Err, false);
  }

  lemma ReqBack(c: Cl)
    requires Inv(c, REQ) && !HasRequest(c.eng)
    requires R.Parse(c.conf.normalize, c.rx.buf, c.req) == Parsed(c, c.rx.buf)
    requires !Parsed(c, c.rx.buf).done
    ensures Good(c, REQ, Switch(ReqProcess(Requested(c)).0, REQ, Back))
  {
    hide EngInv, Pipe, Wire, LogOk, Less, GoodConf, HasRequest, R.Parse;
    InvFacts(c, REQ);
    var c1 := ReqProcess(Requested(c)).0;
    var c2 := c1.(input := NULL, eng := c1.eng.(chainBack := true));
    EngBack(c.eng, REQ, c.fl.respDone);
    assert c2 == c.(eng := After(c.eng, REQ, false).(chainBack := true),
                    rx := c.rx.(unprocessed := false, tried := c.rx.buf), req := Parsed(c, c.rx.buf).req, input := NULL);
    ReqBackParts(c, c2);
    BackGood(c, REQ, c1);
  }

  lemma ReqBackParts(c: Cl, c2: Cl)
    requires Pipe(c, REQ) && Wire(c, REQ) && !HasRequest(c.eng) && !Parsed(c, c.rx.buf).done
    requires c2 == c.(eng := After(c.eng, REQ, false).(chainBack := true),
                      rx := c.rx.(unprocessed := false, tried := c.rx.buf), req := Parsed(c, c.rx.buf).req, input := NULL)
    ensures Pipe(c2, RECV) && Wire(c2, RECV) && Less(c2, RECV, c, REQ)
  {
    hide R.Parse, R.AreRequests, Handled, Producing, Sending;
    assert SameStage(c.eng, c2.eng);
  }

  lemma ReqDone(c: Cl)
    requires Inv(c, REQ) && !HasRequest(c.eng)
    requires R.Parse(c.conf.normalize, c.rx.buf, c.req) == Parsed(c, c.rx.buf)
    requires Parsed(c, c.rx.buf).done
    ensures Good(c, REQ, Switch(ReqProcess(Requested(c)).0, REQ, Result.Done))
  {
    hide EngInv, Pipe, Wire, LogOk, Less, HasRequest, R.Parse;
    InvFacts(c, REQ);
    var c1 := ReqProcess(Requested(c)).0;
    var c2 := Moved(c1, REQ, true);
    NotResponding(c, REQ);
    ReqEngine(c);
    ReqFields(c);
    ReqWire(c, c2);
    ReqPipe(c, c2);
    ReqLess(c, c2);
    hide GoodConf;
    ForwardGood(c, REQ, c1, Result.Done);
  }

  function ReqMoved(c: Cl): (c2: Cl)
    requires Sized(c.eng)
    ensures Sized(c2.eng)
  {
    Moved(ReqProcess(Requested(c)).0, REQ, true)
  }

  lemma ReqEngine(c: Cl)
    requires EngInv(c.eng, REQ, c.fl.respDone) && !HasRequest(c.eng)
    ensures var g := ReqMoved(c).eng;
            EngInv(g, INDEX, ReqMoved(c).fl.respDone) && HasRequest(g) && !g.chainBack
            && g.log == c.eng.log && g.keepAliveN == c.eng.keepAliveN
            && g.mods[RECV] == c.eng.mods[RECV]
            && forall k :: INDEX <= k < N ==> g.mods[k] == c.eng.mods[k]
  {
    hide R.Parse;
    assert !c.fl.respDone;
    EngForward(c.eng, REQ, false, false, true, false);
    assert ReqMoved(c).eng == ChainEngine.Done(After(c.eng, REQ, false), REQ).(chainBack := false);
  }

  /** What the request filter sets. */
  lemma ReqFields(c: Cl)
    requires Sized(c.eng) && Wire(c, REQ) && !HasRequest(c.eng)
    requires R.Parse(c.conf.normalize, c.rx.buf, c.req) == Parsed(c, c.rx.buf)
    requires Parsed(c, c.rx.buf).done
    ensures var c2, p := ReqMoved(c), Parsed(c, c.rx.buf);
            && c2 == c.(eng := c2.eng, rx := c.rx.(unprocessed := false, tried := c.rx.buf), req := p.req,
                        resp := c2.resp, fl := c2.fl, input := NULL)
            && ((c2.resp == RESP0 && c2.fl == FLAGS0.(keepAlive := c2.fl.keepAlive))
                || (c2.resp == RESP0.(code := 400, msg := StatusMsg(400)) && c2.fl == FLAGS0.(respErr := true)))
            && (c2.fl.keepAlive ==> p.keepAlive)
  {
    hide R.Parse, StatusMsg, Producing, Sending;
  }

  lemma ReqPipe(c: Cl, c2: Cl)
    requires Pipe(c, REQ) && !HasRequest(c.eng) && GoodConf(c.conf) && Parsed(c, c.rx.buf).done
    requires Sized(c2.eng) && HasRequest(c2.eng) && c2.eng.log == c.eng.log && c2.eng.keepAliveN == c.eng.keepAliveN
    requires c2 == c.(eng := c2.eng, rx := c.rx.(unprocessed := false, tried := c.rx.buf), req := Parsed(c, c.rx.buf).req,
                      resp := c2.resp, fl := c2.fl, input := NULL)
    requires c2.fl.keepAlive ==> Parsed(c, c.rx.buf).keepAlive
    ensures Pipe(c2, INDEX)
  {
    hide R.AreRequests, Handled, GoodConf, R.Parse, Flat;
    PathShort(c);
  }

  lemma PathShort(c: Cl)
    requires GoodConf(c.conf)
    ensures |Parsed(c, c.rx.buf).req.unescaped| <= |c.rx.buf|
  {
    hide R.Parse;
    R.PathBound(c.conf.normalize, c.rx.buf);
  }

  lemma ReqLess(c: Cl, c2: Cl)
    requires Sized(c.eng) && Sized(c2.eng) && !HasRequest(c.eng) && HasRequest(c2.eng)
    requires c2.conf == c.conf && c2.eng.keepAliveN == c.eng.keepAliveN
    ensures Less(c2, INDEX, c, REQ)
  {
  }

  lemma ReqWire(c: Cl, c2: Cl)
    requires Sized(c.eng) && Sized(c2.eng) && Wire(c, REQ) && !HasRequest(c.eng) && HasRequest(c2.eng)
    requires forall k :: INDEX <= k < N ==> !Entered(c.eng, k) && c2.eng.mods[k] == c.eng.mods[k]
    requires c2.eng.mods[RECV] == c.eng.mods[RECV] && !c2.eng.chainBack
    requires c2 == c.(eng := c2.eng, rx := c2.rx, req := c2.req, resp := c2.resp, fl := c2.fl, input := NULL)
    requires c2.rx.timer == c.rx.timer
    requires (c2.resp == RESP0 && c2.fl == FLAGS0.(keepAlive := c2.fl.keepAlive))
             || (c2.resp == RESP0.(code := 400, msg := StatusMsg(400)) && c2.fl == FLAGS0.(respErr := true))
    ensures Wire(c2, INDEX)
  {
    hide Clamp, IovBytes, StatusMsg;
    assert !Entered(c2.eng, FILE) && !Entered(c2.eng, ERROR) && !Entered(c2.eng, TRANS) && !Entered(c2.eng, RESP);
    assert !Entered(c.eng, SEND);
  }
}

/** The send filter keeps the invariant, for every sequence of partial sends. */
module ChainSend {
  import opened Chain
  import opened ChainEngine
  import opened ChainData
  import opened ChainInv
  import opened ChainSteps
  import opened ChainServe

  lemma SendFacts(c: Cl)
    requires Inv(c, SEND)
    ensures Sized(c.eng) && HasRequest(c.eng) && !c.eng.chainBack && !c.eng.mods[SEND].done
    ensures Wire(c, SEND) && Sending(c, SEND) && c.output == NULL && InBounds(c, c.input)
    ensures c.eng.mods[RESP].done && Entered(c.eng, ERROR) && Entered(c.eng, FILE) && Entered(c.eng, TRANS)
    ensures !c.fl.respDone ==> !c.eng.mods[FILE].done
    ensures AllInBounds(c, c.tx.iov) && (c.tx.iov != [] ==> Total(c.tx.iov) > 0)
    ensures c.input.len > 0 ==> c.tx.iov == []
  {
    hide Pipe, LogOk, GoodConf, Transferring, Reads, HeadOk, Clamp, AllInBounds, Total, IovBytes, Deref;
    NotEnteredAfter(c.eng, SEND);
    assert Entered(c.eng, RESP);
  }

  /** The input joins the vector; then some of it was sent. */
  ghost predicate SentOn(c: Cl, c1: Cl)
  {
    && c1 == c.(eng := c1.eng, tx := c1.tx, input := c1.input) && c1.input.len == 0 && c1.tx.contLen == c.tx.contLen
    && AllInBounds(c1, c1.tx.iov) && (c1.tx.iov != [] ==> Total(c1.tx.iov) > 0)
    && c1.tx.sent + IovBytes(c1, c1.tx.iov) == c.tx.sent + IovBytes(c, c.tx.iov) + Deref(c, c.input)
  }

  /** The state in which the loop starts. */
  function Loaded(c: Cl): (c': Cl)
    ensures c'.eng == c.eng
  {
    if c.input.len != 0 then c.(tx := c.tx.(iov := [c.input]), input := c.input.(len := 0)) else c
  }

  lemma LoadedBytes(c: Cl, c0: Cl)
    requires c0 == c.(eng := c0.eng) && InBounds(c, c.input) && AllInBounds(c, c.tx.iov)
    requires (c.tx.iov != [] ==> Total(c.tx.iov) > 0) && (c.input.len > 0 ==> c.tx.iov == [])
    ensures SentOn(c, Loaded(c0)) && Loaded(c0).tx.sent == c.tx.sent
  {
    hide Deref, InBounds, AllInBounds, Total;
    var c' := Loaded(c0);
    SameRef(c, c', c.input);
    if c.input.len != 0 {
      OneRef(c', c.input);
      assert c.tx.sent + [] == c.tx.sent;
    } else {
      SameBytes(c, c', c.tx.iov);
      RefLength(c, c.input, 0);
      assert c.tx.sent + IovBytes(c, c.tx.iov) + [] == c.tx.sent + IovBytes(c, c.tx.iov);
    }
  }

  lemma SendMakes(c: Cl, c0: Cl, e: Env)
    requires c0 == c.(eng := c0.eng) && InBounds(c, c.input) && AllInBounds(c, c.tx.iov)
    requires (c.tx.iov != [] ==> Total(c.tx.iov) > 0) && (c.input.len > 0 ==> c.tx.iov == [])
    ensures var (c1, r) := SendProcess(c0, e);
            && SentOn(c, c1) && c1.eng == c0.eng
            && (r == Result.Done || r == Back || r == Async || r == Err)
            && (r == Result.Done || r == Back ==> c1.tx.iov == [] && !c1.tx.timer && (r == Result.Done <==> c.fl.respDone))
  {
    hide AllInBounds, Total, IovBytes, Deref, InBounds, SendLoop;
    LoadedBytes(c, c0);
    SendLoopConserves(Loaded(c0), e.sends);
    var c1, c2 := SendLoop(Loaded(c0), e.sends).0, SendProcess(c0, e).0;
    SameBytes(c1, c2, c2.tx.iov);
  }

  lemma SendSent(c: Cl, c1: Cl)
    requires Sized(c.eng) && Sized(c1.eng) && Sending(c, SEND) && SentOn(c, c1) && c.eng.mods[RESP].done
    requires c1.eng.mods[RESP].done
    ensures c1.tx.sent + IovBytes(c1, c1.tx.iov) == c.resp.head + Body(c.fl.headMethod, Length(c), c.fed)
    ensures SentPrefix(c1)
  {
    hide AllInBounds, Total, IovBytes, Deref, Body, HeadOk;
    assert c.resp.head + Body(c.fl.headMethod, Length(c), c.fed) == c1.tx.sent + IovBytes(c1, c1.tx.iov);
  }

  /** The state after the call, or after a move that clears the input. */
  ghost predicate AfterSend(c: Cl, c2: Cl)
  {
    && c2 == c.(eng := c2.eng, tx := c2.tx, input := c2.input) && c2.input.len == 0 && c2.tx.contLen == c.tx.contLen
    && AllInBounds(c2, c2.tx.iov) && (c2.tx.iov != [] ==> Total(c2.tx.iov) > 0)
    && c2.tx.sent + IovBytes(c2, c2.tx.iov) == c.resp.head + Body(c.fl.headMethod, Length(c), c.fed)
  }

  lemma AfterSendKept(c: Cl, c1: Cl, c2: Cl)
    requires AfterSend(c, c1) && c2 == c1.(eng := c2.eng, input := c2.input) && c2.input.len == 0
    ensures AfterSend(c, c2)
  {
    SameBytes(c1, c2, c1.tx.iov);
    hide IovBytes, Total, Body;
  }

  lemma SendSending(c: Cl, c2: Cl, j: nat)
    requires Sized(c.eng) && Sized(c2.eng) && Sending(c, SEND) && AfterSend(c, c2) && RESP <= j <= LOG
    requires c.eng.mods[RESP].done && c2.eng.mods[RESP].done
    requires j != SEND ==> c2.tx.iov == []
    requires j == RESP ==> !c.fl.respDone
    ensures Sending(c2, j)
  {
    hide HeadOk, Body, IovBytes, Total;
    assert Deref(c2, c2.input) == [];
    var s := c2.tx.sent + IovBytes(c2, c2.tx.iov);
    assert s + [] == s;
  }

  lemma SendProducing(c: Cl, c2: Cl, j: nat)
    requires Sized(c.eng) && Sized(c2.eng) && Producing(c, SEND) && RESP <= j <= LOG
    requires c2 == c.(eng := c2.eng, tx := c2.tx, input := c2.input) && c2.input.len == 0
    requires forall k :: 0 <= k < SEND ==> c2.eng.mods[k] == c.eng.mods[k]
    requires Entered(c.eng, ERROR) && Entered(c.eng, FILE) && Entered(c.eng, TRANS)
    requires c2.eng.chainBack ==> c2.input == NULL
    ensures Producing(c2, j)
  {
    assert c2.eng.mods[FILE] == c.eng.mods[FILE] && c2.eng.mods[ERROR] == c.eng.mods[ERROR];
    assert c2.eng.mods[TRANS] == c.eng.mods[TRANS];
  }

  lemma SendOther(c: Cl, c2: Cl, j: nat)
    requires Sized(c.eng) && Sized(c2.eng) && Transferring(c) && Reads(c, SEND) && RESP <= j <= LOG
    requires c2 == c.(eng := c2.eng, tx := c2.tx, input := c2.input) && c2.tx.contLen == c.tx.contLen
    requires c2.eng.mods[FILE] == c.eng.mods[FILE] && c2.eng.mods[TRANS] == c.eng.mods[TRANS]
    requires (Entered(c2.eng, RESP) <==> Entered(c.eng, RESP)) && Entered(c.eng, TRANS) && Whole(c, SEND)
    requires j == RESP ==> c.file.state == 2
    ensures Transferring(c2) && Reads(c2, j) && Whole(c2, j)
  {
    hide Clamp, Finished;
  }

  lemma SendWire(c: Cl, c2: Cl, j: nat)
    requires Wire(c, SEND) && Sized(c2.eng) && HasRequest(c.eng) && AfterSend(c, c2) && RESP <= j <= LOG
    requires c.eng.mods[RESP].done && Entered(c.eng, ERROR) && Entered(c.eng, FILE) && Entered(c.eng, TRANS)
    requires forall k :: 0 <= k < SEND ==> c2.eng.mods[k] == c.eng.mods[k]
    requires j != SEND ==> c2.tx.iov == []
    requires j == RESP ==> !c.fl.respDone && !c.eng.mods[FILE].done
    requires c2.eng.chainBack ==> c2.input == NULL
    requires c2.eng.mods[SEND].isOpen && c.output == NULL
    ensures Wire(c2, j)
  {
    assert j == RESP ==> c.file.state == 2;
    hide Producing, Transferring, Reads, Whole, Sending;
    assert RESP < SEND && FILE < SEND && TRANS < SEND;
    SendSending(c, c2, j);
    SendProducing(c, c2, j);
    SendOther(c, c2, j);
  }

  // ------------------------------------------------------------- the outcomes

  lemma SendEngine(g: Engine, g2: Engine, done: bool)
    requires Sized(g) && !g.mods[SEND].done && Sized(g2)
    requires g2.mods == (if done then ChainEngine.Done(After(g, SEND, false), SEND) else After(g, SEND, false)).mods
    ensures forall k :: 0 <= k < SEND ==> g2.mods[k] == g.mods[k]
    ensures g2.mods[SEND].isOpen && g2.mods[LOG] == g.mods[LOG]
  {
  }

  lemma SendWaits(c: Cl, c1: Cl)
    requires Inv(c, SEND) && Sized(c.eng) && c1.eng == After(c.eng, SEND, false) && AfterSend(c, c1)
    requires SentOn(c, c1)
    ensures Good(c, SEND, Switch(c1, SEND, Async))
  {
    hide Inv, EngInv, Pipe, Wire, LogOk, Less, GoodConf, HasRequest, Good, Switch, Sending, AllInBounds, Body, IovBytes, After;
    SendFacts(c);
    InvParts(c, SEND);
    PathFits(c, SEND);
    SendLog(c.eng);
    SendEngine(c.eng, c1.eng, false);
    EngWait(c.eng, SEND, c.fl.respDone);
    SendKeepsRequest(c.eng, c1.eng);
    PipeKeeps(c, SEND, c1, SEND);
    SendWire(c, c1, SEND);
    WaitGood(c, SEND, c1);
  }

  lemma InvParts(c: Cl, i: nat)
    requires Inv(c, i)
    ensures GoodConf(c.conf) && EngInv(c.eng, i, c.fl.respDone) && Pipe(c, i) && Wire(c, i) && LogOk(c.conf, c.eng.log)
  {
    hide GoodConf, EngInv, Pipe, Wire, LogOk;
  }

  lemma SendLog(g: Engine)
    requires Sized(g)
    ensures After(g, SEND, false).log == g.log && After(g, SEND, false).keepAliveN == g.keepAliveN
    ensures After(g, SEND, false).chainBack == g.chainBack
  {
  }

  lemma SendKeepsRequest(g: Engine, g2: Engine)
    requires Sized(g) && Sized(g2) && HasRequest(g) && forall k :: 0 <= k < SEND ==> g2.mods[k] == g.mods[k]
    ensures HasRequest(g2)
  {
    assert REQ < SEND;
  }

  lemma SendBack(c: Cl, c1: Cl)
    requires Inv(c, SEND) && Sized(c.eng) && c1.eng == After(c.eng, SEND, false) && AfterSend(c, c1)
    requires SentOn(c, c1) && !c.fl.respDone && c1.tx.iov == []
    ensures Good(c, SEND, Switch(c1, SEND, Back))
  {
    hide Inv, EngInv, Pipe, Wire, LogOk, Less, GoodConf, HasRequest, Good, Switch, Sending, AllInBounds, Body, IovBytes, After,
         AfterSend;
    SendFacts(c);
    InvParts(c, SEND);
    PathFits(c, SEND);
    var c2 := c1.(input := NULL, eng := c1.eng.(chainBack := true));
    SendLog(c.eng);
    SendEngine(c.eng, c2.eng, false);
    EngBack(c.eng, SEND, false);
    SendKeepsRequest(c.eng, c2.eng);
    PipeKeeps(c, SEND, c2, RESP);
    AfterSendKept(c, c1, c2);
    SendWire(c, c2, RESP);
    SendBackEntered(c.eng, c2.eng);
    LessBack(c, SEND, c2);
    BackGood(c, SEND, c1);
  }

  lemma SendBackEntered(g: Engine, g2: Engine)
    requires Sized(g) && Sized(g2) && Entered(g, ERROR) && forall k :: 0 <= k < SEND ==> g2.mods[k] == g.mods[k]
    ensures Entered(g2, ERROR) && g2.mods[FILE] == g.mods[FILE]
  {
    assert ERROR < SEND && FILE < SEND;
  }

  lemma SendDone(c: Cl, c1: Cl)
    requires Inv(c, SEND) && Sized(c.eng) && c1.eng == After(c.eng, SEND, false) && AfterSend(c, c1)
    requires SentOn(c, c1) && c.fl.respDone && c1.tx.iov == []
    ensures Good(c, SEND, Switch(c1, SEND, Result.Done))
  {
    hide Inv, EngInv, Pipe, Wire, LogOk, Less, GoodConf, HasRequest, Good, Switch, Sending, AllInBounds, Body, IovBytes, After,
         AfterSend, Books;
    SendFacts(c);
    InvParts(c, SEND);
    PathFits(c, SEND);
    var c2, m := Moved(c1, SEND, true), ModAfter(c.eng, SEND, false, true);
    SendLog(c.eng);
    SendEngine(c.eng, c2.eng, true);
    EngForward(c.eng, SEND, true, false, true, true);
    MovedEngine(c, SEND, c1, false, true);
    SendKeepsRequest(c.eng, c2.eng);
    PipeKeeps(c, SEND, c2, LOG);
    AfterSendKept(c, c1, c2);
    SendWire(c, c2, LOG);
    SendBooks(c.eng, c.fl.respDone);
    LessForward(c, SEND, c2, m);
    ForwardGood(c, SEND, c1, Result.Done);
  }

  lemma SendBooks(g: Engine, d: bool)
    requires EngInv(g, SEND, d)
    ensures Books(g, SEND)
  {
  }

  lemma SendFails(c: Cl, c1: Cl)
    requires Inv(c, SEND) && Sized(c.eng) && c1.eng == After(c.eng, SEND, false) && SentOn(c, c1) && SentPrefix(c1)
    ensures Good(c, SEND, Switch(c1, SEND, Err))
  {
    hide EngInv, Pipe, LogOk, Less, GoodConf, Good, Switch, AllInBounds, Body, IovBytes, SentPrefix, Producing, Reads, Sending,
         Transferring;
    SendFacts(c);
    SendEngine(c.eng, c1.eng, false);
    assert RECV < SEND;
    CloseGood(c, SEND, c1, Err, false);
  }

  lemma StepSend(c: Cl, e: Env)
    requires Inv(c, SEND)
    ensures Good(c, SEND, Step(c, SEND, e))
  {
    hide Inv, EngInv, Pipe, Wire, LogOk, Less, GoodConf, FilterCall, HasRequest, Good, Switch, Sending, AllInBounds, Body,
         IovBytes, After, SendProcess, AfterSend, SentOn, Total, InBounds;
    SendFacts(c);
    CallRuns(c, SEND, e);
    var c0 := c.(eng := After(c.eng, SEND, false));
    SendMakes(c, c0, e);
    var (c1, r) := FilterCall(c, SEND, e);
    SendEngine(c.eng, c1.eng, false);
    assert RESP < SEND;
    SendSent(c, c1);
    SentIsAfter(c, c1);
    if r == Async {
      SendWaits(c, c1);
    } else if r == Back {
      SendBack(c, c1);
    } else if r == Err {
      SendFails(c, c1);
    } else {
      SendDone(c, c1);
    }
  }

  lemma SentIsAfter(c: Cl, c1: Cl)
    requires SentOn(c, c1)
    requires c1.tx.sent + IovBytes(c1, c1.tx.iov) == c.resp.head + Body(c.fl.headMethod, Length(c), c.fed)
    ensures AfterSend(c, c1)
  {
    hide AllInBounds, Body, IovBytes, Total;
  }
}

/** The filters from index to access log keep the invariant. */
module ChainServe {
  import opened Bytes
  import opened Chain
  import opened ChainEngine
  import opened ChainData
  import opened ChainInv
  import opened ChainSteps
  import R = Request

  // ------------------------------------------------------- parts shared by all

  /** From a forward move at i >= INDEX: filter i is entered and the others are as before. */
  predicate MovedOn(g: Engine, g2: Engine, i: nat, m: Mod)
  {
    && i < N && Sized(g) && Sized(g2)
    && g2.mods == g.mods[i := m] && (m.isOpen || m.done)
    && g2.log == g.log && g2.keepAliveN == g.keepAliveN
  }

  /** The module record of filter i after a call. */
  function ModAfter(g: Engine, i: nat, declined: bool, done: bool): Mod
    requires i < N && Sized(g)
  {
    var m := if Entered(g, i) then g.mods[i] else if declined then Mod(false, true) else Mod(true, false);
    if done then m.(done := true) else m
  }

  lemma MovedEngine(c: Cl, i: nat, c1: Cl, declined: bool, done: bool)
    requires i < LOG && Sized(c.eng) && c1.eng == After(c.eng, i, declined)
    ensures MovedOn(c.eng, Moved(c1, i, done).eng, i, ModAfter(c.eng, i, declined, done))
    ensures !Moved(c1, i, done).eng.chainBack
    ensures var g := if done then ChainEngine.Done(c1.eng, i) else c1.eng;
            Moved(c1, i, done).eng == g.(chainBack := false)
  {
  }

  /** The request part does not change once the request is complete. */
  lemma PipeKeeps(c: Cl, i: nat, c2: Cl, j: nat)
    requires Pipe(c, i) && HasRequest(c.eng) && Sized(c2.eng) && HasRequest(c2.eng)
    requires c2.conf == c.conf && c2.rx == c.rx.(timer := c2.rx.timer)
    requires c2.eng.log == c.eng.log && c2.eng.keepAliveN == c.eng.keepAliveN
    requires c2.fl.keepAlive ==> c.fl.keepAlive
    requires c2.req == c.req.(unescaped := c2.req.unescaped)
    requires |c2.req.unescaped| <= c.conf.recvBuf + if j > INDEX then |c.conf.index| else 0
    ensures Pipe(c2, j)
  {
    hide R.Parse, R.AreRequests, Handled;
  }

  lemma PathFits(c: Cl, i: nat)
    requires Pipe(c, i) && HasRequest(c.eng)
    ensures |c.req.unescaped| <= c.conf.recvBuf + if i > INDEX then |c.conf.index| else 0
  {
    hide Parsed, R.AreRequests, Handled;
  }

  /** A forward move from a filter other than file that does not touch the file. */
  lemma LessForward(c: Cl, i: nat, c2: Cl, m: Mod)
    requires INDEX <= i < LOG && i != FILE && MovedOn(c.eng, c2.eng, i, m) && Books(c.eng, i)
    requires HasRequest(c.eng) && !c.eng.chainBack && !c2.eng.chainBack
    requires c2.conf == c.conf && c2.file.disk == c.file.disk
    ensures Less(c2, i + 1, c, i)
  {
    NotEnteredAfter(c.eng, i);
    if i <= AUTO {
      assert Entered(c.eng, ERROR) <==> Entered(c2.eng, ERROR);
    }
  }

  lemma LessBack(c: Cl, i: nat, c2: Cl)
    requires FILE < i <= SEND && Sized(c.eng) && HasRequest(c.eng) && Sized(c2.eng)
    requires c2.eng.mods[FILE] == c.eng.mods[FILE] && HasRequest(c2.eng) && c2.eng.keepAliveN == c.eng.keepAliveN
    requires c2.eng.chainBack && (i == SEND || c.eng.chainBack) && Entered(c2.eng, ERROR)
    requires c2.conf == c.conf && c2.file.disk == c.file.disk
    ensures Less(c2, i - 1, c, i)
  {
  }

  // ----------------------------------------------------- index and autoindex

  /** Nothing of the response is on its way: the first three filters. */
  lemma EarlyFacts(c: Cl, i: nat)
    requires Inv(c, i) && INDEX <= i <= AUTO
    ensures !Entered(c.eng, i) && !c.eng.chainBack && c.input.len == 0
    ensures forall k :: i <= k < N ==> !Entered(c.eng, k)
  {
    hide Pipe, LogOk, GoodConf, Transferring, Reads, Sending;
    NotEnteredAfter(c.eng, i);
  }

  /** A step before the file filter keeps the response part, if it leaves the producer's rules
      in place. */
  lemma EarlyWire(c: Cl, i: nat, c2: Cl, m: Mod)
    requires Wire(c, i) && INDEX <= i <= AUTO && HasRequest(c.eng)
    requires MovedOn(c.eng, c2.eng, i, m) && !c2.eng.chainBack && (i == AUTO || c2.input.len == 0)
    requires forall k :: i <= k < N ==> !Entered(c.eng, k)
    requires c2 == c.(eng := c2.eng, req := c2.req, resp := c2.resp, fl := c2.fl, input := c2.input)
    requires InBounds(c2, c2.input) && c2.resp.code < 1000 && c2.resp.head == c.resp.head
    requires !c2.fl.headMethod
    requires c2.fl.respDone <==> c2.resp.code != 0 && !c2.fl.respErr
    requires c2.fl.respDone ==> c2.resp.contentLength.Some? && i == AUTO
    requires c2.input.len > 0 ==> c2.fl.respDone
    requires c2.fl.respDone ==> Deref(c2, c2.input) == c2.resp.dir && |c2.resp.dir| == Length(c2)
    ensures Wire(c2, i + 1)
  {
    hide Clamp, IovBytes, Deref;
    assert forall k :: i < k < N ==> c2.eng.mods[k] == c.eng.mods[k];
    assert !Entered(c.eng, FILE) && !Entered(c.eng, ERROR) && !Entered(c.eng, TRANS) && !Entered(c.eng, RESP);
    assert !Entered(c2.eng, FILE) && !Entered(c2.eng, ERROR) && !Entered(c2.eng, TRANS) && !Entered(c2.eng, RESP);
    assert !Entered(c.eng, SEND);
  }

  /** What the response part says before the file filter. */
  lemma EarlyResp(c: Cl, i: nat)
    requires Wire(c, i) && HasRequest(c.eng) && !Entered(c.eng, FILE) && i <= AUTO
    ensures c.resp.code < 1000 && !c.fl.headMethod && c.file == FILE0 && !c.fl.respDone
    ensures c.resp.code != 0 ==> c.fl.respErr
    ensures InBounds(c, c.input) && c.output == NULL
  {
    hide Transferring, Reads, Sending;
  }

  /** What a call of an early filter leaves. */
  ghost predicate EarlyCall(c: Cl, i: nat, c1: Cl, declined: bool)
    requires i < N && Sized(c.eng)
  {
    && c1 == c.(eng := c1.eng, req := c1.req, resp := c1.resp, fl := c1.fl, output := c1.output)
    && c1.eng == After(c.eng, i, declined)
    && c1.req == c.req.(unescaped := c1.req.unescaped)
    && |c1.req.unescaped| <= |c.req.unescaped| + (if i == INDEX then |c.conf.index| else 0)
    && (c1.fl.keepAlive ==> c.fl.keepAlive) && c1.resp.head == c.resp.head
    && InBounds(c1, c1.output) && c1.resp.code < 1000 && !c1.fl.headMethod
    && (c1.fl.respDone <==> c1.resp.code != 0 && !c1.fl.respErr)
    && (c1.fl.respDone ==> c1.resp.contentLength.Some? && i == AUTO)
    && (c1.output.len > 0 ==> c1.fl.respDone) && (c1.fl.respDone ==> Deref(c1, c1.output) == c1.resp.dir && |c1.resp.dir| == Length(c1))
  }

  lemma EarlyEngine(c: Cl, i: nat, c1: Cl, declined: bool)
    requires EngInv(c.eng, i, c.fl.respDone) && INDEX <= i <= AUTO && EarlyCall(c, i, c1, declined)
    requires !c.fl.respDone && !Entered(c.eng, i) && HasRequest(c.eng)
    ensures var c2 := Moved(c1, i, !declined);
            && EngInv(c2.eng, i + 1, c2.fl.respDone) && HasRequest(c2.eng) && Books(c.eng, i)
  {
    hide InBounds;
    EngForward(c.eng, i, false, declined, !declined, c1.fl.respDone);
    MovedEngine(c, i, c1, declined, !declined);
  }

  lemma EarlyForward(c: Cl, i: nat, c1: Cl, declined: bool, r: Result)
    requires Inv(c, i) && INDEX <= i <= AUTO && EarlyCall(c, i, c1, declined)
    requires r == if declined then Fwd else Result.Done
    ensures Good(c, i, Switch(c1, i, r))
  {
    hide EngInv, Pipe, Wire, LogOk, Less, GoodConf, InBounds, HasRequest, Books;
    InvFacts(c, i);
    EarlyFacts(c, i);
    EarlyResp(c, i);
    PathFits(c, i);
    var c2, m := Moved(c1, i, !declined), ModAfter(c.eng, i, declined, !declined);
    EarlyEngine(c, i, c1, declined);
    MovedEngine(c, i, c1, declined, !declined);
    PipeKeeps(c, i, c2, i + 1);
    assert InBounds(c2, c2.input) by { SameRef(c1, c2, c1.output); }
    EarlyWire(c, i, c2, m);
    LessForward(c, i, c2, m);
    ForwardGood(c, i, c1, r);
  }

  lemma IndexCall(c: Cl, e: Env)
    requires Sized(c.eng) && !Entered(c.eng, INDEX) && !c.eng.chainBack && c.input.len == 0
    requires c.resp.code < 1000 && !c.fl.headMethod && !c.fl.respDone && (c.resp.code != 0 ==> c.fl.respErr)
    requires InBounds(c, c.input) && c.output == NULL
    ensures var (c1, r) := FilterCall(c, INDEX, e);
            var declined := IndexOpen(c) == Skip;
            EarlyCall(c, INDEX, c1, declined) && r == if declined then Fwd else Result.Done
  {
    hide After;
    if IndexOpen(c) == Skip { CallPasses(c, INDEX, e); } else { CallRuns(c, INDEX, e); }
  }

  lemma StepIndex(c: Cl, e: Env)
    requires Inv(c, INDEX)
    ensures Good(c, INDEX, Step(c, INDEX, e))
  {
    hide EngInv, Pipe, Wire, LogOk, Less, GoodConf, FilterCall, HasRequest, Switch, EarlyCall, IndexOpen, InBounds;
    InvFacts(c, INDEX);
    EarlyFacts(c, INDEX);
    EarlyResp(c, INDEX);
    IndexCall(c, e);
    EarlyForward(c, INDEX, FilterCall(c, INDEX, e).0, IndexOpen(c) == Skip, FilterCall(c, INDEX, e).1);
  }

  lemma AutoCall(c: Cl, e: Env)
    requires Sized(c.eng) && !Entered(c.eng, AUTO) && !c.eng.chainBack && c.input.len == 0
    requires c.resp.code < 1000 && !c.fl.headMethod && !c.fl.respDone && (c.resp.code != 0 ==> c.fl.respErr)
    requires InBounds(c, c.input) && c.output == NULL
    ensures var (c1, r) := FilterCall(c, AUTO, e);
            var declined := AutoOpen(c) == Skip;
            EarlyCall(c, AUTO, c1, declined) && r == if declined then Fwd else Result.Done
  {
    hide After, StatusMsg;
    if AutoOpen(c) == Skip { CallPasses(c, AUTO, e); } else { CallRuns(c, AUTO, e); }
  }

  lemma StepAuto(c: Cl, e: Env)
    requires Inv(c, AUTO)
    ensures Good(c, AUTO, Step(c, AUTO, e))
  {
    hide EngInv, Pipe, Wire, LogOk, Less, GoodConf, FilterCall, HasRequest, Switch, EarlyCall, AutoOpen, InBounds;
    InvFacts(c, AUTO);
    EarlyFacts(c, AUTO);
    EarlyResp(c, AUTO);
    AutoCall(c, e);
    EarlyForward(c, AUTO, FilterCall(c, AUTO, e).0, AutoOpen(c) == Skip, FilterCall(c, AUTO, e).1);
  }
}

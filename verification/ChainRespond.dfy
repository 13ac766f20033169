/** The error, transfer and response filters keep the invariant. */
module ChainRespond {
  import opened Bytes
  import opened Chain
  import opened ChainEngine
  import opened ChainData
  import opened ChainInv
  import opened ChainSteps
  import opened ChainServe
  import W = Http1Writers

  // -------------------------------------------------------------- backwards

  lemma BackFacts(c: Cl, i: nat)
    requires Inv(c, i) && ERROR <= i <= RESP && c.eng.chainBack
    ensures Sized(c.eng) && HasRequest(c.eng) && c.input == NULL && c.output == NULL
    ensures Entered(c.eng, i) && Entered(c.eng, SEND) && (i == TRANS || c.eng.mods[i].done)
    ensures !c.eng.mods[FILE].done && Entered(c.eng, ERROR) && Entered(c.eng, i - 1)
    ensures !c.fl.respDone && c.eng.mods[RESP].done
  {
    hide Pipe, LogOk, GoodConf, Transferring, Reads, Sending;
    NotEnteredAfter(c.eng, i);
    assert Entered(c.eng, RESP);
  }

  /** On the way back to the file filter nothing changes. */
  lemma BackCall(c: Cl, i: nat, e: Env)
    requires Sized(c.eng) && ERROR <= i <= RESP && c.eng.chainBack && c.input == NULL && c.output == NULL
    requires Entered(c.eng, i) && (i == TRANS || c.eng.mods[i].done)
    ensures FilterCall(c, i, e) == (c, Back)
  {
    if c.eng.mods[i].done { CallPasses(c, i, e); } else { CallRuns(c, i, e); }
    assert c.(eng := c.eng) == c && c.(output := NULL) == c;
  }

  lemma BackWire(c: Cl, i: nat)
    requires Wire(c, i) && HasRequest(c.eng) && ERROR <= i <= RESP && c.eng.chainBack
    requires c.input == NULL && !c.fl.respDone && c.eng.mods[RESP].done && Entered(c.eng, ERROR) && Entered(c.eng, TRANS)
    requires !c.eng.mods[FILE].done && Entered(c.eng, FILE)
    ensures Wire(c, i - 1)
  {
    hide Transferring, HeadOk, Clamp, IovBytes;
  }

  lemma StepBack(c: Cl, i: nat, e: Env)
    requires Inv(c, i) && ERROR <= i <= RESP && c.eng.chainBack
    ensures Good(c, i, Step(c, i, e))
  {
    hide EngInv, Pipe, Wire, LogOk, Less, GoodConf, FilterCall, HasRequest, Good, Switch;
    BackFacts(c, i);
    BackCall(c, i, e);
    assert c == c.(input := NULL, eng := c.eng.(chainBack := true));
    assert After(c.eng, i, false) == c.eng && c.eng == c.eng.(chainBack := true);
    EngBack(c.eng, i, c.fl.respDone);
    PathFits(c, i);
    PipeKeeps(c, i, c, i - 1);
    BackEntered(c, i);
    BackWire(c, i);
    LessBack(c, i, c);
    BackGood(c, i, c);
  }

  lemma BackEntered(c: Cl, i: nat)
    requires EngInv(c.eng, i, c.fl.respDone) && ERROR <= i <= RESP && c.eng.chainBack
    ensures Entered(c.eng, ERROR) && Entered(c.eng, TRANS) && Entered(c.eng, FILE)
  {
    NotEnteredAfter(c.eng, i);
  }

  // ---------------------------------------------------------------- forward

  /** What the invariant says when one of these filters is reached from the file's side. */
  lemma OnwardFacts(c: Cl, i: nat)
    requires Inv(c, i) && ERROR <= i <= RESP && !c.eng.chainBack
    ensures Sized(c.eng) && HasRequest(c.eng) && Books(c.eng, i) && EngInv(c.eng, i, c.fl.respDone)
    ensures Entered(c.eng, FILE)
    ensures Entered(c.eng, i) ==> forall k :: 0 <= k <= SEND ==> Entered(c.eng, k)
    ensures !Entered(c.eng, i) ==> forall k :: i <= k < N ==> !Entered(c.eng, k)
    ensures forall k :: FILE <= k < i ==> Entered(c.eng, k)
    ensures Entered(c.eng, ERROR) ==> c.eng.mods[ERROR].done
    ensures Entered(c.eng, RESP) ==> c.eng.mods[RESP].done
  {
    hide Pipe, LogOk, GoodConf, Wire;
    NotEnteredAfter(c.eng, i);
  }

  /** A forward move whose response part is known to be kept. */
  lemma OnwardGood(c: Cl, i: nat, c1: Cl, declined: bool, r: Result)
    requires Inv(c, i) && ERROR <= i <= RESP && !c.eng.chainBack && c1.eng == After(c.eng, i, declined)
    requires r == Fwd || r == Result.Done
    requires declined ==> !Entered(c.eng, i) && r == Fwd
    requires r == Fwd ==> declined || c.eng.mods[i].done || i == TRANS
    requires r != Fwd ==> !c.eng.mods[i].done
    requires c1.conf == c.conf && c1.rx == c.rx && c1.req == c.req && c1.file.disk == c.file.disk
    requires (c1.fl.keepAlive ==> c.fl.keepAlive) && (c.fl.respDone ==> c1.fl.respDone)
    requires Wire(Moved(c1, i, r != Fwd), i + 1)
    ensures Good(c, i, Switch(c1, i, r))
  {
    hide EngInv, Pipe, Wire, LogOk, Less, GoodConf, HasRequest, Books, Good, Switch;
    OnwardFacts(c, i);
    PathFits(c, i);
    var c2 := Moved(c1, i, r != Fwd);
    EngForward(c.eng, i, c.fl.respDone, declined, r != Fwd, c1.fl.respDone);
    MovedEngine(c, i, c1, declined, r != Fwd);
    OnwardRequest(c, i, c2, ModAfter(c.eng, i, declined, r != Fwd));
    PipeKeeps(c, i, c2, i + 1);
    LessForward(c, i, c2, ModAfter(c.eng, i, declined, r != Fwd));
    ForwardGood(c, i, c1, r);
  }

  lemma OnwardRequest(c: Cl, i: nat, c2: Cl, m: Mod)
    requires MovedOn(c.eng, c2.eng, i, m) && HasRequest(c.eng) && i > REQ
    ensures HasRequest(c2.eng)
  {
  }

  // ------------------------------------------------------------------ error

  /** Declined, or passed again: the same state one filter further. */
  lemma ErrorPassWire(c: Cl, c2: Cl, m: Mod)
    requires Wire(c, ERROR) && HasRequest(c.eng) && MovedOn(c.eng, c2.eng, ERROR, m) && !c.eng.chainBack
    requires c2 == c.(eng := c2.eng) && !c2.eng.chainBack
    requires Entered(c.eng, ERROR) || !c.fl.respErr
    requires !Entered(c.eng, ERROR) ==> !Entered(c.eng, TRANS) && !Entered(c.eng, RESP)
    requires Entered(c.eng, FILE)
    requires Entered(c.eng, ERROR) ==> c.eng.mods[ERROR].done
    ensures Wire(c2, TRANS)
  {
    hide Clamp, Finished, HeadOk, IovBytes, Flat;
    SameBytes(c, c2, c.tx.iov);
    assert forall k :: 0 <= k < N && k != ERROR ==> c2.eng.mods[k] == c.eng.mods[k];
    assert Deref(c2, c.input) == Deref(c, c.input);
  }

  /** The error document: its text is the status message. */
  lemma ErrorTextWire(c: Cl, c2: Cl, m: Mod)
    requires Wire(c, ERROR) && HasRequest(c.eng) && MovedOn(c.eng, c2.eng, ERROR, m) && !c2.eng.chainBack
    requires c.fl.respErr && !Entered(c.eng, ERROR) && !Entered(c.eng, TRANS) && !Entered(c.eng, RESP)
    requires Entered(c.eng, FILE)
    requires c2 == c.(eng := c2.eng, resp := c2.resp, fl := c.fl.(respDone := true), input := Str(MsgMem, 0, |c.resp.msg|))
    requires c2.resp == c.resp.(contentType := TEXT_PLAIN, contentLength := Some(|c.resp.msg|))
    ensures Wire(c2, TRANS)
  {
    hide Clamp, Finished, HeadOk, IovBytes, Flat;
    assert forall k :: 0 <= k < N && k != ERROR ==> c2.eng.mods[k] == c.eng.mods[k];
  }

  lemma StepError(c: Cl, e: Env)
    requires Inv(c, ERROR)
    ensures Good(c, ERROR, Step(c, ERROR, e))
  {
    hide EngInv, Pipe, Wire, LogOk, Less, GoodConf, FilterCall, HasRequest, Good, Switch, Books;
    if c.eng.chainBack {
      StepBack(c, ERROR, e);
    } else {
      OnwardFacts(c, ERROR);
      if c.eng.mods[ERROR].done || !c.fl.respErr {
        ErrorPasses(c, e);
      } else {
        ErrorRuns(c, e);
      }
    }
  }

  lemma ErrorPasses(c: Cl, e: Env)
    requires Inv(c, ERROR) && !c.eng.chainBack && Sized(c.eng) && (c.eng.mods[ERROR].done || !c.fl.respErr)
    ensures Good(c, ERROR, Step(c, ERROR, e))
  {
    hide EngInv, Pipe, Wire, LogOk, Less, GoodConf, FilterCall, HasRequest, Good, Switch, Books, ErrorProcess, After;
    OnwardFacts(c, ERROR);
    InvFacts(c, ERROR);
    CallPasses(c, ERROR, e);
    var c1, declined := FilterCall(c, ERROR, e).0, !Entered(c.eng, ERROR);
    PassAfter(c.eng, ERROR);
    var c2, m := Moved(c1, ERROR, false), ModAfter(c.eng, ERROR, declined, false);
    MovedEngine(c, ERROR, c1, declined, false);
    assert c2 == c.(eng := c2.eng);
    ErrorPassWire(c, c2, m);
    OnwardGood(c, ERROR, c1, declined, Fwd);
  }

  lemma PassAfter(g: Engine, i: nat)
    requires i < N && Sized(g)
    ensures After(g, i, true) == After(g, i, !Entered(g, i))
    ensures Entered(g, i) ==> After(g, i, true) == g
  {
  }

  lemma ErrorRuns(c: Cl, e: Env)
    requires Inv(c, ERROR) && !c.eng.chainBack && Sized(c.eng) && !c.eng.mods[ERROR].done && c.fl.respErr
    ensures Good(c, ERROR, Step(c, ERROR, e))
  {
    hide EngInv, Pipe, Wire, LogOk, Less, GoodConf, FilterCall, HasRequest, Good, Switch, Books, After;
    OnwardFacts(c, ERROR);
    InvFacts(c, ERROR);
    CallRuns(c, ERROR, e);
    var c1 := FilterCall(c, ERROR, e).0;
    var c2, m := Moved(c1, ERROR, true), ModAfter(c.eng, ERROR, false, true);
    MovedEngine(c, ERROR, c1, false, true);
    ErrorTextWire(c, c2, m);
    OnwardGood(c, ERROR, c1, false, Result.Done);
  }

  // --------------------------------------------------------------- transfer

  lemma DerefPart(c: Cl, c2: Cl, s: Str, n: nat)
    requires InBounds(c, s) && n <= s.len && SameMemory(c, c2)
    ensures |Deref(c, s)| == s.len && Deref(c2, s.(len := n)) == Deref(c, s)[..n] && InBounds(c2, s.(len := n))
  {
  }

  /** The input b was given to the filter, and its first n bytes went on. */
  ghost predicate Transferred(c: Cl, c2: Cl, n: nat)
    requires Sized(c2.eng)
  {
    var L, b := Length(c), Deref(c, c.input);
    && n <= c.input.len && |b| == c.input.len
    && c2 == c.(eng := c2.eng, fed := c.fed + [b], tx := c.tx.(contLen := c2.tx.contLen), input := c.input.(len := n))
    && Clamp(L, c2.fed) == Clamp(L, c.fed) + b[..n]
    && (c2.eng.mods[TRANS].done <==> Finished(L, c2.fed))
    && (!c2.eng.mods[TRANS].done ==> c2.tx.contLen + |Clamp(L, c2.fed)| == L)
  }

  lemma TransReads(c: Cl, c2: Cl)
    requires Sized(c.eng) && Sized(c2.eng) && Reads(c, TRANS) && c2.file == c.file
    requires c2.eng.mods[FILE] == c.eng.mods[FILE] && c2.fed == c.fed + [Deref(c, c.input)]
    requires |Deref(c, c.input)| == c.input.len && !c.eng.chainBack
    ensures Reads(c2, RESP)
  {
    hide Deref;
    FlatAppend(c.fed, Deref(c, c.input));
    if c.file.state == 2 && c.eng.mods[FILE].done {
      assert c2.fed[..|c2.fed| - 1] == c.fed;
    }
  }

  lemma TransSending(c: Cl, c2: Cl, n: nat)
    requires Sized(c.eng) && Sized(c2.eng) && Sending(c, TRANS) && Transferred(c, c2, n)
    requires Deref(c2, c2.input) == Deref(c, c.input)[..n]
    requires c2.eng.mods[RESP] == c.eng.mods[RESP] && (!c.eng.mods[RESP].done ==> c.fed == [])
    ensures Sending(c2, RESP)
  {
    hide HeadOk, Finished, Deref, Clamp;
    var part := Deref(c, c.input)[..n];
    if c.eng.mods[RESP].done {
      assert c.tx.sent == c.resp.head + Clamp(Length(c), c.fed) by { assert c.tx.sent + [] + [] == c.tx.sent; }
      assert c.tx.sent + [] + part == c.resp.head + (Clamp(Length(c), c.fed) + part);
    } else {
      ClampNothing(Length(c));
    }
  }

  lemma ClampNothing(L: nat)
    ensures Clamp(L, []) == []
  {
  }

  lemma TransWire(c: Cl, c2: Cl, m: Mod, n: nat)
    requires Wire(c, TRANS) && HasRequest(c.eng) && MovedOn(c.eng, c2.eng, TRANS, m)
    requires !c2.eng.chainBack && Transferred(c, c2, n) && !c.eng.chainBack
    requires Entered(c.eng, ERROR) && Entered(c.eng, FILE) && (Entered(c.eng, TRANS) <==> c.eng.mods[RESP].done)
    requires c.eng.mods[ERROR].done && (Entered(c.eng, RESP) ==> Entered(c.eng, TRANS))
    ensures Wire(c2, RESP)
  {
    hide Transferring, Reads, Whole, Sending, Clamp, Finished, Deref;
    assert forall k :: 0 <= k < N && k != TRANS ==> c2.eng.mods[k] == c.eng.mods[k];
    assert RESP != TRANS && FILE != TRANS;
    DerefPart(c, c2, c.input, n);
    TransReads(c, c2);
    TransSending(c, c2, n);
    TransWhole(c, c2, n);
    assert Transferring(c2) by { TransTransferring(c, c2, n); }
  }

  lemma TransWhole(c: Cl, c2: Cl, n: nat)
    requires Sized(c.eng) && Sized(c2.eng) && Whole(c, TRANS) && Transferred(c, c2, n)
    requires Entered(c.eng, TRANS) || c.fed == []
    requires c2.eng.mods[RESP] == c.eng.mods[RESP] && (Entered(c.eng, RESP) ==> Entered(c.eng, TRANS))
    requires Entered(c2.eng, TRANS)
    ensures Whole(c2, RESP)
  {
    hide Clamp, Finished, Deref;
    FlatAppend(c.fed, Deref(c, c.input));
  }

  lemma TransTransferring(c: Cl, c2: Cl, n: nat)
    requires Sized(c2.eng) && Transferred(c, c2, n)
    ensures Transferring(c2)
  {
    hide Clamp, Finished, Deref;
  }

  /** What the process function lets through is what the clamp lets through. */
  lemma TransAmount(L: nat, fed: seq<bytes>, b: bytes, contLen: nat)
    requires !Finished(L, fed) && contLen + |Clamp(L, fed)| == L
    ensures var n := if |b| < contLen then |b| else contLen;
            && Clamp(L, fed + [b]) == Clamp(L, fed) + b[..n]
            && (contLen - n == 0 <==> Finished(L, fed + [b]))
            && contLen - n + |Clamp(L, fed + [b])| == L
  {
    ClampStep(L, fed, b);
    hide Clamp;
  }

  lemma TransFacts(c: Cl)
    requires Inv(c, TRANS) && !c.eng.chainBack
    ensures Sized(c.eng) && HasRequest(c.eng) && c.output == NULL && InBounds(c, c.input) && Wire(c, TRANS)
    ensures c.resp.contentLength.Some?
    ensures Entered(c.eng, ERROR) && Entered(c.eng, FILE) && (Entered(c.eng, TRANS) <==> c.eng.mods[RESP].done)
    ensures c.eng.mods[ERROR].done && (!Entered(c.eng, TRANS) ==> c.fed == [])
    ensures Entered(c.eng, RESP) ==> Entered(c.eng, TRANS)
    ensures c.eng.mods[TRANS].done ==> Finished(Length(c), c.fed)
    ensures Entered(c.eng, TRANS) && !c.eng.mods[TRANS].done ==>
              c.tx.contLen + |Clamp(Length(c), c.fed)| == Length(c) && !Finished(Length(c), c.fed)
  {
    hide Pipe, LogOk, GoodConf, Reads, Sending, Clamp, Finished;
    OnwardFacts(c, TRANS);
    assert Entered(c.eng, RESP) <==> Entered(c.eng, TRANS);
  }

  /** Everything passes once the content length was used up. */
  lemma TransPasses(c: Cl, e: Env)
    requires Inv(c, TRANS) && !c.eng.chainBack && Sized(c.eng) && c.eng.mods[TRANS].done
    ensures Good(c, TRANS, Step(c, TRANS, e))
  {
    hide EngInv, Pipe, Wire, LogOk, Less, GoodConf, FilterCall, HasRequest, Good, Switch, Clamp, Finished, Deref, After,
         InBounds;
    TransFacts(c);
    CallPasses(c, TRANS, e);
    var c1 := FilterCall(c, TRANS, e).0;
    PassAfter(c.eng, TRANS);
    assert c.(eng := After(c.eng, TRANS, true)) == c;
    var c2, m := Moved(c1, TRANS, false), ModAfter(c.eng, TRANS, false, false);
    MovedEngine(c, TRANS, c1, false, false);
    var b := Deref(c, c.input);
    DerefPart(c, c2, c.input, c.input.len);
    assert b[..c.input.len] == b && c.input.(len := c.input.len) == c.input;
    FinishedStays(Length(c), c.fed, b);
    assert Transferred(c, c2, c.input.len);
    TransWire(c, c2, m, c.input.len);
    OnwardGood(c, TRANS, c1, false, Fwd);
  }

  /** The client as the process function sees it. */
  function TransStart(c: Cl): (c0: Cl)
    requires Sized(c.eng)
    ensures Sized(c0.eng)
  {
    var contLen := if Entered(c.eng, TRANS) then c.tx.contLen else Length(c);
    c.(eng := After(c.eng, TRANS, false), tx := c.tx.(contLen := contLen), fed := c.fed + [Deref(c, c.input)])
  }

  lemma TransCall(c: Cl, e: Env)
    requires Sized(c.eng) && !c.eng.mods[TRANS].done && !c.eng.chainBack && c.resp.contentLength.Some?
    ensures FilterCall(c, TRANS, e) == TransProcess(TransStart(c))
  {
    hide Deref, TransProcess;
    CallRuns(c, TRANS, e);
    var c0 := if c.eng.mods[TRANS].isOpen then c else Open(c, TRANS).0;
    SameRef(c, c0.(eng := After(c.eng, TRANS, false)), c.input);
    assert Feed(c0.(eng := After(c.eng, TRANS, false)), TRANS) == TransStart(c);
  }

  lemma TransLets(c: Cl)
    requires Sized(c.eng) && !c.eng.mods[TRANS].done && !c.eng.chainBack && InBounds(c, c.input) && c.output == NULL
    requires !Entered(c.eng, TRANS) ==> c.fed == []
    requires Entered(c.eng, TRANS) ==>
               c.tx.contLen + |Clamp(Length(c), c.fed)| == Length(c) && !Finished(Length(c), c.fed)
    ensures var (c1, r) := TransProcess(TransStart(c));
            && (r == Fwd || r == Result.Done) && c1.eng == After(c.eng, TRANS, false)
            && c1 == c.(eng := c1.eng, fed := c1.fed, tx := c1.tx, output := c1.output)
            && c1.output.len <= c.input.len && Transferred(c, Moved(c1, TRANS, r != Fwd), c1.output.len)
  {
    hide Clamp, Finished, Deref;
    DerefPart(c, c, c.input, c.input.len);
    assert !Finished(Length(c), c.fed) && TransStart(c).tx.contLen + |Clamp(Length(c), c.fed)| == Length(c) by {
      ClampNothing(Length(c));
      if c.fed == [] { FinishedNothing(Length(c)); }
    }
    TransAmount(Length(c), c.fed, Deref(c, c.input), TransStart(c).tx.contLen);
  }

  lemma FinishedNothing(L: nat)
    ensures !Finished(L, [])
  {
  }

  lemma TransRuns(c: Cl, e: Env)
    requires Inv(c, TRANS) && !c.eng.chainBack && Sized(c.eng) && !c.eng.mods[TRANS].done
    ensures Good(c, TRANS, Step(c, TRANS, e))
  {
    hide EngInv, Pipe, Wire, LogOk, Less, GoodConf, FilterCall, HasRequest, Good, Switch, Clamp, Finished, Deref, After,
         InBounds, TransProcess, TransStart, Transferred;
    TransFacts(c);
    TransCall(c, e);
    TransLets(c);
    var (c1, r) := FilterCall(c, TRANS, e);
    var c2, m := Moved(c1, TRANS, r != Fwd), ModAfter(c.eng, TRANS, false, r != Fwd);
    MovedEngine(c, TRANS, c1, false, r != Fwd);
    TransWire(c, c2, m, c1.output.len);
    OnwardGood(c, TRANS, c1, false, r);
  }

  lemma StepTrans(c: Cl, e: Env)
    requires Inv(c, TRANS)
    ensures Good(c, TRANS, Step(c, TRANS, e))
  {
    hide EngInv, Pipe, Wire, LogOk, Less, GoodConf, FilterCall, HasRequest, Good, Switch;
    InvFacts(c, TRANS);
    if c.eng.chainBack {
      StepBack(c, TRANS, e);
    } else if c.eng.mods[TRANS].done {
      TransPasses(c, e);
    } else {
      TransRuns(c, e);
    }
  }

  // --------------------------------------------------------------- response

  lemma RespFacts(c: Cl)
    requires Inv(c, RESP) && !c.eng.chainBack
    ensures Sized(c.eng) && HasRequest(c.eng) && c.output == NULL && InBounds(c, c.input) && Wire(c, RESP)
    ensures c.resp.contentLength.Some? && c.resp.code < 1000 && GoodConf(c.conf)
    ensures Entered(c.eng, ERROR) && c.eng.mods[ERROR].done && Entered(c.eng, FILE) && Entered(c.eng, TRANS)
    ensures Entered(c.eng, RESP) ==> c.eng.mods[RESP].done
    ensures Sending(c, RESP) && c.tx.iov == []
    ensures !c.eng.mods[RESP].done ==> c.resp.head == []
  {
    hide Pipe, LogOk, GoodConf, Reads, Transferring, HeadOk, Clamp;
    OnwardFacts(c, RESP);
  }

  /** Passing on to the send filter. */
  lemma RespPassWire(c: Cl)
    requires Wire(c, RESP) && HasRequest(c.eng) && !c.eng.chainBack && c.eng.mods[RESP].done
    requires Entered(c.eng, ERROR) && Entered(c.eng, FILE)
    ensures Wire(c, SEND)
  {
    hide Transferring, HeadOk, Clamp, Deref, IovBytes;
  }

  lemma RespPasses(c: Cl, e: Env)
    requires Inv(c, RESP) && !c.eng.chainBack && Sized(c.eng) && c.eng.mods[RESP].done
    ensures Good(c, RESP, Step(c, RESP, e))
  {
    hide EngInv, Pipe, Wire, LogOk, Less, GoodConf, FilterCall, HasRequest, Good, Switch, Sending, InBounds, After;
    RespFacts(c);
    CallPasses(c, RESP, e);
    PassAfter(c.eng, RESP);
    assert c.(eng := After(c.eng, RESP, true)) == c;
    var c1 := FilterCall(c, RESP, e).0;
    assert Moved(c1, RESP, false) == c by { assert c.eng.(chainBack := false) == c.eng; }
    RespPassWire(c);
    OnwardGood(c, RESP, c1, false, Fwd);
  }

  /** The head was built, and goes out together with the first part of the body. */
  ghost predicate HeadBuilt(c: Cl, c2: Cl)
  {
    && c2 == c.(eng := c2.eng, resp := c.resp.(head := c2.resp.head, info := c2.resp.info), tx := c.tx.(iov := c2.tx.iov),
                fl := c.fl.(respDone := c.fl.respDone || c.fl.headMethod), input := NULL)
    && c2.resp.info.code < 1000 && c.conf.respBuf >= 2 && W.HeadText(c.conf.respBuf, c2.resp.info) == Some(c2.resp.head)
    && c2.resp.info.contentLength == c.resp.contentLength && c2.resp.info.msg == c.resp.msg
    && c2.tx.iov == [Str(HeadMem, 0, |c2.resp.head|), if c.fl.headMethod then NULL else c.input]
  }

  lemma RespBuilds(c: Cl)
    requires Sized(c.eng) && c.output == NULL && c.conf.respBuf >= 2
    ensures var (c1, r) := RespProcess(c.(eng := After(c.eng, RESP, false)));
            && c1.eng == After(c.eng, RESP, false) && (r == Fin || r == Result.Done)
            && (r == Result.Done ==>
                  && HeadBuilt(c, Moved(c1, RESP, true)) && c1.fl.respDone == (c.fl.respDone || c.fl.headMethod)
                  && c1.conf == c.conf && c1.rx == c.rx && c1.req == c.req && c1.file == c.file
                  && c1.fl.keepAlive == c.fl.keepAlive)
            && (r == Fin ==> c1 == c.(eng := c1.eng))
  {
    hide W.HeadText, After, Deref;
  }

  /** The new vector refers to the head and the input. */
  lemma HeadVector(c: Cl, c2: Cl)
    requires HeadBuilt(c, c2) && InBounds(c, c.input) && c.resp.head == [] && c.conf.respBuf >= 2
    ensures AllInBounds(c2, c2.tx.iov) && Total(c2.tx.iov) > 0
    ensures IovBytes(c2, c2.tx.iov) == c2.resp.head + if c.fl.headMethod then [] else Deref(c, c.input)
  {
    hide W.HeadText;
    var iov := c2.tx.iov;
    assert Deref(c2, iov[0]) == c2.resp.head;
    assert Deref(c2, iov[1]) == if c.fl.headMethod then [] else Deref(c, c.input);
    assert iov[1..] == [iov[1]];
    assert IovBytes(c2, [iov[1]]) == Deref(c2, iov[1]) + [] == Deref(c2, iov[1]) by { assert [iov[1]][1..] == []; }
    assert Total(iov) == iov[0].len + Total(iov[1..]);
  }

  lemma RespSending(c: Cl, c2: Cl)
    requires Sized(c.eng) && Sized(c2.eng) && Sending(c, RESP) && HeadBuilt(c, c2) && InBounds(c, c.input)
    requires !c.eng.mods[RESP].done && c2.eng.mods[RESP].done && c.conf.respBuf >= 2
    requires c.resp.contentLength.Some?
    ensures Sending(c2, SEND)
  {
    hide W.HeadText, Clamp, AllInBounds, Total, IovBytes;
    HeadVector(c, c2);
    var iov := IovBytes(c2, c2.tx.iov);
    assert [] + iov + [] == iov;
    assert Body(c2.fl.headMethod, Length(c2), c2.fed) == if c.fl.headMethod then [] else Clamp(Length(c), c.fed);
    assert Deref(c2, c2.input) == [];
  }

  lemma RespProducing(c: Cl, c2: Cl, m: Mod)
    requires Sized(c.eng) && Producing(c, RESP) && HasRequest(c.eng) && MovedOn(c.eng, c2.eng, RESP, m)
    requires Entered(c.eng, ERROR) && c.eng.mods[ERROR].done && Entered(c.eng, FILE)
    requires !c2.eng.chainBack && HeadBuilt(c, c2)
    ensures Producing(c2, SEND)
  {
    hide W.HeadText;
  }

  lemma RespOther(c: Cl, c2: Cl, m: Mod)
    requires Sized(c.eng) && Transferring(c) && Reads(c, RESP) && MovedOn(c.eng, c2.eng, RESP, m)
    requires HeadBuilt(c, c2)
    ensures Transferring(c2) && Reads(c2, SEND)
  {
    hide W.HeadText, Clamp, Finished;
  }

  lemma RespWire(c: Cl, c2: Cl, m: Mod)
    requires Wire(c, RESP) && HasRequest(c.eng) && MovedOn(c.eng, c2.eng, RESP, m) && m.done
    requires Entered(c.eng, ERROR) && c.eng.mods[ERROR].done && Entered(c.eng, FILE)
    requires !c.eng.mods[RESP].done && c.conf.respBuf >= 2 && c.resp.contentLength.Some? && c.output == NULL
    requires !c2.eng.chainBack && HeadBuilt(c, c2)
    ensures Wire(c2, SEND)
  {
    hide Producing, Transferring, Reads, Sending, W.HeadText;
    RespSending(c, c2);
    RespProducing(c, c2, m);
    RespOther(c, c2, m);
  }

  lemma RespFin(c: Cl, c1: Cl)
    requires Inv(c, RESP) && !c.eng.chainBack && Sized(c.eng) && !Entered(c.eng, RESP)
    requires c1 == c.(eng := After(c.eng, RESP, false))
    ensures Good(c, RESP, Switch(c1, RESP, Fin))
  {
    hide EngInv, Pipe, LogOk, GoodConf, Good, Switch, Producing, Reads, Transferring, HeadOk;
    RespFacts(c);
    assert SentPrefix(c1);
    hide Wire, SentPrefix;
    CloseGood(c, RESP, c1, Fin, false);
  }

  lemma RespRuns(c: Cl, e: Env)
    requires Inv(c, RESP) && !c.eng.chainBack && Sized(c.eng) && !c.eng.mods[RESP].done
    ensures Good(c, RESP, Step(c, RESP, e))
  {
    hide EngInv, Pipe, Wire, LogOk, Less, GoodConf, FilterCall, HasRequest, Good, Switch, Sending, InBounds, After,
         RespProcess, HeadBuilt;
    RespFacts(c);
    CallRuns(c, RESP, e);
    assert c.conf.respBuf >= 2 by { ConfFacts(c.conf); }
    RespBuilds(c);
    var (c1, r) := FilterCall(c, RESP, e);
    if r == Fin {
      RespFin(c, c1);
    } else {
      var c2, m := Moved(c1, RESP, true), ModAfter(c.eng, RESP, false, true);
      MovedEngine(c, RESP, c1, false, true);
      RespWire(c, c2, m);
      OnwardGood(c, RESP, c1, false, Result.Done);
    }
  }

  lemma ConfFacts(f: Conf)
    requires GoodConf(f)
    ensures f.respBuf >= 2 && f.fileBuf > 0 && f.recvBuf < W16
  {
  }

  lemma StepResp(c: Cl, e: Env)
    requires Inv(c, RESP)
    ensures Good(c, RESP, Step(c, RESP, e))
  {
    hide EngInv, Pipe, Wire, LogOk, Less, GoodConf, FilterCall, HasRequest, Good, Switch;
    InvFacts(c, RESP);
    if c.eng.chainBack {
      StepBack(c, RESP, e);
    } else if c.eng.mods[RESP].done {
      RespPasses(c, e);
    } else {
      RespRuns(c, e);
    }
  }
}

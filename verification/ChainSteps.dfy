/** Every filter keeps the invariant: one lemma for each position of the cursor. */
module ChainSteps {
  import opened Bytes
  import opened Chain
  import opened ChainEngine
  import opened ChainData
  import opened ChainInv
  import R = Request

  // ------------------------------------------------------------ filter calls

  /** A filter that is opened now or is open already: its process function runs. */
  lemma CallRuns(c: Cl, i: nat, e: Env)
    requires i < N && Sized(c.eng) && !c.eng.mods[i].done
    requires c.eng.mods[i].isOpen || Open(c, i).1 == Fwd
    ensures var c0 := if c.eng.mods[i].isOpen then c else Open(c, i).0;
            FilterCall(c, i, e) == Process(Feed(c0.(eng := After(c.eng, i, false)), i), i, e)
  {
    hide Open, Process, Opening, Deref;
    if c.eng.mods[i].isOpen {
      assert c.(eng := After(c.eng, i, false)) == c;
    } else {
      var c0 := Open(c, i).0;
      assert OpenCall(c, i) == c0.(eng := Opening(c.eng, i, false));
      assert Opening(c.eng, i, false).mods[i] == Mod(true, false) by { OpeningMod(c.eng, i, false); }
      assert Feed(OpenCall(c, i), i).eng == Opening(c.eng, i, false);
    }
  }

  lemma OpeningMod(g: Engine, i: nat, declined: bool)
    requires i < N && Sized(g)
    ensures Opening(g, i, declined).mods == g.mods[i := if declined then Mod(false, true) else Mod(true, false)]
    ensures Opening(g, i, declined).chainBack == g.chainBack
  {
  }

  /** A filter that declines, now or earlier, or is done: its input passes by. */
  lemma CallPasses(c: Cl, i: nat, e: Env)
    requires i < N && Sized(c.eng)
    requires c.eng.mods[i].done || (!c.eng.mods[i].isOpen && (Open(c, i).1 == Skip || Open(c, i).1 == Err))
    ensures var c0 := if Entered(c.eng, i) then c else Open(c, i).0.(output := Open(c, i).0.input);
            var c1 := Feed(c0.(eng := After(c.eng, i, true)), i);
            FilterCall(c, i, e) == (c1.(output := c1.input), if c.eng.chainBack then Back else Fwd)
  {
    hide Open, Process, Opening, Deref;
    if Entered(c.eng, i) {
      assert c.(eng := After(c.eng, i, true)) == c;
    } else {
      OpeningMod(c.eng, i, true);
      var c0 := Open(c, i).0;
      assert OpenCall(c, i) == c0.(output := c0.input, eng := Opening(c.eng, i, true));
    }
  }

  // ---------------------------------------------------------------- outcomes

  /** A state from which the connection can be ended properly. */
  ghost predicate Closable(c: Cl)
  {
    && Sized(c.eng)
    && (forall k :: 0 <= k < N ==> c.eng.opens[k] == c.eng.closes[k] + if c.eng.mods[k].isOpen then 1 else 0)
    && (c.rx.timer ==> c.eng.mods[RECV].isOpen) && (c.tx.timer ==> c.eng.mods[SEND].isOpen)
    && LogOk(c.conf, c.eng.log)
    && Served(c)
    && (c.conf.maxKeepAlive > 0 ==> |c.eng.log| <= c.conf.maxKeepAlive)
    && SentPrefix(c)
  }

  lemma CloseEnds(c: Cl)
    requires Closable(c)
    ensures Ended(CloseMods(c))
  {
    hide LogOk, Handled, R.AreRequests, Flat, EndsRejected, SentPrefix, CloseMods;
    ClosedFields(c);
  }

  /** What closing changes, and what it leaves alone. */
  lemma ClosedFields(c: Cl)
    requires Sized(c.eng)
    ensures var c', m := CloseMods(c), c.eng.mods;
            && c'.eng == c.eng.(closes := c'.eng.closes) && c'.conf == c.conf && c'.rx.received == c.rx.received
            && (forall k :: 0 <= k < N ==> c'.eng.closes[k] == c.eng.closes[k] + if m[k].isOpen then 1 else 0)
            && c'.rx.timer == (c.rx.timer && !m[RECV].isOpen) && c'.tx.timer == (c.tx.timer && !m[SEND].isOpen)
            && c'.tx.sent == c.tx.sent && c'.resp == c.resp && c'.fl == c.fl && c'.fed == c.fed
            && (SentPrefix(c') <==> SentPrefix(c))
  {
    hide Clamp;
  }

  /** Facts that are wanted where the invariant itself is kept folded. */
  lemma InvFacts(c: Cl, i: nat)
    requires Inv(c, i)
    ensures i < N && Sized(c.eng) && c.output == NULL
    ensures !c.eng.mods[RECV].done && !c.eng.mods[LOG].done && c.eng.mods[REQ].done == HasRequest(c.eng)
    ensures HasRequest(c.eng) <==> i >= INDEX
    ensures !HasRequest(c.eng) ==> !c.fl.respDone
  {
    hide Pipe, LogOk, GoodConf;
  }

  /** In every state of the invariant the bytes sent so far are a prefix of the response. */
  lemma InvSentPrefix(c: Cl, i: nat)
    requires Sized(c.eng) && HasRequest(c.eng) && Sending(c, i)
    ensures SentPrefix(c)
  {
    hide HeadOk, Clamp, IovBytes, Deref;
    if c.eng.mods[RESP].done {
      var rest := IovBytes(c, c.tx.iov) + if i == RESP || i == SEND then Deref(c, c.input) else [];
      assert c.resp.head + Body(c.fl.headMethod, Length(c), c.fed) == c.tx.sent + rest;
    }
  }

  /** The state after a forward move. */
  function Moved(c1: Cl, i: nat, done: bool): (c2: Cl)
    requires i < N && Sized(c1.eng)
    ensures Sized(c2.eng)
  {
    (if done then MarkDone(c1, i) else c1).(
      input := c1.output, output := NULL,
      eng := (if done then MarkDone(c1, i) else c1).eng.(chainBack := false))
  }

  lemma ForwardGood(c: Cl, i: nat, c1: Cl, r: Result)
    requires Inv(c, i) && i < LOG && Sized(c1.eng) && (r == Fwd || r == Result.Done || r == Skip)
    requires var c2 := Moved(c1, i, r != Fwd);
             && EngInv(c2.eng, i + 1, c2.fl.respDone)
             && c2.conf == c.conf && c2.eng.log == c.eng.log
             && Pipe(c2, i + 1) && Wire(c2, i + 1) && Less(c2, i + 1, c, i)
    ensures Good(c, i, Switch(c1, i, r))
  {
    hide EngInv, Pipe, Wire, Less, LogOk, GoodConf;
    assert Switch(c1, i, r) == Go(Moved(c1, i, r != Fwd), i + 1);
  }

  lemma BackGood(c: Cl, i: nat, c1: Cl)
    requires Inv(c, i) && 0 < i && Sized(c1.eng)
    requires var c2 := c1.(input := NULL, eng := c1.eng.(chainBack := true));
             && EngInv(c2.eng, i - 1, c2.fl.respDone)
             && c2.conf == c.conf && c2.eng.log == c.eng.log
             && Pipe(c2, i - 1) && Wire(c2, i - 1) && Less(c2, i - 1, c, i)
    ensures Good(c, i, Switch(c1, i, Back))
  {
    hide EngInv, Pipe, Wire, Less, LogOk, GoodConf;
  }

  lemma WaitGood(c: Cl, i: nat, c1: Cl)
    requires Inv(c, i) && Sized(c1.eng)
    requires EngInv(c1.eng, i, c1.fl.respDone) && c1.conf == c.conf && c1.eng.log == c.eng.log
    requires Pipe(c1, i) && Wire(c1, i)
    ensures Good(c, i, Switch(c1, i, Async))
  {
    hide EngInv, Pipe, Wire, Less, LogOk, GoodConf;
  }

  /** The engine's books when a filter was called, or passed, and the connection is closed. */
  lemma CloseBooks(g: Engine, i: nat, declined: bool, d: bool)
    requires EngInv(g, i, d)
    ensures var g1 := After(g, i, declined);
            && g1.log == g.log
            && forall k :: 0 <= k < N ==> g1.opens[k] == g1.closes[k] + if g1.mods[k].isOpen then 1 else 0
  {
    hide Responding, Reading;
  }

  lemma PipeNow(c: Cl, i: nat)
    requires Pipe(c, i)
    ensures R.AreRequests(Handled(c.eng.log)) && Prefix(Flat(Handled(c.eng.log)), c.rx.received)
    ensures c.conf.maxKeepAlive > 0 ==> |c.eng.log| < c.conf.maxKeepAlive
  {
    hide R.AreRequests, Handled, Taken, Attempted, Flat;
  }

  /** The parts of the invariant that hold until the connection is closed. */
  lemma CloseGood(c: Cl, i: nat, c1: Cl, r: Result, declined: bool)
    requires Inv(c, i) && (r == Err || r == Fin)
    requires c1.eng == After(c.eng, i, declined) && c1.conf == c.conf && c1.rx.received == c.rx.received
    requires c1.rx.timer ==> c1.eng.mods[RECV].isOpen
    requires c1.tx.timer ==> c1.eng.mods[SEND].isOpen
    requires SentPrefix(c1)
    ensures Good(c, i, Switch(c1, i, r))
  {
    hide EngInv, Pipe, Wire, LogOk, GoodConf, CloseMods, Ended, SentPrefix, R.AreRequests, Handled, Flat, After, EndsRejected;
    CloseBooks(c.eng, i, declined, c.fl.respDone);
    PipeNow(c, i);
    CloseEnds(c1);
  }
}

/** The response to every request of every run is the one that the request and the answers to its
    calls call for. */
module ChainAnswerRun {
  import opened Bytes
  import opened Chain
  import opened ChainEngine
  import opened ChainInv
  import opened ChainSteps
  import opened ChainRun
  import opened ChainAnswer
  import opened ChainAnswerSteps
  import ChainLog
  import ChainRespond
  import R = Request
  import T = RequestText

  // ------------------------------------------------------- the calls of a run

  /** The calls of the finished requests, in order, and those of the current one. */
  datatype History = History(past: seq<Calls>, now: Calls)

  /** The round finishes a request. */
  predicate Finishes(c: Cl, i: nat, e: Env)
    requires i < N && Sized(c.eng)
  {
    var o := Step(c, i, e);
    !o.Panic? && |Client(o).eng.log| > |c.eng.log|
  }

  function Next(h: History, c: Cl, i: nat, e: Env): History
    requires i < N && Sized(c.eng)
  {
    var a := Note(h.now, c, i, e);
    if Finishes(c, i, e) then History(h.past + [a], NO_CALLS) else h.(now := a)
  }

  function Made(conf: Conf, es: seq<Env>): History
    decreases |es|
  {
    if es == [] then History([], NO_CALLS)
    else
      var before := es[..|es| - 1];
      var h, o := Made(conf, before), Run(conf, before);
      if (o.Go? || o.Wait?) && o.i < N && Sized(o.c.eng) then Next(h, o.c, o.i, es[|es| - 1]) else h
  }

  // -------------------------------------------------------------- a response

  /** The request's bytes ask for q; there are none when what arrived was rejected as no request. */
  ghost predicate Means(norm: bytes -> bytes, request: bytes, q: T.Ask)
  {
    if request == [] then q == T.Rejected else exists t :: T.IsRequest(request, t) && q == T.Meaning(norm, t)
  }

  /** The calls that are made for a request. */
  predicate Calling(conf: Conf, q: T.Ask, a: Calls)
  {
    && (a.index.Some? <==> q.Ask? && EndsWithSlash(q.path))
    && (a.dir.Some? <==> IsDir(conf, q, a))
    && (a.open.Some? <==> IsFile(conf, q, a))
    && a.name == (if IsFile(conf, q, a) then conf.www + Target(conf, q, a) + [0] else [])
    && (a.info.Some? <==> a.open.Some? && a.open.value.Opened?)
    && !Awaited(a)
  }

  /** The file's contents are the body. */
  predicate Serves(conf: Conf, q: T.Ask, a: Calls)
  {
    IsFile(conf, q, a) && Status(conf, q, a) == 200 && q.verb == Ascii("GET")
  }

  /** The response that request and answers call for. */
  predicate Answers(conf: Conf, q: T.Ask, a: Calls, x: Exchange)
  {
    var status := Status(conf, q, a);
    && Calling(conf, q, a)
    && x.info == HeadFor(conf, q, a) && x.length == ContentLength(status, a)
    && x.failed == (status != 200) && x.listing == Html(a)
    && x.headMethod == (IsFile(conf, q, a) && q.verb == Ascii("HEAD"))
    && x.file == (if Serves(conf, q, a) && a.open.Some? && a.open.value.Opened? then Some(a.open.value.content) else None)
  }

  ghost predicate Answered(conf: Conf, x: Exchange, a: Calls)
  {
    exists q :: Means(conf.normalize, x.request, q) && Answers(conf, q, a, x)
  }

  // ------------------------------------------------------- at the last filter

  lemma LogAnswers(c: Cl, a: Calls)
    requires Inv(c, LOG) && Says(c, a) && Sized(c.eng)
    ensures Answered(c.conf, ThisExchange(c), a)
  {
    hide Inv, Says, Means, Answers, ThisExchange;
    ChainLog.LogFacts(c);
    LogEntered(c);
    LengthKnown(c);
    SaysAnswers(c, a);
    LogMeans(c);
    assert Means(c.conf.normalize, ThisExchange(c).request, Asked(c));
  }

  lemma LogEntered(c: Cl)
    requires Inv(c, LOG) && Sized(c.eng)
    ensures HasRequest(c.eng) && forall k :: 0 <= k < LOG ==> Entered(c.eng, k)
    ensures c.eng.mods[ERROR].done && c.eng.mods[FILE].done && c.eng.mods[RESP].done
  {
    ChainLog.LogFacts(c);
    InvParts(c, LOG);
    hide Inv, Pipe, GoodConf;
  }

  lemma LengthKnown(c: Cl)
    requires Inv(c, LOG) && Sized(c.eng) && c.eng.mods[ERROR].done && HasRequest(c.eng)
    ensures c.resp.contentLength.Some?
  {
    hide EngInv, Pipe, LogOk, GoodConf, Transferring, Reads, Whole, Sending;
  }

  lemma SaysAnswers(c: Cl, a: Calls)
    requires Says(c, a) && Sized(c.eng) && HasRequest(c.eng) && (forall k :: 0 <= k < LOG ==> Entered(c.eng, k))
    requires c.eng.mods[ERROR].done && c.eng.mods[FILE].done && c.eng.mods[RESP].done && c.resp.contentLength.Some?
    ensures Answers(c.conf, Asked(c), a, ThisExchange(c))
  {
    hide R.Parse, T.Taken, Message, Location, EndsWithSlash, Target;
    assert Entered(c.eng, INDEX) && Entered(c.eng, AUTO) && Entered(c.eng, FILE);
  }

  lemma LogMeans(c: Cl)
    requires Inv(c, LOG) && Sized(c.eng) && HasRequest(c.eng)
    ensures Means(c.conf.normalize, ThisExchange(c).request, Asked(c))
  {
    hide Inv, EngInv, Pipe, GoodConf, HasRequest, R.Parse, R.RequestEnd, T.IsRequest, T.Meaning, T.Taken;
    InvParts(c, LOG);
    ChainLog.GoodFacts(c.conf);
    ChainLog.RequestTaken(c, LOG);
    var n := c.req.full.len;
    assert ThisExchange(c).request == c.rx.buf[..n];
    assert |c.rx.buf| < W16 by { Room(c, LOG); }
    if R.RequestEnd(c.rx.buf).Some? {
      var t := T.RequestHasText(c.rx.buf[..n]);
      T.FrontMeaning(c.conf.normalize, c.rx.buf, t);
    } else {
      T.FrontMeaning(c.conf.normalize, c.rx.buf, T.Text([], [], [], false, []));
    }
  }

  lemma Room(c: Cl, i: nat)
    requires Pipe(c, i) && GoodConf(c.conf)
    ensures |c.rx.buf| < W16
  {
    hide Handled, R.AreRequests, Flat, Taken, Attempted;
  }

  // ---------------------------------------------------------------- all steps

  /** Every step before the last filter. */
  lemma StepSays(c: Cl, i: nat, e: Env, a: Calls)
    requires Inv(c, i) && i < LOG && Says(c, a)
    ensures Sized(c.eng) && NextSays(Step(c, i, e), Note(a, c, i, e))
  {
    hide Inv, Says, Step, Note, NextSays;
    InvFacts(c, i);
    if i == REQ {
      ReqStepSays(c, e, a);
    } else if i == INDEX || i == AUTO {
      EarlyStepSays(c, i, e, a);
    } else if i == FILE {
      FileStepSaysNext(c, e, a);
    } else if ERROR <= i <= RESP && c.eng.chainBack {
      BackStepSays(c, i, e, a);
    } else if i == ERROR {
      ErrorStepSays(c, e, a);
    } else if i == RESP {
      RespStepSays(c, e, a);
    } else {
      if i == TRANS { ChainRespond.TransFacts(c); }
      PlainSays(c, i, e, a);
    }
  }

  /** Before the last filter no request is finished. */
  lemma SameLog(c: Cl, i: nat, e: Env)
    requires Inv(c, i) && i < LOG && Sized(c.eng)
    ensures !Step(c, i, e).Panic? ==> Client(Step(c, i, e)).eng.log == c.eng.log
  {
    hide Inv, FilterCall, CloseMods;
    CallKeepsLog(c, i, e);
    ClosedFields(FilterCall(c, i, e).0);
  }

  lemma CallKeepsLog(c: Cl, i: nat, e: Env)
    requires i < N && Sized(c.eng)
    ensures Sized(FilterCall(c, i, e).0.eng) && FilterCall(c, i, e).0.eng.log == c.eng.log
  {
    hide Process, Open, Deref;
  }

  /** The history h belongs to the outcome o. */
  ghost predicate Agrees(conf: Conf, o: Outcome, h: History)
  {
    && !o.Panic? && |h.past| == |Client(o).eng.log|
    && (forall k :: 0 <= k < |h.past| ==> Answered(conf, Client(o).eng.log[k], h.past[k]))
    && match o
       case Go(c, _) => Says(c, h.now)
       case Wait(c, _) => Says(c, h.now)
       case Closed(_) => true
       case Panic => false
  }

  lemma StepTold(conf: Conf, o: Outcome, h: History, e: Env)
    requires (o.Go? || o.Wait?) && Inv(o.c, o.i) && Agrees(conf, o, h) && o.i < N && Sized(o.c.eng) && o.c.conf == conf
    ensures Agrees(conf, Step(o.c, o.i, e), Next(h, o.c, o.i, e))
  {
    hide Inv, Says, Answered, Step, Note;
    var c, i, o2 := o.c, o.i, Step(o.c, o.i, e);
    if i < LOG {
      StepSays(c, i, e, h.now);
      SameLog(c, i, e);
      StepGood(c, i, e);
    } else {
      LogTold(c, e, h.now);
      ChainLog.LogOutcome(c, e);
    }
  }

  /** At the last filter: it waits, fails, or finishes the request. */
  lemma LogTold(c: Cl, e: Env, a: Calls)
    requires Inv(c, LOG) && Says(c, a) && Sized(c.eng)
    ensures var o := Step(c, LOG, e);
            && !o.Panic? && Note(a, c, LOG, e) == a && Answered(c.conf, ThisExchange(c), a)
            && (o.Wait? ==> Says(o.c, a)) && (o.Go? ==> Says(o.c, NO_CALLS))
  {
    hide Inv, Says, Answered, Step, ThisExchange;
    LogAnswers(c, a);
    ChainLog.LogFacts(c);
    ChainLog.LogOutcome(c, e);
    var o := Step(c, LOG, e);
    if o.Wait? {
      LogDecisions(c.eng);
      SaysSame(c, o.c, a);
    } else if o.Go? {
      BeforeRequest(o.c);
    }
  }

  lemma LogDecisions(g: Engine)
    requires Sized(g)
    ensures SameDecisions(g, After(g, LOG, false))
  {
  }

  lemma BeforeRequest(c: Cl)
    requires Sized(c.eng) && !HasRequest(c.eng)
    ensures Says(c, NO_CALLS)
  {
  }

  /** In every run, every finished exchange is the one that its request and the answers to its calls
      call for, and the current one is as far decided as they decide it. */
  lemma {:induction false} RunTold(conf: Conf, es: seq<Env>)
    requires GoodConf(conf)
    ensures Agrees(conf, Run(conf, es), Made(conf, es))
    decreases |es|
  {
    hide Inv, Says, Answered, Step, GoodConf, Next, Start;
    if es == [] {
      StartInv(conf);
      StartTold(conf);
    } else {
      var before := es[..|es| - 1];
      RunTold(conf, before);
      RunInv(conf, before);
      RunConf(conf, before);
      var o := Run(conf, before);
      if o.Go? || o.Wait? {
        InvFacts(o.c, o.i);
        StepTold(conf, o, Made(conf, before), es[|es| - 1]);
      }
    }
  }

  lemma StartTold(conf: Conf)
    ensures Start(conf).eng.log == [] && Says(Start(conf), NO_CALLS)
  {
  }
}

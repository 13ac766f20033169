/** Whole connections: every run, from a new connection, under every sequence of answers of the
    outside world. */
module ChainRun {
  import opened Bytes
  import opened Chain
  import opened ChainEngine
  import opened ChainInv
  import opened ChainSteps
  import ChainServe
  import ChainReceive
  import ChainFile
  import ChainRespond
  import ChainSend
  import ChainLog
  import R = Request
  import W = Http1Writers

  // --------------------------------------------------------------- one round

  /** Every round of the loop keeps the invariant and makes progress, or waits, or ends the
      connection properly. */
  lemma StepGood(c: Cl, i: nat, e: Env)
    requires Inv(c, i)
    ensures i < N && Sized(c.eng) && Good(c, i, Step(c, i, e))
  {
    InvFacts(c, i);
    hide Inv, Good, Step;
    match i {
      case 0 => ChainReceive.StepRecv(c, e);
      case 1 => ChainReceive.StepReq(c, e);
      case 2 => ChainServe.StepIndex(c, e);
      case 3 => ChainServe.StepAuto(c, e);
      case 4 => ChainFile.StepFile(c, e);
      case 5 => ChainRespond.StepError(c, e);
      case 6 => ChainRespond.StepTrans(c, e);
      case 7 => ChainRespond.StepResp(c, e);
      case 8 => ChainSend.StepSend(c, e);
      case _ => ChainLog.StepLog(c, e);
    }
  }

  lemma StartInv(conf: Conf)
    requires GoodConf(conf)
    ensures Inv(Start(conf), RECV)
  {
    hide R.Parse, GoodConf, Producing, Transferring, Reads, Sending;
    ChainLog.NothingParsed(conf.normalize);
  }

  /** A timer, or the server, may destroy a connection whenever it waits: everything is closed. */
  lemma DestroyEnds(c: Cl, i: nat)
    requires Inv(c, i)
    ensures Sized(c.eng) && Ended(CloseMods(c))
  {
    hide Handled, LogOk, R.AreRequests, EngInv, Pipe, Wire, CloseMods, Ended, GoodConf, SentPrefix, Flat;
    InvFacts(c, i);
    assert SentPrefix(c) by { Unsent(c, i); }
    BooksNow(c.eng, i, c.fl.respDone);
    PipeNow(c, i);
    TimersNow(c, i);
    CloseEnds(c);
  }

  lemma BooksNow(g: Engine, i: nat, d: bool)
    requires EngInv(g, i, d)
    ensures forall k :: 0 <= k < N ==> g.opens[k] == g.closes[k] + if g.mods[k].isOpen then 1 else 0
    ensures !g.mods[LOG].done
  {
    hide Responding, Reading;
  }

  lemma TimersNow(c: Cl, i: nat)
    requires Wire(c, i)
    ensures (c.rx.timer ==> c.eng.mods[RECV].isOpen) && (c.tx.timer ==> c.eng.mods[SEND].isOpen)
  {
    hide Producing, Transferring, Reads, Whole, Sending;
  }

  lemma Unsent(c: Cl, i: nat)
    requires Inv(c, i) && Sized(c.eng)
    ensures SentPrefix(c)
  {
    hide Pipe, LogOk, GoodConf, Transferring, Reads, HeadOk;
    if HasRequest(c.eng) {
      InvSentPrefix(c, i);
    } else {
      ChainReceive.NotResponding(c, i);
    }
  }

  // -------------------------------------------------------------------- runs

  /** The run of a connection under the answers `es`, one element for each filter call. */
  function Run(conf: Conf, es: seq<Env>): Outcome
    decreases |es|
  {
    if es == [] then Go(Start(conf), RECV)
    else match Run(conf, es[..|es| - 1])
         case Go(c, i) => if i < N && Sized(c.eng) then Step(c, i, es[|es| - 1]) else Panic
         case Wait(c, i) => if i < N && Sized(c.eng) then Step(c, i, es[|es| - 1]) else Panic
         case Closed(c) => Closed(c)
         case Panic => Panic
  }

  /** What holds of every outcome of a run. */
  ghost predicate RunOk(o: Outcome)
  {
    match o
    case Go(c, i) => Inv(c, i)
    case Wait(c, i) => Inv(c, i)
    case Closed(c) => Ended(c)
    case Panic => false
  }

  /** The invariant holds after every run; the assertion never fails. */
  lemma {:induction false} RunInv(conf: Conf, es: seq<Env>)
    requires GoodConf(conf)
    ensures RunOk(Run(conf, es))
    decreases |es|
  {
    hide Inv, Step, GoodConf, Start, Ended;
    if es == [] {
      StartInv(conf);
    } else {
      var before := es[..|es| - 1];
      RunInv(conf, before);
      match Run(conf, before) {
        case Go(c, i) => StepGood(c, i, es[|es| - 1]);
        case Wait(c, i) => StepGood(c, i, es[|es| - 1]);
        case Closed(_) =>
        case Panic =>
      }
    }
  }

  /** cl_filters_process from filter i: the loop, with the answers env(k), env(k + 1), ... It
      ends for every one of them: it waits in a state of the invariant, or ends the connection. */
  ghost function Processed(c: Cl, i: nat, env: nat -> Env, k: nat): (o: Outcome)
    requires Inv(c, i)
    ensures o.Wait? || o.Closed?
    ensures RunOk(o)
    decreases Remaining(c), PhaseOf(c, i), LeftOf(c, i), PlaceOf(c, i)
  {
    StepGood(c, i, env(k));
    match Step(c, i, env(k))
    case Go(c', j) => Smaller(c', j, c, i); Processed(c', j, env, k + 1)
    case Wait(c', j) => Wait(c', j)
    case Closed(c') => Closed(c')
    case Panic => Panic
  }

  ghost function PhaseOf(c: Cl, i: nat): nat { if Sized(c.eng) then Phase(c, i) else 0 }
  ghost function LeftOf(c: Cl, i: nat): nat { if Sized(c.eng) then Left(c, i) else 0 }
  ghost function PlaceOf(c: Cl, i: nat): nat { if Sized(c.eng) && i < N then Place(c, i) else 0 }

  lemma Smaller(c': Cl, j: nat, c: Cl, i: nat)
    requires Sized(c'.eng) && Sized(c.eng) && i < N && j < N && Less(c', j, c, i)
    ensures (Remaining(c), PhaseOf(c, i), LeftOf(c, i), PlaceOf(c, i) decreases to
             Remaining(c'), PhaseOf(c', j), LeftOf(c', j), PlaceOf(c', j))
  {
  }

  /** What the loop makes of a state of a run is again an outcome of a run. */
  lemma {:induction false} ProcessedIsRun(conf: Conf, es: seq<Env>, c: Cl, i: nat, env: nat -> Env, k: nat)
    returns (all: seq<Env>)
    requires Inv(c, i) && (Run(conf, es) == Go(c, i) || Run(conf, es) == Wait(c, i))
    ensures es < all && Run(conf, all) == Processed(c, i, env, k)
    decreases Remaining(c), PhaseOf(c, i), LeftOf(c, i), PlaceOf(c, i)
  {
    hide Inv, Step, Less, Remaining, PhaseOf, LeftOf, PlaceOf;
    StepGood(c, i, env(k));
    var es' := es + [env(k)];
    assert es'[..|es'| - 1] == es && Run(conf, es') == Step(c, i, env(k));
    match Step(c, i, env(k)) {
      case Go(c', j) =>
        InvFacts(c', j);
        Smaller(c', j, c, i);
        all := ProcessedIsRun(conf, es', c', j, env, k + 1);
      case _ => all := es';
    }
  }

  /** A state that some run leads to. */
  ghost predicate Reached(conf: Conf, c: Cl, i: nat)
  {
    exists es :: Run(conf, es) == Go(c, i) || Run(conf, es) == Wait(c, i)
  }

  lemma ReachedInv(conf: Conf, c: Cl, i: nat)
    requires GoodConf(conf) && Reached(conf, c, i)
    ensures Inv(c, i) && i < N && Sized(c.eng) && c.conf == conf
  {
    hide Inv;
    var es :| Run(conf, es) == Go(c, i) || Run(conf, es) == Wait(c, i);
    RunInv(conf, es);
    RunConf(conf, es);
    InvFacts(c, i);
  }

  /** The client of an outcome. */
  function Client(o: Outcome): Cl
    requires !o.Panic?
  {
    match o
    case Go(c, _) => c
    case Wait(c, _) => c
    case Closed(c) => c
  }

  lemma ProcessConf(c: Cl, i: nat, e: Env)
    requires i < N && Sized(c.eng)
    ensures FilterCall(c, i, e).0.conf == c.conf
  {
    hide R.Parse, W.HeadText, Slice, StatusMsg, Opening, Total, Shift, IovBytes, Deref, SendLoop, SendProcess, FileProcess;
    if i == SEND { SendConf(OpenCall(c, i), e); }
    if i == FILE { FileConf(OpenCall(c, i), e); }
  }

  lemma FileConf(c: Cl, e: Env)
    ensures FileProcess(c, e).0.conf == c.conf
  {
    hide Slice, StatusMsg;
  }

  lemma SendConf(c: Cl, e: Env)
    ensures SendProcess(c, e).0.conf == c.conf
  {
    hide SendLoop;
    SendLoopConf(if c.input.len != 0 then c.(tx := c.tx.(iov := [c.input]), input := c.input.(len := 0)) else c, e.sends);
  }

  lemma {:induction false} SendLoopConf(c: Cl, sends: seq<SendResult>)
    ensures SendLoop(c, sends).0.conf == c.conf
    decreases |sends|
  {
    hide Total, Shift, IovBytes;
    if c.tx.iov != [] && sends != [] && sends[0].Sent? {
      SendLoopConf(SendOne(c, sends[0].n), sends[1..]);
    }
  }

  lemma StepConf(c: Cl, i: nat, e: Env)
    requires i < N && Sized(c.eng)
    ensures !Step(c, i, e).Panic? ==> Client(Step(c, i, e)).conf == c.conf
  {
    hide FilterCall, ThisExchange;
    ProcessConf(c, i, e);
  }

  lemma {:induction false} RunConf(conf: Conf, es: seq<Env>)
    ensures !Run(conf, es).Panic? ==> Client(Run(conf, es)).conf == conf
    decreases |es|
  {
    hide Step, Start;
    if es == [] {
      assert Start(conf).conf == conf by { StartConf(conf); }
    } else {
      var o := Run(conf, es[..|es| - 1]);
      RunConf(conf, es[..|es| - 1]);
      if (o.Go? || o.Wait?) && o.i < N && Sized(o.c.eng) {
        StepConf(o.c, o.i, es[|es| - 1]);
      }
    }
  }

  lemma StartConf(conf: Conf)
    ensures Start(conf).conf == conf
  {
  }
}

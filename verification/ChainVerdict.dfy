/** When a connection waits and when it ends: exactly on which answers, in every state; and that
    the timers run exactly while the socket is waited for, and no file stays open. */
module ChainVerdict {
  import opened Bytes
  import opened Chain
  import opened ChainEngine
  import opened ChainData
  import opened ChainInv
  import opened ChainSteps
  import opened ChainRun
  import opened ChainAnswer
  import opened ChainAnswerSteps
  import opened ChainAnswerRun
  import ChainFile
  import ChainLog
  import ChainReceive
  import ChainRespond
  import ChainSend
  import R = Request
  import T = RequestText
  import W = Http1Writers

  // ------------------------------------------------------------------ sends

  /** The first answer that is not an accepted send. */
  function Stop(sends: seq<SendResult>): Option<SendResult>
  {
    if sends == [] then None else if sends[0].Sent? then Stop(sends[1..]) else Some(sends[0])
  }

  /** What is left of n bytes when every send up to the first other answer is made: each takes at
      least one byte. */
  function Unsent(n: nat, sends: seq<SendResult>): nat
    decreases |sends|
  {
    if n == 0 || sends == [] || !sends[0].Sent? then n else Unsent(n - Clip(sends[0].n, 1, n), sends[1..])
  }

  /** The loop sends until everything is sent or a send is not accepted, and never gives up before. */
  lemma {:induction false} LoopVerdict(c: Cl, sends: seq<SendResult>)
    requires AllInBounds(c, c.tx.iov) && (c.tx.iov != [] ==> Total(c.tx.iov) > 0)
    ensures var (c1, r) := SendLoop(c, sends);
            var left := Unsent(Total(c.tx.iov), sends);
            && Total(c1.tx.iov) == left && (left == 0 <==> c1.tx.iov == [])
            && r == if left == 0 then Fwd else if Stop(sends) == Some(SendError) then Err else Async
    decreases |sends|
  {
    hide SendOne, IovBytes, AllInBounds;
    if c.tx.iov == [] {
    } else if sends != [] && sends[0].Sent? {
      var c1 := SendOne(c, sends[0].n);
      OneLeft(c, sends[0].n);
      SendOneConserves(c, sends[0].n);
      LoopVerdict(c1, sends[1..]);
    }
  }

  lemma OneLeft(c: Cl, n: nat)
    requires AllInBounds(c, c.tx.iov) && c.tx.iov != [] && Total(c.tx.iov) > 0
    ensures Total(SendOne(c, n).tx.iov) == Total(c.tx.iov) - Clip(n, 1, Total(c.tx.iov))
  {
    hide AllInBounds, Deref, IovBytes;
    TotalLength(c, c.tx.iov);
    ShiftDrops(c, c.tx.iov, Clip(n, 1, Total(c.tx.iov)));
    assert Total([]) == 0;
  }

  // ------------------------------------------------------------ the verdicts

  /** The contents of a file are being read. */
  predicate Reading(c: Cl, e: Env, a: Calls)
    requires Sized(c.eng)
  {
    Runs(c, FILE) && Serves(c.conf, Asked(c), Note(a, c, FILE, e))
  }

  /** Bytes that the send filter has to send. */
  function ToSend(c: Cl): nat { if c.input.len != 0 then c.input.len else Total(c.tx.iov) }

  /** The connection ends in this round: the peer has closed, or the socket, the file or the log
      fails; the buffer is full of an incomplete request; the status line does not fit its buffer;
      or the last response is complete. */
  predicate Ends(c: Cl, i: nat, e: Env, a: Calls)
    requires Sized(c.eng)
  {
    if i == RECV then !c.rx.unprocessed && (e.recv == RecvError || e.recv == RecvData([]))
    else if i == REQ then !Parsed(c, c.rx.buf).done && |c.rx.buf| == c.conf.recvBuf
    else if i == FILE then Reading(c, e, a) && e.read == ReadError
    else if i == RESP then !c.eng.mods[RESP].done && |W.RespLineText(c.resp.code % 1000, c.resp.msg)| + 2 > c.conf.respBuf
    else if i == SEND then Unsent(ToSend(c), e.sends) > 0 && Stop(e.sends) == Some(SendError)
    else if i == LOG then
      e.log == LogError || (e.log == Logged && (!c.fl.keepAlive || |c.eng.log| + 1 == ChainLog.Limit(c.conf)))
    else false
  }

  /** The connection waits in this round: exactly for a call that is in progress. */
  predicate Waits(c: Cl, i: nat, e: Env, a: Calls)
    requires Sized(c.eng)
  {
    if i == RECV then !c.rx.unprocessed && e.recv == RecvWait
    else if i == FILE then Runs(c, FILE) && (Awaited(Note(a, c, FILE, e)) || (Reading(c, e, a) && e.read == ReadWait))
    else if i == SEND then Unsent(ToSend(c), e.sends) > 0 && Stop(e.sends) != Some(SendError)
    else if i == LOG then e.log == LogWait
    else false
  }

  /** No timer runs that is not for the filter at i, the file is open only while its filter is, and
      when more is to be received there is room for it. */
  predicate Calm(c: Cl, i: nat)
    requires Sized(c.eng)
  {
    && (c.rx.timer ==> i == RECV && !c.rx.unprocessed) && (c.tx.timer ==> i == SEND)
    && (c.file.fd ==> c.eng.mods[FILE].isOpen)
    && (i == RECV && !c.rx.unprocessed ==> |c.rx.buf| < c.conf.recvBuf)
  }

  /** The timers run exactly while the socket is waited for; in the end the file is closed. */
  predicate Orderly(o: Outcome)
  {
    match o
    case Go(c, i) => Sized(c.eng) && Calm(c, i) && !c.rx.timer && !c.tx.timer
    case Wait(c, i) => Sized(c.eng) && Calm(c, i) && (c.rx.timer <==> i == RECV) && (c.tx.timer <==> i == SEND)
    case Closed(c) => !c.rx.timer && !c.tx.timer && !c.file.fd
    case Panic => false
  }

  ghost predicate Verdict(c: Cl, i: nat, e: Env, a: Calls, o: Outcome)
    requires Sized(c.eng)
  {
    (o.Closed? <==> Ends(c, i, e, a)) && (o.Wait? <==> Waits(c, i, e, a)) && Orderly(o)
  }

  /** What the loop makes of a filter's verdict. */
  lemma SwitchOrderly(c1: Cl, i: nat, r: Result)
    requires i < LOG && Sized(c1.eng) && (c1.file.fd ==> c1.eng.mods[FILE].isOpen) && (r == Back ==> i > 0)
    requires (c1.rx.timer ==> c1.eng.mods[RECV].isOpen) && (c1.tx.timer ==> c1.eng.mods[SEND].isOpen)
    requires r == Async ==> Calm(c1, i) && (c1.rx.timer <==> i == RECV) && (c1.tx.timer <==> i == SEND)
    requires r == Fwd || r == Result.Done || r == Skip || r == Back ==> !c1.rx.timer && !c1.tx.timer
    requires r == Back && i == REQ ==> |c1.rx.buf| < c1.conf.recvBuf
    ensures var o := Switch(c1, i, r);
            && Orderly(o) && (o.Closed? <==> r == Err || r == Fin) && (o.Wait? <==> r == Async)
  {
    if r == Err || r == Fin { ClosedFile(c1); }
  }

  lemma ClosedFile(c: Cl)
    requires Sized(c.eng)
    ensures CloseMods(c).file.fd == (c.file.fd && !c.eng.mods[FILE].isOpen)
    ensures CloseMods(c).rx.timer == (c.rx.timer && !c.eng.mods[RECV].isOpen)
    ensures CloseMods(c).tx.timer == (c.tx.timer && !c.eng.mods[SEND].isOpen)
  {
  }

  // ------------------------------------------------------- receive and request

  lemma RecvVerdict(c: Cl, e: Env, a: Calls)
    requires Inv(c, RECV) && Sized(c.eng) && Calm(c, RECV)
    ensures Verdict(c, RECV, e, a, Step(c, RECV, e))
  {
    hide Inv, Switch, FilterCall, RecvProcess, After, Opening, Reading, Runs, Orderly, Unsent, Stop, R.Parse, GoodConf,
         Pipe, HasRequest;
    InvFacts(c, RECV);
    InvParts(c, RECV);
    ChainReceive.BufferFacts(c, RECV);
    CallRuns(c, RECV, e);
    OpenedNow(c.eng, RECV);
    var c0 := ChainReceive.Received(c);
    RecvIs(c0, e);
    var (c1, r) := FilterCall(c, RECV, e);
    assert (c1, r) == RecvProcess(c0, e);
    SwitchOrderly(c1, RECV, r);
  }

  lemma OpenedNow(g: Engine, i: nat)
    requires i < N && Sized(g) && !g.mods[i].done
    ensures After(g, i, false).mods == g.mods[i := Mod(true, false)]
  {
    if Entered(g, i) { assert g.mods[i] == Mod(true, false); }
  }

  lemma RecvIs(c: Cl, e: Env)
    requires !c.fl.respDone && |c.rx.buf| <= c.conf.recvBuf && Sized(c.eng) && Calm(c, RECV)
    requires c.rx.cap == c.conf.recvBuf || (c.rx.cap == 0 && c.rx.buf == [])
    ensures var (c1, r) := RecvProcess(c, e);
            && c1 == c.(rx := c1.rx)
            && (r == Err || r == Fin <==> Ends(c, RECV, e, NO_CALLS))
            && (r == Async <==> Waits(c, RECV, e, NO_CALLS))
            && (r == Err || r == Fin || r == Async || r == Fwd)
            && (r == Async ==> c1.rx == c.rx.(cap := c1.rx.cap, timer := true))
            && (r == Fwd ==> !c1.rx.timer)
  {
  }

  lemma ReqVerdicts(c: Cl, e: Env, a: Calls)
    requires Inv(c, REQ) && Sized(c.eng) && Calm(c, REQ)
    ensures Verdict(c, REQ, e, a, Step(c, REQ, e))
  {
    hide Inv, Switch, FilterCall, ReqProcess, After, Opening, Idle;
    NoneEntered(c);
    InvParts(c, REQ);
    RequestRoom(c);
    ChainReceive.ReqCall(c, e);
    var (c1, r) := FilterCall(c, REQ, e);
    OpenedNow(c.eng, REQ);
    ReqIs(ChainReceive.Requested(c));
    SwitchOrderly(c1, REQ, r);
  }

  lemma RequestRoom(c: Cl)
    requires Pipe(c, REQ) && Sized(c.eng) && !HasRequest(c.eng)
    ensures |c.rx.buf| <= c.conf.recvBuf == c.rx.cap
  {
    hide Handled, R.AreRequests, Flat, R.Parse;
  }

  lemma ReqIs(c: Cl)
    ensures var (c1, r) := ReqProcess(c);
            && c1.eng == c.eng && c1.rx == c.rx.(unprocessed := false, tried := c.rx.buf) && c1.tx == c.tx
            && c1.file == c.file && c1.conf == c.conf
            && r == if R.Parse(c.conf.normalize, c.rx.buf, c.req).done then Result.Done
                    else if |c.rx.buf| == c.rx.cap then Err else Back
  {
    hide R.Parse, StatusMsg;
  }

  // ------------------------------------------------ filters that never wait

  predicate Steady(i: nat) { i == INDEX || i == AUTO || i == ERROR || i == TRANS }

  lemma SteadyOpen(c: Cl, i: nat)
    requires i < N && Steady(i) && Sized(c.eng)
    ensures var c1 := OpenCall(c, i);
            && c1.rx == c.rx && c1.tx.timer == c.tx.timer && c1.file == c.file && c1.conf == c.conf
            && c1.eng.mods == c.eng.mods[i := c1.eng.mods[i]] && c1.eng.chainBack == c.eng.chainBack
  {
    hide EndsWithSlash;
    assert c.eng.mods == c.eng.mods[i := c.eng.mods[i]];
  }

  lemma SteadyProcess(c: Cl, i: nat, e: Env)
    requires i < N && Steady(i)
    ensures var (c1, r) := Process(c, i, e);
            && c1.rx == c.rx && c1.tx.timer == c.tx.timer && c1.file == c.file && c1.conf == c.conf && c1.eng == c.eng
            && (r == Fwd || r == Result.Done || (r == Back && c.eng.chainBack))
  {
    hide StatusMsg;
  }

  lemma SteadyCall(c: Cl, i: nat, e: Env)
    requires i < N && Steady(i) && Sized(c.eng)
    ensures var (c1, r) := FilterCall(c, i, e);
            && Sized(c1.eng) && c1.rx == c.rx && c1.tx.timer == c.tx.timer && c1.file == c.file && c1.conf == c.conf
            && c1.eng.mods == c.eng.mods[i := c1.eng.mods[i]] && c1.eng.chainBack == c.eng.chainBack
            && (r == Fwd || r == Result.Done || (r == Back && c.eng.chainBack))
  {
    hide OpenCall, Process, Deref;
    SteadyOpen(c, i);
    SteadyProcess(Feed(OpenCall(c, i), i), i, e);
  }

  lemma SteadyVerdict(c: Cl, i: nat, e: Env, a: Calls)
    requires Inv(c, i) && Steady(i) && Sized(c.eng) && Calm(c, i)
    ensures Verdict(c, i, e, a, Step(c, i, e))
  {
    hide Inv, Switch, FilterCall, EngInv, Pipe, GoodConf, Reading, Runs, Orderly, Unsent, Stop, R.Parse;
    InvParts(c, i);
    SteadyCall(c, i, e);
    var (c1, r) := FilterCall(c, i, e);
    SwitchOrderly(c1, i, r);
  }

  // --------------------------------------------------------------- response

  lemma RespProcessIs(c: Cl)
    requires c.conf.respBuf >= 2 && c.resp.code < 1000
    ensures var (c1, r) := RespProcess(c);
            && c1.rx == c.rx && c1.tx.timer == c.tx.timer && c1.file == c.file && c1.conf == c.conf && c1.eng == c.eng
            && r == if |W.RespLineText(c.resp.code, c.resp.msg)| + 2 > c.conf.respBuf then Fin else Result.Done
  {
    hide Deref, W.RespLineText;
  }

  lemma RespCallIs(c: Cl, e: Env)
    requires Sized(c.eng) && !c.eng.mods[RESP].done && c.conf.respBuf >= 2 && c.resp.code < 1000
    ensures var (c1, r) := FilterCall(c, RESP, e);
            && Sized(c1.eng) && c1.rx == c.rx && c1.tx.timer == c.tx.timer && c1.file == c.file && c1.conf == c.conf
            && c1.eng.mods == c.eng.mods[RESP := c1.eng.mods[RESP]]
            && r == if |W.RespLineText(c.resp.code, c.resp.msg)| + 2 > c.conf.respBuf then Fin else Result.Done
  {
    hide Deref, W.RespLineText, After, RespProcess, FilterCall;
    CallRuns(c, RESP, e);
    OpenedNow(c.eng, RESP);
    RespProcessIs(c.(eng := After(c.eng, RESP, false)));
  }

  lemma PassedIs(c: Cl, i: nat, e: Env)
    requires i < N && Sized(c.eng) && c.eng.mods[i].done && i != TRANS
    ensures var (c1, r) := FilterCall(c, i, e);
            c1 == c.(output := c.input) && r == if c.eng.chainBack then Back else Fwd
  {
    hide Process, Open;
  }

  lemma RespVerdict(c: Cl, e: Env, a: Calls)
    requires Inv(c, RESP) && Sized(c.eng) && Calm(c, RESP)
    ensures Verdict(c, RESP, e, a, Step(c, RESP, e))
  {
    hide Inv, Switch, FilterCall, EngInv, Pipe, Wire, GoodConf, Reading, Runs, Orderly, Unsent, Stop, R.Parse, W.RespLineText;
    InvParts(c, RESP);
    if c.eng.mods[RESP].done {
      PassedIs(c, RESP, e);
    } else {
      if c.eng.chainBack { ChainRespond.BackFacts(c, RESP); }
      RespPlain(c);
      RespCallIs(c, e);
    }
    var (c1, r) := FilterCall(c, RESP, e);
    SwitchOrderly(c1, RESP, r);
  }

  lemma RespPlain(c: Cl)
    requires Inv(c, RESP) && !c.eng.chainBack
    ensures c.conf.respBuf >= 2 && c.resp.code < 1000
  {
    ChainRespond.RespFacts(c);
  }

  // ------------------------------------------------------------------- send

  lemma SendVerdict(c: Cl, e: Env, a: Calls)
    requires Inv(c, SEND) && Sized(c.eng) && Calm(c, SEND)
    ensures Verdict(c, SEND, e, a, Step(c, SEND, e))
  {
    hide Inv, Switch, FilterCall, EngInv, Pipe, Wire, Sending, GoodConf, Reading, Runs, Orderly, R.Parse, After, SendProcess,
         AllInBounds, InBounds, Unsent, Stop, Total;
    InvParts(c, SEND);
    ChainSend.SendFacts(c);
    CallRuns(c, SEND, e);
    OpenedNow(c.eng, SEND);
    var c0 := c.(eng := After(c.eng, SEND, false));
    assert FilterCall(c, SEND, e) == SendProcess(c0, e);
    SendIs(c, c0, e);
    var (c1, r) := FilterCall(c, SEND, e);
    SwitchOrderly(c1, SEND, r);
  }

  lemma SendIs(c: Cl, c0: Cl, e: Env)
    requires c0 == c.(eng := c0.eng) && InBounds(c, c.input) && AllInBounds(c, c.tx.iov)
    requires (c.tx.iov != [] ==> Total(c.tx.iov) > 0) && (c.input.len > 0 ==> c.tx.iov == [])
    ensures var (c1, r) := SendProcess(c0, e);
            var left := Unsent(ToSend(c), e.sends);
            && c1 == c0.(tx := c1.tx, input := c1.input)
            && (if left > 0 then r == (if Stop(e.sends) == Some(SendError) then Err else Async)
                else (r == Result.Done || r == Back) && !c1.tx.timer)
            && (r == Async ==> c1.tx.timer)
  {
    hide Total, IovBytes, Deref, InBounds, SendLoop, Unsent, Stop;
    SendFrame(c0, e);
    ChainSend.LoadedBytes(c, c0);
    LoopVerdict(ChainSend.Loaded(c0), e.sends);
    SendLoopConserves(ChainSend.Loaded(c0), e.sends);
    if c.input.len != 0 { OneRef(c0, c.input); }
  }

  // -------------------------------------------------------------------- log

  lemma LogOrderly(c: Cl, e: Env)
    requires Inv(c, LOG) && Sized(c.eng) && Calm(c, LOG)
    ensures Orderly(Step(c, LOG, e))
  {
    hide Inv, Step, CloseMods, KeepAlive, After, ThisExchange, ChainLog.Finished, Ended;
    StepGood(c, LOG, e);
    ChainLog.LogFacts(c);
    ChainLog.LogOutcome(c, e);
    LogStep(c, e);
    OpenedNow(c.eng, LOG);
    if e.log == LogError {
      ClosedFile(c.(eng := After(c.eng, LOG, false)));
    } else if e.log == Logged {
      ChainLog.FinishedIs(c);
      assert ChainLog.Finished(c).eng.mods[FILE].isOpen == c.eng.mods[FILE].isOpen by { LastFile(c.eng); }
      KeepOrderly(ChainLog.Finished(c));
      GoodRoom(c);
    }
  }

  lemma LastFile(g: Engine)
    requires Sized(g) && !g.mods[LOG].done
    ensures ChainEngine.Done(After(g, LOG, false), LOG).mods[FILE] == g.mods[FILE]
    ensures ChainEngine.Done(After(g, LOG, false), LOG).mods[RECV] == g.mods[RECV]
    ensures ChainEngine.Done(After(g, LOG, false), LOG).mods[SEND] == g.mods[SEND]
  {
    OpenedNow(g, LOG);
  }

  lemma GoodRoom(c: Cl)
    requires Inv(c, LOG)
    ensures 0 < c.conf.recvBuf
  {
    hide EngInv, Pipe, Wire, LogOk;
  }

  lemma LogStep(c: Cl, e: Env)
    requires Sized(c.eng) && !c.eng.mods[LOG].done
    ensures var c1 := c.(eng := After(c.eng, LOG, false));
            Step(c, LOG, e) == match e.log
                               case LogWait => Wait(c1, LOG)
                               case LogError => Closed(CloseMods(c1))
                               case Logged => KeepAlive(ChainLog.Finished(c))
  {
    hide After, CloseMods, KeepAlive, FilterCall;
    CallRuns(c, LOG, e);
  }

  lemma KeepOrderly(c: Cl)
    requires Sized(c.eng) && (c.file.fd ==> c.eng.mods[FILE].isOpen) && !c.rx.timer && !c.tx.timer
    ensures var o := KeepAlive(c);
            match o
            case Closed(c') => !c'.rx.timer && !c'.tx.timer && !c'.file.fd
            case Go(c', i) => i == RECV && !c'.rx.timer && !c'.tx.timer && !c'.file.fd
            case _ => false
  {
    hide CloseMods, ThisExchange;
    var c0 := Record(c);
    ClosedFile(c0);
    ClosedFile(c0.(eng := c0.eng.(keepAliveN := (c.eng.keepAliveN + 1) % KEEPALIVE_MOD)));
  }

  lemma LogVerdict(c: Cl, e: Env, a: Calls)
    requires Inv(c, LOG) && Sized(c.eng) && Calm(c, LOG)
    ensures Verdict(c, LOG, e, a, Step(c, LOG, e))
  {
    hide Inv, Step, Reading, Runs, R.Parse, After, ThisExchange;
    ChainLog.LogOutcome(c, e);
    LogOrderly(c, e);
  }

  // ------------------------------------------------------------------- file

  /** On which answers a call of the file filter waits or fails. */
  lemma FileProcessIs(c: Cl, e: Env)
    requires c.file.state <= 2 && c.conf.fileBuf > 0
    ensures var (c1, r) := FileProcess(c, e);
            && (r == Async <==>
                  || (c.file.state == 0 && e.open == OpenWait)
                  || ((c.file.state == 1 || (c.file.state == 0 && e.open.Opened?)) && e.info == InfoWait)
                  || (c1.file.state == 2 && e.read == ReadWait))
            && (r == Err <==> c1.file.state == 2 && e.read == ReadError)
            && c1.rx == c.rx && c1.tx == c.tx && c1.conf == c.conf && c1.eng == c.eng
            && r != Back && r != Fin && r != Skip
  {
    hide FInfo, StatusMsg, Overwrite;
    InfoIs(if c.file.state == 0 then FOpen(c, e).0 else c, e);
  }

  lemma InfoIs(c: Cl, e: Env)
    ensures var (c1, r) := FInfo(c, e);
            && (r == Async <==> e.info == InfoWait) && (r == Fwd ==> c1.file.state == 2)
            && (r != Fwd ==> c1.file.state == c.file.state) && (r == Fwd || r == Result.Done || r == Async)
            && c1.rx == c.rx && c1.tx == c.tx && c1.conf == c.conf && c1.eng == c.eng
  {
    hide StatusMsg, Overwrite, Slice;
  }

  /** In terms of the request and the calls. */
  lemma FileVerdictFor(c: Cl, e: Env, q: T.Ask, a: Calls, document: bool)
    requires AskAt(c, q) && AtWork(c, q, a, document) && (c.file.state != 2 ==> !document)
    requires c.file.state <= 2 && c.conf.fileBuf > 0
    ensures var (c1, r) := FileProcess(c, e);
            var a2 := FileNote(a, c.file, e);
            && (r == Async <==> Awaited(a2) || (Serves(c.conf, q, a2) && e.read == ReadWait))
            && (r == Err <==> Serves(c.conf, q, a2) && e.read == ReadError)
  {
    hide FileProcess, StatusTold, Status, Target, EndsWithSlash, Ascii, Location, Slice;
    FileProcessTold(c, e, q, a, document);
    FileProcessIs(c, e);
  }

  /** The file filter at work. */
  lemma FileWork(c: Cl, e: Env, a: Calls)
    requires FileTurn(c, a) && (Entered(c.eng, FILE) || IsFile(c.conf, Asked(c), a))
    ensures var c0 := ChainFile.FileStart(c);
            && Asked(c).Ask? && AskAt(c0, Asked(c)) && AtWork(c0, Asked(c), a, c.eng.mods[ERROR].done)
            && (c0.file.state != 2 ==> !c.eng.mods[ERROR].done)
            && Runs(c, FILE) && FilterCall(c, FILE, e) == FileProcess(c0, e) && Note(a, c, FILE, e) == FileNote(a, c0.file, e)
            && ChainFile.FileReady(c0)
  {
    hide Says, FilterCall, Note, Asked, FileOpen, FileProcess, After, AtWork, Target, KnownVerb, EndsWithSlash, Runs, ToOpen,
         Location, Slice;
    RunsIs(c, FILE);
    FileNoteIs(c, e, a);
    var c0 := ChainFile.FileStart(c);
    if Entered(c.eng, FILE) {
      FileIsFor(c, a);
      FileAgain(c, a);
      ChainFile.FileRuns(c, e);
      AtWorkMoved(c, c0, Asked(c), a, c.eng.mods[ERROR].done);
    } else {
      FileFirst(c, a) by { FileRoom(c); }
      ChainFile.FileRuns(c, e);
      OpeningMoved(FileOpen(c).0, c0, Asked(c), a);
      assert AtWork(c0, Asked(c), a, c.eng.mods[ERROR].done) by { WorkToOpen(c0, Asked(c), a, c.eng.mods[ERROR].done); }
    }
  }

  lemma WorkToOpen(c: Cl, q: T.Ask, a: Calls, document: bool)
    requires ToOpen(c, q, a)
    ensures AtWork(c, q, a, document)
  {
    hide ToOpen;
  }

  lemma FileStartIs(c: Cl, a: Calls)
    requires FileTurn(c, a) && (Entered(c.eng, FILE) || FileOpen(c).1 == Fwd || IsFile(c.conf, Asked(c), a))
    ensures var c0 := ChainFile.FileStart(c);
            && c0.rx == c.rx && c0.tx == c.tx && c0.conf == c.conf && Sized(c0.eng)
            && c0.eng.mods == c.eng.mods[FILE := Mod(true, false)]
            && c0.file.state <= 2 && c0.conf.fileBuf > 0
  {
    hide Says, Asked, AskAt, Target, EndsWithSlash, StatusMsg, Slice;
    OpenedNow(c.eng, FILE);
  }

  lemma FileNotRun(c: Cl, e: Env, a: Calls)
    requires FileTurn(c, a) && !Entered(c.eng, FILE) && !IsFile(c.conf, Asked(c), a)
    ensures var (c1, r) := FilterCall(c, FILE, e);
            && !Runs(c, FILE) && r == Fwd && Sized(c1.eng) && c1.rx == c.rx && c1.tx == c.tx && c1.file == c.file
            && c1.conf == c.conf && c1.eng.mods == c.eng.mods[FILE := Mod(false, true)]
  {
    hide Says, FilterCall, AskAt, Asked, FileOpen, After, Target, EndsWithSlash, Runs, OpenCall, Message, StatusMsg;
    FileFirst(c, a);
    RunsIs(c, FILE);
    CallPasses(c, FILE, e);
    DeclinedNow(c.eng, FILE);
  }

  lemma DeclinedNow(g: Engine, i: nat)
    requires i < N && Sized(g) && !Entered(g, i)
    ensures After(g, i, true).mods == g.mods[i := Mod(false, true)]
  {
  }

  lemma FileVerdict(c: Cl, e: Env, a: Calls)
    requires Inv(c, FILE) && Sized(c.eng) && Calm(c, FILE) && Says(c, a)
    ensures Verdict(c, FILE, e, a, Step(c, FILE, e))
  {
    hide Inv, Says, Switch, FilterCall, FileTurn, FileProcess, Orderly, Runs, Note, Serves, Asked, R.Parse, Unsent, Stop,
         AskAt, AtWork, ChainFile.FileReady, ChainFile.FileStart;
    FileTurnIs(c, a);
    if Entered(c.eng, FILE) || IsFile(c.conf, Asked(c), a) {
      FileWork(c, e, a);
      var c0 := ChainFile.FileStart(c);
      FileStartIs(c, a);
      FileVerdictFor(c0, e, Asked(c), a, c.eng.mods[ERROR].done);
      FileProcessIs(c0, e);
    } else {
      FileNotRun(c, e, a);
    }
    var (c1, r) := FilterCall(c, FILE, e);
    SwitchOrderly(c1, FILE, r);
  }

  // --------------------------------------------------------------- all steps

  lemma StepVerdict(c: Cl, i: nat, e: Env, a: Calls)
    requires Inv(c, i) && Sized(c.eng) && i < N && Calm(c, i) && Says(c, a)
    ensures Verdict(c, i, e, a, Step(c, i, e))
  {
    hide Inv, Says, Step, Verdict, Calm;
    if i == RECV {
      RecvVerdict(c, e, a);
    } else if i == REQ {
      ReqVerdicts(c, e, a);
    } else if i == FILE {
      FileVerdict(c, e, a);
    } else if i == RESP {
      RespVerdict(c, e, a);
    } else if i == SEND {
      SendVerdict(c, e, a);
    } else if i == LOG {
      LogVerdict(c, e, a);
    } else {
      SteadyVerdict(c, i, e, a);
    }
  }

  /** In every outcome of every run the timers run exactly while the socket is waited for, and an
      ended connection has closed its file. */
  lemma {:induction false} RunOrderly(conf: Conf, es: seq<Env>)
    requires GoodConf(conf)
    ensures Orderly(Run(conf, es))
    decreases |es|
  {
    hide Inv, Says, Step, GoodConf, Start, Made, Answered;
    if es == [] {
      StartOrderly(conf);
    } else {
      var before, e := es[..|es| - 1], es[|es| - 1];
      var o := Run(conf, before);
      RunOrderly(conf, before);
      RunInv(conf, before);
      RunTold(conf, before);
      if o.Go? || o.Wait? {
        InvFacts(o.c, o.i);
        StepVerdict(o.c, o.i, e, Made(conf, before).now);
      }
    }
  }

  lemma StartOrderly(conf: Conf)
    requires GoodConf(conf)
    ensures Orderly(Go(Start(conf), RECV))
  {
  }

  /** Every round of every run: the connection ends on exactly these answers, and waits on exactly
      those; in all other cases it goes on. */
  lemma EveryRound(conf: Conf, es: seq<Env>, c: Cl, i: nat, e: Env)
    requires GoodConf(conf) && (Run(conf, es) == Go(c, i) || Run(conf, es) == Wait(c, i))
    ensures i < N && Sized(c.eng)
    ensures Run(conf, es + [e]).Closed? <==> Ends(c, i, e, Made(conf, es).now)
    ensures Run(conf, es + [e]).Wait? <==> Waits(c, i, e, Made(conf, es).now)
  {
    hide Inv, Says, Step, GoodConf, Start, Made, Answered, Ends, Waits, Orderly, Calm;
    RunInv(conf, es);
    RunTold(conf, es);
    RunOrderly(conf, es);
    InvFacts(c, i);
    assert Calm(c, i) by { CalmNow(Run(conf, es), c, i); }
    StepVerdict(c, i, e, Made(conf, es).now);
    assert (es + [e])[..|es + [e]| - 1] == es;
  }

  lemma CalmNow(o: Outcome, c: Cl, i: nat)
    requires Orderly(o) && (o == Go(c, i) || o == Wait(c, i))
    ensures Sized(c.eng) && Calm(c, i)
  {
  }
}

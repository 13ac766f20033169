/** The client object of the program: its methods update the fields in place, and are proved
    against the functions of module Chain. */
module Client {
  import opened Bytes
  import opened Chain
  import opened ChainInv
  import ChainRun
  import ChainSteps
  import R = Request
  import W = Http1Writers

  class AlphahttpdClient {
    const conf: Conf
    var eng: Engine
    var rx: Rx
    var req: R.Req
    var file: File
    var resp: Resp
    var tx: Tx
    var fl: Flags
    var imod: nat
    var input: Str
    var output: Str
    var fed: seq<bytes>

    function View(): Cl
      reads this
    {
      Cl(conf, eng, rx, req, file, resp, tx, fl, input, output, fed)
    }

    /** cl_start, up to the first call of the loop. */
    constructor (conf: Conf)
      ensures this.conf == conf && View() == Start(conf) && imod == 0
    {
      this.conf := conf;
      eng := Engine(0, false, false, NoMods(), [], NoCounts(), NoCounts(), NoCounts());
      rx := Rx([], 0, false, false, [], []);
      req, file, resp, tx, fl := R.REQ0, FILE0, RESP0, TX0, FLAGS0;
      imod, input, output, fed := 0, NULL, NULL, [];
    }

    // -------------------------------------------------------------- statuses

    /** cl_resp_status */
    method RespStatus(code: nat)
      modifies this`resp, this`fl
      ensures View() == SetStatus(old(View()), code)
    {
      resp := resp.(code := code);
      if resp.code == 400 { fl := fl.(keepAlive := false); }
      resp := resp.(msg := StatusMsg(code));
      fl := fl.(respErr := true);
    }

    /** cl_resp_status_ok */
    method RespStatusOk()
      modifies this`resp
      ensures resp == Ok(old(resp))
    {
      resp := resp.(code := 200, msg := StatusMsg(200));
    }

    // --------------------------------------------------------------- filters

    /** ahrecv_read */
    method RecvRead(e: Env) returns (r: Result)
      modifies this`rx
      ensures (View(), r) == RecvProcess(old(View()), e)
    {
      if fl.respDone { return Result.Done; }
      if rx.unprocessed { return Fwd; }
      if rx.cap == 0 { rx := rx.(cap := conf.recvBuf); }
      match e.recv {
        case RecvWait =>
          rx := rx.(timer := true);
          return Async;
        case RecvError => return Err;
        case RecvData(data) =>
          var room := if |rx.buf| <= rx.cap then rx.cap - |rx.buf| else 0;
          var d := if |data| <= room then data else data[..room];
          if d == [] { return Fin; }
          rx := rx.(buf := rx.buf + d, received := rx.received + d);
          rx := rx.(timer := false);
          return Fwd;
      }
    }

    /** ahreq_read */
    method ReqRead() returns (r: Result)
      modifies this`rx, this`req, this`resp, this`fl
      ensures (View(), r) == ReqProcess(old(View()))
    {
      hide R.Parse;
      if rx.unprocessed { rx := rx.(unprocessed := false); }
      var p := R.ReqParse(conf.normalize, rx.buf, req);
      rx := rx.(tried := rx.buf);
      req := p.req;
      if p.done {
        fl := fl.(keepAlive := p.keepAlive);
        if p.bad { RespStatus(400); }
        return Result.Done;
      }
      if |rx.buf| == rx.cap { return Err; }
      return Back;
    }

    /** index_process */
    method IndexProcess(e: Env) returns (r: Result)
      modifies this`req
      ensures (View(), r) == Chain.IndexProcess(old(View()), e)
    {
      if e.indexFound { req := req.(unescaped := req.unescaped + conf.index); }
      return Result.Done;
    }

    /** autoindex_process */
    method AutoindexProcess(e: Env) returns (r: Result)
      modifies this`resp, this`fl, this`output
      ensures (View(), r) == AutoProcess(old(View()), e)
    {
      match e.dir {
        case DirMissing => RespStatus(404);
        case DirError => RespStatus(403);
        case Listing(html) =>
          resp := resp.(dir := html, contentLength := Some(|html|));
          RespStatusOk();
          output := Str(DirMem, 0, |html|);
          fl := fl.(respDone := true);
      }
      return Result.Done;
    }

    /** file_open */
    method FileOpen() returns (r: Result)
      modifies this`file, this`resp, this`fl
      ensures (View(), r) == Chain.FileOpen(old(View()))
    {
      if fl.respErr || resp.code != 0 { return Skip; }
      var verb := Slice(req.verb, rx.buf);
      fl := fl.(headMethod := verb == HEAD);
      if verb != GET && verb != HEAD {
        RespStatus(405);
        return Skip;
      }
      if |conf.www| + |req.unescaped| + 1 > conf.fileBuf { return Err; }
      file := file.(fd := false, buf := conf.www + req.unescaped + [0]);
      return Fwd;
    }

    /** handle_redirect, for a directory. */
    method HandleRedirect()
      modifies this`file, this`resp, this`fl
      ensures View() == Redirect(old(View()))
    {
      RespStatus(301);
      var text := HTTP_SCHEME + Slice(req.host, rx.buf) + Slice(req.path, rx.buf) + [SLASH];
      var loc := if |text| <= conf.fileBuf then text else [];
      file := file.(buf := Overwrite(file.buf, loc));
      resp := resp.(location := Str(FileMem, 0, |loc|));
    }

    /** f_open, with the change of state that follows it. */
    method FOpen(e: Env) returns (r: Result)
      modifies this`file, this`resp, this`fl
      ensures (View(), r) == Chain.FOpen(old(View()), e)
    {
      match e.open {
        case OpenWait => return Async;
        case OpenMissing =>
          RespStatus(404);
          return Result.Done;
        case OpenError =>
          RespStatus(500);
          return Result.Done;
        case Opened(content) =>
          file := file.(fd := true, content := content, read := [], disk := content);
          file := file.(state := 1);
          return Fwd;
      }
    }

    /** f_info, with the change of state that follows it. */
    method FInfo(e: Env) returns (r: Result)
      modifies this`file, this`resp, this`fl
      ensures (View(), r) == Chain.FInfo(old(View()), e)
    {
      match e.info {
        case InfoWait => return Async;
        case InfoError =>
          RespStatus(403);
          return Result.Done;
        case Info(isDir, size, lm, ct) =>
          if isDir {
            HandleRedirect();
            return Result.Done;
          }
          resp := resp.(lastModified := lm);
          if req.ims.len != 0 && Slice(req.ims, rx.buf) == lm {
            RespStatus(304);
            return Result.Done;
          }
          resp := resp.(contentType := ct);
          resp := resp.(contentLength := Some(size));
          RespStatusOk();
          if fl.headMethod {
            fl := fl.(respDone := true);
            return Result.Done;
          }
          file := file.(state := 2);
          return Fwd;
      }
    }

    /** The read of file_process. */
    method FRead(e: Env) returns (r: Result)
      modifies this`file, this`fl, this`output
      ensures (View(), r) == Chain.FRead(old(View()), e)
    {
      match e.read {
        case ReadWait => return Async;
        case ReadError => return Err;
        case ReadSome(n) =>
          if file.disk == [] || conf.fileBuf == 0 {
            fl := fl.(respDone := true);
            return Result.Done;
          }
          var m := Clip(n, 1, if |file.disk| < conf.fileBuf then |file.disk| else conf.fileBuf);
          var data := file.disk[..m];
          file := file.(buf := Overwrite(file.buf, data), read := file.read + data, disk := file.disk[m..]);
          output := Str(FileMem, 0, m);
          return Fwd;
      }
    }

    /** file_process */
    method FileProcess(e: Env) returns (r: Result)
      modifies this`file, this`resp, this`fl, this`output
      ensures (View(), r) == Chain.FileProcess(old(View()), e)
    {
      hide Chain.FOpen, Chain.FInfo, Chain.FRead;
      if file.state == 0 {
        r := FOpen(e);
        if r != Fwd { return; }
      }
      if file.state == 1 {
        r := FInfo(e);
        if r != Fwd { return; }
      }
      r := FRead(e);
    }

    /** aherr_process */
    method ErrProcess() returns (r: Result)
      modifies this`resp, this`fl, this`output
      ensures (View(), r) == ErrorProcess(old(View()))
    {
      resp := resp.(contentType := TEXT_PLAIN);
      resp := resp.(contentLength := Some(|resp.msg|));
      fl := fl.(respDone := true);
      output := Str(MsgMem, 0, |resp.msg|);
      return Result.Done;
    }

    /** ahtrans_open */
    method TransOpen() returns (r: Result)
      modifies this`tx, this`fl
      ensures (View(), r) == Chain.TransOpen(old(View()))
    {
      if resp.contentLength.None? {
        fl := fl.(keepAlive := false);
        return Skip;
      }
      tx := tx.(contLen := resp.contentLength.value);
      return Fwd;
    }

    /** ahtrans_process */
    method TransProcess() returns (r: Result)
      modifies this`tx, this`output
      ensures (View(), r) == Chain.TransProcess(old(View()))
    {
      if eng.chainBack { return Back; }
      var n := if input.len < tx.contLen then input.len else tx.contLen;
      output := input.(len := n);
      tx := tx.(contLen := tx.contLen - n);
      if tx.contLen == 0 { return Result.Done; }
      return Fwd;
    }

    /** ahresp_process */
    method RespProcess() returns (r: Result)
      modifies this`resp, this`tx, this`fl, this`input
      ensures (View(), r) == Chain.RespProcess(old(View()))
    {
      hide W.HeadText;
      var info := W.HeadInfo(resp.code, resp.msg, resp.contentLength, Deref(View(), resp.location), resp.lastModified,
                             resp.contentType, conf.server, fl.keepAlive);
      if resp.code >= 1000 || conf.respBuf < 2 { return Fin; }
      var buf := new byte[conf.respBuf];
      var n := W.BuildHead(buf, info);
      if n < 0 { return Fin; }
      resp := resp.(head := buf[..n], info := info);
      if !fl.headMethod {
        tx := tx.(iov := [Str(HeadMem, 0, n), input]);
      } else {
        tx := tx.(iov := [Str(HeadMem, 0, n), NULL]);
        fl := fl.(respDone := true);
      }
      input := input.(len := 0);
      return Result.Done;
    }

    /** One accepted ffsock_sendv of n bytes, and ffiovec_array_shift. */
    method SendSome(n: nat)
      modifies this`tx
      ensures View() == SendOne(old(View()), n)
    {
      hide Total, Shift, IovBytes;
      var total := Total(tx.iov);
      var k := Clip(n, if total > 0 then 1 else 0, total);
      var data := IovBytes(View(), tx.iov);
      tx := tx.(sent := tx.sent + (if k <= |data| then data[..k] else data));
      tx := tx.(iov := Shift(tx.iov, k));
      if Total(tx.iov) == 0 { tx := tx.(iov := []); }
    }

    /** ahsend_process */
    method SendProcess(e: Env) returns (r: Result)
      modifies this`tx, this`input
      ensures (View(), r) == Chain.SendProcess(old(View()), e)
    {
      hide SendOne;
      if input.len != 0 {
        tx := tx.(iov := [input]);
        input := input.(len := 0);
      }
      ghost var c1 := View();
      var k := 0;
      while tx.iov != []
        invariant 0 <= k <= |e.sends| && SendLoop(View(), e.sends[k..]) == SendLoop(c1, e.sends)
        decreases |e.sends| - k
      {
        if k == |e.sends| || e.sends[k].SendWait? {
          tx := tx.(timer := true);
          return Async;
        }
        if e.sends[k].SendError? { return Err; }
        assert e.sends[k..][1..] == e.sends[k + 1..];
        SendSome(e.sends[k].n);
        k := k + 1;
      }
      tx := tx.(timer := false);
      if fl.respDone { return Result.Done; }
      return Back;
    }

    /** accesslog_process */
    method AccesslogProcess(e: Env) returns (r: Result)
      ensures (View(), r) == LogProcess(View(), e)
    {
      match e.log {
        case LogWait => return Async;
        case LogError => return Err;
        case Logged => return Result.Done;
      }
    }

    // ---------------------------------------------------------- chain engine

    /** The call through the filter's `open` pointer. */
    method Open(i: nat) returns (r: Result)
      modifies this`file, this`resp, this`tx, this`fl
      ensures (View(), r) == Chain.Open(old(View()), i)
    {
      hide Chain.FileOpen, Chain.TransOpen;
      if i == INDEX {
        r := IndexOpen(View());
      } else if i == AUTO {
        r := AutoOpen(View());
      } else if i == FILE {
        r := FileOpen();
      } else if i == ERROR {
        r := if fl.respErr then Fwd else Skip;
      } else if i == TRANS {
        r := TransOpen();
      } else {
        r := Fwd;
      }
    }

    /** The call through the filter's `process` pointer. */
    method Process(i: nat, e: Env) returns (r: Result)
      modifies this`rx, this`req, this`file, this`resp, this`tx, this`fl, this`input, this`output
      ensures (View(), r) == Chain.Process(old(View()), i, e)
    {
      hide RecvProcess, ReqProcess, Chain.IndexProcess, AutoProcess, Chain.FileProcess, ErrorProcess, Chain.TransProcess,
           Chain.RespProcess, Chain.SendProcess, LogProcess;
      if i == RECV {
        r := RecvRead(e);
      } else if i == REQ {
        r := ReqRead();
      } else if i == INDEX {
        r := IndexProcess(e);
      } else if i == AUTO {
        r := AutoindexProcess(e);
      } else if i == FILE {
        r := FileProcess(e);
      } else if i == ERROR {
        r := ErrProcess();
      } else if i == TRANS {
        r := TransProcess();
      } else if i == RESP {
        r := RespProcess();
      } else if i == SEND {
        r := SendProcess(e);
      } else {
        r := AccesslogProcess(e);
      }
    }

    /** The first part of cl_filter_call: open the filter on its first call. */
    method OpenOnce(i: nat)
      requires i < N && Sized(eng)
      modifies this`eng, this`file, this`resp, this`tx, this`fl, this`output
      ensures View() == OpenCall(old(View()), i) && Sized(eng)
    {
      hide Chain.Open;
      if eng.mods[i].isOpen || eng.mods[i].done { return; }
      var r := Open(i);
      eng := eng.(calls := eng.calls[i := eng.calls[i] + 1]);
      if r == Skip || r == Err {
        eng := eng.(mods := eng.mods[i := Mod(false, true)]);
        output := input;
      } else {
        eng := eng.(mods := eng.mods[i := Mod(true, false)], opens := eng.opens[i := eng.opens[i] + 1]);
      }
    }

    /** cl_filter_call */
    method FilterCall(i: nat, e: Env) returns (r: Result)
      requires i < N && Sized(eng)
      modifies this
      ensures (View(), r) == Chain.FilterCall(old(View()), i, e) && Sized(eng) && imod == old(imod)
    {
      hide Chain.Process, OpenCall, Deref;
      OpenOnce(i);
      if i == TRANS && !eng.chainBack { fed := fed + [Deref(View(), input)]; }
      assert View() == Feed(OpenCall(old(View()), i), i);
      if !eng.mods[i].done {
        r := Process(i, e);
      } else {
        r := if !eng.chainBack then Fwd else Back;
        output := input;
      }
    }

    // ---------------------------------------------------------------- closing

    /** ahreq_close */
    method ReqClose()
      modifies this`rx
      ensures rx == CloseReq(old(View()))
    {
      if eng.ka {
        rx := rx.(buf := if req.full.len <= |rx.buf| then rx.buf[req.full.len..] else []);
        rx := rx.(unprocessed := rx.buf != []);
      } else {
        rx := rx.(buf := []);
      }
    }

    /** The call through the filter's `close` pointer. */
    method Close(i: nat)
      modifies this`rx, this`tx, this`file
      ensures rx == if i == RECV then old(rx).(timer := false) else if i == REQ then CloseReq(old(View())) else old(rx)
      ensures file == if i == FILE then old(file).(fd := false, buf := []) else old(file)
      ensures tx == if i == SEND then old(tx).(timer := false) else old(tx)
    {
      hide CloseReq;
      if i == RECV {
        rx := rx.(timer := false);
      } else if i == REQ {
        ReqClose();
      } else if i == FILE {
        file := file.(fd := false, buf := []);
      } else if i == SEND {
        tx := tx.(timer := false);
      }
    }

    /** cl_mods_close: the loop over the filters. */
    method ModsClose()
      requires Sized(eng)
      modifies this`eng, this`rx, this`tx, this`file
      ensures View() == CloseMods(old(View())) && Sized(eng)
    {
      hide CloseMods, CloseReq, ClosedTo;
      ghost var c := View();
      ClosedNone(c);
      for i := 0 to N
        invariant Sized(eng) && eng.mods == c.eng.mods && View() == ClosedTo(c, i)
      {
        ClosedNext(c, i);
        if eng.mods[i].isOpen {
          Close(i);
          eng := eng.(closes := eng.closes[i := eng.closes[i] + 1]);
        }
      }
      ClosedAll(c);
    }

    /** cl_reset: everything but the receive buffer and what lives as long as the connection is
        cleared. */
    method Reset()
      requires Sized(eng)
      modifies this
      ensures View() == Chain.Reset(old(View())) && Sized(eng)
    {
      hide CloseMods, Fresh;
      eng := eng.(ka := true);
      ModsClose();
      Zero();
    }

    /** ffmem_zero from the first field that belongs to one request. */
    method Zero()
      requires Sized(eng)
      modifies this
      ensures View() == Fresh(conf, old(eng), old(rx)) && Sized(eng)
    {
      hide NoMods, NoCounts;
      eng := eng.(ka := false, chainBack := false, mods := NoMods(), calls := NoCounts());
      rx := rx.(timer := false, tried := []);
      req, file, resp, tx, fl := R.REQ0, FILE0, RESP0, TX0, FLAGS0;
      input, output, fed, imod := NULL, NULL, [], 0;
    }

    /** cl_keepalive; the exchange goes on record first. */
    method Keepalive() returns (r: int)
      requires Sized(eng)
      modifies this
      ensures Sized(eng)
      ensures match KeepAlive(old(View()))
              case Go(c, i) => r == 0 && i == 0 && View() == c
              case Closed(c) => r == -1 && CloseMods(View()) == c
              case _ => false
    {
      hide Chain.Reset, CloseMods, ThisExchange;
      eng := eng.(log := eng.log + [ThisExchange(View())]);
      if !fl.keepAlive { return -1; }
      eng := eng.(keepAliveN := (eng.keepAliveN + 1) % KEEPALIVE_MOD);
      if eng.keepAliveN == conf.maxKeepAlive { return -1; }
      Reset();
      return 0;
    }

    /** The switch of the loop: the next position of the cursor, or that the loop is left. */
    method Turn(i: nat, r: Result) returns (m: Move)
      requires i < N && Sized(eng) && !Switch(View(), i, r).Panic?
      modifies this
      ensures Sized(eng)
      ensures match Switch(old(View()), i, r)
              case Go(c, j) => m == To(j) && View() == c
              case Wait(c, j) => m == Suspend && View() == c && imod == j
              case Closed(c) => m == End && CloseMods(View()) == c
              case Panic => false
    {
      hide KeepAlive, CloseMods, Forward;
      match r {
        case Back =>
          input := NULL;
          eng := eng.(chainBack := true);
          return To(i - 1);
        case Async =>
          imod := i;
          return Suspend;
        case Err => return End;
        case Fin => return End;
        case Fwd => m := Advance(i);
        case Skip =>
          Finish(i);
          m := Advance(i);
        case Done =>
          Finish(i);
          m := Advance(i);
      }
    }

    method Finish(i: nat)
      requires i < N && Sized(eng)
      modifies this`eng
      ensures View() == MarkDone(old(View()), i) && Sized(eng)
    {
      eng := eng.(mods := eng.mods[i := eng.mods[i].(done := true)]);
    }

    /** The forward move, after the last filter to the next request. */
    method Advance(i: nat) returns (m: Move)
      requires i < N && Sized(eng)
      modifies this
      ensures Sized(eng)
      ensures match Forward(old(View()), i)
              case Go(c, j) => m == To(j) && View() == c
              case Closed(c) => m == End && CloseMods(View()) == c
              case _ => false
    {
      hide KeepAlive, CloseMods;
      input := output;
      output := NULL;
      eng := eng.(chainBack := false);
      if i + 1 < N { return To(i + 1); }
      var k := Keepalive();
      return if k == 0 then To(0) else End;
    }

    /** cl_filters_process: true when it waits for an event, false when the connection was
        destroyed. The loop ends. */
    method FiltersProcess(env: nat -> Env) returns (alive: bool)
      requires Inv(View(), imod)
      modifies this
      ensures Sized(eng)
      ensures if alive then ChainRun.Processed(old(View()), old(imod), env, 0) == Wait(View(), imod)
              else ChainRun.Processed(old(View()), old(imod), env, 0) == Closed(View())
    {
      hide Inv, Step, Less, Remaining, ChainRun.PhaseOf, ChainRun.LeftOf, ChainRun.PlaceOf, CloseMods, Switch;
      var i, k := imod, 0;
      ghost var all := ChainRun.Processed(View(), i, env, 0);
      while true
        invariant Inv(View(), i) && ChainRun.Processed(View(), i, env, k) == all
        decreases Remaining(View()), ChainRun.PhaseOf(View(), i), ChainRun.LeftOf(View(), i), ChainRun.PlaceOf(View(), i)
      {
        ghost var c := View();
        ChainRun.StepGood(c, i, env(k));
        StepIs(c, i, env(k));
        var r := FilterCall(i, env(k));
        var m := Turn(i, r);
        match m {
          case To(j) =>
            ChainSteps.InvFacts(View(), j);
            ChainRun.Smaller(View(), j, c, i);
            i, k := j, k + 1;
          case Suspend => return true;
          case End =>
            ModsClose();
            return false;
        }
      }
    }
  }

  /** Where the loop goes. */
  datatype Move = To(i: nat) | Suspend | End

  lemma StepIs(c: Cl, i: nat, e: Env)
    requires i < N && Sized(c.eng)
    ensures Step(c, i, e) == Switch(Chain.FilterCall(c, i, e).0, i, Chain.FilterCall(c, i, e).1)
  {
    hide Chain.FilterCall, Switch;
  }

  /** The client when the filters before the i-th are closed. */
  function ClosedTo(c: Cl, i: nat): Cl
    requires Sized(c.eng)
  {
    var m := c.eng.mods;
    var rx := if i > REQ && m[REQ].isOpen then CloseReq(c) else c.rx;
    c.(rx := rx.(timer := rx.timer && !(i > RECV && m[RECV].isOpen)),
       tx := c.tx.(timer := c.tx.timer && !(i > SEND && m[SEND].isOpen)),
       file := if i > FILE && m[FILE].isOpen then c.file.(fd := false, buf := []) else c.file,
       eng := c.eng.(closes := seq(N, k requires 0 <= k < N => c.eng.closes[k] + (if k < i && m[k].isOpen then 1 else 0))))
  }

  lemma ClosedNone(c: Cl)
    requires Sized(c.eng)
    ensures ClosedTo(c, 0) == c
  {
    assert ClosedTo(c, 0).eng.closes == c.eng.closes;
  }

  lemma ClosedAll(c: Cl)
    requires Sized(c.eng)
    ensures ClosedTo(c, N) == CloseMods(c)
  {
    hide CloseReq;
    assert ClosedTo(c, N).eng.closes == CloseMods(c).eng.closes;
  }

  /** Closing the i-th filter. */
  lemma ClosedNext(c: Cl, i: nat)
    requires Sized(c.eng) && i < N
    ensures var a, b := ClosedTo(c, i), ClosedTo(c, i + 1);
            if c.eng.mods[i].isOpen then
              && b == a.(rx := b.rx, tx := b.tx, file := b.file, eng := a.eng.(closes := a.eng.closes[i := a.eng.closes[i] + 1]))
              && b.rx == (if i == RECV then a.rx.(timer := false) else if i == REQ then CloseReq(a) else a.rx)
              && b.tx == (if i == SEND then a.tx.(timer := false) else a.tx)
              && b.file == (if i == FILE then a.file.(fd := false, buf := []) else a.file)
            else a == b
  {
    var a, b := ClosedTo(c, i), ClosedTo(c, i + 1);
    if c.eng.mods[i].isOpen {
      assert b.eng.closes == a.eng.closes[i := a.eng.closes[i] + 1];
    } else {
      assert b.eng.closes == a.eng.closes;
    }
  }
}

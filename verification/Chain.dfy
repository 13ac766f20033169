/** One client connection as a value: the fields of the client structure, the filters as
    functions on it, the chain engine that moves a cursor over the filters, and the answers of
    the outside world to each call. */
module Chain {
  import opened Bytes
  import R = Request
  import W = Http1Writers

  // ------------------------------------------------------------------ state

  datatype Conf = Conf(maxKeepAlive: nat, recvBuf: nat, respBuf: nat, fileBuf: nat,
                       www: bytes, index: bytes, server: bytes, normalize: bytes -> bytes)

  /** The memory a string points into. */
  datatype Mem = NoMem | FileMem | DirMem | MsgMem | HeadMem

  /** ffstr: a reference, whose bytes are those the memory holds now. */
  datatype Str = Str(mem: Mem, off: nat, len: nat)

  const NULL := Str(NoMem, 0, 0)

  datatype Mod = Mod(isOpen: bool, done: bool)

  /** A finished request and its response. `fed` is what the transfer filter was given, `file` the
      contents of the file when one was served, `listing` those of a directory, and `failed` is
      set for an error status. */
  datatype Exchange = Exchange(request: bytes, headMethod: bool, info: W.HeadInfo, head: bytes, length: nat,
                               fed: seq<bytes>, file: Option<bytes>, listing: bytes, failed: bool, sent: bytes)

  /** What only the engine touches. Beside the program's fields: the finished exchanges, how often
      each filter was opened for this request, and how often each was opened and closed on the
      connection. */
  datatype Engine = Engine(keepAliveN: nat, ka: bool, chainBack: bool, mods: seq<Mod>,
                           log: seq<Exchange>, calls: seq<nat>, opens: seq<nat>, closes: seq<nat>)

  /** The receive buffer; also everything received on the connection, and the buffer as it was
      at the last parsing attempt for this request. */
  datatype Rx = Rx(buf: bytes, cap: nat, unprocessed: bool, timer: bool, received: bytes, tried: bytes)

  /** The file and its one buffer; also the file's contents, what was read of it so far and
      what is still unread. */
  datatype File = File(fd: bool, buf: bytes, state: nat, content: bytes, read: bytes, disk: bytes)

  /** The response; also the contents of its head, as they were when it was built. */
  datatype Resp = Resp(code: nat, contentLength: Option<nat>, msg: bytes, location: Str, contentType: bytes,
                       lastModified: bytes, head: bytes, dir: bytes, info: W.HeadInfo)

  /** Sending; also the bytes that the socket has accepted for this response. */
  datatype Tx = Tx(iov: seq<Str>, timer: bool, contLen: nat, sent: bytes)

  datatype Flags = Flags(headMethod: bool, keepAlive: bool, respErr: bool, respDone: bool)

  /** The client structure; `fed` is what the transfer filter was given for this request. */
  datatype Cl = Cl(conf: Conf, eng: Engine, rx: Rx, req: R.Req, file: File, resp: Resp, tx: Tx, fl: Flags,
                   input: Str, output: Str, fed: seq<bytes>)

  /** Positions of the built-in filters (src/http/filters.c). */
  const RECV := 0
  const REQ := 1
  const INDEX := 2
  const AUTO := 3
  const FILE := 4
  const ERROR := 5
  const TRANS := 6
  const RESP := 7
  const SEND := 8
  const LOG := 9
  const N := 10

  function Memory(c: Cl, m: Mem): bytes
  {
    match m
    case NoMem => []
    case FileMem => c.file.buf
    case DirMem => c.resp.dir
    case MsgMem => c.resp.msg
    case HeadMem => c.resp.head
  }

  /** The bytes a reference stands for now. */
  function Deref(c: Cl, s: Str): bytes
  {
    var m := Memory(c, s.mem);
    if s.off + s.len <= |m| then m[s.off..s.off + s.len] else []
  }

  predicate InBounds(c: Cl, s: Str) { s.len == 0 || s.off + s.len <= |Memory(c, s.mem)| }

  function IovBytes(c: Cl, iov: seq<Str>): bytes
  {
    if iov == [] then [] else Deref(c, iov[0]) + IovBytes(c, iov[1..])
  }

  function Total(iov: seq<Str>): nat
  {
    if iov == [] then 0 else iov[0].len + Total(iov[1..])
  }

  /** ffiovec_array_shift: drop n bytes from the front; the elements stay in place. */
  function Shift(iov: seq<Str>, n: nat): seq<Str>
  {
    if iov == [] then []
    else
      var s := iov[0];
      var k := if n < s.len then n else s.len;
      [Str(s.mem, s.off + k, s.len - k)] + Shift(iov[1..], n - k)
  }

  // ------------------------------------------------------- the outside world

  datatype RecvResult = RecvWait | RecvError | RecvData(data: bytes)   // no data: closed by the peer
  datatype DirResult = DirMissing | DirError | Listing(html: bytes)
  datatype OpenResult = OpenWait | OpenMissing | OpenError | Opened(content: bytes)
  datatype InfoResult = InfoWait | InfoError | Info(isDir: bool, size: nat, lastModified: bytes, contentType: bytes)
  datatype ReadResult = ReadWait | ReadError | ReadSome(n: nat)
  datatype SendResult = SendWait | SendError | Sent(n: nat)
  datatype LogResult = LogWait | LogError | Logged

  /** The answers to the calls that one filter call may make. Every combination is possible:
      amounts are cut to what the call can transfer. */
  datatype Env = Env(recv: RecvResult, indexFound: bool, dir: DirResult, open: OpenResult, info: InfoResult,
                     read: ReadResult, sends: seq<SendResult>, log: LogResult)

  function Clip(n: nat, lo: nat, hi: nat): (m: nat)
    requires lo <= hi
    ensures lo <= m <= hi
  {
    if n < lo then lo else if n > hi then hi else n
  }

  // ---------------------------------------------------------------- statuses

  /** The messages of the statuses that the filters set (src/util/http1-status.h). */
  function StatusMsg(code: nat): bytes
  {
    if code == 200 then Ascii("OK")
    else if code == 301 then Ascii("Moved Permanently")
    else if code == 304 then Ascii("Not Modified")
    else if code == 400 then Ascii("Bad Request")
    else if code == 403 then Ascii("Forbidden")
    else if code == 404 then Ascii("Not Found")
    else if code == 405 then Ascii("Method Not Allowed")
    else Ascii("Internal Server Error")
  }

  /** cl_resp_status */
  function SetStatus(c: Cl, code: nat): (c': Cl)
    ensures c'.eng == c.eng
  {
    c.(resp := c.resp.(code := code, msg := StatusMsg(code)),
       fl := c.fl.(respErr := true, keepAlive := c.fl.keepAlive && code != 400))
  }

  /** cl_resp_status_ok */
  function Ok(resp: Resp): Resp { resp.(code := 200, msg := StatusMsg(200)) }

  // ----------------------------------------------------------------- filters

  datatype Result = Done | Fwd | Back | Async | Skip | Err | Fin

  predicate EndsWithSlash(s: bytes) { s != [] && s[|s| - 1] == SLASH }

  const GET: bytes := Ascii("GET")
  const HEAD: bytes := Ascii("HEAD")
  const HTTP_SCHEME: bytes := Ascii("http://")
  const TEXT_PLAIN: bytes := Ascii("text/plain")

  /** ahrecv_read */
  function RecvProcess(c: Cl, e: Env): (r: (Cl, Result))
    ensures r.0.eng == c.eng
  {
    if c.fl.respDone then (c, Done)
    else if c.rx.unprocessed then (c, Fwd)
    else
      var rx := if c.rx.cap == 0 then c.rx.(cap := c.conf.recvBuf) else c.rx;
      match e.recv
      case RecvWait => (c.(rx := rx.(timer := true)), Async)
      case RecvError => (c.(rx := rx), Err)
      case RecvData(data) =>
        var room := if |rx.buf| <= rx.cap then rx.cap - |rx.buf| else 0;
        var d := if |data| <= room then data else data[..room];
        if d == [] then (c.(rx := rx), Fin)
        else (c.(rx := rx.(buf := rx.buf + d, timer := false, received := rx.received + d)), Fwd)
  }

  /** ahreq_read */
  function ReqProcess(c: Cl): (r: (Cl, Result))
    ensures r.0.eng == c.eng
  {
    var p := R.Parse(c.conf.normalize, c.rx.buf, c.req);
    var c1 := c.(rx := c.rx.(unprocessed := false, tried := c.rx.buf), req := p.req);
    if p.done then
      var c2 := c1.(fl := c1.fl.(keepAlive := p.keepAlive));
      (if p.bad then SetStatus(c2, 400) else c2, Done)
    else (c1, if |c.rx.buf| == c.rx.cap then Err else Back)
  }

  /** index_open */
  function IndexOpen(c: Cl): Result
  {
    if c.fl.respErr || c.resp.code != 0 || !EndsWithSlash(c.req.unescaped) then Skip else Fwd
  }

  /** index_process */
  function IndexProcess(c: Cl, e: Env): (r: (Cl, Result))
    ensures r.0.eng == c.eng
  {
    (if e.indexFound then c.(req := c.req.(unescaped := c.req.unescaped + c.conf.index)) else c, Done)
  }

  /** autoindex_open */
  function AutoOpen(c: Cl): Result
  {
    if c.fl.respErr || !EndsWithSlash(c.req.unescaped) then Skip else Fwd
  }

  /** autoindex_process */
  function AutoProcess(c: Cl, e: Env): (r: (Cl, Result))
    ensures r.0.eng == c.eng
  {
    match e.dir
    case DirMissing => (SetStatus(c, 404), Done)
    case DirError => (SetStatus(c, 403), Done)
    case Listing(html) =>
      (c.(resp := Ok(c.resp.(dir := html, contentLength := Some(|html|))), fl := c.fl.(respDone := true),
          output := Str(DirMem, 0, |html|)), Done)
  }

  /** file_open */
  function FileOpen(c: Cl): (r: (Cl, Result))
    ensures r.0.eng == c.eng
  {
    if c.fl.respErr || c.resp.code != 0 then (c, Skip)
    else
      var verb := Slice(c.req.verb, c.rx.buf);
      var c1 := c.(fl := c.fl.(headMethod := verb == HEAD));
      if verb != GET && verb != HEAD then (SetStatus(c1, 405), Skip)
      else if |c.conf.www| + |c.req.unescaped| + 1 > c.conf.fileBuf then (c1, Err)
      else (c1.(file := c.file.(fd := false, buf := c.conf.www + c.req.unescaped + [0])), Fwd)
  }

  /** s written at the start of the memory m. */
  function Overwrite(m: bytes, s: bytes): (r: bytes)
    ensures |r| >= |s| && r[..|s|] == s
  {
    s + (if |m| > |s| then m[|s|..] else [])
  }

  /** handle_redirect: the location is written over the file name; nothing is when it does not
      fit the buffer. */
  function Redirect(c: Cl): (c': Cl)
    ensures c'.eng == c.eng
  {
    var text := HTTP_SCHEME + Slice(c.req.host, c.rx.buf) + Slice(c.req.path, c.rx.buf) + [SLASH];
    var loc := if |text| <= c.conf.fileBuf then text else [];
    var c1 := SetStatus(c, 301);
    c1.(file := c.file.(buf := Overwrite(c.file.buf, loc)), resp := c1.resp.(location := Str(FileMem, 0, |loc|)))
  }

  /** f_open */
  function FOpen(c: Cl, e: Env): (r: (Cl, Result))
    ensures r.0.eng == c.eng
  {
    match e.open
    case OpenWait => (c, Async)
    case OpenMissing => (SetStatus(c, 404), Done)
    case OpenError => (SetStatus(c, 500), Done)
    case Opened(content) =>
      (c.(file := c.file.(fd := true, state := 1, content := content, read := [], disk := content)), Fwd)
  }

  /** f_info for a file that is not a directory: mtime, then content_type and the status. */
  function FRegular(c: Cl, size: nat, lm: bytes, ct: bytes): (r: (Cl, Result))
    ensures r.0.eng == c.eng
  {
    var c1 := c.(resp := c.resp.(lastModified := lm));
    if c.req.ims.len != 0 && Slice(c.req.ims, c.rx.buf) == lm then (SetStatus(c1, 304), Done)
    else
      var c2 := c1.(resp := Ok(c1.resp.(contentType := ct, contentLength := Some(size))));
      if c.fl.headMethod then (c2.(fl := c2.fl.(respDone := true)), Done)
      else (c2.(file := c2.file.(state := 2)), Fwd)
  }

  /** f_info */
  function FInfo(c: Cl, e: Env): (r: (Cl, Result))
    ensures r.0.eng == c.eng
  {
    match e.info
    case InfoWait => (c, Async)
    case InfoError => (SetStatus(c, 403), Done)
    case Info(isDir, size, lm, ct) =>
      if isDir then (Redirect(c), Done) else FRegular(c, size, lm, ct)
  }

  /** The read of file_process. */
  function FRead(c: Cl, e: Env): (r: (Cl, Result))
    ensures r.0.eng == c.eng
  {
    match e.read
    case ReadWait => (c, Async)
    case ReadError => (c, Err)
    case ReadSome(n) =>
      if c.file.disk == [] || c.conf.fileBuf == 0 then (c.(fl := c.fl.(respDone := true)), Done)
      else
        var m := Clip(n, 1, if |c.file.disk| < c.conf.fileBuf then |c.file.disk| else c.conf.fileBuf);
        var data := c.file.disk[..m];
        (c.(file := c.file.(buf := Overwrite(c.file.buf, data), read := c.file.read + data, disk := c.file.disk[m..]),
            output := Str(FileMem, 0, m)), Fwd)
  }

  /** file_process: open, then the file's properties, then one read; each part may have been done
      by an earlier call. */
  function FileProcess(c: Cl, e: Env): (r: (Cl, Result))
    ensures r.0.eng == c.eng
  {
    var (c1, r1) := if c.file.state == 0 then FOpen(c, e) else (c, Fwd);
    if r1 != Fwd then (c1, r1)
    else
      var (c2, r2) := if c1.file.state == 1 then FInfo(c1, e) else (c1, Fwd);
      if r2 != Fwd then (c2, r2) else FRead(c2, e)
  }

  /** aherr_process */
  function ErrorProcess(c: Cl): (r: (Cl, Result))
    ensures r.0.eng == c.eng
  {
    (c.(resp := c.resp.(contentType := TEXT_PLAIN, contentLength := Some(|c.resp.msg|)),
        fl := c.fl.(respDone := true), output := Str(MsgMem, 0, |c.resp.msg|)), Done)
  }

  /** ahtrans_open */
  function TransOpen(c: Cl): (r: (Cl, Result))
    ensures r.0.eng == c.eng
  {
    if c.resp.contentLength.None? then (c.(fl := c.fl.(keepAlive := false)), Skip)
    else (c.(tx := c.tx.(contLen := c.resp.contentLength.value)), Fwd)
  }

  /** ahtrans_process */
  function TransProcess(c: Cl): (r: (Cl, Result))
    ensures r.0.eng == c.eng
  {
    if c.eng.chainBack then (c, Back)
    else
      var n := if c.input.len < c.tx.contLen then c.input.len else c.tx.contLen;
      (c.(output := c.input.(len := n), tx := c.tx.(contLen := c.tx.contLen - n)),
       if c.tx.contLen - n == 0 then Done else Fwd)
  }

  function HeadInfoOf(c: Cl): W.HeadInfo
  {
    W.HeadInfo(c.resp.code, c.resp.msg, c.resp.contentLength, Deref(c, c.resp.location), c.resp.lastModified,
               c.resp.contentType, c.conf.server, c.fl.keepAlive)
  }

  /** ahresp_process */
  function RespProcess(c: Cl): (r: (Cl, Result))
    ensures r.0.eng == c.eng
  {
    var info := HeadInfoOf(c);
    if c.resp.code >= 1000 || c.conf.respBuf < 2 then (c, Fin)
    else match W.HeadText(c.conf.respBuf, info)
         case None => (c, Fin)
         case Some(head) =>
           (c.(resp := c.resp.(head := head, info := info),
               tx := c.tx.(iov := [Str(HeadMem, 0, |head|), if c.fl.headMethod then NULL else c.input]),
               fl := c.fl.(respDone := c.fl.respDone || c.fl.headMethod), input := c.input.(len := 0)), Done)
  }

  /** One accepted ffsock_sendv of n bytes, and the drop of what was accepted. */
  function SendOne(c: Cl, n: nat): (c': Cl)
    ensures c'.eng == c.eng
  {
    var total := Total(c.tx.iov);
    var k := Clip(n, if total > 0 then 1 else 0, total);
    var data := IovBytes(c, c.tx.iov);
    var iov := Shift(c.tx.iov, k);
    c.(tx := c.tx.(iov := if Total(iov) == 0 then [] else iov,
                   sent := c.tx.sent + (if k <= |data| then data[..k] else data)))
  }

  /** The loop of ahsend_process: send, drop what was accepted, until nothing is left. */
  function SendLoop(c: Cl, sends: seq<SendResult>): (r: (Cl, Result))
    ensures r.0.eng == c.eng
    decreases |sends|
  {
    if c.tx.iov == [] then (c, Fwd)
    else if sends == [] || sends[0].SendWait? then (c.(tx := c.tx.(timer := true)), Async)
    else if sends[0].SendError? then (c, Err)
    else SendLoop(SendOne(c, sends[0].n), sends[1..])
  }

  /** ahsend_process */
  function SendProcess(c: Cl, e: Env): (r: (Cl, Result))
    ensures r.0.eng == c.eng
  {
    var c1 := if c.input.len != 0 then c.(tx := c.tx.(iov := [c.input]), input := c.input.(len := 0)) else c;
    var (c2, r) := SendLoop(c1, e.sends);
    if r != Fwd then (c2, r)
    else (c2.(tx := c2.tx.(timer := false)), if c2.fl.respDone then Done else Back)
  }

  /** accesslog_process */
  function LogProcess(c: Cl, e: Env): (r: (Cl, Result))
    ensures r.0.eng == c.eng
  {
    match e.log
    case LogWait => (c, Async)
    case LogError => (c, Err)
    case Logged => (c, Done)
  }

  // ------------------------------------------------------------ chain engine

  /** The `open` functions; memory is always available. */
  function Open(c: Cl, i: nat): (r: (Cl, Result))
    ensures r.0.eng == c.eng
  {
    if i == INDEX then (c, IndexOpen(c))
    else if i == AUTO then (c, AutoOpen(c))
    else if i == FILE then FileOpen(c)
    else if i == ERROR then (c, if c.fl.respErr then Fwd else Skip)
    else if i == TRANS then TransOpen(c)
    else (c, Fwd)
  }

  /** The `process` functions. */
  function Process(c: Cl, i: nat, e: Env): (r: (Cl, Result))
    ensures r.0.eng == c.eng
  {
    if i == RECV then RecvProcess(c, e)
    else if i == REQ then ReqProcess(c)
    else if i == INDEX then IndexProcess(c, e)
    else if i == AUTO then AutoProcess(c, e)
    else if i == FILE then FileProcess(c, e)
    else if i == ERROR then ErrorProcess(c)
    else if i == TRANS then TransProcess(c)
    else if i == RESP then RespProcess(c)
    else if i == SEND then SendProcess(c, e)
    else LogProcess(c, e)
  }

  predicate Sized(g: Engine) { |g.mods| == |g.calls| == |g.opens| == |g.closes| == N }

  /** The engine's bookkeeping when filter i was opened, or declined. */
  function Opening(g: Engine, i: nat, declined: bool): (g': Engine)
    requires i < N && Sized(g)
    ensures Sized(g')
  {
    var g1 := g.(calls := g.calls[i := g.calls[i] + 1]);
    if declined then g1.(mods := g.mods[i := Mod(false, true)])
    else g1.(mods := g.mods[i := Mod(true, false)], opens := g.opens[i := g.opens[i] + 1])
  }

  /** First part of cl_filter_call: open the filter on its first call. An `open` that fails is
      treated like one that declines. */
  function OpenCall(c: Cl, i: nat): (c': Cl)
    requires i < N && Sized(c.eng)
    ensures Sized(c'.eng)
  {
    if c.eng.mods[i].isOpen || c.eng.mods[i].done then c
    else
      var (c1, r) := Open(c, i);
      var declined := r == Skip || r == Err;
      c1.(eng := Opening(c.eng, i, declined), output := if declined then c1.input else c1.output)
  }

  /** What the transfer filter is given, or what passes it by, on a forward pass. */
  function Feed(c: Cl, i: nat): (c': Cl)
    ensures c'.eng == c.eng
  {
    if i == TRANS && !c.eng.chainBack then c.(fed := c.fed + [Deref(c, c.input)]) else c
  }

  /** cl_filter_call */
  function FilterCall(c: Cl, i: nat, e: Env): (r: (Cl, Result))
    requires i < N && Sized(c.eng)
    ensures Sized(r.0.eng)
  {
    var c1 := Feed(OpenCall(c, i), i);
    if !c1.eng.mods[i].done then Process(c1, i, e)
    else (c1.(output := c1.input), if c1.eng.chainBack then Back else Fwd)
  }

  /** ahreq_close */
  function CloseReq(c: Cl): Rx
  {
    if !c.eng.ka then c.rx.(buf := [])
    else
      var rest := if c.req.full.len <= |c.rx.buf| then c.rx.buf[c.req.full.len..] else [];
      c.rx.(buf := rest, unprocessed := rest != [])
  }

  /** cl_mods_close: the `close` functions of the filters that were opened. */
  function CloseMods(c: Cl): (c': Cl)
    requires Sized(c.eng)
    ensures Sized(c'.eng)
  {
    var m := c.eng.mods;
    var rx := if m[REQ].isOpen then CloseReq(c) else c.rx;
    c.(rx := rx.(timer := rx.timer && !m[RECV].isOpen),
       tx := c.tx.(timer := c.tx.timer && !m[SEND].isOpen),
       file := if m[FILE].isOpen then c.file.(fd := false, buf := []) else c.file,
       eng := c.eng.(closes := seq(N, k requires 0 <= k < N => c.eng.closes[k] + (if m[k].isOpen then 1 else 0))))
  }

  const FILE0 := File(false, [], 0, [], [], [])
  const INFO0 := W.HeadInfo(0, [], None, [], [], [], [], false)
  const RESP0 := Resp(0, None, [], NULL, [], [], [], [], INFO0)
  const TX0 := Tx([], false, 0, [])
  const FLAGS0 := Flags(false, false, false, false)

  function NoMods(): (m: seq<Mod>)
    ensures |m| == N && forall k :: 0 <= k < N ==> m[k] == Mod(false, false)
  {
    seq(N, _ => Mod(false, false))
  }

  function NoCounts(): (n: seq<nat>)
    ensures |n| == N && forall k :: 0 <= k < N ==> n[k] == 0
  {
    seq(N, _ => 0)
  }

  /** A zeroed client after cl_init, except for what outlives a request. */
  function Fresh(conf: Conf, eng: Engine, rx: Rx): Cl
  {
    Cl(conf, eng.(ka := false, chainBack := false, mods := NoMods(), calls := NoCounts()),
       rx.(timer := false, tried := []), R.REQ0, FILE0, RESP0, TX0, FLAGS0, NULL, NULL, [])
  }

  /** The exchange that is complete when the last filter is done. */
  function ThisExchange(c: Cl): Exchange
  {
    Exchange(if c.req.full.len <= |c.rx.buf| then c.rx.buf[..c.req.full.len] else [], c.fl.headMethod, c.resp.info,
             c.resp.head, if c.resp.contentLength.Some? then c.resp.contentLength.value else 0, c.fed,
             if c.file.state == 2 then Some(c.file.content) else None, c.resp.dir, c.fl.respErr, c.tx.sent)
  }

  /** cl_reset */
  function Reset(c: Cl): (c': Cl)
    requires Sized(c.eng)
    ensures Sized(c'.eng)
  {
    var c1 := CloseMods(c.(eng := c.eng.(ka := true)));
    Fresh(c.conf, c1.eng, c1.rx)
  }

  /** The history with the exchange that is complete now. */
  function Record(c: Cl): (c': Cl)
    ensures c'.eng == c.eng.(log := c'.eng.log)
  {
    c.(eng := c.eng.(log := c.eng.log + [ThisExchange(c)]))
  }

  /** Outcome of one round of the loop: go on at a filter, wait for an event there, or the
      connection ended (cl_destroy); Panic is the failed assertion. */
  datatype Outcome = Go(c: Cl, i: nat) | Wait(c: Cl, i: nat) | Closed(c: Cl) | Panic

  const KEEPALIVE_MOD: nat := 0x1_0000

  /** cl_keepalive, when the last filter is done; the counter has 16 bits. */
  function KeepAlive(c: Cl): Outcome
    requires Sized(c.eng)
  {
    var c0 := Record(c);
    if !c.fl.keepAlive then Closed(CloseMods(c0))
    else
      var c1 := c0.(eng := c0.eng.(keepAliveN := (c.eng.keepAliveN + 1) % KEEPALIVE_MOD));
      if c1.eng.keepAliveN == c.conf.maxKeepAlive then Closed(CloseMods(c1)) else Go(Reset(c1), 0)
  }

  /** The forward move of cl_filters_process. */
  function Forward(c: Cl, i: nat): Outcome
    requires Sized(c.eng)
  {
    var c1 := c.(input := c.output, output := NULL, eng := c.eng.(chainBack := false));
    if i + 1 < N then Go(c1, i + 1) else KeepAlive(c1)
  }

  function MarkDone(c: Cl, i: nat): (c': Cl)
    requires i < N && Sized(c.eng)
    ensures Sized(c'.eng)
  {
    c.(eng := c.eng.(mods := c.eng.mods[i := c.eng.mods[i].(done := true)]))
  }

  /** The switch of cl_filters_process. */
  function Switch(c: Cl, i: nat, r: Result): Outcome
    requires i < N && Sized(c.eng)
  {
    match r
    case Skip => Forward(MarkDone(c, i), i)
    case Done => Forward(MarkDone(c, i), i)
    case Fwd => Forward(c, i)
    case Back => if i == 0 then Panic else Go(c.(input := NULL, eng := c.eng.(chainBack := true)), i - 1)
    case Async => Wait(c, i)
    case Err => Closed(CloseMods(c))
    case Fin => Closed(CloseMods(c))
  }

  /** One round of the loop of cl_filters_process with the cursor at i. */
  function Step(c: Cl, i: nat, e: Env): Outcome
    requires i < N && Sized(c.eng)
  {
    var (c1, r) := FilterCall(c, i, e);
    Switch(c1, i, r)
  }

  /** A new connection (cl_start). */
  function Start(conf: Conf): Cl
  {
    Fresh(conf, Engine(0, false, false, [], [], [], NoCounts(), NoCounts()), Rx([], 0, false, false, [], []))
  }
}

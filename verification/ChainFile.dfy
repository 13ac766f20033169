/** The file filter keeps the invariant, whatever the calls it makes return: it may wait in any of
    its three states, and produces the file's contents read by read. */
module ChainFile {
  import opened Bytes
  import opened Chain
  import opened ChainEngine
  import opened ChainData
  import opened ChainInv
  import opened ChainSteps
  import opened ChainServe

  // ---------------------------------------------------------- what it makes

  /** The filter is open and may be called. */
  predicate FileReady(c: Cl)
  {
    && c.output == NULL && !c.fl.respErr && !c.fl.respDone && c.resp.code < 1000
    && c.file.state <= 2 && c.conf.fileBuf > 0
    && (c.file.state == 1 ==> c.file.read == [] && c.file.content == c.file.disk)
    && (c.file.state == 2 ==> FileOpened(c))
  }

  predicate FileOpened(c: Cl)
  {
    c.file.content == c.file.read + c.file.disk && !c.fl.headMethod && c.resp.contentLength.Some?
  }

  /** Only the file, the response and flags change, and the response does not once reading has
      begun. */
  ghost predicate FileFrame(c: Cl, c1: Cl)
  {
    && c1 == c.(file := c1.file, resp := c1.resp, fl := c1.fl, output := c1.output)
    && c1.resp.head == c.resp.head && c1.resp.info == c.resp.info
    && c1.resp.code < 1000 && (c1.fl.keepAlive ==> c.fl.keepAlive) && c1.fl.headMethod == c.fl.headMethod
    && (c.file.state == 2 ==> c1.resp == c.resp && c1.file.state == 2)
  }

  function ReadBefore(c: Cl): bytes { if c.file.state == 2 then c.file.read else [] }

  /** What a call makes: more of the contents; a final answer; the end of the file; or it waits. */
  predicate FileMade(c: Cl, c1: Cl, r: Result)
  {
    match r
    case Fwd =>
      && FileOpened(c1) && c1.file.state == 2 && !c1.fl.respErr && !c1.fl.respDone
      && InBounds(c1, c1.output) && c1.output.len > 0 && c1.file.read == ReadBefore(c) + Deref(c1, c1.output)
      && (c.file.state == 2 ==> |c1.file.disk| < |c.file.disk|)
    case Async => FileReady(c1) && ReadBefore(c1) == ReadBefore(c)
    case Done =>
      && c1.output == NULL && c1.file.state <= 2
      && if c1.file.state == 2 then
           FileOpened(c1) && c1.fl.respDone && !c1.fl.respErr && c1.file.disk == [] && c1.file.read == ReadBefore(c)
         else c1.fl.respErr != c1.fl.respDone && (c1.fl.respDone ==> c1.resp.contentLength.Some? && c1.fl.headMethod)
    case Err => true
    case Back => false
    case Skip => false
    case Fin => false
  }

  lemma FOpenMakes(c: Cl, e: Env)
    requires FileReady(c) && c.file.state == 0
    ensures var (c1, r) := FOpen(c, e);
            && FileFrame(c, c1)
            && if r == Fwd then FileReady(c1) && c1.file.state == 1 else FileMade(c, c1, r)
  {
    hide StatusMsg;
  }

  lemma FInfoMakes(c: Cl, e: Env)
    requires FileReady(c) && c.file.state == 1
    ensures var (c1, r) := FInfo(c, e);
            && FileFrame(c, c1)
            && if r == Fwd then FileReady(c1) && c1.file.state == 2 && c1.file.read == [] else FileMade(c, c1, r)
  {
    hide StatusMsg, Redirect, FRegular;
    RedirectMakes(c);
    if e.info.Info? && !e.info.isDir {
      FRegularMakes(c, e.info.size, e.info.lastModified, e.info.contentType);
    }
  }

  lemma FRegularMakes(c: Cl, size: nat, lm: bytes, ct: bytes)
    requires FileReady(c) && c.file.state == 1
    ensures var (c1, r) := FRegular(c, size, lm, ct);
            && FileFrame(c, c1)
            && if r == Fwd then FileReady(c1) && c1.file.state == 2 && c1.file.read == [] else FileMade(c, c1, r)
  {
    hide StatusMsg, Slice;
  }

  lemma RedirectMakes(c: Cl)
    ensures var c1 := Redirect(c);
            && c1 == c.(file := c1.file, resp := c1.resp, fl := c1.fl) && c1.file == c.file.(buf := c1.file.buf)
            && c1.resp.head == c.resp.head && c1.resp.info == c.resp.info && c1.resp.code == 301
            && c1.fl == c.fl.(respErr := true)
  {
    hide StatusMsg, Slice, Overwrite;
  }

  lemma FReadMakes(c: Cl, e: Env)
    requires FileReady(c) && c.file.state == 2
    ensures var (c1, r) := FRead(c, e); FileFrame(c, c1) && FileMade(c, c1, r)
  {
    hide Overwrite;
    if e.read.ReadSome? && c.file.disk != [] {
      ReadPart(c, Clip(e.read.n, 1, if |c.file.disk| < c.conf.fileBuf then |c.file.disk| else c.conf.fileBuf));
    }
  }

  /** A read of m bytes into the buffer. */
  lemma ReadPart(c: Cl, m: nat)
    requires 0 < m <= |c.file.disk| && c.file.content == c.file.read + c.file.disk
    ensures var data := c.file.disk[..m];
            var file := c.file.(buf := Overwrite(c.file.buf, data), read := c.file.read + data, disk := c.file.disk[m..]);
            var c1 := c.(file := file, output := Str(FileMem, 0, m));
            && InBounds(c1, c1.output) && Deref(c1, c1.output) == data && file.content == file.read + file.disk
  {
    var data := c.file.disk[..m];
    assert Overwrite(c.file.buf, data)[0..m] == data;
    hide Overwrite;
    assert c.file.read + c.file.disk == (c.file.read + data) + c.file.disk[m..];
  }

  lemma FileMakes(c: Cl, e: Env)
    requires FileReady(c)
    ensures var (c1, r) := FileProcess(c, e); FileFrame(c, c1) && FileMade(c, c1, r)
  {
    hide FOpen, FInfo, FRead, Deref;
    var (c1, r1) := if c.file.state == 0 then FOpen(c, e) else (c, Fwd);
    if c.file.state == 0 { FOpenMakes(c, e); }
    if r1 == Fwd {
      var (c2, r2) := if c1.file.state == 1 then FInfo(c1, e) else (c1, Fwd);
      if c1.file.state == 1 { FInfoMakes(c1, e); }
      if r2 == Fwd { FReadMakes(c2, e); }
    }
  }

  // ------------------------------------------------------------ its calls

  /** What the invariant says at the file filter. */
  predicate AtFile(c: Cl)
  {
    && Sized(c.eng) && !c.eng.mods[FILE].done && c.output == NULL && c.conf.fileBuf > 0
    && c.resp.code < 1000 && InBounds(c, c.input)
    && if Entered(c.eng, FILE) then FileReady(c) && c.input.len == 0
       else c.file == FILE0 && !c.fl.headMethod && !c.eng.chainBack && !Entered(c.eng, ERROR)
            && (c.fl.respDone <==> c.resp.code != 0 && !c.fl.respErr)
            && (c.fl.respDone ==> c.resp.contentLength.Some?)
            && (c.input.len > 0 ==> c.fl.respDone)
            && |c.conf.www| + |c.req.unescaped| + 1 <= c.conf.fileBuf
  }

  /** The client as the process function sees it. */
  function FileStart(c: Cl): (c0: Cl)
    requires Sized(c.eng)
    ensures Sized(c0.eng)
  {
    (if Entered(c.eng, FILE) then c else FileOpen(c).0).(eng := After(c.eng, FILE, false))
  }

  lemma FileRuns(c: Cl, e: Env)
    requires AtFile(c) && (Entered(c.eng, FILE) || FileOpen(c).1 == Fwd)
    ensures FilterCall(c, FILE, e) == FileProcess(FileStart(c), e) && FileReady(FileStart(c))
    ensures var c0 := FileStart(c);
            c0 == c.(eng := After(c.eng, FILE, false), file := c0.file, fl := c.fl.(headMethod := c0.fl.headMethod))
            && (Entered(c.eng, FILE) ==> c0.fl == c.fl && c0.file == c.file)
            && c0.file == c.file.(fd := c0.file.fd, buf := c0.file.buf)
            && (!Entered(c.eng, FILE) ==> c0.file.state == 0)
    ensures !c.fl.respDone && c.input.len == 0
  {
    hide FileProcess, After, Slice;
    CallRuns(c, FILE, e);
  }

  lemma FilePasses(c: Cl, e: Env)
    requires AtFile(c) && !Entered(c.eng, FILE) && FileOpen(c).1 != Fwd
    ensures var (c1, r) := FilterCall(c, FILE, e);
            && r == Fwd && c1.eng == After(c.eng, FILE, true)
            && c1 == c.(eng := c1.eng, resp := c1.resp, fl := c1.fl, output := c.input)
            && (c1.resp == c.resp || (c1.resp == c.resp.(code := 405, msg := StatusMsg(405)) && c.input.len == 0))
            && c1.resp.code < 1000 && !c1.fl.headMethod && (c1.fl.keepAlive ==> c.fl.keepAlive)
            && (c1.fl.respErr || c1.fl.respDone) && c1.fl.respDone == c.fl.respDone
            && (c1.fl.respDone ==> !c1.fl.respErr && c1.resp.contentLength.Some?)
            && (c1.fl.respErr || (c1.resp == c.resp && c.fl.respDone))
  {
    hide FileProcess, After, Slice, StatusMsg;
    CallPasses(c, FILE, e);
  }

  lemma FileFacts(c: Cl)
    requires Inv(c, FILE)
    ensures AtFile(c) && HasRequest(c.eng) && c.tx.iov == []
    ensures Entered(c.eng, ERROR) <==> Entered(c.eng, FILE) && c.file.state == 2 && c.eng.chainBack
    ensures !c.eng.mods[FILE].done
  {
    hide EngInv, Pipe, Wire, LogOk, AtFile;
    EngAtFile(c.eng, c.fl.respDone);
    PathFits(c, FILE);
    WireParts(c, FILE);
    assert |c.conf.www| + |c.req.unescaped| + 1 <= c.conf.fileBuf && c.conf.fileBuf > 0;
    hide GoodConf;
    ReadyAtFile(c);
  }

  lemma EngAtFile(g: Engine, d: bool)
    requires EngInv(g, FILE, d)
    ensures Sized(g) && HasRequest(g) && !g.mods[FILE].done && (Entered(g, ERROR) ==> g.chainBack)
    ensures g.chainBack ==> Entered(g, FILE) && Entered(g, ERROR)
    ensures Entered(g, ERROR) ==> Entered(g, FILE)
  {
    NotEnteredAfter(g, FILE);
  }

  /** From the parts of the invariant to the file filter's own facts. */
  lemma ReadyAtFile(c: Cl)
    requires Sized(c.eng) && HasRequest(c.eng) && !c.eng.mods[FILE].done && (Entered(c.eng, ERROR) ==> c.eng.chainBack)
    requires c.eng.chainBack ==> Entered(c.eng, FILE) && Entered(c.eng, ERROR)
    requires Entered(c.eng, ERROR) ==> Entered(c.eng, FILE)
    requires Producing(c, FILE) && Reads(c, FILE) && Sending(c, FILE) && c.output == NULL && InBounds(c, c.input)
    requires |c.conf.www| + |c.req.unescaped| + 1 <= c.conf.fileBuf && c.conf.fileBuf > 0
    ensures AtFile(c) && c.tx.iov == []
    ensures Entered(c.eng, ERROR) <==> Entered(c.eng, FILE) && c.file.state == 2 && c.eng.chainBack
  {
    hide Clamp, HeadOk, IovBytes, Deref, Flat;
  }

  lemma NoneAfterError(c: Cl)
    requires Inv(c, FILE)
    ensures Sized(c.eng) && forall k :: ERROR <= k < N && !Entered(c.eng, ERROR) ==> !Entered(c.eng, k)
  {
    hide Pipe, LogOk, Wire, GoodConf, Responding;
    NotEnteredAfter(c.eng, FILE);
  }

  // ------------------------------------------------------------ after a call

  /** From the file filter to the state c2: what every call leaves alone. */
  ghost predicate FileKeeps(c: Cl, c2: Cl)
  {
    && c2 == c.(eng := c2.eng, file := c2.file, resp := c2.resp, fl := c2.fl, input := c2.input)
    && c2.resp.head == c.resp.head && c2.resp.info == c.resp.info && c2.resp.code < 1000
    && (c2.fl.keepAlive ==> c.fl.keepAlive)
    && (c.file.state == 2 ==> c2.resp == c.resp && c2.file.state == 2 && c2.fl.headMethod == c.fl.headMethod)
  }

  lemma FileTransferring(c: Cl, i: nat, c2: Cl)
    requires Sized(c.eng) && Sized(c2.eng) && Transferring(c) && FileKeeps(c, c2)
    requires c2.eng.mods[TRANS] == c.eng.mods[TRANS] && (Entered(c.eng, TRANS) ==> c.file.state == 2)
    ensures Transferring(c2)
  {
    hide Clamp, Finished;
  }

  lemma FileSending(c: Cl, c2: Cl, j: nat)
    requires Sized(c.eng) && Sized(c2.eng) && Sending(c, FILE) && FileKeeps(c, c2) && FILE <= j <= ERROR
    requires c2.eng.mods[RESP] == c.eng.mods[RESP] && (c.eng.mods[RESP].done ==> c.file.state == 2)
    ensures Sending(c2, j)
  {
    hide HeadOk, Clamp, Deref;
  }

  lemma KeepsRest(c: Cl, c2: Cl)
    requires FileKeeps(c, c2)
    ensures c2.rx == c.rx && c2.tx == c.tx && c2.output == c.output && c2.fed == c.fed && c2.conf == c.conf
    ensures c2.req == c.req
  {
  }

  lemma WireParts(c: Cl, i: nat)
    requires Wire(c, i) && HasRequest(c.eng)
    ensures Producing(c, i) && Transferring(c) && Reads(c, i) && Whole(c, i) && Sending(c, i)
    ensures c.output == NULL && InBounds(c, c.input) && (!Entered(c.eng, TRANS) ==> c.fed == [])
    ensures (c.rx.timer ==> c.eng.mods[RECV].isOpen) && (c.tx.timer ==> c.eng.mods[SEND].isOpen)
  {
    hide Transferring, Reads, Sending, InBounds, Whole;
  }

  /** The producer's rules after a call that moves on; m is the filter's own record. */
  predicate FileProduces(c2: Cl, m: Mod)
  {
    && (m.done ==> c2.fl.respDone || c2.fl.respErr)
    && (!m.done ==> c2.file.state == 2 && !c2.fl.respErr && !c2.fl.respDone)
    && (c2.file.state == 2 ==> FileOpened(c2) && !c2.fl.respErr)
    && (c2.file.state == 2 ==> (m.done <==> c2.input.len == 0))
    && (c2.file.state == 2 && m.done ==> c2.file.disk == [])
    && (c2.fl.respErr ==> !c2.fl.respDone)
    && (!c2.fl.respErr ==> c2.resp.contentLength.Some?)
  }

  lemma FileProducing(c: Cl, c2: Cl, m: Mod)
    requires Sized(c.eng) && Producing(c, FILE) && HasRequest(c.eng) && FileKeeps(c, c2)
    requires MovedOn(c.eng, c2.eng, FILE, m) && !c2.eng.chainBack
    requires Entered(c.eng, ERROR) ==> c.file.state == 2
    requires c2.file.state <= 2 && FileProduces(c2, m)
    ensures Producing(c2, ERROR)
  {
  }

  lemma FileReads(c: Cl, c2: Cl)
    requires Sized(c.eng) && Sized(c2.eng) && Reads(c, FILE) && FileKeeps(c, c2)
    requires FileProduces(c2, c2.eng.mods[FILE]) && !c.eng.mods[FILE].done
    requires !Entered(c.eng, ERROR) ==> c.fed == []
    requires Entered(c.eng, ERROR) ==> c.file.state == 2
    requires c2.file.state == 2 ==> c2.file.read == ReadBefore(c) + Deref(c2, c2.input)
    ensures Reads(c2, ERROR)
  {
    hide Deref;
  }

  /** A final answer that is not a file's contents is already complete. */
  predicate FileAnswers(c2: Cl)
  {
    c2.file.state != 2 && !c2.fl.headMethod && !c2.fl.respErr ==>
      Deref(c2, c2.input) == Text(c2) && |Text(c2)| == Length(c2)
  }

  lemma FileWhole(c: Cl, c2: Cl)
    requires Sized(c.eng) && Sized(c2.eng) && FileKeeps(c, c2) && FileAnswers(c2)
    requires Entered(c.eng, ERROR) ==> c.file.state == 2
    requires Entered(c2.eng, ERROR) <==> Entered(c.eng, ERROR)
    requires Entered(c2.eng, TRANS) ==> Entered(c.eng, ERROR)
    ensures Whole(c2, ERROR)
  {
    hide Flat;
  }

  /** The parts of the invariant about the response, after a call that moves on. */
  lemma FileWire(c: Cl, c2: Cl, m: Mod)
    requires Wire(c, FILE) && AtFile(c) && HasRequest(c.eng) && FileKeeps(c, c2)
    requires MovedOn(c.eng, c2.eng, FILE, m) && !c2.eng.chainBack
    requires Entered(c.eng, ERROR) ==> c.file.state == 2
    requires forall k :: ERROR <= k < N && !Entered(c.eng, ERROR) ==> !Entered(c.eng, k)
    requires InBounds(c2, c2.input) && c2.file.state <= 2
    requires FileProduces(c2, m) && FileAnswers(c2)
    requires c2.file.state == 2 ==> c2.file.read == ReadBefore(c) + Deref(c2, c2.input)
    ensures Wire(c2, ERROR)
  {
    hide Producing, Transferring, Reads, Whole, Sending, FileProduces, FileKeeps, InBounds, Deref, FileAnswers;
    assert forall k :: 0 <= k < N && k != FILE ==> c2.eng.mods[k] == c.eng.mods[k];
    assert !Entered(c.eng, ERROR) ==> !Entered(c.eng, TRANS) && !Entered(c.eng, RESP);
    assert FILE != TRANS && FILE != RESP;
    WireParts(c, FILE);
    FileTransferring(c, FILE, c2);
    FileSending(c, c2, ERROR);
    FileProducing(c, c2, m);
    FileReads(c, c2);
    FileWhole(c, c2);
    KeepsRest(c, c2);
  }

  lemma FileLess(c: Cl, c2: Cl, m: Mod)
    requires MovedOn(c.eng, c2.eng, FILE, m) && HasRequest(c.eng) && !c.eng.mods[FILE].done && FileKeeps(c, c2)
    requires !c2.eng.chainBack
    requires Entered(c.eng, ERROR) ==> (if m.done then c2.file.disk == [] else |c2.file.disk| < |c.file.disk|)
    ensures Less(c2, ERROR, c, FILE)
  {
  }

  /** A forward move from the file filter. */
  lemma FileForward(c: Cl, c1: Cl, declined: bool, r: Result)
    requires Inv(c, FILE) && AtFile(c) && c1.eng == After(c.eng, FILE, declined) && (r == Fwd || r == Result.Done)
    requires declined ==> !Entered(c.eng, FILE) && r == Fwd
    requires InBounds(c1, c1.output)
    requires FileKeeps(c, c1.(output := c.output)) && c1.file.state <= 2
    requires FileProduces(c1.(input := c1.output), ModAfter(c.eng, FILE, declined, r != Fwd))
    requires c1.file.state == 2 ==> c1.file.read == ReadBefore(c) + Deref(c1, c1.output)
    requires c.file.state == 2 && r == Fwd ==> |c1.file.disk| < |c.file.disk|
    requires c.fl.respDone ==> c1.fl.respDone
    requires FileAnswers(c1.(input := c1.output))
    ensures Good(c, FILE, Switch(c1, FILE, r))
  {
    hide EngInv, Pipe, Wire, LogOk, Less, GoodConf, HasRequest, Books, FileProduces, FileKeeps, AtFile, InBounds, Deref;
    InvFacts(c, FILE);
    FileFacts(c);
    PathFits(c, FILE);
    var c2, m := Moved(c1, FILE, r != Fwd), ModAfter(c.eng, FILE, declined, r != Fwd);
    FileEngine(c, c1, declined, r != Fwd);
    MovedEngine(c, FILE, c1, declined, r != Fwd);
    assert c2 == c1.(eng := c2.eng, input := c1.output, output := NULL);
    SameRef(c1, c2, c1.output);
    FileMoved(c, c1, c2, m);
    KeepsRest(c, c2);
    PipeKeeps(c, FILE, c2, ERROR);
    FileWire(c, c2, m);
    FileLess(c, c2, m);
    ForwardGood(c, FILE, c1, r);
  }

  lemma FileMoved(c: Cl, c1: Cl, c2: Cl, m: Mod)
    requires AtFile(c) && c2 == c1.(eng := c2.eng, input := c1.output, output := NULL)
    requires FileKeeps(c, c1.(output := c.output)) && FileProduces(c1.(input := c1.output), m) && FileAnswers(c1.(input := c1.output))
    ensures FileAnswers(c2)
    ensures FileKeeps(c, c2) && FileProduces(c2, m) && (c2.fl.keepAlive ==> c.fl.keepAlive)
    ensures m.done && c2.file.state == 2 ==> c2.file.disk == []
    ensures c.file.state == 2 ==> c2.file.state == 2
    ensures !c.eng.mods[FILE].done
  {
  }

  lemma FileEngine(c: Cl, c1: Cl, declined: bool, done: bool)
    requires EngInv(c.eng, FILE, c.fl.respDone) && HasRequest(c.eng) && !c.eng.mods[FILE].done
    requires c1.eng == After(c.eng, FILE, declined) && (declined ==> !Entered(c.eng, FILE) && !done)
    requires c.fl.respDone ==> c1.fl.respDone
    ensures var c2 := Moved(c1, FILE, done);
            EngInv(c2.eng, ERROR, c2.fl.respDone) && HasRequest(c2.eng)
    ensures Books(c.eng, FILE)
    ensures !Entered(c.eng, ERROR) ==> forall k :: ERROR <= k < N ==> !Entered(c.eng, k)
  {
    hide Responding;
    EngForward(c.eng, FILE, c.fl.respDone, declined, done, c1.fl.respDone);
    MovedEngine(c, FILE, c1, declined, done);
    NotEnteredAfter(c.eng, FILE);
  }

  lemma FileDeclines(c: Cl, e: Env)
    requires Inv(c, FILE) && AtFile(c) && !Entered(c.eng, FILE) && FileOpen(c).1 != Fwd
    ensures Good(c, FILE, Step(c, FILE, e))
  {
    hide EngInv, Pipe, Wire, LogOk, Less, GoodConf, Good, FileOpen, FilterCall, Switch, StatusMsg, After;
    FilePasses(c, e);
    var c1 := FilterCall(c, FILE, e).0;
    assert InBounds(c1, c1.output) by { PassedBounds(c, c1); }
    assert FileAnswers(c1.(input := c1.output)) by { PassedWhole(c, c1); }
    FileForward(c, c1, true, Fwd);
  }

  lemma PassedBounds(c: Cl, c1: Cl)
    requires InBounds(c, c.input) && c1.output == c.input && c1.file == c.file
    requires c.input.len == 0 || c1.resp == c.resp
    ensures InBounds(c1, c1.output)
  {
  }

  lemma PassedWhole(c: Cl, c1: Cl)
    requires Inv(c, FILE) && Sized(c.eng) && !Entered(c.eng, FILE) && c1.output == c.input
    requires c1.file == c.file && (c1.fl.respErr || (c1.resp == c.resp && c.fl.respDone))
    ensures FileAnswers(c1.(input := c1.output))
  {
    hide Pipe, LogOk, GoodConf, Reads, Transferring, Sending, Flat;
    NoneAfterError(c);
    NotEnteredAfter(c.eng, FILE);
  }

  /** After an opened filter's call: what it made, and nothing but its own parts changed. */
  ghost predicate FileCallOk(c: Cl, c1: Cl, r: Result)
    requires Sized(c.eng)
  {
    && c1.eng == After(c.eng, FILE, false) && FileKeeps(c, c1.(output := c.output))
    && c1.input == c.input && c.input.len == 0 && !c.fl.respDone
    && FileMade(FileStart(c), c1, r) && ReadBefore(FileStart(c)) == ReadBefore(c)
    && FileStart(c).file.disk == c.file.disk && FileStart(c).file.state == c.file.state
  }

  lemma FileCalled(c: Cl, e: Env)
    requires AtFile(c) && (Entered(c.eng, FILE) || FileOpen(c).1 == Fwd)
    ensures var (c1, r) := FilterCall(c, FILE, e); FileCallOk(c, c1, r)
  {
    hide FileOpen, FilterCall, FileProcess, After, FileMade;
    FileRuns(c, e);
    FileMakes(FileStart(c), e);
  }

  lemma FileMadeForward(c0: Cl, c1: Cl, r: Result, m: Mod)
    requires FileMade(c0, c1, r) && (r == Fwd || r == Result.Done) && m.done == (r != Fwd)
    ensures InBounds(c1, c1.output) && c1.file.state <= 2 && FileProduces(c1.(input := c1.output), m) && FileAnswers(c1.(input := c1.output))
    ensures c1.file.state == 2 ==> c1.file.read == ReadBefore(c0) + Deref(c1, c1.output)
    ensures c0.file.state == 2 && r == Fwd ==> |c1.file.disk| < |c0.file.disk|
  {
  }

  lemma FileMadeWait(c: Cl, c1: Cl)
    requires Inv(c, FILE) && c1.eng == After(c.eng, FILE, false)
    requires FileKeeps(c, c1) && FileReady(c1) && ReadBefore(c1) == ReadBefore(c) && !c.fl.respDone
    requires c1.input == c.input && c.input.len == 0
    ensures Good(c, FILE, Switch(c1, FILE, Async))
  {
    hide Pipe, Wire, LogOk, GoodConf, Responding, FileKeeps, FileReady, AtFile;
    InvFacts(c, FILE);
    FileFacts(c);
    PathFits(c, FILE);
    NoneAfterError(c);
    EngWait(c.eng, FILE, c.fl.respDone);
    KeepsRest(c, c1);
    assert !c1.fl.respDone && (c1.fl.keepAlive ==> c.fl.keepAlive) by { ReadyFlags(c, c1); }
    hide EngInv;
    PipeKeeps(c, FILE, c1, FILE);
    FileWaitWire(c, c1);
    WaitGood(c, FILE, c1);
  }

  lemma ReadyFlags(c: Cl, c1: Cl)
    requires FileKeeps(c, c1) && FileReady(c1)
    ensures !c1.fl.respDone && (c1.fl.keepAlive ==> c.fl.keepAlive)
  {
  }

  lemma FileWaitWire(c: Cl, c1: Cl)
    requires Wire(c, FILE) && HasRequest(c.eng) && AtFile(c) && c1.eng == After(c.eng, FILE, false)
    requires FileKeeps(c, c1) && FileReady(c1) && ReadBefore(c1) == ReadBefore(c) && c1.input == c.input && c.input.len == 0
    requires Entered(c.eng, ERROR) ==> c.file.state == 2
    requires forall k :: ERROR <= k < N && !Entered(c.eng, ERROR) ==> !Entered(c.eng, k)
    ensures Wire(c1, FILE)
  {
    hide Producing, Transferring, Reads, Whole, Sending, FileKeeps, FileReady, Deref;
    assert forall k :: 0 <= k < N && k != FILE ==> c1.eng.mods[k] == c.eng.mods[k];
    assert !Entered(c.eng, ERROR) ==> !Entered(c.eng, TRANS) && !Entered(c.eng, RESP);
    assert FILE != TRANS && FILE != RESP;
    WireParts(c, FILE);
    KeepsRest(c, c1);
    FileTransferring(c, FILE, c1);
    FileSending(c, c1, FILE);
    ReadyFlags(c, c1);
    FileWaitWhole(c, c1);
    FileWaitReads(c, c1);
    FileWaitProducing(c, c1);
  }

  lemma FileWaitWhole(c: Cl, c1: Cl)
    requires Sized(c.eng) && Sized(c1.eng) && FileKeeps(c, c1) && !c1.fl.respDone
    requires Entered(c.eng, ERROR) ==> c.file.state == 2
    requires Entered(c1.eng, TRANS) ==> Entered(c.eng, ERROR)
    ensures Whole(c1, FILE)
  {
    hide Flat;
  }

  lemma FileWaitReads(c: Cl, c1: Cl)
    requires Sized(c.eng) && Sized(c1.eng) && Reads(c, FILE) && FileKeeps(c, c1) && FileReady(c1)
    requires ReadBefore(c1) == ReadBefore(c) && !c1.eng.mods[FILE].done && !c.eng.mods[FILE].done
    requires !Entered(c.eng, ERROR) ==> c.fed == []
    requires Entered(c.eng, ERROR) ==> c.file.state == 2
    ensures Reads(c1, FILE)
  {
    hide Deref;
  }

  lemma FileWaitProducing(c: Cl, c1: Cl)
    requires Sized(c.eng) && Producing(c, FILE) && FileKeeps(c, c1) && FileReady(c1) && HasRequest(c.eng)
    requires c1.eng == After(c.eng, FILE, false) && !c.eng.mods[FILE].done && c1.input == c.input && c.input.len == 0
    requires Entered(c.eng, ERROR) ==> c.file.state == 2
    ensures Producing(c1, FILE)
  {
  }

  lemma FileGoesOn(c: Cl, c1: Cl, r: Result)
    requires Inv(c, FILE) && AtFile(c) && FileCallOk(c, c1, r) && (r == Fwd || r == Result.Done)
    ensures Good(c, FILE, Switch(c1, FILE, r))
  {
    hide EngInv, Pipe, Wire, LogOk, GoodConf, Switch, After, Good, AtFile, FileMade, FileKeeps, FileProduces, InBounds,
         Deref, FileStart;
    FileMod(c);
    var m := ModAfter(c.eng, FILE, false, r != Fwd);
    FileMadeForward(FileStart(c), c1, r, m);
    FileForward(c, c1, false, r);
  }

  lemma FileMod(c: Cl)
    requires AtFile(c)
    ensures Sized(c.eng)
    ensures !ModAfter(c.eng, FILE, false, false).done && ModAfter(c.eng, FILE, false, true).done
  {
  }

  lemma FileStops(c: Cl, c1: Cl, r: Result)
    requires Inv(c, FILE) && AtFile(c) && FileCallOk(c, c1, r) && r != Fwd && r != Result.Done
    ensures Good(c, FILE, Switch(c1, FILE, r))
  {
    hide EngInv, Pipe, Wire, LogOk, GoodConf, Switch, After, Good, AtFile, FileKeeps, FileReady, FileStart;
    assert r == Async || r == Err;
    if r == Async {
      assert c1.output == NULL && c.output == NULL && FileKeeps(c, c1) by { FileNoOutput(c, c1); }
      FileMadeWait(c, c1);
    } else {
      FileFails(c, c1);
    }
  }

  lemma FileNoOutput(c: Cl, c1: Cl)
    requires AtFile(c) && FileKeeps(c, c1.(output := c.output)) && FileReady(c1)
    ensures c1.output == NULL && c.output == NULL && FileKeeps(c, c1)
  {
    assert c1.(output := c.output) == c1;
  }

  lemma FileFails(c: Cl, c1: Cl)
    requires Inv(c, FILE) && AtFile(c) && c1.eng == After(c.eng, FILE, false)
    requires FileKeeps(c, c1.(output := c.output))
    ensures Good(c, FILE, Switch(c1, FILE, Err))
  {
    hide EngInv, Pipe, Wire, LogOk, GoodConf, Switch, Good, AtFile, FileKeeps, FileReady, HasRequest;
    InvFacts(c, FILE);
    FileFacts(c);
    WireParts(c, FILE);
    KeepsRest(c, c1.(output := c.output));
    NoneAfterError(c);
    FileFailsSent(c, c1);
    CloseGood(c, FILE, c1, Err, false);
  }

  lemma FileFailsSent(c: Cl, c1: Cl)
    requires Sized(c.eng) && Sending(c, FILE) && FileKeeps(c, c1.(output := c.output))
    requires c1.eng == After(c.eng, FILE, false)
    requires HasRequest(c.eng) && Producing(c, FILE) && !c.eng.mods[FILE].done
    requires Entered(c.eng, ERROR) ==> c.file.state == 2
    requires forall k :: ERROR <= k < N && !Entered(c.eng, ERROR) ==> !Entered(c.eng, k)
    ensures SentPrefix(c1)
  {
    hide HeadOk, Clamp, Deref, IovBytes;
    assert !Entered(c.eng, ERROR) ==> !Entered(c.eng, RESP);
    InvSentPrefix(c, FILE);
  }

  lemma StepFile(c: Cl, e: Env)
    requires Inv(c, FILE)
    ensures Good(c, FILE, Step(c, FILE, e))
  {
    hide EngInv, Pipe, Wire, LogOk, Less, GoodConf, FileOpen, FilterCall, Switch, After, Good, AtFile, FileMade, FileKeeps;
    InvFacts(c, FILE);
    FileFacts(c);
    if !Entered(c.eng, FILE) && FileOpen(c).1 != Fwd {
      FileDeclines(c, e);
    } else {
      FileCalled(c, e);
      var (c1, r) := FilterCall(c, FILE, e);
      if r == Fwd || r == Result.Done {
        FileGoesOn(c, c1, r);
      } else {
        FileStops(c, c1, r);
      }
    }
  }
}

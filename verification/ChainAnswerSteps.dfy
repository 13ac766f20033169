/** Every filter leaves the response as decided as request and answers decide it. */
module ChainAnswerSteps {
  import opened Bytes
  import opened Chain
  import opened ChainEngine
  import opened ChainInv
  import opened ChainSteps
  import opened ChainServe
  import opened ChainAnswer
  import ChainFile
  import ChainReceive
  import ChainRespond
  import H = Http1
  import R = Request
  import T = RequestText
  import W = Http1Writers

  // ------------------------------------------------------------- unchanged

  /** The filters that decide are as before. */
  predicate SameDecisions(g: Engine, g2: Engine)
  {
    && Sized(g) && Sized(g2) && HasRequest(g2) == HasRequest(g)
    && Entered(g2, INDEX) == Entered(g, INDEX) && Entered(g2, AUTO) == Entered(g, AUTO)
    && Entered(g2, FILE) == Entered(g, FILE)
    && g2.mods[FILE].done == g.mods[FILE].done && g2.mods[ERROR].done == g.mods[ERROR].done
    && g2.mods[RESP].done == g.mods[RESP].done
  }

  lemma SaysSame(c: Cl, c2: Cl, a: Calls)
    requires Says(c, a) && SameDecisions(c.eng, c2.eng)
    requires c2.conf == c.conf && c2.rx.buf == c.rx.buf && c2.req == c.req && c2.file == c.file && c2.resp == c.resp
    requires c2.fl == c.fl.(respDone := c2.fl.respDone)
    ensures Says(c2, a)
  {
    hide R.Parse, T.Taken, HeadFor, Status, Target, Message, Location, IsFile, IsDir, Stage;
  }

  /** Whether a process function runs, in terms of the filter's record and its open function. */
  lemma RunsIs(c: Cl, i: nat)
    requires i < N && Sized(c.eng)
    ensures Runs(c, i) <==> if Entered(c.eng, i) then !c.eng.mods[i].done else Open(c, i).1 != Skip && Open(c, i).1 != Err
  {
    hide Open, Opening;
    if !Entered(c.eng, i) {
      var r := Open(c, i).1;
      OpeningMod(c.eng, i, r == Skip || r == Err);
    }
  }

  // ---------------------------------------------------------------- request

  lemma BadLeavesNothing(norm: bytes -> bytes, s: bytes)
    requires R.Parse(norm, s, R.REQ0).bad
    ensures R.Parse(norm, s, R.REQ0).req.unescaped == [] && !R.Parse(norm, s, R.REQ0).keepAlive
  {
    hide R.Headers, R.DecodedPath, H.ReqLine;
  }

  /** What the request filter sets when it is done. */
  lemma ReqSets(c: Cl)
    requires Sized(c.eng) && Idle(c)
    requires R.Parse(c.conf.normalize, c.rx.buf, c.req) == Parsed(c, c.rx.buf) && Parsed(c, c.rx.buf).done
    ensures var c2, p := ChainReceive.ReqMoved(c), Parsed(c, c.rx.buf);
            && c2.conf == c.conf && c2.rx.buf == c.rx.buf && c2.req == p.req && c2.file == FILE0
            && (if p.bad then c2.resp == RESP0.(code := 400, msg := StatusMsg(400)) && c2.fl == FLAGS0.(respErr := true)
                else c2.resp == RESP0 && c2.fl == FLAGS0.(keepAlive := p.keepAlive))
  {
    hide R.Parse, StatusMsg;
  }

  lemma MessagesAre()
    ensures StatusMsg(200) == Message(200) && StatusMsg(301) == Message(301) && StatusMsg(304) == Message(304)
    ensures StatusMsg(400) == Message(400) && StatusMsg(403) == Message(403) && StatusMsg(404) == Message(404)
    ensures StatusMsg(405) == Message(405) && StatusMsg(500) == Message(500)
  {
  }

  lemma NoneEntered(c: Cl)
    requires Inv(c, REQ)
    ensures Sized(c.eng) && !HasRequest(c.eng) && Idle(c) && forall k :: INDEX <= k < N ==> !Entered(c.eng, k)
    ensures R.Parse(c.conf.normalize, c.rx.buf, c.req) == Parsed(c, c.rx.buf)
  {
    hide LogOk, GoodConf, Idle, R.Parse, R.AreRequests, Handled, Flat, Producing, Transferring, Reads, Whole, Sending;
    R.ParseAgain(c.conf.normalize, c.rx.tried, c.rx.buf);
    NotEnteredAfter(c.eng, REQ);
  }

  lemma ReqSays(c: Cl)
    requires Inv(c, REQ) && Parsed(c, c.rx.buf).done
    ensures Sized(c.eng) && Says(ChainReceive.ReqMoved(c), NO_CALLS)
  {
    hide Inv, Idle, EngInv, R.Parse, StatusMsg, Message, ChainReceive.ReqMoved, HeadFor;
    NoneEntered(c);
    ReqSets(c);
    assert EngInv(c.eng, REQ, c.fl.respDone) by { EngOf(c, REQ); }
    ChainReceive.ReqEngine(c);
    var c2, p := ChainReceive.ReqMoved(c), Parsed(c, c.rx.buf);
    if p.bad { BadLeavesNothing(c.conf.normalize, c.rx.buf); }
    MessagesAre();
    forall k | INDEX <= k < N ensures !Entered(c2.eng, k) {
      assert !Entered(c.eng, k) && c2.eng.mods[k] == c.eng.mods[k];
    }
    FirstSays(c2, p);
  }

  lemma EngOf(c: Cl, i: nat)
    requires Inv(c, i)
    ensures EngInv(c.eng, i, c.fl.respDone)
  {
    hide EngInv, Pipe, Wire, LogOk, GoodConf;
  }

  lemma FirstSays(c2: Cl, p: R.Parsed)
    requires Sized(c2.eng) && HasRequest(c2.eng) && forall k :: INDEX <= k < N ==> !Entered(c2.eng, k)
    requires p == Parsed(c2, c2.rx.buf) && c2.req == p.req && c2.file == FILE0
    requires if p.bad then c2.resp == RESP0.(code := 400, msg := Message(400)) && c2.fl == FLAGS0.(respErr := true)
             else c2.resp == RESP0 && c2.fl == FLAGS0.(keepAlive := p.keepAlive)
    requires p.bad ==> p.req.unescaped == []
    ensures Says(c2, NO_CALLS)
  {
    hide R.Parse, Message, HeadFor, Location;
    assert !Entered(c2.eng, INDEX) && !Entered(c2.eng, AUTO) && !Entered(c2.eng, FILE) && !Entered(c2.eng, ERROR)
           && !Entered(c2.eng, RESP);
    assert p.req.unescaped + [] == p.req.unescaped;
  }

  // ----------------------------------------------------- index and autoindex

  /** What an undecided request, or a rejected one, looks like to the next filter. */
  lemma Undecided(c: Cl, a: Calls)
    requires Says(c, a) && HasRequest(c.eng) && !Entered(c.eng, FILE) && !Entered(c.eng, AUTO)
    ensures if Asked(c).Ask? then
              && !c.fl.respErr && c.resp.code == 0 && c.req.unescaped == Target(c.conf, Asked(c), a)
              && a.index.Some? == (Entered(c.eng, INDEX) && EndsWithSlash(Asked(c).path))
            else c.fl.respErr && c.resp.code == 400 && a.index.None?
    ensures a == NO_CALLS.(index := a.index)
  {
    hide R.Parse, T.Taken, HeadFor, Message, Location, Target;
  }

  /** The filters other than i that decide are as before, and i was entered. */
  predicate OneMore(g: Engine, g2: Engine, i: nat)
  {
    && i < N && Sized(g) && Sized(g2) && g2.mods == g.mods[i := g2.mods[i]]
    && (g2.mods[i].isOpen || g2.mods[i].done) && i > REQ
  }

  lemma IndexKept(c: Cl, c2: Cl, a: Calls, found: Option<bool>)
    requires Says(c, a) && HasRequest(c.eng) && OneMore(c.eng, c2.eng, INDEX)
    requires !Entered(c.eng, INDEX) && !Entered(c.eng, FILE) && !Entered(c.eng, AUTO) && !c.eng.mods[RESP].done
    requires c2.conf == c.conf && c2.rx.buf == c.rx.buf && c2.file == c.file && c2.resp == c.resp && c2.fl == c.fl
    requires c2.req == c.req.(unescaped := c.req.unescaped + if found == Some(true) then c.conf.index else [])
    requires found.Some? <==> Asked(c).Ask? && EndsWithSlash(Asked(c).path)
    ensures Says(c2, a.(index := found))
  {
    hide R.Parse, T.Taken, HeadFor, Message, Location;
    Undecided(c, a);
    assert Asked(c2) == Asked(c);
    var q := Asked(c);
    if q.Ask? { assert q.path + [] == q.path; }
  }

  /** Filter i is reached for the first time, on the way forward. */
  predicate Reaching(g: Engine, i: nat)
  {
    && i < N && Sized(g) && HasRequest(g) && !g.chainBack && i > REQ
    && !g.mods[RESP].done && !g.mods[ERROR].done && (forall k :: REQ < k < i ==> Entered(g, k))
    && forall k :: i <= k < N ==> !Entered(g, k)
  }

  lemma IndexCallIs(c: Cl, e: Env)
    requires Reaching(c.eng, INDEX)
    ensures var (c1, r) := FilterCall(c, INDEX, e);
            var declined := IndexOpen(c) == Skip;
            var c2 := Moved(c1, INDEX, r != Fwd);
            && (r == Fwd <==> declined) && OneMore(c.eng, c2.eng, INDEX)
            && c2.conf == c.conf && c2.rx == c.rx && c2.file == c.file && c2.resp == c.resp && c2.fl == c.fl
            && c2.req == c.req.(unescaped := c.req.unescaped + if !declined && e.indexFound then c.conf.index else [])
            && (Runs(c, INDEX) <==> !declined)
  {
    hide FilterCall, After, OpenCall, IndexOpen;
    RunsIs(c, INDEX);
    assert IndexOpen(c) != Err by { IndexOpens(c); }
    var declined := IndexOpen(c) == Skip;
    if declined { CallPasses(c, INDEX, e); } else { IndexOpens(c); CallRuns(c, INDEX, e); }
    MovedEngine(c, INDEX, FilterCall(c, INDEX, e).0, declined, !declined);
    assert c.req.unescaped + [] == c.req.unescaped;
  }

  lemma IndexOpens(c: Cl)
    ensures IndexOpen(c) == Skip || IndexOpen(c) == Fwd
  {
  }

  /** The path is that of the request, with the index file's name when there is one. */
  lemma IndexSays(c: Cl, e: Env, a: Calls)
    requires Reaching(c.eng, INDEX) && Says(c, a)
    ensures var (c1, r) := FilterCall(c, INDEX, e);
            Says(Moved(c1, INDEX, r != Fwd), Note(a, c, INDEX, e))
  {
    hide Asked, FilterCall, Says, Runs;
    Undecided(c, a);
    IndexCallIs(c, e);
    var (c1, r) := FilterCall(c, INDEX, e);
    var found := if r == Fwd then None else Some(e.indexFound);
    IndexKept(c, Moved(c1, INDEX, r != Fwd), a, found);
    assert a == NO_CALLS;
    assert Note(a, c, INDEX, e) == a.(index := found);
  }

  /** An error status was set. */
  predicate Errs(c: Cl, c2: Cl, code: nat)
  {
    && c2.resp == c.resp.(code := code, msg := Message(code))
    && c2.fl == c.fl.(respErr := true, keepAlive := c.fl.keepAlive && code != 400, respDone := c2.fl.respDone)
  }

  predicate DirAnswered(c: Cl, c2: Cl, d: Option<DirResult>)
  {
    match d
    case None => c2.resp == c.resp && c2.fl == c.fl
    case Some(DirMissing) => Errs(c, c2, 404)
    case Some(DirError) => Errs(c, c2, 403)
    case Some(Listing(html)) =>
      && c2.resp == c.resp.(code := 200, msg := Message(200), dir := html, contentLength := Some(|html|))
      && c2.fl == c.fl.(respDone := c2.fl.respDone)
  }

  lemma AutoKept(c: Cl, c2: Cl, a: Calls, d: Option<DirResult>)
    requires Says(c, a) && Reaching(c.eng, AUTO) && OneMore(c.eng, c2.eng, AUTO)
    requires c2.conf == c.conf && c2.rx.buf == c.rx.buf && c2.file == c.file && c2.req == c.req
    requires DirAnswered(c, c2, d)
    requires d.Some? <==> Asked(c).Ask? && EndsWithSlash(c.req.unescaped)
    ensures Says(c2, a.(dir := d))
  {
    hide R.Parse, T.Taken, HeadFor, Message, Location;
    Undecided(c, a);
    assert Asked(c2) == Asked(c);
    assert !Entered(c.eng, FILE) && !Entered(c.eng, AUTO) && Entered(c.eng, INDEX);
  }

  lemma AutoCallIs(c: Cl, e: Env)
    requires Reaching(c.eng, AUTO)
    ensures var (c1, r) := FilterCall(c, AUTO, e);
            var declined := AutoOpen(c) == Skip;
            var c2 := Moved(c1, AUTO, r != Fwd);
            && (r == Fwd <==> declined) && OneMore(c.eng, c2.eng, AUTO)
            && c2.conf == c.conf && c2.rx == c.rx && c2.file == c.file && c2.req == c.req
            && DirAnswered(c, c2, if declined then None else Some(e.dir))
            && (Runs(c, AUTO) <==> !declined)
  {
    hide FilterCall, After, OpenCall, AutoOpen, StatusMsg, Message;
    RunsIs(c, AUTO);
    AutoOpens(c);
    MessagesAre();
    var declined := AutoOpen(c) == Skip;
    if declined { CallPasses(c, AUTO, e); } else { CallRuns(c, AUTO, e); }
    MovedEngine(c, AUTO, FilterCall(c, AUTO, e).0, declined, !declined);
  }

  lemma AutoOpens(c: Cl)
    ensures AutoOpen(c) == Skip || AutoOpen(c) == Fwd
  {
  }

  lemma AutoSays(c: Cl, e: Env, a: Calls)
    requires Reaching(c.eng, AUTO) && Says(c, a)
    ensures var (c1, r) := FilterCall(c, AUTO, e);
            Says(Moved(c1, AUTO, r != Fwd), Note(a, c, AUTO, e))
  {
    hide Asked, FilterCall, Says, Runs, DirAnswered;
    Undecided(c, a);
    AutoCallIs(c, e);
    var (c1, r) := FilterCall(c, AUTO, e);
    var d := if r == Fwd then None else Some(e.dir);
    AutoKept(c, Moved(c1, AUTO, r != Fwd), a, d);
    assert Note(a, c, AUTO, e) == a.(dir := d);
  }

  // ------------------------------------------------------------------- file

  /** The open is to be made, or to be made again. */
  predicate ToOpen(c: Cl, q: T.Ask, a: Calls)
  {
    && IsFile(c.conf, q, a) && c.fl.headMethod == (q.verb == Ascii("HEAD")) && StatusTold(c, q, a, 0, false)
    && c.file.state == 0 && c.file.buf == c.conf.www + Target(c.conf, q, a) + [0]
    && (a.open == None || a.open == Some(OpenWait)) && a.info == None
  }

  /** The file is open and its properties are to be asked for. */
  predicate Asking(c: Cl, q: T.Ask, a: Calls)
  {
    && IsFile(c.conf, q, a) && c.fl.headMethod == (q.verb == Ascii("HEAD")) && StatusTold(c, q, a, 0, false)
    && c.file.state == 1 && a.name == c.conf.www + Target(c.conf, q, a) + [0]
    && a.open.Some? && a.open.value.Opened? && c.file.content == a.open.value.content
    && (a.info == None || a.info == Some(InfoWait))
  }

  /** What a part of the file filter leaves when it does not go on to the next. */
  predicate Told(c1: Cl, r: Result, q: T.Ask, a: Calls, document: bool)
  {
    && IsFile(c1.conf, q, a) && FileTold(c1, q, a, r == Result.Done)
    && StatusTold(c1, q, a, Status(c1.conf, q, a), document)
  }

  /** The status, set from an undecided response. */
  lemma StatusSet(c: Cl, c1: Cl, q: T.Ask, a: Calls, a1: Calls, status: nat)
    requires StatusTold(c, q, a, 0, false) && a1.dir == a.dir
    requires c1.resp == c.resp.(code := status, msg := if status == 0 then [] else Message(status),
                                lastModified := c1.resp.lastModified)
    requires c1.fl.respErr == (status != 0) && c1.resp.lastModified == LastModified(a1) && status != 200 && status != 301
    ensures StatusTold(c1, q, a1, status, false)
  {
    hide Message, Location;
  }

  lemma FOpenTold(c: Cl, e: Env, q: T.Ask, a: Calls)
    requires ToOpen(c, q, a)
    ensures var (c1, r) := FOpen(c, e);
            var a1 := a.(name := c.file.buf, open := Some(e.open));
            && (r == Fwd || r == Result.Done || r == Async)
            && (r == Fwd <==> e.open.Opened?) && (r == Fwd ==> Asking(c1, q, a1)) && (r != Fwd ==> Told(c1, r, q, a1, false))
  {
    hide StatusMsg, Message, StatusTold, EndsWithSlash, Ascii;
    MessagesAre();
    var c1 := FOpen(c, e).0;
    var a1 := a.(name := c.file.buf, open := Some(e.open));
    assert c.resp.code == 0 && c.resp.msg == [] && !c.fl.respErr && c.resp.lastModified == [] by { ToldNothing(c, q, a); }
    assert Target(c.conf, q, a1) == Target(c.conf, q, a);
    StatusSet(c, c1, q, a, a1, match e.open case OpenMissing => 404 case OpenError => 500 case _ => 0);
  }

  lemma ToldNothing(c: Cl, q: T.Ask, a: Calls)
    requires StatusTold(c, q, a, 0, false)
    ensures c.resp.code == 0 && c.resp.msg == [] && !c.fl.respErr && c.resp.lastModified == LastModified(a)
    ensures c.resp.location == NULL
  {
  }

  /** The location is written whole: it fits the file buffer. */
  lemma RedirectTold(c: Cl, q: T.Ask, a: Calls, a1: Calls)
    requires StatusTold(c, q, a, 0, false) && a1.dir == a.dir && LastModified(a1) == LastModified(a)
    requires q.Ask? && q.host == Slice(c.req.host, c.rx.buf) && q.url == Slice(c.req.path, c.rx.buf)
    requires |Location(q)| <= c.conf.fileBuf
    ensures StatusTold(Redirect(c), q, a1, 301, false)
    ensures Redirect(c).file == c.file.(buf := Redirect(c).file.buf) && Redirect(c).conf == c.conf
    ensures Redirect(c).fl.headMethod == c.fl.headMethod
  {
    hide StatusMsg, Message, Slice;
    MessagesAre();
    assert [SLASH] == Ascii("/");
  }

  lemma FInfoTold(c: Cl, e: Env, q: T.Ask, a: Calls)
    requires Asking(c, q, a) && q.host == Slice(c.req.host, c.rx.buf) && q.url == Slice(c.req.path, c.rx.buf)
    requires q.since == Slice(c.req.ims, c.rx.buf) && (c.req.ims.len == 0 <==> q.since == [])
    requires |Location(q)| <= c.conf.fileBuf
    ensures var (c1, r) := FInfo(c, e);
            var a1 := a.(info := Some(e.info));
            && (r == Fwd || r == Result.Done || r == Async)
            && Told(c1, r, q, a1, false) && (r == Fwd <==> Status(c.conf, q, a1) == 200 && q.verb == Ascii("GET"))
  {
    hide StatusMsg, Message, StatusTold, EndsWithSlash, Ascii, Slice, Redirect, Location;
    MessagesAre();
    var c1 := FInfo(c, e).0;
    var a1 := a.(info := Some(e.info));
    ToldNothing(c, q, a);
    assert Target(c.conf, q, a1) == Target(c.conf, q, a);
    match e.info {
      case InfoWait => StatusSet(c, c1, q, a, a1, 0);
      case InfoError => StatusSet(c, c1, q, a, a1, 403);
      case Info(isDir, size, lm, ct) =>
        if isDir {
          RedirectTold(c, q, a, a1);
        } else if q.since != [] && q.since == lm {
          StatusSet(c, c1, q, a, a1, 304);
        } else {
          OkTold(c, c1, q, a, a1, size, ct);
        }
    }
  }

  lemma OkTold(c: Cl, c1: Cl, q: T.Ask, a: Calls, a1: Calls, size: nat, ct: bytes)
    requires StatusTold(c, q, a, 0, false) && a1.dir == a.dir && Regular(a1)
    requires a1.info.value.size == size && a1.info.value.contentType == ct
    requires c1.resp == c.resp.(code := 200, msg := Message(200), lastModified := LastModified(a1), contentType := ct,
                                contentLength := Some(size))
    requires !c1.fl.respErr
    ensures StatusTold(c1, q, a1, 200, false)
  {
    hide Message, Location;
  }

  lemma FReadTold(c: Cl, e: Env, q: T.Ask, a: Calls, document: bool)
    requires Told(c, Fwd, q, a, document) && c.file.state == 2
    ensures var (c1, r) := FRead(c, e);
            && (r == Fwd || r == Result.Done || r == Async || r == Err) && (r != Err ==> Told(c1, r, q, a, document))
            && (r == Err ==> Told(c1, Fwd, q, a, document))
  {
    hide Message, Overwrite, EndsWithSlash, Ascii, Location;
  }

  /** What the answers of a call of the file filter add to the calls. */
  function FileNote(a: Calls, file: File, e: Env): Calls
  {
    var a1 := if file.state == 0 then a.(name := file.buf, open := Some(e.open)) else a;
    if file.state == 1 || (file.state == 0 && e.open.Opened?) then a1.(info := Some(e.info)) else a1
  }

  /** What the parser took is at hand. */
  predicate AskAt(c: Cl, q: T.Ask)
  {
    && q.Ask? && q.host == Slice(c.req.host, c.rx.buf) && q.url == Slice(c.req.path, c.rx.buf)
    && q.since == Slice(c.req.ims, c.rx.buf) && (c.req.ims.len == 0 <==> q.since == [])
    && q.verb == Slice(c.req.verb, c.rx.buf)
    && |Location(q)| <= c.conf.fileBuf
  }

  /** The file filter may be called: it is about to open, to ask, or to read. */
  predicate AtWork(c: Cl, q: T.Ask, a: Calls, document: bool)
  {
    || ToOpen(c, q, a)
    || Asking(c, q, a)
    || (c.file.state == 2 && Told(c, Fwd, q, a, document))
  }

  lemma FileProcessTold(c: Cl, e: Env, q: T.Ask, a: Calls, document: bool)
    requires AskAt(c, q) && AtWork(c, q, a, document) && (c.file.state != 2 ==> !document)
    ensures var (c1, r) := FileProcess(c, e);
            && (r == Fwd || r == Result.Done || r == Async || r == Err)
            && (r != Err ==> Told(c1, r, q, FileNote(a, c.file, e), document))
            && (r == Err ==> Told(c1, Fwd, q, FileNote(a, c.file, e), document))
  {
    hide FOpen, FInfo, FRead, Told, StatusTold, Status, IsFile, Slice, Location;
    var (c1, r1) := if c.file.state == 0 then FOpen(c, e) else (c, Fwd);
    var a1 := if c.file.state == 0 then a.(name := c.file.buf, open := Some(e.open)) else a;
    if c.file.state == 0 {
      FOpenTold(c, e, q, a);
      FOpenKeeps(c, e);
    }
    if r1 == Fwd {
      var (c2, r2) := if c1.file.state == 1 then FInfo(c1, e) else (c1, Fwd);
      var a2 := if c1.file.state == 1 then a1.(info := Some(e.info)) else a1;
      if c1.file.state == 1 {
        FInfoTold(c1, e, q, a1);
        assert r2 == Fwd ==> c2.file.state == 2 by { InfoReads(c1, e); }
      }
      if r2 == Fwd { FReadTold(c2, e, q, a2, document); }
    }
  }

  lemma FOpenKeeps(c: Cl, e: Env)
    ensures var c1 := FOpen(c, e).0; c1.conf == c.conf && c1.rx == c.rx && c1.req == c.req
    ensures FOpen(c, e).1 == Fwd <==> e.open.Opened?
  {
    hide StatusMsg;
  }

  lemma InfoReads(c: Cl, e: Env)
    ensures FInfo(c, e).1 == Fwd ==> FInfo(c, e).0.file.state == 2
  {
    hide StatusMsg, Redirect, Slice;
  }

  lemma AskHolds(c: Cl, i: nat)
    requires Pipe(c, i) && HasRequest(c.eng) && GoodConf(c.conf) && Asked(c).Ask?
    ensures AskAt(c, Asked(c))
  {
    hide R.Parse, R.AreRequests, Handled, Flat, Slice, Ascii;
    var p := Parsed(c, c.rx.buf);
    T.FrontFits(c.conf.normalize, c.rx.buf);
    T.SliceLength(p.req.host, c.rx.buf);
    T.SliceLength(p.req.path, c.rx.buf);
    T.SliceLength(p.req.ims, c.rx.buf);
    assert |Ascii("http://")| == 7 && |Ascii("/")| == 1;
  }

  /** The first call: who is declined, and who is to be opened. */
  lemma FileFirst(c: Cl, a: Calls)
    requires Says(c, a) && Reaching(c.eng, FILE)
    requires Asked(c).Ask? ==> AskAt(c, Asked(c))
    requires |c.conf.www| + |c.req.unescaped| + 1 <= c.conf.fileBuf
    ensures var (c0, r) := FileOpen(c);
            var q := Asked(c);
            if IsFile(c.conf, q, a) then r == Fwd && ToOpen(c0, q, a) && c0 == c.(file := c0.file, fl := c0.fl)
                                         && c0.fl.keepAlive == c.fl.keepAlive && a.open == None && a.info == None
            else
              && r == Skip
              && (if q.Ask? && !IsDir(c.conf, q, a) then Errs(c, c0, 405) && !c0.fl.headMethod else c0 == c)
              && c0 == c.(resp := c0.resp, fl := c0.fl)
  {
    hide R.Parse, T.Taken, HeadFor, Message, StatusMsg, Location, Slice, EndsWithSlash;
    MessagesAre();
    assert !Entered(c.eng, FILE) && Entered(c.eng, INDEX) && Entered(c.eng, AUTO);
  }

  /** The filter declines. */
  lemma FileDeclinedSays(c: Cl, c2: Cl, a: Calls)
    requires Says(c, a) && Reaching(c.eng, FILE) && OneMore(c.eng, c2.eng, FILE) && c2.eng.mods[FILE].done
    requires !IsFile(c.conf, Asked(c), a)
    requires c2.conf == c.conf && c2.rx.buf == c.rx.buf && c2.file == c.file && c2.req == c.req
    requires var q := Asked(c);
             if q.Ask? && !IsDir(c.conf, q, a) then Errs(c, c2, 405) && c2.fl.headMethod == c.fl.headMethod
             else c2.resp == c.resp && c2.fl == c.fl
    ensures Says(c2, a)
  {
    hide R.Parse, T.Taken, HeadFor, Message, Location, Target, EndsWithSlash;
    assert !Entered(c.eng, FILE) && Entered(c.eng, INDEX) && Entered(c.eng, AUTO);
    assert Asked(c2) == Asked(c);
  }

  /** The filter was called for a file. */
  lemma FileToldSays(c: Cl, c2: Cl, r: Result, a: Calls, a2: Calls)
    requires Says(c, a) && HasRequest(c.eng) && OneMore(c.eng, c2.eng, FILE) && Entered(c.eng, INDEX) && Entered(c.eng, AUTO)
    requires c2.eng.mods[FILE].done == (r == Result.Done)
    requires Told(c2, r, Asked(c), a2, c.eng.mods[ERROR].done)
    requires a2.index == a.index && a2.dir == a.dir && (c.eng.mods[RESP].done ==> a2 == a)
    requires c2.conf == c.conf && c2.rx.buf == c.rx.buf && c2.req == c.req && c2.fl.keepAlive == c.fl.keepAlive
    requires c2.resp.info == c.resp.info
    ensures Says(c2, a2)
  {
    hide R.Parse, T.Taken, HeadFor, Message, Location, EndsWithSlash, FileTold, StatusTold;
    assert Asked(c2) == Asked(c);
    assert Target(c.conf, Asked(c), a2) == Target(c.conf, Asked(c), a);
    KnownStatus(c2.conf, Asked(c), a2);
  }

  lemma KnownStatus(conf: Conf, q: T.Ask, a: Calls)
    requires IsFile(conf, q, a)
    ensures Status(conf, q, a) != 405
  {
  }

  lemma FInfoKeepsFlag(c: Cl, e: Env)
    ensures FInfo(c, e).0.fl.keepAlive == c.fl.keepAlive
  {
    hide StatusMsg, Slice, Overwrite;
  }

  lemma FileKeepsFlag(c: Cl, e: Env)
    ensures FileProcess(c, e).0.fl.keepAlive == c.fl.keepAlive
  {
    hide StatusMsg, FInfo, Overwrite;
    FInfoKeepsFlag(if c.file.state == 0 then FOpen(c, e).0 else c, e);
  }

  /** What the file filter finds when it is called again. */
  lemma FileAgain(c: Cl, a: Calls)
    requires Says(c, a) && HasRequest(c.eng) && Entered(c.eng, FILE) && !c.eng.mods[FILE].done
    requires IsFile(c.conf, Asked(c), a) && (c.file.state != 2 ==> !c.eng.mods[ERROR].done)
    ensures AtWork(c, Asked(c), a, c.eng.mods[ERROR].done)
  {
    hide R.Parse, T.Taken, HeadFor, Message, Location, EndsWithSlash, Target, Ascii;
  }

  /** One call of the file filter for a file. */
  lemma FileCallSays(c: Cl, c0: Cl, e: Env, a: Calls)
    requires Sized(c.eng) && Says(c, a) && HasRequest(c.eng) && Entered(c.eng, INDEX) && Entered(c.eng, AUTO)
    requires !c.eng.mods[FILE].done && (c0.file.state != 2 ==> !c.eng.mods[ERROR].done && !c.eng.mods[RESP].done)
    requires c0 == c.(eng := After(c.eng, FILE, false), file := c0.file, fl := c0.fl) && c0.fl.keepAlive == c.fl.keepAlive
    requires AskAt(c, Asked(c)) && AtWork(c0, Asked(c), a, c.eng.mods[ERROR].done) && ChainFile.FileReady(c0)
    ensures var (c1, r) := FileProcess(c0, e);
            var a2 := FileNote(a, c0.file, e);
            && (r == Fwd || r == Result.Done || r == Async || r == Err)
            && (r == Fwd || r == Result.Done ==> Says(Moved(c1, FILE, r != Fwd), a2))
            && (r == Async ==> Says(c1, a2))
  {
    hide Says, AtWork, Told, FileProcess, HasRequest, Location, Slice, ChainFile.FileReady, ChainFile.FileMade, Asked;
    FileProcessTold(c0, e, Asked(c), a, c.eng.mods[ERROR].done);
    ChainFile.FileMakes(c0, e);
    FileKeepsFlag(c0, e);
    var (c1, r) := FileProcess(c0, e);
    var a2 := FileNote(a, c0.file, e);
    if r == Fwd || r == Result.Done {
      var c2 := Moved(c1, FILE, r != Fwd);
      MovedEngine(c, FILE, c1, false, r != Fwd);
      FileMods(c.eng, c2.eng, r != Fwd);
      ToldMoved(c1, c2, r, Asked(c), a2, c.eng.mods[ERROR].done);
      FileToldSays(c, c2, r, a, a2);
    } else if r == Async {
      FileMods(c.eng, c1.eng, false);
      FileToldSays(c, c1, r, a, a2);
    }
  }

  lemma FileMods(g: Engine, g2: Engine, done: bool)
    requires Sized(g) && !g.mods[FILE].done
    requires MovedOn(g, g2, FILE, ModAfter(g, FILE, false, done)) || (g2 == After(g, FILE, false) && !done)
    ensures OneMore(g, g2, FILE) && g2.mods[FILE].done == done
  {
  }

  lemma ToldMoved(c1: Cl, c2: Cl, r: Result, q: T.Ask, a: Calls, document: bool)
    requires Told(c1, r, q, a, document)
    requires c2.conf == c1.conf && c2.file == c1.file && c2.fl == c1.fl && c2.resp == c1.resp
    ensures Told(c2, r, q, a, document)
  {
    hide Message, Location, Status, Target, Ascii, EndsWithSlash;
  }

  lemma FileNoteIs(c: Cl, e: Env, a: Calls)
    requires Sized(c.eng)
    ensures Note(a, c, FILE, e) == if Runs(c, FILE) then FileNote(a, ChainFile.FileStart(c).file, e) else a
  {
    hide FileOpen, Runs;
  }

  /** What a call of the file filter leaves, whether it goes on, waits or fails. */
  ghost predicate FileStepSays(c: Cl, c1: Cl, r: Result, a: Calls)
    requires Sized(c1.eng)
  {
    && (r == Fwd || r == Result.Done || r == Async || r == Err)
    && (r == Fwd || r == Result.Done ==> Says(Moved(c1, FILE, r != Fwd), a))
    && (r == Async ==> Says(c1, a))
  }

  /** The file filter is at work. */
  predicate FileTurn(c: Cl, a: Calls)
  {
    && Sized(c.eng) && ChainFile.AtFile(c) && HasRequest(c.eng) && Entered(c.eng, INDEX) && Entered(c.eng, AUTO)
    && !c.eng.mods[FILE].done && Says(c, a) && (Asked(c).Ask? ==> AskAt(c, Asked(c)))
    && (!Entered(c.eng, FILE) ==> Reaching(c.eng, FILE))
    && (c.file.state != 2 ==> !c.eng.mods[ERROR].done && !c.eng.mods[RESP].done)
  }

  lemma FileDeclines(c: Cl, e: Env, a: Calls)
    requires FileTurn(c, a) && !Entered(c.eng, FILE) && !IsFile(c.conf, Asked(c), a)
    ensures FileStepSays(c, FilterCall(c, FILE, e).0, FilterCall(c, FILE, e).1, Note(a, c, FILE, e))
  {
    hide Says, FilterCall, Note, AskAt, Asked, FileOpen, After, Target, Message, StatusMsg, EndsWithSlash, Runs, OpenCall;
    FileFirst(c, a);
    RunsIs(c, FILE);
    CallPasses(c, FILE, e);
    FileNoteIs(c, e, a);
    var c1 := FilterCall(c, FILE, e).0;
    MovedEngine(c, FILE, c1, true, false);
    assert OneMore(c.eng, Moved(c1, FILE, false).eng, FILE) && Moved(c1, FILE, false).eng.mods[FILE].done;
    FileDeclinedSays(c, Moved(c1, FILE, false), a);
  }

  lemma FileOpens(c: Cl, e: Env, a: Calls)
    requires FileTurn(c, a) && !Entered(c.eng, FILE) && IsFile(c.conf, Asked(c), a)
    ensures FileStepSays(c, FilterCall(c, FILE, e).0, FilterCall(c, FILE, e).1, Note(a, c, FILE, e))
  {
    hide Says, FilterCall, Note, AskAt, Asked, FileOpen, FileProcess, After, Target, KnownVerb, EndsWithSlash, ToOpen, Runs;
    FileFirst(c, a) by { FileRoom(c); }
    RunsIs(c, FILE);
    FileNoteIs(c, e, a);
    ChainFile.FileRuns(c, e);
    hide ChainFile.AtFile;
    var c0 := ChainFile.FileStart(c);
    OpeningMoved(FileOpen(c).0, c0, Asked(c), a);
    FileCallSays(c, c0, e, a);
  }

  lemma OpeningMoved(c: Cl, c0: Cl, q: T.Ask, a: Calls)
    requires ToOpen(c, q, a) && c0 == c.(eng := c0.eng)
    ensures ToOpen(c0, q, a)
  {
    hide Message, Location, Target, Ascii, EndsWithSlash;
  }

  lemma FileReopens(c: Cl, e: Env, a: Calls)
    requires FileTurn(c, a) && Entered(c.eng, FILE)
    ensures FileStepSays(c, FilterCall(c, FILE, e).0, FilterCall(c, FILE, e).1, Note(a, c, FILE, e))
  {
    hide Says, FilterCall, Note, AskAt, Asked, FileOpen, FileProcess, After, AtWork, Target, KnownVerb, EndsWithSlash, Runs;
    RunsIs(c, FILE);
    FileNoteIs(c, e, a);
    assert IsFile(c.conf, Asked(c), a) by { FileIsFor(c, a); }
    FileAgain(c, a);
    ChainFile.FileRuns(c, e);
    AtWorkMoved(c, ChainFile.FileStart(c), Asked(c), a, c.eng.mods[ERROR].done);
    FileCallSays(c, ChainFile.FileStart(c), e, a);
  }

  /** A filter that is not done works on a file. */
  lemma FileIsFor(c: Cl, a: Calls)
    requires FileTurn(c, a) && Entered(c.eng, FILE)
    ensures IsFile(c.conf, Asked(c), a)
  {
    hide AskAt, R.Parse, T.Taken, Message, Location, EndsWithSlash, Target, HeadFor;
  }

  lemma AtWorkMoved(c: Cl, c0: Cl, q: T.Ask, a: Calls, document: bool)
    requires AtWork(c, q, a, document) && c0 == c.(eng := c0.eng)
    ensures AtWork(c0, q, a, document)
  {
    hide Message, Location, Target, Ascii, EndsWithSlash, Status;
  }

  lemma FileTurnIs(c: Cl, a: Calls)
    requires Inv(c, FILE) && Says(c, a)
    ensures FileTurn(c, a)
  {
    hide Inv, Says, GoodConf, Pipe, AskAt, ChainFile.AtFile, Asked, EngInv, HasRequest, Reaching, Entered;
    InvParts(c, FILE);
    ChainFile.FileFacts(c);
    FileEngine(c.eng, c.fl.respDone);
    if Asked(c).Ask? { AskHolds(c, FILE); }
    FileNotYet(c);
  }

  /** The file filter: what it decides is what the request and the answers decide. */
  lemma FileSaysNext(c: Cl, e: Env, a: Calls)
    requires Inv(c, FILE) && Says(c, a)
    ensures Sized(c.eng) && FileStepSays(c, FilterCall(c, FILE, e).0, FilterCall(c, FILE, e).1, Note(a, c, FILE, e))
  {
    hide Inv, Says, Note, FilterCall, FileTurn, Asked, FileStepSays, IsFile, Entered;
    FileTurnIs(c, a);
    assert Sized(c.eng) by { InvParts(c, FILE); }
    if Entered(c.eng, FILE) {
      FileReopens(c, e, a);
    } else if IsFile(c.conf, Asked(c), a) {
      FileOpens(c, e, a);
    } else {
      FileDeclines(c, e, a);
    }
  }

  lemma FileNotYet(c: Cl)
    requires Sized(c.eng) && (Entered(c.eng, ERROR) ==> c.file.state == 2)
    requires c.eng.mods[RESP].done ==> Entered(c.eng, ERROR)
    ensures c.file.state != 2 ==> !c.eng.mods[ERROR].done && !c.eng.mods[RESP].done
  {
  }

  lemma InvParts(c: Cl, i: nat)
    requires Inv(c, i)
    ensures GoodConf(c.conf) && Pipe(c, i) && EngInv(c.eng, i, c.fl.respDone) && Sized(c.eng)
  {
    hide GoodConf, Pipe, Wire, LogOk, Responding, Reading, Books;
  }

  lemma FileRoom(c: Cl)
    requires ChainFile.AtFile(c) && !Entered(c.eng, FILE)
    ensures |c.conf.www| + |c.req.unescaped| + 1 <= c.conf.fileBuf
  {
  }

  lemma FileEngine(g: Engine, d: bool)
    requires EngInv(g, FILE, d)
    ensures Sized(g) && HasRequest(g) && Entered(g, INDEX) && Entered(g, AUTO) && !g.mods[FILE].done
    ensures !Entered(g, FILE) ==> Reaching(g, FILE)
    ensures g.mods[RESP].done ==> Entered(g, ERROR)
  {
    NotEnteredAfter(g, FILE);
    assert Entered(g, INDEX) && Entered(g, AUTO) && Entered(g, REQ);
    assert !Entered(g, FILE) ==> !Entered(g, ERROR) && !Entered(g, RESP);
    assert !Entered(g, ERROR) ==> !Entered(g, RESP);
  }

  // ------------------------------------------------------- error and response

  lemma SamePathAndFile(c: Cl, c2: Cl, q: T.Ask, a: Calls, i: nat)
    requires OneMore(c.eng, c2.eng, i) && i > FILE && PathSays(c, q, a) && FileSays(c, q, a)
    requires c2.conf == c.conf && c2.req == c.req && c2.file == c.file
    requires c2.fl.headMethod == c.fl.headMethod && c2.fl.keepAlive == c.fl.keepAlive
    ensures PathSays(c2, q, a) && FileSays(c2, q, a)
    ensures Decided(c2, q, a) == Decided(c, q, a)
  {
    hide Target, EndsWithSlash, Ascii, KnownVerb, Status;
  }

  lemma ErrorPassedSays(c: Cl, c2: Cl, a: Calls)
    requires Says(c, a) && HasRequest(c.eng) && OneMore(c.eng, c2.eng, ERROR)
    requires c2.eng.mods[ERROR].done && (c.eng.mods[ERROR].done || !c.fl.respErr)
    requires c2 == c.(eng := c2.eng, input := c2.input, output := c2.output)
    ensures Says(c2, a)
  {
    hide R.Parse, T.Taken, HeadFor, Message, Location, PathSays, FileSays, Decided, ContentLength, ContentType;
    assert Asked(c2) == Asked(c);
    SamePathAndFile(c, c2, Asked(c), a, ERROR);
  }

  lemma ErrorRanSays(c: Cl, c2: Cl, a: Calls)
    requires Says(c, a) && HasRequest(c.eng) && OneMore(c.eng, c2.eng, ERROR) && c2.eng.mods[ERROR].done
    requires c.fl.respErr && !c.eng.mods[ERROR].done && !c.eng.mods[RESP].done
    requires c2 == c.(eng := c2.eng, input := c2.input, output := c2.output, fl := c2.fl, resp := c2.resp)
    requires c2.fl == c.fl.(respDone := true)
    requires c2.resp == c.resp.(contentType := TEXT_PLAIN, contentLength := Some(|c.resp.msg|))
    ensures Says(c2, a)
  {
    hide R.Parse, T.Taken, HeadFor, Message, Location, PathSays, FileSays, Decided;
    assert Asked(c2) == Asked(c);
    SamePathAndFile(c, c2, Asked(c), a, ERROR);
  }

  /** The head is built from what was decided. */
  lemma HeadIsFor(c: Cl, a: Calls)
    requires Says(c, a) && HasRequest(c.eng) && Entered(c.eng, FILE) && c.eng.mods[ERROR].done
    requires c.resp.contentLength.Some?
    ensures HeadInfoOf(c) == HeadFor(c.conf, Asked(c), a)
  {
    hide R.Parse, T.Taken, Message, Target, EndsWithSlash, FileTold, PathSays, Location, Status, ContentLength, ContentType;
    assert PathSays(c, Asked(c), a) && c.fl.keepAlive == (Asked(c).Ask? && Asked(c).keepAlive) by { KeptFlag(c, a); }
    if c.resp.code == 301 {
      var l := Location(Asked(c));
      assert c.file.buf[0..|l|] == c.file.buf[..|l|] == l;
    }
  }

  lemma KeptFlag(c: Cl, a: Calls)
    requires Says(c, a) && HasRequest(c.eng)
    ensures PathSays(c, Asked(c), a) && c.fl.keepAlive == (Asked(c).Ask? && Asked(c).keepAlive)
  {
    hide Asked, Target, EndsWithSlash, FileSays, StatusSays, HeadFor;
  }

  lemma HeadSays(c: Cl, c2: Cl, a: Calls)
    requires Says(c, a) && HasRequest(c.eng) && OneMore(c.eng, c2.eng, RESP) && Entered(c.eng, FILE)
    requires c.eng.mods[ERROR].done && c.resp.contentLength.Some?
    requires c2.conf == c.conf && c2.rx == c.rx && c2.req == c.req && c2.file == c.file
    requires c2.fl == c.fl.(respDone := c2.fl.respDone)
    requires c2.resp == c.resp.(head := c2.resp.head, info := HeadInfoOf(c))
    ensures Says(c2, a)
  {
    HeadIsFor(c, a);
    hide R.Parse, T.Taken, HeadFor, HeadInfoOf, Message, Location, PathSays, FileSays, Decided, ContentLength, ContentType;
    assert Asked(c2) == Asked(c);
    SamePathAndFile(c, c2, Asked(c), a, RESP);
  }

  // -------------------------------------------------------------- the others

  lemma {:induction false} SendLoopFrame(c: Cl, sends: seq<SendResult>)
    ensures var c1 := SendLoop(c, sends).0; c1 == c.(tx := c1.tx)
    decreases |sends|
  {
    hide Total, Shift, IovBytes;
    if c.tx.iov != [] && sends != [] && sends[0].Sent? {
      SendLoopFrame(SendOne(c, sends[0].n), sends[1..]);
    }
  }

  /** The send filter changes only what is to be sent. */
  lemma SendFrame(c: Cl, e: Env)
    ensures var c1 := SendProcess(c, e).0; c1 == c.(tx := c1.tx, input := c1.input)
  {
    hide SendLoop;
    SendLoopFrame(if c.input.len != 0 then c.(tx := c.tx.(iov := [c.input]), input := c.input.(len := 0)) else c, e.sends);
  }

  /** Filters that decide nothing. */
  predicate Decides(i: nat) { REQ <= i <= ERROR || i == RESP }

  /** Only the receive and send parts, the strings passed on and the engine differ. */
  ghost predicate Plain(c: Cl, c1: Cl)
  {
    c1.conf == c.conf && c1.req == c.req && c1.file == c.file && c1.resp == c.resp && c1.fl == c.fl
  }

  lemma PlainOpen(c: Cl, i: nat)
    requires i < N && !Decides(i) && Sized(c.eng) && (i == TRANS ==> c.resp.contentLength.Some?)
    ensures var c1 := OpenCall(c, i);
            && Plain(c, c1) && c1.rx == c.rx && c1.eng.mods == c.eng.mods[i := c1.eng.mods[i]] && c1.eng.log == c.eng.log
  {
  }

  lemma PlainProcess(c: Cl, i: nat, e: Env)
    requires i < N && !Decides(i)
    ensures var c1 := Process(c, i, e).0; Plain(c, c1) && (i != RECV ==> c1.rx == c.rx)
  {
    hide SendProcess;
    SendFrame(c, e);
  }

  lemma PlainCall(c: Cl, i: nat, e: Env)
    requires i < N && !Decides(i) && Sized(c.eng) && (i == TRANS ==> c.resp.contentLength.Some?)
    ensures var c1 := FilterCall(c, i, e).0;
            && Plain(c, c1) && (i != RECV ==> c1.rx == c.rx)
            && c1.eng.mods == c.eng.mods[i := c1.eng.mods[i]] && c1.eng.log == c.eng.log
  {
    hide OpenCall, Process, Deref;
    PlainOpen(c, i);
    PlainProcess(Feed(OpenCall(c, i), i), i, e);
  }

  // ------------------------------------------------------------- every step

  /** The outcome of a step before the last filter says what is called for. */
  ghost predicate NextSays(o: Outcome, a: Calls)
  {
    match o
    case Go(c, _) => Says(c, a)
    case Wait(c, _) => Says(c, a)
    case Closed(_) => true
    case Panic => true
  }

  lemma SwitchSays(c1: Cl, i: nat, r: Result, a: Calls)
    requires i < LOG && Sized(c1.eng)
    requires r == Fwd || r == Result.Done || r == Skip ==> Says(Moved(c1, i, r != Fwd), a)
    requires r == Async || r == Back ==> Says(c1, a)
    ensures NextSays(Switch(c1, i, r), a)
  {
    hide Says;
    if r == Back && i > 0 {
      assert Switch(c1, i, r) == Go(c1.(input := NULL, eng := c1.eng.(chainBack := true)), i - 1);
      BackSays(c1, c1.(input := NULL, eng := c1.eng.(chainBack := true)), a);
    } else if r == Fwd || r == Result.Done || r == Skip {
      assert Switch(c1, i, r) == Go(Moved(c1, i, r != Fwd), i + 1);
    }
  }

  lemma BackSays(c: Cl, c2: Cl, a: Calls)
    requires Says(c, a) && c2 == c.(input := c2.input, output := c2.output, eng := c.eng.(chainBack := c2.eng.chainBack))
    ensures Says(c2, a)
  {
    hide Says;
    assert Sized(c.eng) by { SizedSays(c, a); }
    if HasRequest(c.eng) { SaysSame(c, c2, a); } else { NothingSays(c, c2, a); }
  }

  lemma SizedSays(c: Cl, a: Calls)
    requires Says(c, a)
    ensures Sized(c.eng) && (!HasRequest(c.eng) ==> a == NO_CALLS)
  {
    hide PathSays, FileSays, StatusSays, HeadFor;
  }

  lemma NothingSays(c: Cl, c2: Cl, a: Calls)
    requires Says(c, a) && Sized(c.eng) && !HasRequest(c.eng) && Sized(c2.eng) && !HasRequest(c2.eng)
    ensures Says(c2, a)
  {
  }

  /** A filter that decides nothing. */
  lemma PlainSays(c: Cl, i: nat, e: Env, a: Calls)
    requires i < LOG && !Decides(i) && Sized(c.eng) && Says(c, a) && (i == TRANS ==> c.resp.contentLength.Some?)
    requires i == RECV ==> !HasRequest(c.eng)
    ensures NextSays(Step(c, i, e), Note(a, c, i, e))
  {
    hide Says, FilterCall, Switch;
    PlainCall(c, i, e);
    var (c1, r) := FilterCall(c, i, e);
    assert Note(a, c, i, e) == a;
    PlainDecisions(c.eng, c1.eng, i);
    PlainKeeps(c, c1, i, a);
    PlainMoved(c1, i, r, a);
    SwitchSays(c1, i, r, a);
  }

  lemma PlainDecisions(g: Engine, g1: Engine, i: nat)
    requires i < LOG && !Decides(i) && Sized(g) && Sized(g1) && g1.mods == g.mods[i := g1.mods[i]]
    ensures SameDecisions(g, g1)
  {
  }

  lemma PlainKeeps(c: Cl, c1: Cl, i: nat, a: Calls)
    requires Says(c, a) && Plain(c, c1) && SameDecisions(c.eng, c1.eng) && (i != RECV ==> c1.rx == c.rx)
    requires i == RECV ==> Sized(c.eng) && !HasRequest(c.eng)
    ensures Says(c1, a)
  {
    hide Says;
    if i == RECV { NothingSays(c, c1, a); } else { SaysSame(c, c1, a); }
  }

  lemma PlainMoved(c1: Cl, i: nat, r: Result, a: Calls)
    requires i < LOG && !Decides(i) && Sized(c1.eng) && Says(c1, a)
    ensures Says(Moved(c1, i, r != Fwd), a)
  {
    hide Says;
    var c2 := Moved(c1, i, r != Fwd);
    PlainDecisions(c1.eng, c2.eng, i);
    if HasRequest(c1.eng) { SaysSame(c1, c2, a); } else { NothingSays(c1, c2, a); }
  }

  lemma ReqStepSays(c: Cl, e: Env, a: Calls)
    requires Inv(c, REQ) && Says(c, a)
    ensures Sized(c.eng) && NextSays(Step(c, REQ, e), Note(a, c, REQ, e))
  {
    hide Inv, Idle, R.Parse, Says, ReqProcess, FilterCall, Switch;
    NoneEntered(c);
    SizedSays(c, a);
    ChainReceive.ReqCall(c, e);
    var (c1, r) := FilterCall(c, REQ, e);
    assert Note(a, c, REQ, e) == a == NO_CALLS;
    ReqVerdict(c);
    if Parsed(c, c.rx.buf).done {
      ReqSays(c);
    } else {
      assert !HasRequest(c1.eng) by { ReqStill(c); }
      NothingSays(c, c1, a);
    }
    SwitchSays(c1, REQ, r, a);
  }

  lemma ReqVerdict(c: Cl)
    requires Sized(c.eng) && R.Parse(c.conf.normalize, c.rx.buf, c.req) == Parsed(c, c.rx.buf)
    ensures var r := ReqProcess(ChainReceive.Requested(c)).1;
            if Parsed(c, c.rx.buf).done then r == Result.Done else r == Err || r == Back
  {
    hide R.Parse, StatusMsg;
  }

  lemma ReqStill(c: Cl)
    requires Sized(c.eng) && !HasRequest(c.eng)
    ensures var c1 := ReqProcess(ChainReceive.Requested(c)).0; Sized(c1.eng) && !HasRequest(c1.eng)
  {
    hide R.Parse, StatusMsg;
  }

  lemma EarlyReaching(c: Cl, i: nat)
    requires Inv(c, i) && (i == INDEX || i == AUTO)
    ensures Reaching(c.eng, i)
  {
    InvFacts(c, i);
    EarlyFacts(c, i);
    InvParts(c, i);
    hide Inv, EngInv;
    assert Books(c.eng, i) by { BooksOf(c.eng, i, c.fl.respDone); }
    assert !Entered(c.eng, RESP) && !Entered(c.eng, ERROR);
  }

  lemma BooksOf(g: Engine, i: nat, d: bool)
    requires EngInv(g, i, d)
    ensures Books(g, i)
  {
    hide Books, Responding, Reading;
  }

  lemma EarlyStepSays(c: Cl, i: nat, e: Env, a: Calls)
    requires Inv(c, i) && Says(c, a) && (i == INDEX || i == AUTO)
    ensures Sized(c.eng) && NextSays(Step(c, i, e), Note(a, c, i, e))
  {
    hide Inv, Says, FilterCall, Switch, Note;
    EarlyReaching(c, i);
    if i == INDEX {
      IndexSays(c, e, a);
      IndexCallIs(c, e);
    } else {
      AutoSays(c, e, a);
      AutoCallIs(c, e);
    }
    var (c1, r) := FilterCall(c, i, e);
    assert r != Async && r != Back by { EarlyVerdict(c, i, e); }
    SwitchSays(c1, i, r, Note(a, c, i, e));
  }

  lemma EarlyVerdict(c: Cl, i: nat, e: Env)
    requires Reaching(c.eng, i) && (i == INDEX || i == AUTO)
    ensures FilterCall(c, i, e).1 == Fwd || FilterCall(c, i, e).1 == Result.Done
  {
    hide StatusMsg;
  }

  lemma FileStepSaysNext(c: Cl, e: Env, a: Calls)
    requires Inv(c, FILE) && Says(c, a)
    ensures Sized(c.eng) && NextSays(Step(c, FILE, e), Note(a, c, FILE, e))
  {
    FileSaysNext(c, e, a);
    hide Inv, Says, FilterCall, Switch, Note;
    var (c1, r) := FilterCall(c, FILE, e);
    SwitchSays(c1, FILE, r, Note(a, c, FILE, e));
  }

  /** On the way back the later filters change nothing. */
  lemma BackStepSays(c: Cl, i: nat, e: Env, a: Calls)
    requires Inv(c, i) && Says(c, a) && ERROR <= i <= RESP && c.eng.chainBack
    ensures Sized(c.eng) && NextSays(Step(c, i, e), Note(a, c, i, e))
  {
    hide Inv, Says, FilterCall, Switch;
    ChainRespond.BackFacts(c, i);
    ChainRespond.BackCall(c, i, e);
    SwitchSays(c, i, Back, a);
  }

  lemma ErrorPassStepSays(c: Cl, e: Env, a: Calls)
    requires Says(c, a) && Sized(c.eng) && HasRequest(c.eng) && !c.eng.chainBack
    requires c.eng.mods[ERROR].done || (!Entered(c.eng, ERROR) && !c.fl.respErr)
    ensures NextSays(Step(c, ERROR, e), a)
  {
    hide Says, FilterCall, Switch, After, HasRequest;
    CallPasses(c, ERROR, e);
    var (c1, r) := FilterCall(c, ERROR, e);
    ChainRespond.PassAfter(c.eng, ERROR);
    MovedEngine(c, ERROR, c1, !Entered(c.eng, ERROR), false);
    ErrorPassedSays(c, Moved(c1, ERROR, false), a);
    SwitchSays(c1, ERROR, r, a);
  }

  lemma ErrorStepSays(c: Cl, e: Env, a: Calls)
    requires Inv(c, ERROR) && Says(c, a) && !c.eng.chainBack
    ensures Sized(c.eng) && NextSays(Step(c, ERROR, e), Note(a, c, ERROR, e))
  {
    hide Inv, Says, FilterCall, Switch, EngInv, After, HasRequest, Books;
    ChainRespond.OnwardFacts(c, ERROR);
    InvFacts(c, ERROR);
    if c.eng.mods[ERROR].done || !c.fl.respErr {
      ErrorPassStepSays(c, e, a);
    } else {
      CallRuns(c, ERROR, e);
      var (c1, r) := FilterCall(c, ERROR, e);
      MovedEngine(c, ERROR, c1, false, true);
      assert !c.eng.mods[RESP].done by { assert !Entered(c.eng, ERROR) && !Entered(c.eng, RESP); }
      ErrorRanSays(c, Moved(c1, ERROR, true), a);
      SwitchSays(c1, ERROR, r, a);
    }
  }

  lemma RespStepSays(c: Cl, e: Env, a: Calls)
    requires Inv(c, RESP) && Says(c, a) && !c.eng.chainBack
    ensures Sized(c.eng) && NextSays(Step(c, RESP, e), Note(a, c, RESP, e))
  {
    hide Inv, Says, FilterCall, Switch, EngInv, After, Sending, GoodConf, Wire, RespProcess;
    ChainRespond.RespFacts(c);
    if c.eng.mods[RESP].done {
      CallPasses(c, RESP, e);
      ChainRespond.PassAfter(c.eng, RESP);
      var (c1, r) := FilterCall(c, RESP, e);
      var c2 := Moved(c1, RESP, false);
      SaysSame(c, c2, a);
      SwitchSays(c1, RESP, r, a);
    } else {
      CallRuns(c, RESP, e);
      var (c1, r) := FilterCall(c, RESP, e);
      RespSets(c.(eng := After(c.eng, RESP, false)));
      if r == Result.Done {
        MovedEngine(c, RESP, c1, false, true);
        HeadSays(c, Moved(c1, RESP, true), a);
      }
      SwitchSays(c1, RESP, r, a);
    }
  }

  lemma RespSets(c: Cl)
    ensures var (c1, r) := RespProcess(c);
            && (r == Result.Done || r == Fin)
            && (r == Result.Done ==>
                  && c1.conf == c.conf && c1.rx == c.rx && c1.req == c.req && c1.file == c.file && c1.eng == c.eng
                  && c1.fl == c.fl.(respDone := c1.fl.respDone)
                  && c1.resp == c.resp.(head := c1.resp.head, info := HeadInfoOf(c)))
  {
    hide W.HeadText;
  }
}

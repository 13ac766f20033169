/** Which response a request gets: the calls that are made for it, their answers, and the status,
    the head and the body that request and answers call for. */
module ChainAnswer {
  import opened Bytes
  import opened Chain
  import opened ChainEngine
  import opened ChainInv
  import T = RequestText
  import W = Http1Writers

  // ------------------------------------------------------- the calls, by run

  /** The calls made for one request, each with its last answer: is there an index file, the
      directory listing, the open, with the name it was given, and the file's properties. */
  datatype Calls = Calls(name: bytes, index: Option<bool>, dir: Option<DirResult>, open: Option<OpenResult>,
                         info: Option<InfoResult>)

  const NO_CALLS := Calls([], None, None, None, None)

  /** The process function of filter i is called in this round. */
  predicate Runs(c: Cl, i: nat)
    requires i < N && Sized(c.eng)
  {
    !OpenCall(c, i).eng.mods[i].done
  }

  /** The calls after one more round. */
  function Note(a: Calls, c: Cl, i: nat, e: Env): Calls
    requires i < N && Sized(c.eng)
  {
    if !Runs(c, i) then a
    else if i == INDEX then a.(index := Some(e.indexFound))
    else if i == AUTO then a.(dir := Some(e.dir))
    else if i == FILE then
      var file := OpenCall(c, i).file;
      var a1 := if file.state == 0 then a.(name := file.buf, open := Some(e.open)) else a;
      if file.state == 1 || (file.state == 0 && e.open.Opened?) then a1.(info := Some(e.info)) else a1
    else a
  }

  // ----------------------------------------------------- what is called for

  /** The messages of the statuses. */
  function Message(code: nat): bytes
  {
    Ascii(if code == 200 then "OK"
          else if code == 301 then "Moved Permanently"
          else if code == 304 then "Not Modified"
          else if code == 400 then "Bad Request"
          else if code == 403 then "Forbidden"
          else if code == 404 then "Not Found"
          else if code == 405 then "Method Not Allowed"
          else "Internal Server Error")
  }

  /** The path that is served: the index file of a directory, when there is one. */
  function Target(conf: Conf, q: T.Ask, a: Calls): bytes
    requires q.Ask?
  {
    q.path + if a.index == Some(true) then conf.index else []
  }

  predicate IsDir(conf: Conf, q: T.Ask, a: Calls) { q.Ask? && EndsWithSlash(Target(conf, q, a)) }

  predicate KnownVerb(q: T.Ask)
    requires q.Ask?
  {
    q.verb == Ascii("GET") || q.verb == Ascii("HEAD")
  }

  /** The request is for a file. */
  predicate IsFile(conf: Conf, q: T.Ask, a: Calls) { q.Ask? && !EndsWithSlash(Target(conf, q, a)) && KnownVerb(q) }

  /** The client has the file as it is. */
  predicate Unchanged(q: T.Ask, lastModified: bytes)
    requires q.Ask?
  {
    q.since != [] && q.since == lastModified
  }

  function OpenStatus(o: OpenResult): nat
    requires !o.Opened?
  {
    match o
    case OpenWait => 0
    case OpenMissing => 404
    case OpenError => 500
  }

  function InfoStatus(q: T.Ask, p: InfoResult): nat
    requires q.Ask?
  {
    match p
    case InfoWait => 0
    case InfoError => 403
    case Info(isDir, _, lm, _) => if isDir then 301 else if Unchanged(q, lm) then 304 else 200
  }

  function DirStatus(d: DirResult): nat
  {
    match d
    case DirMissing => 404
    case DirError => 403
    case Listing(_) => 200
  }

  /** The status that request and answers call for; 0 as long as an answer is missing. */
  function Status(conf: Conf, q: T.Ask, a: Calls): nat
  {
    if q.Rejected? then 400
    else if IsDir(conf, q, a) then (if a.dir.Some? then DirStatus(a.dir.value) else 0)
    else if !KnownVerb(q) then 405
    else if a.open.None? then 0
    else if !a.open.value.Opened? then OpenStatus(a.open.value)
    else if a.info.None? then 0
    else InfoStatus(q, a.info.value)
  }

  /** The properties of a file that is not a directory. */
  predicate Regular(a: Calls) { a.info.Some? && a.info.value.Info? && !a.info.value.isDir }

  function LastModified(a: Calls): bytes { if Regular(a) then a.info.value.lastModified else [] }

  function Html(a: Calls): bytes { if a.dir.Some? && a.dir.value.Listing? then a.dir.value.html else [] }

  function Location(q: T.Ask): bytes
  {
    if q.Ask? then Ascii("http://") + q.host + q.url + Ascii("/") else []
  }

  /** Content type and length of the text with this status. */
  function ContentType(status: nat, a: Calls): bytes
  {
    if status != 200 then Ascii("text/plain") else if Regular(a) then a.info.value.contentType else []
  }

  function ContentLength(status: nat, a: Calls): nat
  {
    if status != 200 then |Message(status)| else if Regular(a) then a.info.value.size else |Html(a)|
  }

  /** The head that request and answers call for. */
  function HeadFor(conf: Conf, q: T.Ask, a: Calls): W.HeadInfo
  {
    var status := Status(conf, q, a);
    W.HeadInfo(status, Message(status), Some(ContentLength(status, a)), if status == 301 then Location(q) else [],
               LastModified(a), ContentType(status, a), conf.server, q.Ask? && q.keepAlive)
  }

  // ------------------------------------------------------ at every position

  /** What the request in the buffer asks for. */
  function Asked(c: Cl): T.Ask { T.Taken(Parsed(c, c.rx.buf), c.rx.buf) }

  predicate PathSays(c: Cl, q: T.Ask, a: Calls)
    requires Sized(c.eng)
  {
    && (if q.Ask? then c.req.unescaped == Target(c.conf, q, a) else c.req.unescaped == [])
    && c.fl.keepAlive == (q.Ask? && q.keepAlive)
    && (a.index.Some? <==> Entered(c.eng, INDEX) && q.Ask? && EndsWithSlash(q.path))
    && (a.dir.Some? <==> Entered(c.eng, AUTO) && IsDir(c.conf, q, a))
  }

  /** An answer is still awaited. */
  predicate Awaited(a: Calls)
  {
    a.open == Some(OpenWait) || (a.open.Some? && a.open.value.Opened? && a.info == Some(InfoWait))
  }

  /** The state of the file filter while it is not done. */
  function Stage(a: Calls): nat { if a.open == Some(OpenWait) then 0 else if a.info == Some(InfoWait) then 1 else 2 }

  /** The file filter was called for a file. */
  predicate Called(c: Cl, q: T.Ask, a: Calls)
    requires Sized(c.eng)
  {
    Entered(c.eng, FILE) && IsFile(c.conf, q, a)
  }

  /** A file is worked on, or its answer is given. */
  predicate FileTold(c: Cl, q: T.Ask, a: Calls, done: bool)
    requires IsFile(c.conf, q, a)
  {
    && c.fl.headMethod == (q.verb == Ascii("HEAD"))
    && a.name == c.conf.www + Target(c.conf, q, a) + [0]
    && a.open.Some? && (a.info.Some? <==> a.open.value.Opened?)
    && (if done then !Awaited(a) else c.file.state == Stage(a))
    && (c.file.state == 2 <==> Status(c.conf, q, a) == 200 && q.verb == Ascii("GET"))
    && (c.file.state == 0 && !done ==> c.file.buf == a.name)
    && (a.open.value.Opened? ==> c.file.content == a.open.value.content)
  }

  predicate FileSays(c: Cl, q: T.Ask, a: Calls)
    requires Sized(c.eng)
  {
    if Called(c, q, a) then FileTold(c, q, a, c.eng.mods[FILE].done)
    else
      && !c.fl.headMethod && a.open == None && a.info == None && a.name == [] && c.file.state == 0
      && (Entered(c.eng, FILE) ==> c.eng.mods[FILE].done)
  }

  predicate Failed(status: nat) { status != 0 && status != 200 }

  /** The response has this status; the error document is there or not. */
  predicate StatusTold(c: Cl, q: T.Ask, a: Calls, status: nat, document: bool)
  {
    && c.resp.code == status && c.resp.msg == (if status == 0 then [] else Message(status))
    && c.fl.respErr == Failed(status)
    && c.resp.lastModified == LastModified(a) && c.resp.dir == Html(a)
    && (if status == 0 || (Failed(status) && !document) then c.resp.contentType == [] && c.resp.contentLength == None
        else c.resp.contentType == ContentType(status, a) && c.resp.contentLength == Some(ContentLength(status, a)))
    && (if status == 301 then c.resp.location == Str(FileMem, 0, |Location(q)|) && Prefix(Location(q), c.file.buf)
        else c.resp.location == NULL)
  }

  /** The status as far as it is decided: the method is looked at last. */
  function Decided(c: Cl, q: T.Ask, a: Calls): nat
    requires Sized(c.eng)
  {
    var status := Status(c.conf, q, a);
    if status == 405 && !Entered(c.eng, FILE) then 0 else status
  }

  predicate StatusSays(c: Cl, q: T.Ask, a: Calls)
    requires Sized(c.eng)
  {
    StatusTold(c, q, a, Decided(c, q, a), c.eng.mods[ERROR].done)
  }

  /** The response, at every moment, is as far decided as request and answers decide it. */
  predicate Says(c: Cl, a: Calls)
  {
    && Sized(c.eng)
    && if !HasRequest(c.eng) then a == NO_CALLS
       else
         var q := Asked(c);
         && PathSays(c, q, a) && FileSays(c, q, a) && StatusSays(c, q, a)
         && (c.eng.mods[RESP].done ==> c.resp.info == HeadFor(c.conf, q, a))
  }
}

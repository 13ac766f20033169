/** The invariant of a connection at every step of the chain. */
module ChainInv {
  import opened Bytes
  import opened Chain
  import opened ChainEngine
  import opened ChainData
  import R = Request
  import W = Http1Writers

  /** What is asked of the configuration: the receive buffer is within the reach of 16-bit
      ranges, the file buffer holds every file name, and normalizing a path does not lengthen
      it. */
  ghost predicate GoodConf(f: Conf)
  {
    && 0 < f.recvBuf < W16 && 2 <= f.respBuf && f.maxKeepAlive < KEEPALIVE_MOD
    && (forall p :: |f.normalize(p)| <= |p|)
    && |f.www| + f.recvBuf + |f.index| + 1 <= f.fileBuf
  }

  // ------------------------------------------------------------- receiving

  function Handled(log: seq<Exchange>): seq<bytes>
  {
    seq(|log|, k requires 0 <= k < |log| => log[k].request)
  }

  /** Parsing the whole buffer, from scratch. */
  function Parsed(c: Cl, s: bytes): R.Parsed { R.Parse(c.conf.normalize, s, R.REQ0) }

  /** The request is not complete: the last attempt needed more data, and its fields are those
      of the request structure. */
  predicate Attempted(c: Cl, i: nat)
  {
    && !Parsed(c, c.rx.tried).done && c.req == Parsed(c, c.rx.tried).req
    && !c.fl.keepAlive
    && (i == RECV && !c.rx.unprocessed ==> c.rx.tried == c.rx.buf)
    && (c.rx.unprocessed ==> c.rx.buf != [])
    && (i == REQ ==> c.rx.cap == c.conf.recvBuf)
  }

  /** The request was taken from the front of the buffer. */
  predicate Taken(c: Cl, i: nat)
  {
    && !c.rx.unprocessed && c.rx.tried == c.rx.buf
    && Parsed(c, c.rx.buf).done
    && c.req == Parsed(c, c.rx.buf).req.(unescaped := c.req.unescaped)
    && (c.fl.keepAlive ==> Parsed(c, c.rx.buf).keepAlive)
    && |c.req.unescaped| <= c.conf.recvBuf + if i > INDEX then |c.conf.index| else 0
  }

  /** The bytes received are the finished requests, in order, and the buffer. */
  ghost predicate Pipe(c: Cl, i: nat)
  {
    && Sized(c.eng)
    && c.rx.received == Flat(Handled(c.eng.log)) + c.rx.buf
    && R.AreRequests(Handled(c.eng.log))
    && |c.rx.buf| <= c.conf.recvBuf
    && (c.rx.cap == c.conf.recvBuf || (c.rx.cap == 0 && c.rx.buf == []))
    && Prefix(c.rx.tried, c.rx.buf)
    && |c.eng.log| == c.eng.keepAliveN < KEEPALIVE_MOD
    && (c.conf.maxKeepAlive > 0 ==> c.eng.keepAliveN < c.conf.maxKeepAlive)
    && if HasRequest(c.eng) then Taken(c, i) else Attempted(c, i)
  }

  // ------------------------------------------------------------ responding

  /** The announced length. */
  function Length(c: Cl): nat { if c.resp.contentLength.Some? then c.resp.contentLength.value else 0 }

  function Body(headMethod: bool, length: nat, fed: seq<bytes>): bytes
  {
    if headMethod then [] else Clamp(length, fed)
  }

  /** The head was built from the response's fields, as far as the buffer goes. */
  ghost predicate HeadOk(conf: Conf, info: W.HeadInfo, head: bytes, length: nat)
  {
    && info.code < 1000 && conf.respBuf >= 2 && W.HeadText(conf.respBuf, info) == Some(head)
    && info.contentLength == Some(length)
  }

  /** No part of a response exists. */
  predicate Idle(c: Cl)
  {
    && c.resp == RESP0 && c.fl == FLAGS0 && c.file == FILE0 && c.fed == []
    && c.tx.iov == [] && c.tx.sent == [] && c.input == NULL
  }

  /** Who produces the response: at the send filter it is done, or the file filter is still
      producing. */
  predicate Producing(c: Cl, i: nat)
    requires Sized(c.eng)
  {
    var g := c.eng;
    && c.resp.code < 1000 && c.file.state <= 2
    && (g.mods[FILE].done ==> c.fl.respDone || c.fl.respErr)
    && (Entered(g, FILE) && !g.mods[FILE].done ==> !c.fl.respErr && !c.fl.respDone)
    && (!g.mods[FILE].done && (i >= ERROR || Entered(g, ERROR)) ==> c.file.state == 2)
    && (c.file.state == 2 ==> !c.fl.respErr && !c.fl.headMethod && Entered(g, FILE) && c.resp.contentLength.Some?)
    && (g.mods[ERROR].done ==> c.resp.contentLength.Some? && (c.fl.respErr ==> c.fl.respDone))
    && (i >= ERROR && !c.fl.respErr ==> c.resp.contentLength.Some?)
    && (!Entered(g, FILE) ==>
          && c.file == FILE0 && !c.fl.headMethod
          && (c.fl.respDone <==> c.resp.code != 0 && !c.fl.respErr)
          && (c.fl.respDone ==> c.resp.contentLength.Some?))
    && (!Entered(g, TRANS) ==> c.fed == [])
    && (g.chainBack ==> c.input == NULL) && (i <= AUTO || i == LOG ==> c.input.len == 0)
    && (i <= AUTO ==> !c.fl.respDone)
    && (i == FILE && c.input.len > 0 ==> c.fl.respDone && !Entered(g, FILE))
  }

  /** The transfer filter's state agrees with what it was given. */
  predicate Transferring(c: Cl)
    requires Sized(c.eng)
  {
    Entered(c.eng, TRANS) ==>
      && c.fed != []
      && (c.eng.mods[TRANS].done <==> Finished(Length(c), c.fed))
      && (!c.eng.mods[TRANS].done ==> c.tx.contLen + |Clamp(Length(c), c.fed)| == Length(c))
  }

  predicate NoneEmpty(bs: seq<bytes>) { forall k :: 0 <= k < |bs| ==> bs[k] != [] }

  predicate EndsEmpty(bs: seq<bytes>) { bs != [] && bs[|bs| - 1] == [] && NoneEmpty(bs[..|bs| - 1]) }

  /** The reads of the file are not empty, and an empty input after them marks its end. */
  predicate Pieces(c: Cl, i: nat)
    requires Sized(c.eng)
  {
    && ((i == ERROR || i == TRANS) && !c.eng.chainBack ==> (c.input.len == 0 <==> c.eng.mods[FILE].done))
    && if c.eng.mods[FILE].done && i != ERROR && i != TRANS then EndsEmpty(c.fed) else NoneEmpty(c.fed)
  }

  /** What was read from the file is what was given to the transfer filter and what is on its
      way there. */
  predicate Reads(c: Cl, i: nat)
    requires Sized(c.eng)
  {
    && (c.file.state == 1 && !c.eng.mods[FILE].done ==> c.file.read == [] && c.file.content == c.file.disk)
    && (c.file.state == 2 ==>
      && c.file.content == c.file.read + c.file.disk
      && (c.eng.mods[FILE].done ==> c.file.disk == []) && Pieces(c, i)
      && c.file.read == Flat(c.fed) + if i == ERROR || i == TRANS then Deref(c, c.input) else [])
  }

  /** Byte conservation: what the socket accepted, what the vector still holds and what is on its
      way to the send filter make up the head and the body. */
  ghost predicate Sending(c: Cl, i: nat)
    requires Sized(c.eng)
  {
    if !c.eng.mods[RESP].done then
      && c.tx.iov == [] && c.tx.sent == [] && c.resp.head == []
      && (i == RESP ==> Deref(c, c.input) == Clamp(Length(c), c.fed))
    else
      && HeadOk(c.conf, c.resp.info, c.resp.head, Length(c)) && c.resp.info.msg == c.resp.msg
      && (i <= RESP || i == LOG || c.input.len > 0 ==> c.tx.iov == [])
      && (c.fl.headMethod ==> c.fl.respDone && i >= SEND)
      && AllInBounds(c, c.tx.iov) && (c.tx.iov != [] ==> Total(c.tx.iov) > 0)
      && c.tx.sent + IovBytes(c, c.tx.iov) + (if i == RESP || i == SEND then Deref(c, c.input) else [])
         == c.resp.head + Body(c.fl.headMethod, Length(c), c.fed)
  }

  /** The text of a response that is not a file's contents: the status message of an error, or
      the listing of a directory. */
  function Text(c: Cl): bytes { if c.fl.respErr then c.resp.msg else c.resp.dir }

  /** Such a response comes in one piece of the announced length. */
  predicate Whole(c: Cl, i: nat)
    requires Sized(c.eng)
  {
    && (ERROR <= i <= RESP && Entered(c.eng, i) ==> c.file.state == 2)
    && (c.file.state != 2 && !c.fl.headMethod ==>
          if Entered(c.eng, TRANS) then Flat(c.fed) == Text(c) && |Text(c)| == Length(c)
          else i == TRANS || (i == ERROR && !c.fl.respErr) || (i == FILE && c.fl.respDone) ==>
            Deref(c, c.input) == Text(c) && |Text(c)| == Length(c))
  }

  ghost predicate Wire(c: Cl, i: nat)
  {
    && Sized(c.eng)
    && c.output == NULL && InBounds(c, c.input)
    && (c.rx.timer ==> c.eng.mods[RECV].isOpen) && (c.tx.timer ==> c.eng.mods[SEND].isOpen)
    && if !HasRequest(c.eng) then Idle(c)
       else Producing(c, i) && Transferring(c) && Reads(c, i) && Whole(c, i) && Sending(c, i)
  }

  /** A finished exchange: the socket accepted exactly the head and the body, the head announces
      the length, a served file was read and transferred to its end, and any other text that is
      sent is the status message or the listing, of the announced length. */
  ghost predicate ExchangeOk(conf: Conf, x: Exchange)
  {
    && HeadOk(conf, x.info, x.head, x.length)
    && x.sent == x.head + Body(x.headMethod, x.length, x.fed)
    && (x.file.Some? ==> x.file.value == Flat(x.fed) && EndsEmpty(x.fed))
    && (x.file.None? && !x.headMethod ==>
          Flat(x.fed) == (if x.failed then x.info.msg else x.listing) && |Flat(x.fed)| == x.length)
  }

  ghost predicate LogOk(conf: Conf, log: seq<Exchange>)
  {
    forall k :: 0 <= k < |log| ==> ExchangeOk(conf, log[k])
  }

  ghost predicate Inv(c: Cl, i: nat)
  {
    && GoodConf(c.conf)
    && EngInv(c.eng, i, c.fl.respDone)
    && Pipe(c, i) && Wire(c, i) && LogOk(c.conf, c.eng.log)
  }

  /** What the socket accepted is a prefix of the response. */
  predicate SentPrefix(c: Cl)
    requires Sized(c.eng)
  {
    if c.eng.mods[RESP].done then Prefix(c.tx.sent, c.resp.head + Body(c.fl.headMethod, Length(c), c.fed))
    else c.tx.sent == []
  }

  /** The requests answered are slices from the front of the received bytes, in order. Each is a
      complete request, except that the last answer may be to bytes that were rejected as
      malformed, of which no request was taken. */
  ghost predicate Served(c: Cl)
  {
    var rs := Handled(c.eng.log);
    && Prefix(Flat(rs), c.rx.received)
    && (R.AreRequests(rs) || EndsRejected(c.conf.normalize, rs, c.rx.received[|Flat(rs)|..]))
  }

  /** All but the last of rs are requests, the last is empty, and the rest of the stream is
      rejected although it does not start with a complete request. */
  predicate EndsRejected(norm: bytes -> bytes, rs: seq<bytes>, rest: bytes)
  {
    && rs != [] && rs[|rs| - 1] == [] && R.AreRequests(rs[..|rs| - 1])
    && R.Parse(norm, rest, R.REQ0).done && R.RequestEnd(rest).None?
  }

  /** The connection has ended. */
  ghost predicate Ended(c: Cl)
  {
    && Sized(c.eng)
    && !c.rx.timer && !c.tx.timer
    && (forall k :: 0 <= k < N ==> c.eng.opens[k] == c.eng.closes[k])
    && LogOk(c.conf, c.eng.log)
    && Served(c)
    && (c.conf.maxKeepAlive > 0 ==> |c.eng.log| <= c.conf.maxKeepAlive)
    && SentPrefix(c)
  }

  // --------------------------------------------------------------- measure

  /** Requests that may still follow on the connection. */
  function Remaining(c: Cl): nat
  {
    if c.eng.keepAliveN < c.conf.maxKeepAlive then c.conf.maxKeepAlive - c.eng.keepAliveN
    else if c.eng.keepAliveN < KEEPALIVE_MOD then c.conf.maxKeepAlive + KEEPALIVE_MOD - c.eng.keepAliveN else 0
  }

  function Phase(c: Cl, i: nat): nat
    requires Sized(c.eng)
  {
    if !HasRequest(c.eng) then 3 else if i <= FILE && !Entered(c.eng, ERROR) then 2 else 1
  }

  /** Free buffer space, or unread file bytes and the end of file. */
  function Left(c: Cl, i: nat): nat
    requires Sized(c.eng)
  {
    if !HasRequest(c.eng) then (if |c.rx.buf| < c.conf.recvBuf then c.conf.recvBuf - |c.rx.buf| else 0)
    else if Phase(c, i) == 2 then 0
    else |c.file.disk| + if c.eng.mods[FILE].done then 0 else 1
  }

  /** Direction and cursor. */
  function Place(c: Cl, i: nat): nat
    requires Sized(c.eng) && i < N
  {
    if !HasRequest(c.eng) then (if c.rx.unprocessed then 3 - (if i > 3 then 3 else i) else i)
    else if c.eng.chainBack then i else 20 - i
  }

  predicate Less(c': Cl, j: nat, c: Cl, i: nat)
    requires Sized(c'.eng) && Sized(c.eng) && i < N && j < N
  {
    if Remaining(c') != Remaining(c) then Remaining(c') < Remaining(c)
    else if Phase(c', j) != Phase(c, i) then Phase(c', j) < Phase(c, i)
    else if Left(c', j) != Left(c, i) then Left(c', j) < Left(c, i)
    else Place(c', j) < Place(c, i)
  }

  /** What one round of the loop gives: a smaller state with the invariant, the same cursor and
      the invariant when it waits, or a connection properly ended; the assertion never fails. */
  ghost predicate Good(c: Cl, i: nat, o: Outcome)
    requires Sized(c.eng) && i < N
  {
    match o
    case Go(c', j) => Inv(c', j) && Less(c', j, c, i)
    case Wait(c', j) => Inv(c', j) && j == i
    case Closed(c') => Ended(c')
    case Panic => false
  }
}

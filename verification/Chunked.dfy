/** The chunked transfer decoder and encoder.
    Step is the decoder one byte at a time; Httpchunked.Parse is the decoder of the program,
    which hands out a whole block of data at once and must be called again with the bytes it
    left. A grammar of chunked messages, written without reference to either, says what is
    accepted. */
module Chunked {
  import opened Bytes

  const MAX64: nat := 0x1_0000_0000_0000_0000
  const MAX60: nat := 0x1000_0000_0000_0000

  datatype State = Size1 | Size | SizeCr | Data | DataCr

  /** The decoder's state; `last` is set by a size line that reads as zero. */
  datatype Decoder = Decoder(state: State, last: bool, size: nat)

  const INIT := Decoder(Size1, false, 0)

  /** Where a chunk starts. Only the first size line must have a digit. */
  function Boundary(first: bool): Decoder { Decoder(if first then Size1 else Size, false, 0) }

  // ---------------------------------------------------- byte-at-a-time automaton

  datatype StepResult = Next(d: Decoder, out: bytes) | Finish | Fail

  function SizeByte(d: Decoder, ch: byte): StepResult
  {
    if IsHex(ch) then
      if d.size >= MAX60 then Fail
      else Next(Decoder(Size, d.last, d.size * 16 + HexDigit(ch)), [])
    else if d.state == Size1 then Fail
    else if ch == CR then Next(Decoder(SizeCr, d.last || d.size == 0, d.size), [])
    else if ch == LF then Next(Decoder(Data, d.last || d.size == 0, d.size), [])
    else Fail
  }

  function Step(d: Decoder, ch: byte): StepResult
  {
    match d.state
    case Size1 => SizeByte(d, ch)
    case Size => SizeByte(d, ch)
    case SizeCr => if ch == LF then Next(d.(state := Data), []) else Fail
    case Data =>
      if d.size > 0 then Next(d.(size := d.size - 1), [ch])
      else if ch == CR then Next(d.(state := DataCr), [])
      else if ch == LF then (if d.last then Finish else Next(d.(state := Size), []))
      else Fail
    case DataCr =>
      if ch != LF then Fail else if d.last then Finish else Next(d.(state := Size), [])
  }

  /** What becomes of a stream: still running, finished with `rest` not consumed, or failed. */
  datatype Result =
    | Running(d: Decoder, out: bytes)
    | Finished(out: bytes, rest: bytes)
    | Failed(out: bytes)

  function Prepend(o: bytes, r: Result): Result
  {
    match r
    case Running(d, out) => Running(d, o + out)
    case Finished(out, rest) => Finished(o + out, rest)
    case Failed(out) => Failed(o + out)
  }

  function Run(d: Decoder, s: bytes): Result
    decreases |s|
  {
    if s == [] then Running(d, [])
    else match Step(d, s[0])
         case Next(d', o) => Prepend(o, Run(d', s[1..]))
         case Finish => Finished([], s[1..])
         case Fail => Failed([])
  }

  function Continue(r: Result, s: bytes): Result
  {
    match r
    case Running(d, out) => Prepend(out, Run(d, s))
    case Finished(out, rest) => Finished(out, rest + s)
    case Failed(out) => Failed(out)
  }

  /** Running over a + b is running over a, then over b. */
  lemma {:induction false} RunConcat(d: Decoder, a: bytes, b: bytes)
    ensures Run(d, a + b) == Continue(Run(d, a), b)
    decreases |a|
  {
    if a == [] {
      assert a + b == b;
      assert Prepend([], Run(d, b)) == Run(d, b);
    } else {
      assert (a + b)[0] == a[0] && (a + b)[1..] == a[1..] + b;
      match Step(d, a[0])
      case Next(d', o) =>
        RunConcat(d', a[1..], b);
        PrependTwice(o, Run(d', a[1..]), b);
      case Finish =>
      case Fail =>
    }
  }

  lemma PrependTwice(o: bytes, r: Result, b: bytes)
    ensures Prepend(o, Continue(r, b)) == Continue(Prepend(o, r), b)
  {
    if r.Running? {
      var q := Run(r.d, b);
      assert o + (r.out + q.out) == (o + r.out) + q.out;
    }
  }

  /** A block of data bytes passes through unchanged. */
  lemma {:induction false} RunData(d: Decoder, s: bytes)
    requires d.state == Data && |s| <= d.size
    ensures Run(d, s) == Running(d.(size := d.size - |s|), s)
    decreases |s|
  {
    if s == [] {
    } else {
      RunData(d.(size := d.size - 1), s[1..]);
      assert s == [s[0]] + s[1..];
    }
  }

  // ------------------------------------------------------------- httpchunked_parse

  class Httpchunked {
    var state: State
    var lastChunk: bool
    var size: nat

    function View(): Decoder
      reads this
    {
      Decoder(state, lastChunk, size)
    }

    /** The size field holds a 64-bit value. */
    predicate Valid()
      reads this
    {
      size < MAX64
    }

    constructor ()
      ensures Valid() && View() == INIT
    {
      state, lastChunk, size := Size1, false, 0;
    }

    /** The loop body for a byte that is not chunk data: 0 to go on in state st', -1 at the end
        of the message, -2 on error. */
    method Control(st: State, ch: byte) returns (r: int, st': State)
      requires Valid() && (st == Data ==> size == 0)
      modifies this
      ensures Valid() && state == old(state)
      ensures match Step(Decoder(st, old(lastChunk), old(size)), ch)
              case Next(d, o) => r == 0 && o == [] && d == Decoder(st', lastChunk, size)
              case Finish => r == -1
              case Fail => r == -2
    {
      st' := st;
      if st == Size1 || st == Size {
        var n := HexDigit(ch);
        if n < 0 {
          if st == Size1 { return -2, st; }
          if ch == CR {
            st' := SizeCr;
          } else if ch == LF {
            st' := Data;
          } else {
            return -2, st;
          }
          if size == 0 { lastChunk := true; }
        } else {
          // Any of the top four bits set: another digit would not fit the 64 bits of the size.
          if size >= MAX60 { return -2, st; }
          size := (size * 16 + n) % MAX64;
          st' := Size;
        }
      } else if st == SizeCr {
        if ch != LF { return -2, st; }
        st' := Data;
      } else if st == Data {
        if ch == CR {
          st' := DataCr;
        } else if ch == LF {
          if lastChunk { return -1, st; }
          st' := Size;
        } else {
          return -2, st;
        }
      } else {
        if ch != LF { return -2, st; }
        if lastChunk { return -1, st; }
        st' := Size;
      }
      r := 0;
    }

    /** r >= 0: r bytes processed, with `output` the data among them; at least one byte is
        processed, and everything when there is no output. r == -1: the message ended inside
        this input. r == -2: error. */
    method Parse(input: bytes) returns (r: int, output: bytes)
      requires Valid()
      modifies this
      ensures Valid()
      ensures r >= -2
      ensures r >= 0 ==> r <= |input| && Run(old(View()), input[..r]) == Running(View(), output)
      ensures r >= 0 && input != [] ==> r > 0
      ensures r >= 0 && output == [] ==> r == |input|
      ensures r == -1 ==> output == [] && Run(old(View()), input).Finished? && Run(old(View()), input).out == []
      ensures r == -2 ==> output == [] && Run(old(View()), input) == Failed([])
    {
      hide Step, Run;
      var st := state;
      var i := 0;
      output := [];
      RunFirst(View(), input);
      ghost var d0 := View();
      while i != |input|
        invariant 0 <= i <= |input| && Valid() && output == []
        invariant state == old(state)
        invariant Run(d0, input[..i]) == Running(Decoder(st, lastChunk, size), [])
        decreases |input| - i
      {
        ghost var d := Decoder(st, lastChunk, size);
        RunOne(d0, input, i, d);
        if st == Data && size != 0 {
          var n := if size < |input| - i then size else |input| - i;
          output := input[i..i + n];
          RunBlock(d0, input, i, d, n);
          size := size - n;
          state := st;
          return i + n, output;
        }
        var r1, st1 := Control(st, input[i]);
        if r1 == -1 { state := st1; }
        if r1 < 0 { return r1, []; }
        st := st1;
        i := i + 1;
      }
      assert input[..i] == input;
      state := st;
      r := i;
    }
  }

  lemma RunFirst(d: Decoder, s: bytes)
    ensures Run(d, s[..0]) == Running(d, [])
  {
  }

  /** One more byte, in terms of Step. */
  lemma RunOne(d0: Decoder, s: bytes, i: nat, d: Decoder)
    requires i < |s| && Run(d0, s[..i]) == Running(d, [])
    ensures Step(d, s[i]).Next? && Step(d, s[i]).out == [] ==>
              Run(d0, s[..i + 1]) == Running(Step(d, s[i]).d, [])
    ensures Step(d, s[i]).Fail? ==> Run(d0, s) == Failed([])
    ensures Step(d, s[i]).Finish? ==> Run(d0, s).Finished? && Run(d0, s).out == []
  {
    RunConcat(d0, s[..i], [s[i]]);
    assert s[..i] + [s[i]] == s[..i + 1];
    RunConcat(d0, s[..i], s[i..]);
    assert s[..i] + s[i..] == s;
    var one := [s[i]];
    assert one[0] == s[i] && one[1..] == [] && s[i..][0] == s[i];
    if Step(d, s[i]).Next? {
      assert Run(d, one) == Prepend(Step(d, s[i]).out, Run(Step(d, s[i]).d, []));
    }
  }

  /** A block of n data bytes at i, in terms of Step. */
  lemma RunBlock(d0: Decoder, s: bytes, i: nat, d: Decoder, n: nat)
    requires i + n <= |s| && Run(d0, s[..i]) == Running(d, [])
    requires d.state == Data && n <= d.size
    ensures Run(d0, s[..i + n]) == Running(d.(size := d.size - n), s[i..i + n])
  {
    hide Run;
    RunData(d, s[i..i + n]);
    RunConcat(d0, s[..i], s[i..i + n]);
    assert s[..i] + s[i..i + n] == s[..i + n];
  }

  /** What the caller of httpchunked_parse learns of a stream. */
  datatype Verdict = NeedMore | Complete | Error

  function VerdictOf(r: Result): Verdict
  {
    match r
    case Running(_, _) => NeedMore
    case Finished(_, _) => Complete
    case Failed(_) => Error
  }

  /** Feed one piece, giving each unprocessed rest to the decoder again. `done` is what was fed
      before and `later` what follows. */
  method FeedPiece(c: Httpchunked, input: bytes, sofar: bytes, ghost done: bytes, ghost later: bytes)
    returns (stop: bool, v: Verdict, out: bytes)
    requires c.Valid() && Run(INIT, done) == Running(c.View(), sofar)
    modifies c
    ensures c.Valid()
    ensures if stop then v == VerdictOf(Run(INIT, done + (input + later))) && out == Run(INIT, done + (input + later)).out
            else Run(INIT, done + input) == Running(c.View(), out)
  {
    hide Run, Continue, Prepend;
    var piece := input;
    out, v, stop := sofar, NeedMore, false;
    ghost var fed := done;
    assert done + input == fed + piece;
    while piece != []
      invariant c.Valid() && Run(INIT, fed) == Running(c.View(), out)
      invariant done + input == fed + piece
      decreases |piece|
    {
      ghost var d := c.View();
      var r, o := c.Parse(piece);
      if r < 0 {
        StreamEnds(fed, d, out, piece, later);
        assert done + (input + later) == fed + (piece + later) by { Regroup(done, input, fed, piece, later); }
        return true, if r == -1 then Complete else Error, out;
      }
      StreamGoesOn(fed, d, out, piece[..r], c.View(), o);
      out := out + o;
      assert fed + piece == (fed + piece[..r]) + piece[r..];
      fed := fed + piece[..r];
      piece := piece[r..];
    }
    assert fed + [] == fed;
  }

  lemma Regroup(a: bytes, b: bytes, a': bytes, b': bytes, c: bytes)
    requires a + b == a' + b'
    ensures a + (b + c) == a' + (b' + c)
  {
    assert a + (b + c) == (a + b) + c;
    assert a' + (b' + c) == (a' + b') + c;
  }

  lemma StreamEnds(fed: bytes, d: Decoder, out: bytes, piece: bytes, later: bytes)
    requires Run(INIT, fed) == Running(d, out)
    requires Run(d, piece).out == [] && !Run(d, piece).Running?
    ensures VerdictOf(Run(INIT, fed + (piece + later))) == VerdictOf(Run(d, piece))
    ensures Run(INIT, fed + (piece + later)).out == out
  {
    hide Run;
    RunConcat(d, piece, later);
    RunConcat(INIT, fed, piece + later);
    assert out + [] == out;
  }

  lemma StreamGoesOn(fed: bytes, d: Decoder, out: bytes, part: bytes, d': Decoder, o: bytes)
    requires Run(INIT, fed) == Running(d, out) && Run(d, part) == Running(d', o)
    ensures Run(INIT, fed + part) == Running(d', out + o)
  {
    hide Run;
    RunConcat(INIT, fed, part);
  }

  /** Feed a stream that arrives in pieces. The outcome is that of the automaton on the whole
      stream: it does not depend on how the stream was cut. */
  method Decode(pieces: seq<bytes>) returns (v: Verdict, out: bytes)
    ensures v == VerdictOf(Run(INIT, Flat(pieces)))
    ensures out == Run(INIT, Flat(pieces)).out
  {
    hide Run;
    var c := new Httpchunked();
    out := [];
    ghost var done: bytes := [];
    RunNothing();
    for k := 0 to |pieces|
      invariant c.Valid() && Run(INIT, done) == Running(c.View(), out)
      invariant Flat(pieces) == done + Flat(pieces[k..])
    {
      ghost var later := Flat(pieces[k + 1..]);
      assert pieces[k..][1..] == pieces[k + 1..];
      assert done + (pieces[k] + later) == (done + pieces[k]) + later;
      var stop;
      stop, v, out := FeedPiece(c, pieces[k], out, done, later);
      if stop { return; }
      done := done + pieces[k];
    }
    assert pieces[|pieces|..] == [];
    assert done + [] == done;
    v := NeedMore;
  }

  lemma RunNothing()
    ensures Run(INIT, []) == Running(INIT, [])
  {
  }

  // ------------------------------------------------------------------ grammar

  /** One chunk as text: size line, data, line end. */
  datatype Chunk = Chunk(size: bytes, eol1: bytes, data: bytes, eol2: bytes)

  predicate IsEolText(s: bytes) { s == [LF] || s == [CR, LF] }

  /** The size line names the length of the data; only the first size line of a message needs
      a digit, since an empty one reads as zero. */
  predicate WellFormed(c: Chunk, first: bool)
  {
    && AllDigits(c.size, 16)
    && (first ==> c.size != [])
    && Value(c.size, 16) == |c.data|
    && |c.data| < MAX64
    && IsEolText(c.eol1) && IsEolText(c.eol2)
  }

  function Text(c: Chunk): bytes { c.size + (c.eol1 + (c.data + c.eol2)) }

  /** A message: chunks with data, then one of size zero. */
  predicate IsMessage(cs: seq<Chunk>, first: bool)
  {
    && |cs| > 0
    && WellFormed(cs[0], first)
    && (if cs[0].data == [] then |cs| == 1 else IsMessage(cs[1..], false))
  }

  function MessageText(cs: seq<Chunk>): bytes
  {
    if cs == [] then [] else Text(cs[0]) + MessageText(cs[1..])
  }

  function MessageData(cs: seq<Chunk>): bytes
  {
    if cs == [] then [] else cs[0].data + MessageData(cs[1..])
  }

  /** Hexadecimal digits accumulate into the size, as long as it stays below 2^64. */
  lemma {:induction false} RunDigits(d: Decoder, s: bytes, rest: bytes)
    requires (d.state == Size1 || d.state == Size) && d.size < MAX64 && AllDigits(s, 16)
    ensures var v := ValueFrom(d.size, s, 16);
            Run(d, s + rest) ==
            if s == [] then Run(d, rest)
            else if v < MAX64 then Run(Decoder(Size, d.last, v), rest)
            else Failed([])
    decreases |s|
  {
    hide HexDigit, Run;
    if s == [] {
      assert s + rest == rest;
    } else {
      assert s + rest == [s[0]] + (s[1..] + rest);
      var v := d.size * 16 + HexDigit(s[0]);
      ValueGrows(v, s[1..], 16);
      DigitStep(d, s[0], s[1..] + rest);
      if d.size < MAX60 {
        RunDigits(Decoder(Size, d.last, v), s[1..], rest);
      }
    }
  }

  lemma RunNext(d: Decoder, ch: byte, more: bytes)
    ensures Run(d, [ch] + more) ==
            if Step(d, ch).Next? then Prepend(Step(d, ch).out, Run(Step(d, ch).d, more))
            else if Step(d, ch).Finish? then Finished([], more) else Failed([])
  {
    hide Step;
    assert ([ch] + more)[0] == ch && ([ch] + more)[1..] == more;
  }

  lemma DigitStep(d: Decoder, ch: byte, more: bytes)
    requires (d.state == Size1 || d.state == Size) && IsHex(ch)
    ensures Run(d, [ch] + more) ==
            if d.size >= MAX60 then Failed([]) else Run(Decoder(Size, d.last, d.size * 16 + HexDigit(ch)), more)
  {
    hide HexDigit, Run;
    RunNext(d, ch, more);
    PrependNothing(Run(Decoder(Size, d.last, d.size * 16 + HexDigit(ch)), more));
  }

  lemma PrependNothing(r: Result)
    ensures Prepend([], r) == r
  {
    assert r.Running? || r.Finished? || r.Failed?;
    assert [] + r.out == r.out;
  }

  /** A line end is consumed as one unit: CR LF behaves as LF. */
  lemma RunEol(d: Decoder, e: bytes, rest: bytes)
    requires IsEolText(e)
    requires d.state == Size || (d.state == Data && d.size == 0)
    ensures Run(d, e + rest) ==
            if d.state == Size then Run(Decoder(Data, d.last || d.size == 0, d.size), rest)
            else if d.last then Finished([], rest)
            else Run(d.(state := Size), rest)
  {
    assert (e + rest)[0] == e[0] && (e + rest)[1..] == e[1..] + rest;
    if e == [LF] {
      assert e[1..] + rest == rest;
      PrependNothing(Run(Decoder(Data, d.last || d.size == 0, d.size), rest));
      PrependNothing(Run(d.(state := Size), rest));
    } else {
      var t := e[1..] + rest;
      assert t[0] == LF && t[1..] == rest;
      var d1 := if d.state == Size then Decoder(SizeCr, d.last || d.size == 0, d.size)
                else d.(state := DataCr);
      PrependNothing(Run(d1, t));
      PrependNothing(Run(d1.(state := Data), rest));
      PrependNothing(Run(d1.(state := Size), rest));
    }
  }

  /** One well-formed chunk is consumed with its data as output. */
  lemma RunChunk(c: Chunk, first: bool, rest: bytes)
    requires WellFormed(c, first)
    ensures Run(Boundary(first), Text(c) + rest) ==
            if c.data == [] then Finished([], rest)
            else Prepend(c.data, Run(Boundary(false), rest))
  {
    hide Run, AllDigits, IsEolText;
    var n := |c.data|;
    var t1 := c.eol1 + (c.data + (c.eol2 + rest));
    assert Text(c) + rest == c.size + t1;
    RunDigits(Boundary(first), c.size, t1);
    RunEol(Decoder(Size, false, n), c.eol1, c.data + (c.eol2 + rest));
    var d := Decoder(Data, n == 0, n);
    RunData(d, c.data);
    RunConcat(d, c.data, c.eol2 + rest);
    RunEol(Decoder(Data, n == 0, 0), c.eol2, rest);
    PrependNothing(Run(Decoder(Data, n == 0, 0), c.eol2 + rest));
  }

  /** Every message of the grammar is accepted, and yields its data. */
  lemma {:induction false} MessageAccepted(cs: seq<Chunk>, first: bool, rest: bytes)
    requires IsMessage(cs, first)
    ensures Run(Boundary(first), MessageText(cs) + rest) == Finished(MessageData(cs), rest)
    decreases |cs|
  {
    var c, tail := cs[0], cs[1..];
    assert MessageText(cs) + rest == Text(c) + (MessageText(tail) + rest);
    RunChunk(c, first, MessageText(tail) + rest);
    if c.data == [] {
      assert tail == [];
      assert MessageText(tail) + rest == rest;
    } else {
      MessageAccepted(tail, false, rest);
    }
  }

  /** Where the decoder stands after the size line, if the stream can still be accepted. */
  lemma SizeLineOf(first: bool, s: bytes) returns (size: bytes, eol: bytes, rest: bytes)
    requires Run(Boundary(first), s).Finished?
    ensures s == size + (eol + rest)
    ensures AllDigits(size, 16) && (first ==> size != []) && Value(size, 16) < MAX64
    ensures IsEolText(eol)
    ensures var v := Value(size, 16);
            Run(Boundary(first), s) == Run(Decoder(Data, v == 0, v), rest)
  {
    var k := SkipWhile(s, 0, IsHex);
    size := s[..k];
    assert s == size + s[k..];
    RunDigits(Boundary(first), size, s[k..]);
    var d := if k == 0 then Boundary(first) else Decoder(Size, false, Value(size, 16));
    assert Run(d, s[k..]).Finished?;
    eol, rest := EolOf(d, s[k..]);
    RunEol(d, eol, rest);
  }

  lemma EolOf(d: Decoder, s: bytes) returns (eol: bytes, rest: bytes)
    requires Run(d, s).Finished?
    requires (d.state == Size && (s != [] ==> !IsHex(s[0])))
             || (d.state == Size1 && (s != [] ==> !IsHex(s[0])))
             || (d.state == Data && d.size == 0)
    ensures d.state != Size1
    ensures s == eol + rest && IsEolText(eol)
  {
    if s[0] == LF {
      eol, rest := [LF], s[1..];
    } else {
      var d1 := Step(d, s[0]).d;
      PrependNothing(Run(d1, s[1..]));
      assert Run(d1, s[1..]).Finished?;
      eol, rest := [CR, LF], s[2..];
      assert s[1..][0] == LF;
    }
  }

  /** A stream accepted at the start of a block of data holds the whole block. */
  lemma EnoughData(d: Decoder, s: bytes)
    requires d.state == Data && Run(d, s).Finished?
    ensures d.size <= |s| && Run(d.(size := 0), s[d.size..]).Finished?
  {
    hide Run;
    if |s| < d.size {
      RunData(d, s);
    } else {
      var a, b := s[..d.size], s[d.size..];
      assert s == a + b;
      RunData(d, a);
      RunConcat(d, a, b);
    }
  }

  /** The first chunk of an accepted stream. */
  lemma ChunkOf(first: bool, s: bytes) returns (c: Chunk, rest: bytes)
    requires Run(Boundary(first), s).Finished?
    ensures WellFormed(c, first) && s == Text(c) + rest
  {
    hide Run, AllDigits, IsEolText, Value;
    var size, eol1, s1 := SizeLineOf(first, s);
    var v := Value(size, 16);
    var d := Decoder(Data, v == 0, v);
    EnoughData(d, s1);
    var eol2, s2 := EolOf(d.(size := 0), s1[v..]);
    c, rest := Chunk(size, eol1, s1[..v], eol2), s2;
    assert s1 == s1[..v] + (eol2 + s2);
    JoinChunk(size, eol1, s1[..v], eol2, s2);
  }

  lemma JoinChunk(size: bytes, eol1: bytes, data: bytes, eol2: bytes, rest: bytes)
    ensures size + (eol1 + (data + (eol2 + rest))) == Text(Chunk(size, eol1, data, eol2)) + rest
  {
  }

  /** Every accepted stream is a message of the grammar followed by what was not consumed. */
  lemma {:induction false} AcceptedIsMessage(first: bool, s: bytes) returns (cs: seq<Chunk>)
    requires Run(Boundary(first), s).Finished?
    ensures IsMessage(cs, first)
    ensures s == MessageText(cs) + Run(Boundary(first), s).rest
    ensures MessageData(cs) == Run(Boundary(first), s).out
    decreases |s|
  {
    hide Run, WellFormed;
    var c, rest := ChunkOf(first, s);
    RunChunk(c, first, rest);
    if c.data == [] {
      cs := [c];
      assert cs[1..] == [];
    } else {
      var more := AcceptedIsMessage(false, rest);
      cs := [c] + more;
      assert cs[1..] == more;
    }
  }

  /** The accepted language: a stream is accepted with output `out` and nothing left exactly
      when it is the text of a message with that data. */
  lemma AcceptedLanguage(s: bytes, out: bytes)
    ensures Run(INIT, s) == Finished(out, []) <==>
            exists cs :: IsMessage(cs, true) && MessageText(cs) == s && MessageData(cs) == out
  {
    assert INIT == Boundary(true);
    if Run(INIT, s) == Finished(out, []) {
      var cs := AcceptedIsMessage(true, s);
      assert MessageText(cs) + [] == MessageText(cs);
    }
    if cs :| IsMessage(cs, true) && MessageText(cs) == s && MessageData(cs) == out {
      MessageAccepted(cs, true, []);
      assert MessageText(cs) + [] == MessageText(cs);
    }
  }

  // ---------------------------------------------------------------- encoder

  /** httpchunked_write: the header that goes before `len` bytes of data and the trailer that
      goes after, which is the header's own line end. */
  method ChunkedWrite(buf: array<byte>, len: nat) returns (hdr: nat, trl: nat)
    requires buf.Length >= 18 && len < MAX64
    modifies buf
    ensures hdr <= 18 && buf[..hdr] == Digits(len, 16) + CRLF
    ensures trl + 2 == hdr && buf[trl..hdr] == CRLF
  {
    var digits := Digits(len, 16);
    assert Pow(16, 16) == MAX64 by {
      assert Pow(16, 4) == 0x1_0000;
      assert Pow(16, 8) == 0x1_0000_0000;
      assert Pow(16, 12) == 0x1_0000_0000_0000;
    }
    DigitsLength(len, 16, 16);
    var p := |digits|;
    forall i | 0 <= i < p {
      buf[i] := digits[i];
    }
    buf[p] := CR;
    buf[p + 1] := LF;
    hdr, trl := p + 2, p;
  }

  /** A block of data framed by ChunkedWrite. */
  function Frame(data: bytes): bytes { Digits(|data|, 16) + CRLF + data + CRLF }

  function FrameAll(blocks: seq<bytes>): bytes
  {
    if blocks == [] then Frame([]) else Frame(blocks[0]) + FrameAll(blocks[1..])
  }

  /** Framing a list of non-empty blocks and ending with the zero chunk decodes to their
      concatenation, with nothing left over. */
  lemma {:induction false} ChunkedRoundTrip(blocks: seq<bytes>, first: bool)
    requires forall b :: b in blocks ==> 0 < |b| < MAX64
    ensures Run(Boundary(first), FrameAll(blocks)) == Finished(Flat(blocks), [])
    decreases |blocks|
  {
    var data := if blocks == [] then [] else blocks[0];
    var c := Chunk(Digits(|data|, 16), CRLF, data, CRLF);
    DigitsValue(|data|, 16);
    assert Text(c) == Frame(data);
    if blocks == [] {
      assert Text(c) + [] == FrameAll(blocks);
      RunChunk(c, first, []);
    } else {
      RunChunk(c, first, FrameAll(blocks[1..]));
      ChunkedRoundTrip(blocks[1..], false);
    }
  }
}

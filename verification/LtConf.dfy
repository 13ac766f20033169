/** The light config tokenizer. Cont is the tokenizer as a function of its state and read
    position; Ltconf.Read is the program's loop. A grammar of tokens says what a text means. */
module LtConf {
  import opened Bytes

  const TAB: byte := 0x09
  const QUOTE: byte := 0x22
  const HASH: byte := 0x23
  const BACKSLASH: byte := 0x5c

  datatype State = White | Comment | Word | Quote | Escape | EscapeX1 | EscapeX2 | White1

  datatype Conf = Conf(state: State, line: nat, fkey: bool, fval: bool, quoted: bool, xdata: byte, noComments: bool)

  const CONF0 := Conf(White, 0, false, false, false, 0, false)

  datatype Kind = More | Chunk | Key | Val | ValNext | Error

  /** Result of one call: the output is the text [off, off + len), or one byte that was written
      as an escape; the next call starts at `rest`. */
  datatype Out = Out(kind: Kind, c: Conf, off: nat, len: nat, escaped: Option<byte>, rest: nat)

  predicate IsBlank(b: byte) { b == SP || b == TAB || b == CR }

  predicate IsWs(b: byte) { IsBlank(b) || b == LF }

  predicate NotLf(b: byte) { b != LF }

  predicate IsWordByte(b: byte) { b == 0x21 || 0x23 <= b <= 0x7e || 0x80 <= b }

  predicate IsQuoteByte(b: byte)
  {
    b == TAB || b == CR || 0x20 <= b <= 0x21 || 0x23 <= b <= 0x5b || 0x5d <= b <= 0x7e || 0x80 <= b
  }

  predicate IsText(k: Kind) { k.Key? || k.Val? || k.ValNext? }

  /** A word is complete: the first on a line is the key. */
  function TextOut(c: Conf, off: nat, len: nat, rest: nat): Out
  {
    if !c.fkey then Out(Key, c.(fkey := true), off, len, None, rest)
    else if !c.fval then Out(Val, c.(fval := true), off, len, None, rest)
    else Out(ValNext, c, off, len, None, rest)
  }

  function Stop(c: Conf, t: bytes): Out { Out(More, c, 0, 0, None, |t|) }

  function Rank(c: Conf, t: bytes, d: nat): nat
  {
    match c.state
    case White1 => 4
    case Comment => if d < |t| && t[d] == LF then 3 else 1
    case White => 2
    case _ => 0
  }

  /** The rest of a call of ltconf_read that stands at d, its input beginning at `start`. */
  function Cont(c: Conf, t: bytes, start: nat, d: nat): (o: Out)
    requires start <= d <= |t|
    ensures IsText(o.kind) ==> d < o.rest <= |t| && o.off + o.len <= o.rest
    decreases |t| - d, Rank(c, t, d)
  {
    if d == |t| then Stop(c, t)
    else match c.state
         case White1 =>
           if !IsWs(t[d]) then Out(Error, c, 0, 0, None, start)
           else Cont(c.(quoted := false, state := White), t, start, d)
         case White =>
           var e := SkipWhile(t, d, IsBlank);
           if e == |t| then Stop(c, t)
           else if t[e] == LF then
             Cont(c.(fkey := false, fval := false, quoted := false, line := c.line + 1), t, start, e + 1)
           else if t[e] == HASH && !c.noComments then Cont(c.(state := Comment), t, start, e)
           else InWord(c.(state := Word), t, e, e)
         case Comment =>
           var e := SkipWhile(t, d, NotLf);
           if e == |t| then Stop(c, t) else Cont(c.(state := White), t, start, e)
         case Word => InWord(c, t, start, d)
         case Quote => InQuote(c, t, start, d)
         case _ => InEscape(c, t, start, d)
  }

  function InWord(c: Conf, t: bytes, start: nat, d: nat): (o: Out)
    requires start <= d < |t|
    ensures IsText(o.kind) ==> d < o.rest <= |t| && o.off + o.len <= o.rest
  {
    if t[d] == QUOTE then InQuote(c.(quoted := true, state := Quote), t, d + 1, d + 1)
    else
      var e := SkipWhile(t, d, IsWordByte);
      if e == |t| then Out(Chunk, c, d, e - d, None, e)
      else if e == d then Out(Error, c, 0, 0, None, start)
      else TextOut(c.(state := White1), d, e - d, e)
  }

  function InQuote(c: Conf, t: bytes, start: nat, d: nat): (o: Out)
    requires start <= d <= |t|
    ensures IsText(o.kind) ==> d < o.rest <= |t| && o.off + o.len <= o.rest
    decreases |t| - d
  {
    if d == |t| then Stop(c, t)
    else
      var e := SkipWhile(t, d, IsQuoteByte);
      if e == |t| then Out(Chunk, c, d, e - d, None, e)
      else if t[e] == LF then InQuote(c.(line := c.line + 1), t, start, e + 1)
      else if t[e] == BACKSLASH then
        if e == d then InEscape(c.(state := Escape), t, start, e + 1)
        else Out(Chunk, c.(state := Escape), start, e - start, None, e + 1)
      else if t[e] == QUOTE then TextOut(c.(state := White1), start, e - start, e + 1)
      else Out(Error, c, 0, 0, None, start)
  }

  function InEscape(c: Conf, t: bytes, start: nat, d: nat): (o: Out)
    requires start <= d <= |t|
    ensures !IsText(o.kind)
    decreases |t| - d
  {
    if d == |t| then Stop(c, t)
    else match c.state
         case Escape =>
           if t[d] == QUOTE || t[d] == BACKSLASH then Out(Chunk, c.(state := Quote), d, 1, None, d + 1)
           else if t[d] == 0x78 then InEscape(c.(state := EscapeX1), t, start, d + 1)
           else Out(Error, c, 0, 0, None, start)
         case EscapeX1 => EscapeByte(c.(xdata := t[d], state := EscapeX2), t, start, d + 1)
         case _ => EscapeByte(c, t, start, d)
  }

  /** The second digit of an escape. At the end of the buffer the program reads the byte after it;
      here that is an error. */
  function EscapeByte(c: Conf, t: bytes, start: nat, d: nat): (o: Out)
    requires start <= d <= |t|
    ensures !IsText(o.kind)
  {
    if d == |t| || HexDigit(c.xdata) < 0 || HexDigit(t[d]) < 0 then Out(Error, c, 0, 0, None, start)
    else
      var b := HexDigit(c.xdata) * 16 + HexDigit(t[d]);
      Out(Chunk, c.(xdata := b, state := Quote), d, 0, Some(b), d + 1)
  }

  class Ltconf {
    var state: State
    var line: nat
    var fkey: bool
    var fval: bool
    var quoted: bool
    var xdata: byte
    const noComments: bool

    function View(): Conf
      reads this
    {
      Conf(state, line, fkey, fval, quoted, xdata, noComments)
    }

    constructor (noComments: bool)
      ensures View() == CONF0.(noComments := noComments)
    {
      state, line, fkey, fval, quoted, xdata := White, 0, false, false, false, 0;
      this.noComments := noComments;
    }

    /** A word is complete: the end of ltconf_read that gives it its role on the line. */
    method Finish(off: nat, len: nat, rest: nat) returns (o: Out)
      modifies this
      ensures o == TextOut(old(View()), off, len, rest) && View() == o.c
    {
      var kind := ValNext;
      if !fkey {
        fkey := true;
        kind := Key;
      } else if !fval {
        fval := true;
        kind := Val;
      }
      o := Out(kind, View(), off, len, None, rest);
    }

    /** ltconf_read on the input t[from..]; the result has the kind, the output and where the
        input then starts. */
    method Read(t: bytes, from: nat) returns (o: Out)
      requires from <= |t|
      modifies this
      ensures o == Cont(old(View()), t, from, from) && View() == o.c
    {
      hide InQuote, InEscape, InWord, SkipWhile, TextOut;
      var start: nat, d: nat := from, from;
      ghost var goal := Cont(View(), t, from, from);
      while d != |t|
        invariant start <= d <= |t|
        invariant Cont(View(), t, start, d) == goal
        decreases |t| - d, Rank(View(), t, d)
      {
        match state {
          case White1 =>
            if !IsWs(t[d]) { return Out(Error, View(), 0, 0, None, start); }
            quoted := false;
            state := White;
          case White =>
            start, d := Blanks(t, start, d);
          case Comment =>
            d := SkipWhile(t, d, NotLf);
            if d != |t| { state := White; }
          case Word =>
            if t[d] != QUOTE {
              o := PlainWord(t, start, d);
              return;
            }
            WordQuote(View(), t, start, d);
            d := d + 1;
            start := d;
            quoted := true;
            state := Quote;
            AtEnd(View(), t, start);
          case Quote =>
            var stop;
            stop, d, o := Quoted(t, start, d);
            if stop { return; }
            AtEnd(View(), t, start);
          case _ =>
            var stop;
            stop, d, o := Escaped(t, start, d);
            if stop { return; }
            AtEnd(View(), t, start);
        }
      }
      o := Stop(View(), t);
    }

    /** Between words: skip blanks, then step over a line end or find a comment or a word. */
    method Blanks(t: bytes, start: nat, from: nat) returns (start': nat, d: nat)
      requires start <= from < |t| && state == White
      modifies this
      ensures start' <= d <= |t| && Cont(View(), t, start', d) == Cont(old(View()), t, start, from)
      ensures d > from || (d == from && Rank(View(), t, d) < Rank(old(View()), t, from))
    {
      start', d := start, SkipWhile(t, from, IsBlank);
      if d != |t| {
        if t[d] == LF {
          d := d + 1;
          fkey, fval, quoted := false, false, false;
          line := line + 1;
        } else if t[d] == HASH && !noComments {
          state := Comment;
        } else {
          start' := d;
          state := Word;
        }
      }
    }

    method PlainWord(t: bytes, start: nat, d: nat) returns (o: Out)
      requires start <= d < |t| && state == Word && t[d] != QUOTE
      modifies this
      ensures o == Cont(old(View()), t, start, d) && View() == o.c
    {
      var r := Skip(t, d, IsWordByte);
      if r < 0 {
        o := Out(Chunk, View(), d, |t| - d, None, |t|);
      } else if r == 0 {
        o := Out(Error, View(), 0, 0, None, start);
      } else {
        state := White1;
        o := Finish(d, r, d + r);
      }
    }

    /** Within quotes: the call ends with `stop`, or goes on at d'. */
    method Quoted(t: bytes, start: nat, d: nat) returns (stop: bool, d': nat, o: Out)
      requires start <= d < |t| && state == Quote
      modifies this
      ensures stop ==> o == InQuote(old(View()), t, start, d) && View() == o.c
      ensures !stop ==> d < d' <= |t| && (state == Quote || state == Escape)
      ensures !stop ==>
                InQuote(old(View()), t, start, d) ==
                if state == Quote then InQuote(View(), t, start, d') else InEscape(View(), t, start, d')
    {
      hide TextOut, InEscape, SkipWhile, InQuote;
      QuoteCases(View(), t, start, d);
      stop, d' := true, d;
      o := Out(Error, View(), 0, 0, None, start);
      var r := Skip(t, d, IsQuoteByte);
      if r < 0 {
        o := Out(Chunk, View(), d, |t| - d, None, |t|);
        return;
      }
      d' := d + r + 1;
      if t[d + r] == LF {
        line := line + 1;
        stop := false;
      } else if t[d + r] == BACKSLASH {
        state := Escape;
        if r == 0 {
          stop := false;
        } else {
          o := Out(Chunk, View(), start, d + r - start, None, d');
        }
      } else if t[d + r] == QUOTE {
        state := White1;
        o := Finish(start, d + r - start, d');
      }
    }

    method Escaped(t: bytes, start: nat, d: nat) returns (stop: bool, d': nat, o: Out)
      requires start <= d < |t| && (state == Escape || state == EscapeX1 || state == EscapeX2)
      modifies this
      ensures stop ==> o == InEscape(old(View()), t, start, d) && View() == o.c
      ensures !stop ==> d < d' <= |t| && state == EscapeX1
                        && InEscape(View(), t, start, d') == InEscape(old(View()), t, start, d)
    {
      stop, d' := true, d;
      o := Out(Error, View(), 0, 0, None, start);
      if state == Escape {
        d' := d + 1;
        if t[d] == QUOTE || t[d] == BACKSLASH {
          state := Quote;
          o := Out(Chunk, View(), d, 1, None, d + 1);
        } else if t[d] == 0x78 {
          state := EscapeX1;
          stop := false;
        }
        return;
      }
      if state == EscapeX1 {
        xdata := t[d];
        d' := d + 1;
        state := EscapeX2;
      }
      if d' == |t| || HexDigit(xdata) < 0 || HexDigit(t[d']) < 0 {
        o := Out(Error, View(), 0, 0, None, start);
      } else {
        xdata := HexDigit(xdata) * 16 + HexDigit(t[d']);
        state := Quote;
        o := Out(Chunk, View(), d', 0, Some(xdata), d' + 1);
      }
    }
  }

  // ------------------------------------------------------------------ texts

  /** A text is a list of tokens. */
  datatype Token =
    | Blank(b: byte)
    | NewLine
    | Remark(text: bytes)
    | Plain(word: bytes)
    | Quoted(text: bytes)

  function TokenText(k: Token): bytes
  {
    match k
    case Blank(b) => [b]
    case NewLine => [LF]
    case Remark(text) => text
    case Plain(word) => word
    case Quoted(text) => [QUOTE] + text + [QUOTE]
  }

  function Text(ts: seq<Token>): bytes
  {
    if ts == [] then [] else TokenText(ts[0]) + Text(ts[1..])
  }

  predicate IsQuotedByte(b: byte) { IsQuoteByte(b) || b == LF }

  predicate IsToken(k: Token)
  {
    match k
    case Blank(b) => IsBlank(b)
    case NewLine => true
    case Remark(text) => text != [] && text[0] == HASH && forall i :: 0 <= i < |text| ==> NotLf(text[i])
    case Plain(word) => word != [] && word[0] != HASH && forall i :: 0 <= i < |word| ==> IsWordByte(word[i])
    case Quoted(text) => forall i :: 0 <= i < |text| ==> IsQuotedByte(text[i])
  }

  /** Words and quoted texts are followed by white space, remarks by a line end or nothing. */
  predicate IsConfig(ts: seq<Token>, afterWord: bool)
    decreases |ts|
  {
    if ts == [] then !afterWord
    else
      && IsToken(ts[0])
      && (afterWord ==> ts[0].Blank? || ts[0].NewLine?)
      && (ts[0].Remark? && |ts| > 1 ==> ts[1].NewLine?)
      && IsConfig(ts[1..], ts[0].Plain? || ts[0].Quoted?)
  }

  /** What a reader of the text sees: each word with its role on the line and the number of
      line ends up to its end. */
  datatype Item = Item(kind: Kind, text: bytes, line: nat)

  function Role(fkey: bool, fval: bool): Kind { if !fkey then Key else if !fval then Val else ValNext }

  function LineEnds(s: bytes): nat
  {
    if s == [] then 0 else (if s[0] == LF then 1 else 0) + LineEnds(s[1..])
  }

  function Items(ts: seq<Token>, fkey: bool, fval: bool, line: nat): seq<Item>
    decreases |ts|
  {
    if ts == [] then []
    else match ts[0]
         case Blank(_) => Items(ts[1..], fkey, fval, line)
         case NewLine => Items(ts[1..], false, false, line + 1)
         case Remark(_) => Items(ts[1..], fkey, fval, line)
         case Plain(w) => [Item(Role(fkey, fval), w, line)] + Items(ts[1..], true, fkey || fval, line)
         case Quoted(q) =>
           var n := line + LineEnds(q);
           [Item(Role(fkey, fval), q, n)] + Items(ts[1..], true, fkey || fval, n)
  }

  /** Everything that repeated calls of ltconf_read return, up to the first answer that is not
      a word, and that answer. */
  function ReadAll(c: Conf, t: bytes, start: nat, d: nat): (seq<Item>, Out)
    requires start <= d <= |t|
    decreases |t| - d
  {
    var o := Cont(c, t, start, d);
    if !IsText(o.kind) then ([], o)
    else
      var (items, last) := ReadAll(o.c, t, o.rest, o.rest);
      ([Item(o.kind, t[o.off..o.off + o.len], o.c.line)] + items, last)
  }

  /** The text from d on is s. */
  predicate Rest(t: bytes, d: nat, s: bytes) { d <= |t| && t[d..] == s }

  lemma RestSplit(t: bytes, d: nat, x: bytes, y: bytes)
    requires Rest(t, d, x + y)
    ensures d + |x| <= |t| && t[d..d + |x|] == x && Rest(t, d + |x|, y)
    ensures forall k :: d <= k < d + |x| ==> t[k] == x[k - d]
  {
    assert t[d..][..|x|] == x && t[d..][|x|..] == y;
    assert t[d..d + |x|] == t[d..][..|x|];
    assert forall k :: d <= k < d + |x| ==> t[k] == t[d..][k - d];
  }

  lemma {:induction false} QuoteRun(c: Conf, t: bytes, start: nat, d: nat, q: bytes, rest: bytes)
    requires c.state == Quote && start <= d && Rest(t, d, q + ([QUOTE] + rest))
    requires forall i :: 0 <= i < |q| ==> IsQuotedByte(q[i])
    ensures InQuote(c, t, start, d)
         == TextOut(c.(line := c.line + LineEnds(q), state := White1), start, d + |q| - start, d + |q| + 1)
    decreases |q|
  {
    hide InQuote, Rest, TextOut, LineEnds, IsQuoteByte;
    var r, tail := SkipWhile(q, 0, IsQuoteByte), [QUOTE] + rest;
    if r == |q| {
      QuoteLast(c, t, start, d, q, rest);
    } else {
      QuoteNext(c, t, start, d, q, tail, r);
      QuoteRun(c.(line := c.line + 1), t, start, d + r + 1, q[r + 1..], rest);
    }
  }

  /** No line end is left before the closing quote. */
  lemma QuoteLast(c: Conf, t: bytes, start: nat, d: nat, q: bytes, rest: bytes)
    requires start <= d && Rest(t, d, q + ([QUOTE] + rest)) && forall i :: 0 <= i < |q| ==> IsQuoteByte(q[i])
    ensures LineEnds(q) == 0 && d + |q| < |t|
    ensures InQuote(c, t, start, d) == TextOut(c.(state := White1), start, d + |q| - start, d + |q| + 1)
  {
    hide InQuote, Rest, TextOut;
    RestSplit(t, d, q, [QUOTE] + rest);
    RestSplit(t, d + |q|, [QUOTE], rest);
    QuoteEnd(c, t, start, d, d + |q|);
    NoLineEnds(q, |q|);
    assert q[|q|..] == [];
  }

  /** The first line end in a quoted text is at r. */
  lemma QuoteNext(c: Conf, t: bytes, start: nat, d: nat, q: bytes, tail: bytes, r: nat)
    requires start <= d && Rest(t, d, q + tail) && r < |q| && q[r] == LF && forall i :: 0 <= i < r ==> IsQuoteByte(q[i])
    ensures d + r < |t| && InQuote(c, t, start, d) == InQuote(c.(line := c.line + 1), t, start, d + r + 1)
    ensures Rest(t, d + r + 1, q[r + 1..] + tail) && LineEnds(q) == 1 + LineEnds(q[r + 1..])
  {
    hide InQuote, Rest;
    NoLineEnds(q, r);
    assert q[r..][1..] == q[r + 1..] && q[r..][0] == LF;
    assert q + tail == q[..r + 1] + (q[r + 1..] + tail);
    RestSplit(t, d, q[..r + 1], q[r + 1..] + tail);
    QuoteLine(c, t, start, d, d + r);
  }

  lemma QuoteLine(c: Conf, t: bytes, start: nat, d: nat, e: nat)
    requires start <= d <= e < |t| && t[e] == LF && forall k :: d <= k < e ==> IsQuoteByte(t[k])
    ensures InQuote(c, t, start, d) == InQuote(c.(line := c.line + 1), t, start, e + 1)
  {
    SkipUnique(t, d, IsQuoteByte, e);
  }

  lemma QuoteEnd(c: Conf, t: bytes, start: nat, d: nat, e: nat)
    requires start <= d <= e < |t| && t[e] == QUOTE && forall k :: d <= k < e ==> IsQuoteByte(t[k])
    ensures InQuote(c, t, start, d) == TextOut(c.(state := White1), start, e - start, e + 1)
  {
    SkipUnique(t, d, IsQuoteByte, e);
  }

  lemma {:induction false} NoLineEnds(q: bytes, r: nat)
    requires r <= |q| && forall i :: 0 <= i < r ==> IsQuoteByte(q[i])
    ensures LineEnds(q) == LineEnds(q[r..])
    decreases r
  {
    if r == 0 {
      assert q[0..] == q;
    } else {
      NoLineEnds(q[1..], r - 1);
      assert q[1..][r - 1..] == q[r..];
    }
  }

  lemma ContWord(c: Conf, t: bytes, start: nat, d: nat)
    requires c.state == White && start <= d < |t| && !IsWs(t[d]) && t[d] != HASH
    ensures Cont(c, t, start, d) == InWord(c.(state := Word), t, d, d)
  {
    hide InWord;
    SkipUnique(t, d, IsBlank, d);
  }

  /** What the parser's next word is, for each token that starts one. */
  lemma ContPlain(c: Conf, t: bytes, start: nat, d: nat, w: bytes, rest: bytes)
    requires c.state == White && start <= d && IsToken(Plain(w)) && Rest(t, d, w + rest)
    requires rest != [] && IsWs(rest[0])
    ensures Cont(c, t, start, d) == TextOut(c.(state := White1), d, |w|, d + |w|)
  {
    RestSplit(t, d, w, rest);
    assert t[d + |w|] == t[d + |w|..][0] == rest[0];
    assert t[d] == w[0];
    ContWord(c, t, start, d);
    SkipUnique(t, d, IsWordByte, d + |w|);
  }

  lemma ContQuoted(c: Conf, t: bytes, start: nat, d: nat, q: bytes, rest: bytes)
    requires c.state == White && start <= d < |t| && IsToken(Quoted(q))
    requires t[d] == QUOTE && Rest(t, d + 1, q + ([QUOTE] + rest))
    ensures Cont(c, t, start, d) ==
            TextOut(c.(quoted := true, line := c.line + LineEnds(q), state := White1), d + 1, |q|, d + |q| + 2)
  {
    hide Cont, InQuote, InWord, TextOut, Rest, LineEnds;
    var cw, cq := c.(state := Word), c.(quoted := true, state := Quote);
    ContWord(c, t, start, d);
    WordQuote(cw, t, d, d);
    QuoteRun(cq, t, d + 1, d + 1, q, rest);
    var c1 := c.(quoted := true, line := c.line + LineEnds(q), state := White1);
    assert cq.(line := cq.line + LineEnds(q), state := White1) == c1;
  }

  /** What ends a run of quoted bytes. */
  lemma QuoteCases(c: Conf, t: bytes, start: nat, d: nat)
    requires start <= d < |t|
    ensures var e := SkipWhile(t, d, IsQuoteByte);
            InQuote(c, t, start, d) ==
            if e == |t| then Out(Chunk, c, d, e - d, None, e)
            else if t[e] == LF then InQuote(c.(line := c.line + 1), t, start, e + 1)
            else if t[e] == BACKSLASH then
              if e == d then InEscape(c.(state := Escape), t, start, e + 1)
              else Out(Chunk, c.(state := Escape), start, e - start, None, e + 1)
            else if t[e] == QUOTE then TextOut(c.(state := White1), start, e - start, e + 1)
            else Out(Error, c, 0, 0, None, start)
  {
    hide TextOut, InEscape, SkipWhile;
  }

  lemma AtEnd(c: Conf, t: bytes, start: nat)
    requires start <= |t|
    ensures InQuote(c, t, start, |t|) == Stop(c, t) && InEscape(c, t, start, |t|) == Stop(c, t)
  {
  }

  lemma WordQuote(c: Conf, t: bytes, start: nat, d: nat)
    requires start <= d < |t| && t[d] == QUOTE
    ensures InWord(c, t, start, d) == InQuote(c.(quoted := true, state := Quote), t, d + 1, d + 1)
  {
    hide InQuote;
  }

  lemma ContRemark(c: Conf, t: bytes, start: nat, d: nat, text: bytes, rest: bytes)
    requires c.state == White && !c.noComments && start <= d
    requires IsToken(Remark(text)) && Rest(t, d, text + rest) && (rest != [] ==> rest[0] == LF)
    ensures rest != [] ==> Cont(c, t, start, d) == Cont(c, t, start, d + |text|)
    ensures rest == [] ==> Cont(c, t, start, d) == Stop(c.(state := Comment), t)
  {
    RestSplit(t, d, text, rest);
    assert t[d] == text[0];
    SkipUnique(t, d, IsBlank, d);
    if rest != [] {
      assert t[d + |text|] == t[d + |text|..][0] == LF;
    }
    SkipUnique(t, d, NotLf, d + |text|);
  }

  lemma ContBlank(c: Conf, t: bytes, start: nat, d: nat, b: byte, rest: bytes)
    requires c.state == White && start <= d && Rest(t, d, [b] + rest) && IsWs(b)
    ensures Cont(c, t, start, d) ==
            if b == LF then Cont(c.(fkey := false, fval := false, quoted := false, line := c.line + 1), t, start, d + 1)
            else Cont(c, t, start, d + 1)
  {
    RestSplit(t, d, [b], rest);
    assert t[d] == b;
    if b == LF {
      SkipUnique(t, d, IsBlank, d);
    } else {
      assert SkipWhile(t, d, IsBlank) == SkipWhile(t, d + 1, IsBlank);
    }
  }

  /** Calls that give the same answer read the same. */
  lemma ReadSame(c: Conf, c': Conf, t: bytes, start: nat, start': nat, d: nat, d': nat)
    requires start <= d <= |t| && start' <= d' <= |t| && Cont(c, t, start, d) == Cont(c', t, start', d')
    ensures ReadAll(c, t, start, d) == ReadAll(c', t, start', d')
  {
    hide Cont;
  }

  lemma ReadItem(c: Conf, t: bytes, start: nat, d: nat, c1: Conf, off: nat, len: nat, rest: nat)
    requires start <= d <= |t| && Cont(c, t, start, d) == TextOut(c1, off, len, rest)
    ensures var o := TextOut(c1, off, len, rest);
            && rest <= |t| && off + len <= rest && o.kind == Role(c1.fkey, c1.fval)
            && o.c == c1.(fkey := true, fval := c1.fkey || c1.fval)
            && ReadAll(c, t, start, d).0
               == [Item(o.kind, t[off..off + len], c1.line)] + ReadAll(o.c, t, rest, rest).0
            && ReadAll(c, t, start, d).1 == ReadAll(o.c, t, rest, rest).1
  {
    hide Cont;
  }

  /** What reading a text gives: its words, then a request for more input, with every line end
      counted. */
  predicate ReadsAs(r: (seq<Item>, Out), ts: seq<Token>, c: Conf)
  {
    && r.0 == Items(ts, c.fkey, c.fval, c.line)
    && r.1.kind == More
    && r.1.c.line == c.line + LineEnds(Text(ts))
  }

  lemma NothingLeft(c: Conf, t: bytes, start: nat, d: nat)
    requires start <= d && Rest(t, d, [])
    ensures ReadAll(c, t, start, d) == ([], Stop(c, t)) && LineEnds([]) == 0
  {
  }

  lemma SpaceText(k: Token)
    requires IsToken(k) && (k.Blank? || k.NewLine?)
    ensures TokenText(k) != [] && IsWs(TokenText(k)[0])
  {
  }

  lemma ContAfterWord(c: Conf, t: bytes, start: nat, d: nat)
    requires c.state == White1 && start <= d < |t| && IsWs(t[d])
    ensures Cont(c, t, start, d) == Cont(c.(quoted := false, state := White), t, start, d)
  {
  }

  /** The tokenizer returns exactly the words of the text, in order, with their roles and lines,
      and then asks for more input. */
  lemma {:induction false} ReadsConfig(c: Conf, t: bytes, start: nat, d: nat, ts: seq<Token>)
    requires c.state == White || c.state == White1
    requires !c.noComments && IsConfig(ts, c.state == White1) && start <= d && Rest(t, d, Text(ts))
    ensures ReadsAs(ReadAll(c, t, start, d), ts, c)
    decreases |ts|, if c.state == White1 then 2 else 1
  {
    hide Cont, LineEnds, TokenText;
    if ts == [] {
      NothingLeft(c, t, start, d);
    } else {
      var k := ts[0];
      RestSplit(t, d, TokenText(k), Text(ts[1..]));
      LineEndsConcat(TokenText(k), Text(ts[1..]));
      if c.state == White1 {
        SpaceText(k);
        var c' := c.(quoted := false, state := White);
        ContAfterWord(c, t, start, d);
        ReadSame(c, c', t, start, start, d, d);
        ReadsConfig(c', t, start, d, ts);
      } else if k.Blank? || k.NewLine? {
        ReadsSpace(c, t, start, d, ts);
      } else if k.Remark? {
        ReadsRemark(c, t, start, d, ts);
      } else {
        ReadsWord(c, t, start, d, ts);
      }
    }
  }

  lemma {:induction false} ReadsSpace(c: Conf, t: bytes, start: nat, d: nat, ts: seq<Token>)
    requires c.state == White && ts != [] && (ts[0].Blank? || ts[0].NewLine?)
    requires !c.noComments && IsConfig(ts, false) && start <= d && Rest(t, d, Text(ts))
    requires LineEnds(Text(ts)) == LineEnds(TokenText(ts[0])) + LineEnds(Text(ts[1..]))
    ensures ReadsAs(ReadAll(c, t, start, d), ts, c)
    decreases |ts|, 0
  {
    hide Cont, ReadAll;
    var b := if ts[0].Blank? then ts[0].b else LF;
    var c' := if b == LF then c.(fkey := false, fval := false, quoted := false, line := c.line + 1) else c;
    assert [b][1..] == [];
    RestSplit(t, d, [b], Text(ts[1..]));
    ContBlank(c, t, start, d, b, Text(ts[1..]));
    ReadSame(c, c', t, start, start, d, d + 1);
    ReadsConfig(c', t, start, d + 1, ts[1..]);
  }

  lemma {:induction false} ReadsRemark(c: Conf, t: bytes, start: nat, d: nat, ts: seq<Token>)
    requires c.state == White && ts != [] && ts[0].Remark?
    requires !c.noComments && IsConfig(ts, false) && start <= d && Rest(t, d, Text(ts))
    requires LineEnds(Text(ts)) == LineEnds(TokenText(ts[0])) + LineEnds(Text(ts[1..]))
    ensures ReadsAs(ReadAll(c, t, start, d), ts, c)
    decreases |ts|, 0
  {
    hide Cont, ReadAll, Rest;
    var text, more := ts[0].text, ts[1..];
    NoLf(text);
    RestSplit(t, d, text, Text(more));
    if more != [] {
      assert Text(more)[0] == TokenText(more[0])[0] == LF;
      ContRemark(c, t, start, d, text, Text(more));
      ReadSame(c, c, t, start, start, d, d + |text|);
      ReadsConfig(c, t, start, d + |text|, more);
    } else {
      ContRemark(c, t, start, d, text, []);
      ReadStops(c, t, start, d, c.(state := Comment));
      assert Text(more) == [] && Items(more, c.fkey, c.fval, c.line) == [];
    }
  }

  /** The input ends. */
  lemma ReadStops(c: Conf, t: bytes, start: nat, d: nat, c1: Conf)
    requires start <= d <= |t| && Cont(c, t, start, d) == Stop(c1, t)
    ensures ReadAll(c, t, start, d) == ([], Stop(c1, t)) && Stop(c1, t).kind == More && Stop(c1, t).c.line == c1.line
  {
    hide Cont;
  }

  /** A word w, then the rest of the text. */
  lemma ReadsThen(c: Conf, t: bytes, start: nat, d: nat, ts: seq<Token>, w: bytes, c1: Conf, off: nat, rest: nat)
    requires start <= d <= |t| && ts != [] && Cont(c, t, start, d) == TextOut(c1, off, |w|, rest)
    requires off + |w| <= |t| && t[off..off + |w|] == w
    requires c1.fkey == c.fkey && c1.fval == c.fval
    requires Items(ts, c.fkey, c.fval, c.line)
             == [Item(Role(c.fkey, c.fval), w, c1.line)] + Items(ts[1..], true, c.fkey || c.fval, c1.line)
    requires c.line + LineEnds(Text(ts)) == c1.line + LineEnds(Text(ts[1..]))
    requires rest <= |t| ==>
               var c2 := c1.(fkey := true, fval := c1.fkey || c1.fval); ReadsAs(ReadAll(c2, t, rest, rest), ts[1..], c2)
    ensures ReadsAs(ReadAll(c, t, start, d), ts, c)
  {
    hide Cont, ReadAll, Items, Text, LineEnds;
    ReadItem(c, t, start, d, c1, off, |w|, rest);
  }

  lemma {:induction false} ReadsWord(c: Conf, t: bytes, start: nat, d: nat, ts: seq<Token>)
    requires c.state == White && ts != [] && (ts[0].Plain? || ts[0].Quoted?)
    requires !c.noComments && IsConfig(ts, false) && start <= d && Rest(t, d, Text(ts))
    requires LineEnds(Text(ts)) == LineEnds(TokenText(ts[0])) + LineEnds(Text(ts[1..]))
    ensures ReadsAs(ReadAll(c, t, start, d), ts, c)
    decreases |ts|, 0
  {
    hide Cont, ReadAll, Items, Text, IsConfig, TokenText, LineEnds, Rest;
    var more := ts[1..];
    WordParts(ts);
    RestSplit(t, d, TokenText(ts[0]), Text(more));
    var rest := d + |TokenText(ts[0])|;
    var w, off := WordIn(t, d, ts[0]);
    var c1 := AfterWord(c, t, start, d, ts[0], Text(more));
    WordItem(ts, c.fkey, c.fval, c.line);
    var c2 := c1.(fkey := true, fval := c1.fkey || c1.fval);
    ReadsConfig(c2, t, rest, rest, more);
    ReadsThen(c, t, start, d, ts, w, c1, off, rest);
  }

  /** A word token is followed by white space. */
  lemma WordParts(ts: seq<Token>)
    requires ts != [] && IsConfig(ts, false) && (ts[0].Plain? || ts[0].Quoted?)
    ensures IsToken(ts[0]) && Text(ts) == TokenText(ts[0]) + Text(ts[1..])
    ensures IsConfig(ts[1..], true) && Text(ts[1..]) != [] && IsWs(Text(ts[1..])[0])
  {
    var more := ts[1..];
    assert Text(more)[0] == TokenText(more[0])[0];
  }

  lemma WordItem(ts: seq<Token>, fkey: bool, fval: bool, line: nat)
    requires ts != [] && (ts[0].Plain? || ts[0].Quoted?)
    ensures var w, n := if ts[0].Plain? then ts[0].word else ts[0].text, if ts[0].Plain? then line else line + LineEnds(ts[0].text);
            Items(ts, fkey, fval, line) == [Item(Role(fkey, fval), w, n)] + Items(ts[1..], true, fkey || fval, n)
  {
    hide LineEnds;
  }

  /** The text of a word token and where it is. */
  lemma WordIn(t: bytes, d: nat, k: Token) returns (w: bytes, off: nat)
    requires (k.Plain? || k.Quoted?) && d + |TokenText(k)| <= |t| && t[d..d + |TokenText(k)|] == TokenText(k)
    ensures w == (if k.Plain? then k.word else k.text) && off == (if k.Plain? then d else d + 1)
    ensures off + |w| <= |t| && t[off..off + |w|] == w
    ensures |TokenText(k)| == if k.Plain? then |w| else |w| + 2
  {
    w, off := if k.Plain? then k.word else k.text, if k.Plain? then d else d + 1;
    if k.Quoted? {
      assert t[d..d + |TokenText(k)|][1..|w| + 1] == w;
    }
  }

  /** The answer for a word token. */
  lemma AfterWord(c: Conf, t: bytes, start: nat, d: nat, k: Token, rest: bytes) returns (c1: Conf)
    requires c.state == White && start <= d && (k.Plain? || k.Quoted?) && IsToken(k)
    requires Rest(t, d, TokenText(k) + rest) && rest != [] && IsWs(rest[0])
    ensures var n := |TokenText(k)|;
            Cont(c, t, start, d) == (if k.Plain? then TextOut(c1, d, n, d + n) else TextOut(c1, d + 1, n - 2, d + n))
    ensures c1.fkey == c.fkey && c1.fval == c.fval && c1.state == White1 && c1.noComments == c.noComments
    ensures c1.line == c.line + LineEnds(TokenText(k))
    ensures k.Quoted? ==> c1.line == c.line + LineEnds(k.text)
    ensures k.Plain? ==> c1.line == c.line
  {
    hide Cont, TextOut, LineEnds, Rest;
    c1 := c.(state := White1);
    if k.Plain? {
      ContPlain(c, t, start, d, k.word, rest);
      NoLfInWord(k.word);
    } else {
      AfterQuoted(c, t, start, d, k.text, rest);
      c1 := c.(quoted := true, line := c.line + LineEnds(k.text), state := White1);
    }
  }

  lemma AfterQuoted(c: Conf, t: bytes, start: nat, d: nat, q: bytes, rest: bytes)
    requires c.state == White && start <= d && IsToken(Quoted(q)) && Rest(t, d, TokenText(Quoted(q)) + rest)
    ensures |TokenText(Quoted(q))| == |q| + 2 && LineEnds(TokenText(Quoted(q))) == LineEnds(q)
    ensures Cont(c, t, start, d) ==
            TextOut(c.(quoted := true, line := c.line + LineEnds(q), state := White1), d + 1, |q|, d + |q| + 2)
  {
    hide Cont, TextOut, LineEnds, Rest;
    assert TokenText(Quoted(q)) + rest == [QUOTE] + (q + ([QUOTE] + rest));
    RestSplit(t, d, [QUOTE], q + ([QUOTE] + rest));
    QuotePlace(t, d, q, rest);
    ContQuoted(c, t, start, d, q, rest);
    QuotedLineEnds(q);
  }

  lemma QuotePlace(t: bytes, d: nat, q: bytes, rest: bytes)
    requires d + 1 <= |t| && Rest(t, d + 1, q + ([QUOTE] + rest)) && t[d..d + 1] == [QUOTE]
    ensures t[d] == QUOTE
  {
    assert t[d..d + 1][0] == t[d];
  }

  lemma {:induction false} LineEndsConcat(a: bytes, b: bytes)
    ensures LineEnds(a + b) == LineEnds(a) + LineEnds(b)
    decreases |a|
  {
    if a == [] {
      assert a + b == b;
    } else {
      assert (a + b)[1..] == a[1..] + b;
      LineEndsConcat(a[1..], b);
    }
  }

  lemma {:induction false} NoLf(s: bytes)
    requires forall i :: 0 <= i < |s| ==> NotLf(s[i])
    ensures LineEnds(s) == 0
    decreases |s|
  {
    if s == [] {
    } else {
      NoLf(s[1..]);
    }
  }

  lemma NoLfInWord(w: bytes)
    requires forall i :: 0 <= i < |w| ==> IsWordByte(w[i])
    ensures LineEnds(w) == 0
  {
    assert forall i :: 0 <= i < |w| ==> NotLf(w[i]);
    NoLf(w);
  }

  lemma QuotedLineEnds(q: bytes)
    ensures LineEnds(TokenText(Quoted(q))) == LineEnds(q)
  {
    LineEndsConcat([QUOTE] + q, [QUOTE]);
    LineEndsConcat([QUOTE], q);
    assert [QUOTE][1..] == [];
  }

  /** A word lies in the input of its call, and the first word on a line is a key. */
  predicate IsPlaced(o: Out, c: Conf, t: bytes, start: nat)
  {
    IsText(o.kind) ==> start <= o.off < |t| && (!c.fkey ==> o.kind.Key?)
  }

  lemma {:induction false} QuotePlaced(c: Conf, t: bytes, start: nat, d: nat)
    requires start <= d <= |t|
    ensures IsPlaced(InQuote(c, t, start, d), c, t, start)
    decreases |t| - d
  {
    var e := SkipWhile(t, d, IsQuoteByte);
    if e < |t| && t[e] == LF {
      QuotePlaced(c.(line := c.line + 1), t, start, e + 1);
    }
  }

  lemma WordPlaced(c: Conf, t: bytes, start: nat, d: nat)
    requires start <= d < |t|
    ensures IsPlaced(InWord(c, t, start, d), c, t, start)
  {
    hide InQuote;
    QuotePlaced(c.(quoted := true, state := Quote), t, d + 1, d + 1);
  }

  lemma {:induction false} ContPlaced(c: Conf, t: bytes, start: nat, d: nat)
    requires start <= d <= |t|
    ensures IsPlaced(Cont(c, t, start, d), c, t, start)
    decreases |t| - d, Rank(c, t, d), 1
  {
    if d < |t| {
      match c.state
      case White1 =>
        hide InWord, InQuote, InEscape;
        if IsWs(t[d]) { ContPlaced(c.(quoted := false, state := White), t, start, d); }
      case White => WhitePlaced(c, t, start, d);
      case Comment =>
        hide InWord, InQuote, InEscape;
        var e := SkipWhile(t, d, NotLf);
        if e < |t| { ContPlaced(c.(state := White), t, start, e); }
      case Word => WordPlaced(c, t, start, d);
      case Quote => QuotePlaced(c, t, start, d);
      case _ =>
    }
  }

  lemma {:induction false} WhitePlaced(c: Conf, t: bytes, start: nat, d: nat)
    requires start <= d < |t| && c.state == White
    ensures IsPlaced(Cont(c, t, start, d), c, t, start)
    decreases |t| - d, Rank(c, t, d), 0
  {
    hide InWord, InQuote, InEscape;
    var e := SkipWhile(t, d, IsBlank);
    if e < |t| {
      if t[e] == LF {
        ContPlaced(c.(fkey := false, fval := false, quoted := false, line := c.line + 1), t, start, e + 1);
      } else if t[e] == HASH && !c.noComments {
        ContPlaced(c.(state := Comment), t, start, e);
      } else {
        WordPlaced(c.(state := Word), t, e, e);
      }
    }
  }
}

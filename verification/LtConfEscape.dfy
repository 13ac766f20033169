/** Quoted config words with escapes. The tokenizer gives such a word in pieces; together they are
    the word, exactly when no escape stands right behind a line end. */
module LtConfEscape {
  import opened Bytes
  import opened LtConf

  /** An escaped byte: '\' and the byte itself, or "\x" and two hexadecimal digits. */
  datatype Esc = Itself(b: byte) | Hex(h: byte, l: byte)

  predicate IsEsc(x: Esc)
  {
    match x
    case Itself(b) => b == QUOTE || b == BACKSLASH
    case Hex(h, l) => IsHex(h) && IsHex(l)
  }

  function EscText(x: Esc): (s: bytes)
    ensures |s| >= 2
  {
    match x
    case Itself(b) => [BACKSLASH, b]
    case Hex(h, l) => Ascii("\\x") + [h, l]
  }

  function EscValue(x: Esc): byte
    requires IsEsc(x)
  {
    match x
    case Itself(b) => b
    case Hex(h, l) => HexDigit(h) * 16 + HexDigit(l)
  }

  /** Text up to an escape, and the escape. */
  datatype Part = Part(text: bytes, esc: Esc)

  predicate IsQuotedText(q: bytes) { forall i :: 0 <= i < |q| ==> IsQuotedByte(q[i]) }

  predicate AreParts(ps: seq<Part>) { forall i :: 0 <= i < |ps| ==> IsQuotedText(ps[i].text) && IsEsc(ps[i].esc) }

  /** How the word is written, up to the closing quote. */
  function Written(ps: seq<Part>, last: bytes): bytes
  {
    if ps == [] then last else ps[0].text + EscText(ps[0].esc) + Written(ps[1..], last)
  }

  /** The word that is meant. */
  function Word(ps: seq<Part>, last: bytes): bytes
    requires AreParts(ps)
  {
    if ps == [] then last else ps[0].text + ([EscValue(ps[0].esc)] + Word(ps[1..], last))
  }

  /** An escape stands right behind a line end. */
  predicate EndsLine(q: bytes) { q != [] && q[|q| - 1] == LF }

  /** What is read: the text before such an escape is lost. */
  function Kept(ps: seq<Part>, last: bytes): bytes
    requires AreParts(ps)
  {
    if ps == [] then last
    else (if EndsLine(ps[0].text) then [] else ps[0].text) + ([EscValue(ps[0].esc)] + Kept(ps[1..], last))
  }

  // ---------------------------------------------------------------- reading

  /** The bytes that an answer gives. */
  function Piece(t: bytes, o: Out): bytes
  {
    if o.escaped.Some? then [o.escaped.value] else if o.off + o.len <= |t| then t[o.off..o.off + o.len] else []
  }

  /** Repeated calls of ltconf_read from d on, until the word is complete, fails or needs more:
      the pieces together, and the last answer. */
  function ReadWord(c: Conf, t: bytes, d: nat): (r: (bytes, Out))
    requires d <= |t|
    decreases |t| - d
  {
    var o := Cont(c, t, d, d);
    if o.kind == Chunk && d < o.rest <= |t| then
      var (more, end) := ReadWord(o.c, t, o.rest);
      (Piece(t, o) + more, end)
    else (Piece(t, o), o)
  }

  /** Up to the escape that follows the text q. */
  lemma {:induction false} QuoteToEscape(c: Conf, t: bytes, start: nat, d: nat, q: bytes, rest: bytes)
    requires c.state == Quote && start <= d && Rest(t, d, q + ([BACKSLASH] + rest)) && IsQuotedText(q)
    ensures d + |q| + 1 <= |t|
    ensures var c1, e := c.(line := c.line + LineEnds(q), state := Escape), d + |q|;
            InQuote(c, t, start, d) ==
            if q == [] || EndsLine(q) then InEscape(c1, t, start, e + 1)
            else Out(Chunk, c1, start, e - start, None, e + 1)
    decreases |q|
  {
    hide InQuote, InEscape, Rest, LineEnds, IsQuoteByte;
    var r, tail := SkipWhile(q, 0, IsQuoteByte), [BACKSLASH] + rest;
    if r == |q| {
      EscapeNext(c, t, start, d, q, rest);
    } else {
      QuoteNext(c, t, start, d, q, tail, r);
      var more := q[r + 1..];
      QuoteToEscape(c.(line := c.line + 1), t, start, d + r + 1, more, rest);
      assert more != [] ==> more[|more| - 1] == q[|q| - 1];
    }
  }

  /** No line end is left before the escape. */
  lemma EscapeNext(c: Conf, t: bytes, start: nat, d: nat, q: bytes, rest: bytes)
    requires c.state == Quote && start <= d && Rest(t, d, q + ([BACKSLASH] + rest))
    requires forall i :: 0 <= i < |q| ==> IsQuoteByte(q[i])
    ensures d + |q| + 1 <= |t| && LineEnds(q) == 0 && !EndsLine(q)
    ensures var c1, e := c.(state := Escape), d + |q|;
            InQuote(c, t, start, d) ==
            if q == [] then InEscape(c1, t, start, e + 1) else Out(Chunk, c1, start, e - start, None, e + 1)
  {
    hide InQuote, InEscape, Rest;
    RestSplit(t, d, q, [BACKSLASH] + rest);
    RestSplit(t, d + |q|, [BACKSLASH], rest);
    NoLineEnds(q, |q|);
    assert q[|q|..] == [];
    SkipUnique(t, d, IsQuoteByte, d + |q|);
    QuoteCases(c, t, start, d);
  }

  lemma ItselfRead(c: Conf, t: bytes, start: nat, d: nat)
    requires c.state == Escape && start <= d < |t| && (t[d] == QUOTE || t[d] == BACKSLASH)
    ensures InEscape(c, t, start, d) == Out(Chunk, c.(state := Quote), d, 1, None, d + 1)
  {
  }

  lemma HexRead(c: Conf, t: bytes, start: nat, d: nat)
    requires c.state == Escape && start <= d && d + 2 < |t| && t[d] == 0x78 && IsHex(t[d + 1]) && IsHex(t[d + 2])
    ensures var b := HexDigit(t[d + 1]) * 16 + HexDigit(t[d + 2]);
            InEscape(c, t, start, d) == Out(Chunk, c.(state := Quote, xdata := b), d + 2, 0, Some(b), d + 3)
  {
    hide HexDigit;
  }

  /** The escape itself. */
  lemma EscapeRead(c: Conf, t: bytes, start: nat, d: nat, x: Esc, rest: bytes)
    requires c.state == Escape && start <= d && IsEsc(x) && Rest(t, d, EscText(x)[1..] + rest)
    ensures var o, n := InEscape(c, t, start, d), |EscText(x)| - 1;
            && o.kind == Chunk && o.rest == d + n <= |t| && Piece(t, o) == [EscValue(x)]
            && o.c == c.(state := Quote, xdata := o.c.xdata)
  {
    EscapeBytes(t, d, x, rest);
    hide Rest, InEscape, HexDigit;
    if x.Hex? {
      HexRead(c, t, start, d);
    } else {
      ItselfRead(c, t, start, d);
      assert t[d..d + 1] == [t[d]];
    }
  }

  lemma EscapeBytes(t: bytes, d: nat, x: Esc, rest: bytes)
    requires Rest(t, d, EscText(x)[1..] + rest)
    ensures match x
            case Itself(b) => |EscText(x)| == 2 && d < |t| && t[d] == b
            case Hex(h, l) => |EscText(x)| == 4 && d + 2 < |t| && t[d] == 0x78 && t[d + 1] == h && t[d + 2] == l
  {
    var s := EscText(x)[1..];
    RestSplit(t, d, s, rest);
    assert t[d] == s[0];
    if x.Hex? { assert t[d + 1] == s[1] && t[d + 2] == s[2]; }
  }

  function Lines(ps: seq<Part>, last: bytes): nat
  {
    if ps == [] then LineEnds(last) else LineEnds(ps[0].text) + Lines(ps[1..], last)
  }

  lemma ContQuote(c: Conf, t: bytes, d: nat)
    requires (c.state == Quote || c.state == Escape) && d < |t|
    ensures Cont(c, t, d, d) == if c.state == Quote then InQuote(c, t, d, d) else InEscape(c, t, d, d)
  {
  }

  /** One answer, and what is read after it. */
  lemma ReadChunk(c: Conf, t: bytes, d: nat, o: Out)
    requires d <= |t| && Cont(c, t, d, d) == o && o.kind == Chunk && d < o.rest <= |t|
    ensures ReadWord(c, t, d).0 == Piece(t, o) + ReadWord(o.c, t, o.rest).0
    ensures ReadWord(c, t, d).1 == ReadWord(o.c, t, o.rest).1
  {
    hide Cont;
  }

  /** The escape is read by the call that found it: nothing of the text before it is given. */
  lemma LostRead(c: Conf, t: bytes, d: nat, q: bytes, x: Esc, rest: bytes) returns (c1: Conf)
    requires c.state == Quote && IsQuotedText(q) && IsEsc(x) && (q == [] || EndsLine(q))
    requires Rest(t, d, q + ([BACKSLASH] + (EscText(x)[1..] + rest)))
    requires Rest(t, d + |q| + 1, EscText(x)[1..] + rest) && d + |q| < |t|
    ensures var n := d + |q| + |EscText(x)|;
            && n <= |t| && c1 == c.(line := c.line + LineEnds(q), xdata := c1.xdata)
            && ReadWord(c, t, d) == ([EscValue(x)] + ReadWord(c1, t, n).0, ReadWord(c1, t, n).1)
  {
    hide Rest, InQuote, InEscape, LineEnds, EndsLine, Cont, ReadWord, IsQuotedText, IsEsc, EscValue, Piece, EscText;
    var e, cq := d + |q| + 1, c.(line := c.line + LineEnds(q), state := Escape);
    QuoteToEscape(c, t, d, d, q, EscText(x)[1..] + rest);
    ContQuote(c, t, d);
    EscapeRead(cq, t, d, e, x, rest);
    c1 := InEscape(cq, t, d, e).c;
    ReadChunk(c, t, d, InEscape(cq, t, d, e));
  }

  /** The text before the escape is given first, and the escape by the next call. */
  lemma TextRead(c: Conf, t: bytes, d: nat, q: bytes, x: Esc, rest: bytes) returns (c1: Conf)
    requires c.state == Quote && IsQuotedText(q) && IsEsc(x) && q != [] && !EndsLine(q)
    requires Rest(t, d, q + ([BACKSLASH] + (EscText(x)[1..] + rest)))
    requires Rest(t, d + |q| + 1, EscText(x)[1..] + rest) && d + |q| + 1 < |t|
    ensures var n := d + |q| + |EscText(x)|;
            && n <= |t| && c1 == c.(line := c.line + LineEnds(q), xdata := c1.xdata)
            && ReadWord(c, t, d) == (q + ([EscValue(x)] + ReadWord(c1, t, n).0), ReadWord(c1, t, n).1)
  {
    hide Rest, InQuote, InEscape, LineEnds, EndsLine, Cont, ReadWord, IsQuotedText, IsEsc, EscValue, Piece, EscText;
    var e, cq := d + |q| + 1, c.(line := c.line + LineEnds(q), state := Escape);
    QuoteToEscape(c, t, d, d, q, EscText(x)[1..] + rest);
    ContQuote(c, t, d);
    var o := InQuote(c, t, d, d);
    assert o == Out(Chunk, cq, d, |q|, None, e);
    ReadChunk(c, t, d, o);
    assert Piece(t, o) == q by { PieceText(t, d, q, [BACKSLASH] + (EscText(x)[1..] + rest), o); }
    ContQuote(cq, t, e);
    EscapeRead(cq, t, e, e, x, rest);
    c1 := InEscape(cq, t, e, e).c;
    ReadChunk(cq, t, e, InEscape(cq, t, e, e));
  }

  lemma RestTwice(t: bytes, d: nat, x: bytes, y: bytes)
    requires Rest(t, d, x + y)
    ensures d + |x| <= |t| && Rest(t, d + |x|, y)
  {
    RestSplit(t, d, x, y);
  }

  /** Where the parts of a text with an escape stand. */
  lemma Places(t: bytes, d: nat, q: bytes, s: bytes, rest: bytes)
    requires |s| >= 2 && s[0] == BACKSLASH && Rest(t, d, q + (s + rest))
    ensures Rest(t, d, q + ([BACKSLASH] + (s[1..] + rest)))
    ensures d + |q| + |s| <= |t| && Rest(t, d + |q| + 1, s[1..] + rest) && Rest(t, d + |q| + |s|, rest)
  {
    hide Rest;
    var more := s[1..] + rest;
    assert s + rest == [BACKSLASH] + more;
    RestTwice(t, d, q, [BACKSLASH] + more);
    RestTwice(t, d + |q|, [BACKSLASH], more);
    RestTwice(t, d + |q| + 1, s[1..], rest);
  }

  /** The text before an escape and the escape are read; the next call goes on behind them. */
  lemma PartRead(c: Conf, t: bytes, d: nat, p: Part, rest: bytes) returns (c1: Conf)
    requires c.state == Quote && IsQuotedText(p.text) && IsEsc(p.esc) && Rest(t, d, p.text + (EscText(p.esc) + rest))
    ensures var n := d + |p.text| + |EscText(p.esc)|;
            && n <= |t| && Rest(t, n, rest)
            && c1 == c.(line := c.line + LineEnds(p.text), xdata := c1.xdata)
            && ReadWord(c, t, d) == ((if EndsLine(p.text) then [] else p.text) + ([EscValue(p.esc)] + ReadWord(c1, t, n).0),
                                     ReadWord(c1, t, n).1)
  {
    var q, x := p.text, p.esc;
    hide Rest, LineEnds, EndsLine, ReadWord, IsQuotedText, IsEsc, EscValue;
    Places(t, d, q, EscText(x), rest);
    hide EscText;
    if q == [] || EndsLine(q) {
      NothingEnds();
      c1 := LostRead(c, t, d, q, x, rest);
      Nothing([EscValue(x)] + ReadWord(c1, t, d + |q| + |EscText(x)|).0);
    } else {
      c1 := TextRead(c, t, d, q, x, rest);
    }
  }

  lemma Nothing(s: bytes)
    ensures [] + s == s
  {
  }

  lemma NothingEnds()
    ensures !EndsLine([])
  {
  }

  lemma PieceText(t: bytes, d: nat, q: bytes, rest: bytes, o: Out)
    requires Rest(t, d, q + rest) && o.escaped.None? && o.off == d && o.len == |q|
    ensures Piece(t, o) == q
  {
    RestSplit(t, d, q, rest);
  }

  /** A quoted word with escapes, after its opening quote: the calls give its role on the line, the
      line it ends on, and, together, what is kept of it. */
  lemma {:induction false} WordRead(c: Conf, t: bytes, d: nat, ps: seq<Part>, last: bytes, rest: bytes)
    requires c.state == Quote && AreParts(ps) && IsQuotedText(last) && Rest(t, d, Written(ps, last) + ([QUOTE] + rest))
    ensures d + |Written(ps, last)| + 1 <= |t|
    ensures var (word, o) := ReadWord(c, t, d);
            && word == Kept(ps, last)
            && o.kind == Role(c.fkey, c.fval) && o.rest == d + |Written(ps, last)| + 1
            && o.c.line == c.line + Lines(ps, last) && o.c.state == White1
    decreases |ps|
  {
    hide Rest, InQuote, EndsLine, Cont, IsQuotedText, EscText, EscValue, LineEnds;
    if ps == [] {
      LastRead(c, t, d, last, rest);
    } else {
      var more := Written(ps[1..], last);
      var p, w := ps[0], more + ([QUOTE] + rest);
      assert Written(ps, last) + ([QUOTE] + rest) == p.text + (EscText(p.esc) + w);
      assert IsQuotedText(p.text) && IsEsc(p.esc);
      var c1 := PartRead(c, t, d, p, w);
      assert AreParts(ps[1..]);
      WordRead(c1, t, d + |p.text| + |EscText(p.esc)|, ps[1..], last, rest);
    }
  }

  lemma LastRead(c: Conf, t: bytes, d: nat, last: bytes, rest: bytes)
    requires c.state == Quote && IsQuotedText(last) && Rest(t, d, last + ([QUOTE] + rest))
    ensures d + |last| + 1 <= |t|
    ensures var (word, o) := ReadWord(c, t, d);
            && word == last && o.kind == Role(c.fkey, c.fval) && o.rest == d + |last| + 1
            && o.c.line == c.line + LineEnds(last) && o.c.state == White1
  {
    hide Rest, InQuote, Cont, LineEnds;
    RestSplit(t, d, last, [QUOTE] + rest);
    RestSplit(t, d + |last|, [QUOTE], rest);
    QuoteRun(c, t, d, d, last, rest);
    ContQuote(c, t, d);
  }

  lemma {:induction false} KeptLength(ps: seq<Part>, last: bytes)
    requires AreParts(ps)
    ensures |Kept(ps, last)| <= |Word(ps, last)|
    ensures (exists i :: 0 <= i < |ps| && EndsLine(ps[i].text)) ==> |Kept(ps, last)| < |Word(ps, last)|
    ensures (forall i :: 0 <= i < |ps| ==> !EndsLine(ps[i].text)) ==> Kept(ps, last) == Word(ps, last)
    decreases |ps|
  {
    hide EscValue;
    if ps == [] {
    } else {
      KeptLength(ps[1..], last);
      if i :| 0 < i < |ps| && EndsLine(ps[i].text) { assert ps[1..][i - 1] == ps[i]; }
      assert forall i :: 0 <= i < |ps| - 1 ==> ps[1..][i] == ps[i + 1];
    }
  }

  /** The pieces are the word that is meant exactly when no escape stands right behind a line end. */
  lemma EscapesRead(c: Conf, t: bytes, d: nat, ps: seq<Part>, last: bytes, rest: bytes)
    requires c.state == Quote && AreParts(ps) && IsQuotedText(last) && Rest(t, d, Written(ps, last) + ([QUOTE] + rest))
    ensures ReadWord(c, t, d).0 == Word(ps, last) <==> forall i :: 0 <= i < |ps| ==> !EndsLine(ps[i].text)
  {
    hide EndsLine, Rest, ReadWord, Written;
    WordRead(c, t, d, ps, last, rest);
    KeptLength(ps, last);
  }

  /** Such a word: after a line end and an escaped quote, both the text and the line end are lost. */
  lemma TextLost()
    ensures var ps := [Part([0x61, LF], Itself(QUOTE))];
            AreParts(ps) && Word(ps, []) == [0x61, LF, QUOTE] && Kept(ps, []) == [QUOTE]
  {
    var ps := [Part([0x61, LF], Itself(QUOTE))];
    assert ps[1..] == [];
  }
}

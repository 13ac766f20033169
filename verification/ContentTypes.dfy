/** The content type index: a config whose lines are "TYPE EXT..." is read once into a map from
    extension to type; both are kept as 16-bit ranges of the config text. */
module ContentTypes {
  import opened Bytes
  import opened LtConf

  const W: nat := W16

  /** The two ranges in one 64-bit map value: the extension in the upper half. */
  function Pack(k: Range, v: Range): (val: nat)
    requires Fits(k) && Fits(v)
    ensures val < W * W * W * W
  {
    PackBound(k, v);
    ((k.len * W + k.off) * W + v.len) * W + v.off
  }

  lemma PackBound(k: Range, v: Range)
    requires Fits(k) && Fits(v)
    ensures ((k.len * W + k.off) * W + v.len) * W + v.off < W * W * W * W
  {
  }

  function Ext(val: nat): (k: Range)
    ensures Fits(k)
  {
    Range(val / W / W % W, val / W / W / W % W)
  }

  function Type(val: nat): (v: Range)
    ensures Fits(v)
  {
    Range(val % W, val / W % W)
  }

  lemma PackUnpack(k: Range, v: Range)
    requires Fits(k) && Fits(v)
    ensures Ext(Pack(k, v)) == k && Type(Pack(k, v)) == v
    ensures Pack(k, v) == 0 <==> k == Range(0, 0) && v == Range(0, 0)
  {
    var a := k.len * W + k.off;
    var b := a * W + v.len;
    assert (b * W + v.off) / W == b && (b * W + v.off) % W == v.off;
    assert b / W == a && b % W == v.len;
    assert a / W == k.len && a % W == k.off;
  }

  // ------------------------------------------------------- what the text says

  const MAX_EXT: nat := 4

  predicate IsValue(k: Kind) { k.Val? || k.ValNext? }

  /** Extensions with the type of their line, in order, up to the first one that is too long. */
  function Pairs(items: seq<Item>, ct: bytes): seq<(bytes, bytes)>
  {
    if items == [] then []
    else if items[0].kind.Key? then Pairs(items[1..], items[0].text)
    else if !IsValue(items[0].kind) || |items[0].text| > MAX_EXT then []
    else [(items[0].text, ct)] + Pairs(items[1..], ct)
  }

  /** Item j is an extension and item i, on the same line, its type. */
  predicate Lists(items: seq<Item>, i: int, j: int)
  {
    && 0 <= i < j < |items| && items[i].kind.Key? && IsValue(items[j].kind)
    && forall m :: i < m < j ==> !items[m].kind.Key?
  }

  /** Every word is a key or an extension of at most four bytes. */
  predicate ShortValues(items: seq<Item>)
  {
    forall i :: 0 <= i < |items| ==> items[i].kind.Key? || (IsValue(items[i].kind) && |items[i].text| <= MAX_EXT)
  }

  lemma {:induction false} PairsSound(items: seq<Item>, ct: bytes, p: (bytes, bytes))
    requires ShortValues(items) && p in Pairs(items, ct)
    ensures || (exists j :: 0 <= j < |items| && IsValue(items[j].kind) && items[j].text == p.0
                            && p.1 == ct && forall m :: 0 <= m < j ==> !items[m].kind.Key?)
            || (exists i, j :: Lists(items, i, j) && items[j].text == p.0 && items[i].text == p.1)
    decreases |items|
  {
    var rest := items[1..];
    if items[0].kind.Key? || p != (items[0].text, ct) {
      var ct' := if items[0].kind.Key? then items[0].text else ct;
      PairsSound(rest, ct', p);
      if i, j :| Lists(rest, i, j) && rest[j].text == p.0 && rest[i].text == p.1 {
        ListsShift(items, i, j);
      } else {
        var j :| 0 <= j < |rest| && IsValue(rest[j].kind) && rest[j].text == p.0
                 && p.1 == ct' && forall m :: 0 <= m < j ==> !rest[m].kind.Key?;
        assert forall m :: 0 < m < j + 1 ==> items[m] == rest[m - 1];
        if items[0].kind.Key? {
          assert Lists(items, 0, j + 1);
        } else {
          assert IsValue(items[j + 1].kind) && items[j + 1].text == p.0;
        }
      }
    }
  }

  lemma ListsShift(items: seq<Item>, i: int, j: int)
    requires items != [] && Lists(items[1..], i, j)
    ensures Lists(items, i + 1, j + 1)
    ensures items[1..][i] == items[i + 1] && items[1..][j] == items[j + 1]
  {
    assert forall m :: i + 1 < m < j + 1 ==> items[m] == items[1..][m - 1];
  }

  lemma {:induction false} PairsComplete(items: seq<Item>, ct: bytes, i: int, j: int)
    requires ShortValues(items) && Lists(items, i, j)
    ensures (items[j].text, items[i].text) in Pairs(items, ct)
    decreases |items|
  {
    var rest := items[1..];
    if i > 0 {
      assert Lists(rest, i - 1, j - 1);
      PairsComplete(rest, if items[0].kind.Key? then items[0].text else ct, i - 1, j - 1);
    } else {
      assert forall m :: 0 <= m < j - 1 ==> !rest[m].kind.Key? by {
        assert forall m :: 0 <= m < j - 1 ==> rest[m] == items[m + 1];
      }
      ValueIn(rest, items[0].text, j - 1);
    }
  }

  lemma {:induction false} ValueIn(items: seq<Item>, ct: bytes, j: nat)
    requires ShortValues(items) && j < |items| && IsValue(items[j].kind)
    requires forall m :: 0 <= m < j ==> !items[m].kind.Key?
    ensures (items[j].text, ct) in Pairs(items, ct)
    decreases |items|
  {
    if j > 0 {
      ValueIn(items[1..], ct, j - 1);
    }
  }

  /** The pairs are exactly the extensions with the type of the line that lists them. */
  lemma PairsMeaning(items: seq<Item>, e: bytes, ct: bytes)
    requires ShortValues(items) && (items != [] ==> items[0].kind.Key?)
    ensures (e, ct) in Pairs(items, []) <==>
            exists i, j :: Lists(items, i, j) && items[j].text == e && items[i].text == ct
  {
    if (e, ct) in Pairs(items, []) {
      PairsSound(items, [], (e, ct));
    }
    if i, j :| Lists(items, i, j) && items[j].text == e && items[i].text == ct {
      PairsComplete(items, [], i, j);
    }
  }

  // ------------------------------------------------------------- the program

  /** The pair of texts a map value stands for. */
  function PairOf(val: nat, t: bytes): (bytes, bytes) { (Slice(Ext(val), t), Slice(Type(val), t)) }

  function PairsOf(vals: seq<nat>, t: bytes): seq<(bytes, bytes)>
  {
    seq(|vals|, i requires 0 <= i < |vals| => PairOf(vals[i], t))
  }

  /** A value holds its two texts, unless an offset or length needs more than 16 bits. */
  lemma Stored(t: bytes, off: nat, len: nat, ctOff: nat, ctLen: nat)
    requires |t| <= W && 0 < off < |t| && off + len <= |t| && len < W
    requires ctOff < W && ctOff + ctLen <= off
    ensures var val := Pack(RangeSet(off, len), RangeSet(ctOff, ctLen));
            val != 0 && PairOf(val, t) == (t[off..off + len], t[ctOff..ctOff + ctLen])
  {
    var k, v := RangeSet(off, len), RangeSet(ctOff, ctLen);
    assert k == Range(off, len) && v == Range(ctOff, ctLen);
    PackUnpack(k, v);
  }

  /** alphahttpd_filter_file_init: the values added to the map. For a text of at most 64 KiB they
      stand for the pairs of the words that the tokenizer returns, and none of them is zero,
      which stands for "not found". */
  method FileInit(t: bytes) returns (vals: seq<nat>)
    ensures |t| <= W ==> PairsOf(vals, t) == Pairs(ReadAll(CONF0, t, 0, 0).0, [])
    ensures |t| <= W ==> forall i :: 0 <= i < |vals| ==> vals[i] != 0
  {
    hide Cont, ReadAll, Pairs, PairsOf, Stage;
    var ltc := new Ltconf(false);
    var at := 0;
    var ctOff: nat, ctLen: nat := 0, 0;
    vals := [];
    ghost var all := Pairs(ReadAll(CONF0, t, 0, 0).0, []);
    assert t[0..0] == [];
    StageStart(t);
    assert |t| <= W ==> Stage(vals, t, ltc.View(), at, t[ctOff..ctOff + ctLen], all);
    while true
      invariant at <= |t| && ctOff + ctLen <= at
      invariant at == 0 ==> !ltc.fkey
      invariant |t| <= W ==> forall i :: 0 <= i < |vals| ==> vals[i] != 0
      invariant |t| <= W ==> ctOff < W && Stage(vals, t, ltc.View(), at, t[ctOff..ctOff + ctLen], all)
      decreases |t| - at
    {
      ghost var c, ct := ltc.View(), t[ctOff..ctOff + ctLen];
      var o := ltc.Read(t, at);
      ContPlaced(c, t, at, at);
      if o.kind.Key? {
        if |t| <= W { StageKey(vals, t, c, at, ct, all); }
        ctOff, ctLen := o.off, o.len;
      } else if o.kind.Val? || o.kind.ValNext? {
        if o.len > MAX_EXT {
          if |t| <= W { StageEnd(vals, t, c, at, ct, all); }
          return;
        }
        var k, v := RangeSet(o.off, o.len), RangeSet(ctOff, ctLen);
        if |t| <= W {
          Stored(t, o.off, o.len, ctOff, ctLen);
          StageValue(vals, t, c, at, ct, all, Pack(k, v));
        }
        vals := vals + [Pack(k, v)];
      } else {
        if |t| <= W { StageEnd(vals, t, c, at, ct, all); }
        return;
      }
      at := o.rest;
    }
  }

  /** The values so far and the words still to be read make up all the pairs. */
  predicate Stage(vals: seq<nat>, t: bytes, c: Conf, at: nat, ct: bytes, all: seq<(bytes, bytes)>)
    requires at <= |t|
  {
    && PairsOf(vals, t) + Pairs(ReadAll(c, t, at, at).0, ct) == all
    && forall i :: 0 <= i < |vals| ==> vals[i] != 0
  }

  lemma StageStart(t: bytes)
    ensures Stage([], t, CONF0, 0, [], Pairs(ReadAll(CONF0, t, 0, 0).0, []))
  {
    var all := Pairs(ReadAll(CONF0, t, 0, 0).0, []);
    assert PairsOf([], t) + all == all;
  }

  lemma StageKey(vals: seq<nat>, t: bytes, c: Conf, at: nat, ct: bytes, all: seq<(bytes, bytes)>)
    requires at <= |t| && Stage(vals, t, c, at, ct, all) && Cont(c, t, at, at).kind.Key?
    ensures var o := Cont(c, t, at, at); Stage(vals, t, o.c, o.rest, t[o.off..o.off + o.len], all)
  {
    hide Cont, PairsOf;
    var o := Cont(c, t, at, at);
    var items, rest := ReadAll(c, t, at, at).0, ReadAll(o.c, t, o.rest, o.rest).0;
    assert items == [Item(o.kind, t[o.off..o.off + o.len], o.c.line)] + rest;
    hide ReadAll;
    assert items[1..] == rest;
  }

  lemma StageValue(vals: seq<nat>, t: bytes, c: Conf, at: nat, ct: bytes, all: seq<(bytes, bytes)>, val: nat)
    requires at <= |t| && Stage(vals, t, c, at, ct, all) && IsValue(Cont(c, t, at, at).kind)
    requires var o := Cont(c, t, at, at);
             o.len <= MAX_EXT && val != 0 && PairOf(val, t) == (t[o.off..o.off + o.len], ct)
    ensures var o := Cont(c, t, at, at); Stage(vals + [val], t, o.c, o.rest, ct, all)
  {
    hide Cont, PairOf;
    var o := Cont(c, t, at, at);
    var items, rest := ReadAll(c, t, at, at).0, ReadAll(o.c, t, o.rest, o.rest).0;
    assert items[1..] == rest;
    assert Pairs(items, ct) == [PairOf(val, t)] + Pairs(rest, ct);
    PairsOfAppend(vals, val, t);
    assert PairsOf(vals, t) + ([PairOf(val, t)] + Pairs(rest, ct))
        == (PairsOf(vals, t) + [PairOf(val, t)]) + Pairs(rest, ct);
  }

  lemma PairsOfAppend(vals: seq<nat>, val: nat, t: bytes)
    ensures PairsOf(vals + [val], t) == PairsOf(vals, t) + [PairOf(val, t)]
  {
  }

  lemma StageEnd(vals: seq<nat>, t: bytes, c: Conf, at: nat, ct: bytes, all: seq<(bytes, bytes)>)
    requires at <= |t| && Stage(vals, t, c, at, ct, all)
    requires var o := Cont(c, t, at, at); !IsText(o.kind) || (IsValue(o.kind) && o.len > MAX_EXT)
    ensures PairsOf(vals, t) == all
  {
    assert PairsOf(vals, t) + [] == PairsOf(vals, t);
  }

  // ----------------------------------------------------------------- lookup

  /** "application/octet-stream" */
  const OCTET_STREAM: bytes := [
    0x61, 0x70, 0x70, 0x6c, 0x69, 0x63, 0x61, 0x74, 0x69, 0x6f, 0x6e, 0x2f,
    0x6f, 0x63, 0x74, 0x65, 0x74, 0x2d, 0x73, 0x74, 0x72, 0x65, 0x61, 0x6d]

  /** ffmap_find: a value whose extension is the key, whichever of them the map finds, or zero. */
  method Find(vals: seq<nat>, t: bytes, key: bytes) returns (val: nat)
    ensures || (val in vals && Slice(Ext(val), t) == key)
            || (val == 0 && forall i :: 0 <= i < |vals| ==> Slice(Ext(vals[i]), t) != key)
  {
    if i :| 0 <= i < |vals| && Slice(Ext(vals[i]), t) == key {
      val := vals[i];
    } else {
      val := 0;
    }
  }

  /** The extension part of content_type, for the extension x of the file's name. */
  method ContentType(vals: seq<nat>, t: bytes, x: bytes) returns (ct: bytes)
    requires forall i :: 0 <= i < |vals| ==> vals[i] != 0
    ensures |x| <= MAX_EXT && (exists p :: p in PairsOf(vals, t) && p.0 == LowerAll(x))
            ==> (LowerAll(x), ct) in PairsOf(vals, t)
    ensures |x| > MAX_EXT || (forall p :: p in PairsOf(vals, t) ==> p.0 != LowerAll(x)) ==> ct == OCTET_STREAM
  {
    if |x| > MAX_EXT { return OCTET_STREAM; }
    var val := Find(vals, t, LowerAll(x));
    if val == 0 {
      assert forall i :: 0 <= i < |vals| ==> PairsOf(vals, t)[i].0 == Slice(Ext(vals[i]), t);
      return OCTET_STREAM;
    }
    var i :| 0 <= i < |vals| && vals[i] == val;
    assert PairsOf(vals, t)[i] == PairOf(val, t);
    ct := Slice(Type(val), t);
  }

  /** No extension is listed twice. */
  predicate UniqueExts(items: seq<Item>)
  {
    forall i, j :: 0 <= i < j < |items| && IsValue(items[i].kind) && IsValue(items[j].kind) ==>
      items[i].text != items[j].text
  }

  /** Reading the config and looking an extension up agrees with the text: for a config of
      unique extensions of at most four bytes and at most 64 KiB, the answer for an extension,
      whatever its case, is the type at the start of the line that lists it in lower case, and
      the default when no line does. */
  method Index(ts: seq<Token>, x: bytes) returns (ct: bytes)
    requires IsConfig(ts, false) && |Text(ts)| <= W
    requires var items := Items(ts, false, false, 0); ShortValues(items) && UniqueExts(items)
    ensures var items, lx := Items(ts, false, false, 0), LowerAll(x);
            && (forall i, j :: Lists(items, i, j) && items[j].text == lx ==> ct == items[i].text)
            && ((forall i, j :: Lists(items, i, j) ==> items[j].text != lx) ==> ct == OCTET_STREAM)
  {
    hide Text, Items, IsConfig, ReadAll, Pairs, PairsOf, ShortValues, UniqueExts, LowerAll;
    var t := Text(ts);
    ghost var items, lx := Items(ts, false, false, 0), LowerAll(x);
    assert t[0..] == t;
    ReadsConfig(CONF0, t, 0, 0, ts);
    var vals := FileInit(t);
    ct := ContentType(vals, t, x);
    FirstIsKey(ts, 0);
    LookedUp(items, lx, ct);
  }

  /** A lookup in the pairs of the text, in terms of its lines. */
  lemma LookedUp(items: seq<Item>, lx: bytes, ct: bytes)
    requires ShortValues(items) && UniqueExts(items) && (items != [] ==> items[0].kind.Key?)
    requires |lx| <= MAX_EXT && (exists p :: p in Pairs(items, []) && p.0 == lx) ==> (lx, ct) in Pairs(items, [])
    requires (forall p :: p in Pairs(items, []) ==> p.0 != lx) ==> ct == OCTET_STREAM
    ensures forall i, j :: Lists(items, i, j) && items[j].text == lx ==> ct == items[i].text
    ensures (forall i, j :: Lists(items, i, j) ==> items[j].text != lx) ==> ct == OCTET_STREAM
  {
    Listed(items, lx, ct);
    if forall i, j :: Lists(items, i, j) ==> items[j].text != lx {
      NotListed(items, lx);
    }
  }

  lemma NotListed(items: seq<Item>, lx: bytes)
    requires ShortValues(items) && (items != [] ==> items[0].kind.Key?)
    requires forall i, j :: Lists(items, i, j) ==> items[j].text != lx
    ensures forall p :: p in Pairs(items, []) ==> p.0 != lx
  {
    hide Pairs, ShortValues;
    forall p | p in Pairs(items, []) ensures p.0 != lx {
      PairsMeaning(items, p.0, p.1);
    }
  }

  lemma Listed(items: seq<Item>, lx: bytes, ct: bytes)
    requires ShortValues(items) && UniqueExts(items) && (items != [] ==> items[0].kind.Key?)
    requires |lx| <= MAX_EXT && (exists p :: p in Pairs(items, []) && p.0 == lx) ==> (lx, ct) in Pairs(items, [])
    ensures forall i, j :: Lists(items, i, j) && items[j].text == lx ==> ct == items[i].text
  {
    hide Pairs, ShortValues, UniqueExts;
    forall i, j | Lists(items, i, j) && items[j].text == lx
      ensures ct == items[i].text
    {
      PairsMeaning(items, lx, items[i].text);
      ShortText(items, j);
      assert (lx, items[i].text) in Pairs(items, []);
      PairsMeaning(items, lx, ct);
      var i', j' :| Lists(items, i', j') && items[j'].text == lx && items[i'].text == ct;
      ListsOnce(items, i, j, i', j');
    }
  }

  lemma ShortText(items: seq<Item>, j: nat)
    requires ShortValues(items) && j < |items| && IsValue(items[j].kind)
    ensures |items[j].text| <= MAX_EXT
  {
  }

  lemma ListsOnce(items: seq<Item>, i: nat, j: nat, i': nat, j': nat)
    requires UniqueExts(items) && Lists(items, i, j) && Lists(items, i', j') && items[j].text == items[j'].text
    ensures i == i' && j == j'
  {
  }

  lemma {:induction false} FirstIsKey(ts: seq<Token>, line: nat)
    ensures var items := Items(ts, false, false, line); items != [] ==> items[0].kind.Key?
    decreases |ts|
  {
    if ts != [] && !ts[0].Plain? && !ts[0].Quoted? {
      FirstIsKey(ts[1..], if ts[0].NewLine? then line + 1 else line);
    }
  }
}

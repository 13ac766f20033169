/** IPv6 addresses as text: the parser and the printer, which work in place on
    fixed-size buffers, the textual forms they stand for, and the round trip. */
module IpAddr6 {
  import opened Bytes

  function Zeros(n: nat): (s: bytes)
    ensures |s| == n && forall i :: 0 <= i < n ==> s[i] == 0
  {
    seq(n, _ => 0)
  }

  // --------------------------------------------------------- groups and text

  /** A group is one to four hexadecimal digits. */
  predicate IsGroup(g: bytes) { 1 <= |g| <= 4 && AllDigits(g, 16) }

  predicate AreGroups(gs: seq<bytes>) { forall g :: g in gs ==> IsGroup(g) }

  /** Every group followed by ':'. */
  function Colons(gs: seq<bytes>): bytes
  {
    if gs == [] then [] else Colons(gs[..|gs| - 1]) + (gs[|gs| - 1] + [COLON])
  }

  /** Groups separated by ':'. */
  function Join(gs: seq<bytes>): bytes
  {
    if gs == [] then [] else Colons(gs[..|gs| - 1]) + gs[|gs| - 1]
  }

  function Pair(v: nat): (s: bytes)
    requires v < 0x1_0000
    ensures |s| == 2
  {
    [v / 256, v % 256]
  }

  lemma GroupValue(g: bytes)
    requires AllDigits(g, 16) && |g| <= 4
    ensures Value(g, 16) < Pow(16, |g|) <= 0x1_0000
  {
    ValueBound(g);
    assert Pow(16, 4) == 0x1_0000;
    assert Pow(16, 3) == 0x1000 && Pow(16, 2) == 0x100 && Pow(16, 1) == 16;
  }

  lemma {:induction false} ValueBound(g: bytes)
    requires AllDigits(g, 16)
    ensures Value(g, 16) < Pow(16, |g|)
    decreases |g|
  {
    if g == [] {
    } else {
      var h, d := g[..|g| - 1], g[|g| - 1];
      ValueBound(h);
      ValueAppend(0, h, d, 16);
      assert g == h + [d];
    }
  }

  function GroupBytes(g: bytes): (s: bytes)
    requires IsGroup(g)
    ensures |s| == 2
  {
    GroupValue(g);
    Pair(Value(g, 16))
  }

  function GroupsBytes(gs: seq<bytes>): (s: bytes)
    requires AreGroups(gs)
    ensures |s| == 2 * |gs|
  {
    if gs == [] then [] else GroupsBytes(gs[..|gs| - 1]) + GroupBytes(gs[|gs| - 1])
  }

  /** An address as text: eight groups, or groups around a "::" that stands for the zeros in
      between. A "::" may stand for nothing, but not at the end of eight groups. */
  datatype Ip6Text = Plain(left: seq<bytes>) | Gap(left: seq<bytes>, right: seq<bytes>)

  predicate IsIp6Text(t: Ip6Text)
  {
    match t
    case Plain(l) => AreGroups(l) && |l| == 8
    case Gap(l, r) => AreGroups(l) && AreGroups(r) && |l| < 8 && |l| + |r| <= 8
  }

  function Text(t: Ip6Text): bytes
  {
    match t
    case Plain(l) => Join(l)
    case Gap(l, r) => Join(l) + [COLON, COLON] + Join(r)
  }

  /** Left groups, zeros, right groups. */
  function Address(t: Ip6Text): (a: bytes)
    requires IsIp6Text(t)
    ensures |a| == 16
  {
    match t
    case Plain(l) => GroupsBytes(l)
    case Gap(l, r) => GroupsBytes(l) + Zeros(16 - 2 * |l| - 2 * |r|) + GroupsBytes(r)
  }

  // ------------------------------------------------------------ ffip6_parse

  /** The parser's variables: the bytes written so far, the group being read, and where "::"
      was seen. */
  datatype Scan = Scan(out: bytes, chunk: nat, ndigs: nat, izero: Option<nat>)

  const SCAN0 := Scan([], 0, 0, None)

  predicate ScanOk(st: Scan)
  {
    && |st.out| <= 16 && |st.out| % 2 == 0 && st.ndigs <= 4 && st.chunk < Pow(16, st.ndigs)
    && (st.izero.Some? ==> st.izero.value <= |st.out|)
    && (|st.out| == 16 ==> st.ndigs == 0)
  }

  lemma ChunkFits(st: Scan)
    requires ScanOk(st)
    ensures st.chunk < 0x1_0000
    ensures st.ndigs < 4 ==> st.chunk * 16 + 15 < 0x1_0000
  {
    assert Pow(16, 4) == 0x1_0000;
    assert Pow(16, 3) == 0x1000 && Pow(16, 2) == 0x100 && Pow(16, 1) == 16 && Pow(16, 0) == 1;
  }

  /** What one byte does: go on, stop before it, or fail. */
  datatype ScanStep = Go(next: nat, st: Scan) | Stop | Reject

  function StepAt(s: bytes, i: nat, st: Scan): (r: ScanStep)
    requires i < |s| && ScanOk(st)
    ensures r.Go? ==> i < r.next <= |s| && ScanOk(r.st)
  {
    ChunkFits(st);
    if |st.out| == 16 then Reject
    else if s[i] == COLON then
      if st.ndigs != 0 then Go(i + 1, Scan(st.out + Pair(st.chunk), 0, 0, st.izero))
      else if i == 0 then
        if i + 1 == |s| || s[i + 1] != COLON then Reject else Go(i + 2, st.(izero := Some(|st.out|)))
      else if st.izero.Some? then Reject
      else Go(i + 1, st.(izero := Some(|st.out|)))
    else if st.ndigs == 4 || !IsHex(s[i]) then Stop
    else Go(i + 1, st.(chunk := st.chunk * 16 + HexDigit(s[i]), ndigs := st.ndigs + 1))
  }

  datatype ScanEnd = End(n: nat, st: Scan) | Rejected

  /** Scan to the first byte that is not part of an address. */
  function ScanFrom(s: bytes, i: nat, st: Scan): (r: ScanEnd)
    requires i <= |s| && ScanOk(st)
    ensures r.End? ==> i <= r.n <= |s| && ScanOk(r.st)
    decreases |s| - i
  {
    if i == |s| then End(i, st)
    else match StepAt(s, i, st)
         case Go(next, st') => ScanFrom(s, next, st')
         case Stop => End(i, st)
         case Reject => Rejected
  }

  function Finish(st: Scan): (a: Option<bytes>)
    requires ScanOk(st)
    ensures a.Some? ==> |a.value| == 16
  {
    ChunkFits(st);
    if st.ndigs == 0 && st.izero != Some(|st.out|) then None
    else
      var out := if st.ndigs != 0 then st.out + Pair(st.chunk) else st.out;
      if st.izero.Some? then Some(out[..st.izero.value] + Zeros(16 - |out|) + out[st.izero.value..])
      else if |out| == 16 then Some(out) else None
  }

  /** The address at the start of s and the number of bytes it takes, or None. */
  function Parse6(s: bytes): (r: Option<(nat, bytes)>)
    ensures r.Some? ==> r.value.0 <= |s| && |r.value.1| == 16
  {
    match ScanFrom(s, 0, SCAN0)
    case Rejected => None
    case End(n, st) =>
      match Finish(st)
      case None => None
      case Some(a) => Some((n, a))
  }

  /** The C result code: 0 when everything was processed. */
  function Code(r: Option<(nat, bytes)>, len: nat): int
  {
    match r
    case None => -1
    case Some((n, _)) => if n == len then 0 else n
  }

  /** Move dst[izero..idst] up by nzero, from the last byte down. */
  method MoveUp(dst: array<byte>, izero: nat, nzero: nat)
    requires dst.Length == 16 && izero + nzero <= 16
    modifies dst
    ensures forall m :: 0 <= m < 16 ==> dst[m] == if m < izero + nzero then old(dst[m]) else old(dst[m - nzero])
  {
    var src: int := 15 - nzero;
    var k: int := 15;
    while k >= izero + nzero
      invariant izero + nzero - 1 <= k <= 15 && src == k - nzero
      invariant forall m :: 0 <= m < 16 ==> dst[m] == if m <= k then old(dst[m]) else old(dst[m - nzero])
    {
      dst[k] := dst[src];
      src := src - 1;
      k := k - 1;
    }
  }

  method Clear(dst: array<byte>, from: nat, n: nat)
    requires dst.Length == 16 && from + n <= 16
    modifies dst
    ensures forall m :: 0 <= m < 16 ==> dst[m] == if from <= m < from + n then 0 else old(dst[m])
  {
    var k := from;
    while k != from + n
      invariant from <= k <= from + n
      invariant forall m :: 0 <= m < 16 ==> dst[m] == if from <= m < k then 0 else old(dst[m])
      decreases from + n - k
    {
      dst[k] := 0;
      k := k + 1;
    }
  }

  /** Move dst[izero..idst] to the end of the 16 bytes and clear the bytes in between. */
  method OpenGap(dst: array<byte>, izero: nat, idst: nat)
    requires dst.Length == 16 && izero <= idst <= 16
    modifies dst
    ensures dst[..] == old(dst[..izero]) + Zeros(16 - idst) + old(dst[izero..idst])
  {
    ghost var before := dst[..];
    MoveUp(dst, izero, 16 - idst);
    Clear(dst, izero, 16 - idst);
    GapOpened(before, dst[..], izero, idst);
  }

  lemma GapOpened(a: bytes, b: bytes, izero: nat, idst: nat)
    requires |a| == |b| == 16 && izero <= idst <= 16
    requires forall m {:trigger b[m]} :: 0 <= m < 16 ==>
               b[m] == if m < izero then a[m] else if m < izero + 16 - idst then 0 else a[m - (16 - idst)]
    ensures b == a[..izero] + Zeros(16 - idst) + a[izero..idst]
  {
    var r := a[..izero] + Zeros(16 - idst) + a[izero..idst];
    assert |r| == 16 && forall m :: 0 <= m < 16 ==> r[m] == b[m];
  }

  method PutPair(dst: array<byte>, idst: nat, chunk: nat) returns (d: nat)
    requires dst.Length == 16 && idst + 2 <= 16 && chunk < 0x1_0000
    modifies dst
    ensures d == idst + 2 && dst[..d] == old(dst[..idst]) + Pair(chunk)
  {
    dst[idst] := chunk / 256;
    dst[idst + 1] := chunk % 256;
    d := idst + 2;
  }

  /** The variables of ffip6_parse; izero is -1 before "::" is seen. */
  datatype Vars = Vars(i: nat, chunk: nat, ndigs: nat, idst: nat, izero: int)

  ghost predicate Scanning(dst: array<byte>, v: Vars, st: Scan)
    reads dst
  {
    && dst.Length == 16 && v.idst <= 16 && -1 <= v.izero && ScanOk(st)
    && st == Scan(dst[..v.idst], v.chunk, v.ndigs, if v.izero < 0 then None else Some(v.izero))
  }

  /** The loop body, for the byte at v.i: 1 to go on, 0 to leave the loop, -1 for an error. */
  method Ip6Byte(dst: array<byte>, s: bytes, v: Vars, ghost st: Scan) returns (r: int, v': Vars)
    requires v.i < |s| && Scanning(dst, v, st)
    modifies dst
    ensures match StepAt(s, v.i, st)
            case Go(next, st') => r == 1 && v'.i == next && Scanning(dst, v', st')
            case Stop => r == 0 && v' == v && dst[..] == old(dst[..])
            case Reject => r == -1
  {
    ChunkFits(st);
    v' := v;
    var b := s[v.i];
    if v.idst == 16 { return -1, v'; }
    if b == COLON {
      if v.ndigs == 0 {
        if v.i == 0 {
          v' := v'.(i := v'.i + 1);
          if v'.i == |s| || s[v'.i] != COLON { return -1, v'; }
        } else if v.izero >= 0 {
          return -1, v';
        }
        v' := v'.(izero := v'.idst);
      } else {
        var d := PutPair(dst, v.idst, v.chunk);
        v' := v'.(idst := d, ndigs := 0, chunk := 0);
      }
    } else {
      if v.ndigs == 4 { return 0, v'; }
      var hx := HexDigit(b);
      if hx == -1 { return 0, v'; }
      v' := v'.(chunk := v'.chunk * 16 + hx, ndigs := v'.ndigs + 1);
    }
    v' := v'.(i := v'.i + 1);
    r := 1;
  }

  /** ffip6_parse. On failure the buffer holds whatever was written so far. */
  method Ip6Parse(dst: array<byte>, s: bytes) returns (r: int)
    requires dst.Length == 16
    modifies dst
    ensures r == Code(Parse6(s), |s|)
    ensures Parse6(s).Some? ==> dst[..] == Parse6(s).value.1
  {
    hide StepAt, Finish;
    var v := Vars(0, 0, 0, 0, -1);
    ghost var st := SCAN0;
    assert dst[..0] == [];
    while v.i != |s|
      invariant v.i <= |s| && Scanning(dst, v, st)
      invariant ScanFrom(s, 0, SCAN0) == ScanFrom(s, v.i, st)
      decreases |s| - v.i
    {
      ghost var step := StepAt(s, v.i, st);
      var k;
      k, v := Ip6Byte(dst, s, v, st);
      if k < 0 { return -1; }
      if k == 0 { break; }
      st := step.st;
    }
    var ok := Ip6Finish(dst, v.idst, v.chunk, v.ndigs, v.izero);
    r := if !ok then -1 else if v.i == |s| then 0 else v.i;
  }

  /** The part of ffip6_parse after the loop. */
  method Ip6Finish(dst: array<byte>, idst: nat, chunk: nat, ndigs: nat, izero: int) returns (ok: bool)
    requires dst.Length == 16 && idst <= 16 && -1 <= izero
    requires ScanOk(Scan(dst[..idst], chunk, ndigs, if izero < 0 then None else Some(izero)))
    modifies dst
    ensures var a := Finish(Scan(old(dst[..idst]), chunk, ndigs, if izero < 0 then None else Some(izero)));
            ok == a.Some? && (ok ==> dst[..] == a.value)
  {
    ghost var st := Scan(dst[..idst], chunk, ndigs, if izero < 0 then None else Some(izero));
    ChunkFits(st);
    var d := idst;
    if ndigs == 0 && izero != d {
      return false;
    } else if ndigs != 0 {
      d := PutPair(dst, d, chunk);
    }
    if izero >= 0 {
      assert dst[..d][..izero] == dst[..izero] && dst[..d][izero..] == dst[izero..d];
      OpenGap(dst, izero, d);
    } else if d != 16 {
      return false;
    }
    assert dst[..16] == dst[..];
    ok := true;
  }

  // ------------------------------------------- what ffip6_parse accepts

  /** Neither a hexadecimal digit nor ':' follows. */
  predicate IsStop(rest: bytes) { rest != [] ==> !IsHex(rest[0]) && rest[0] != COLON }

  lemma {:induction false} ScanDigits(s: bytes, i: nat, st: Scan, g: bytes)
    requires ScanOk(st) && |st.out| < 16 && At(s, i, g)
    requires AllDigits(g, 16) && st.ndigs + |g| <= 4
    ensures var v := ValueFrom(st.chunk, g, 16);
            && ScanOk(st.(chunk := v, ndigs := st.ndigs + |g|))
            && ScanFrom(s, i, st) == ScanFrom(s, i + |g|, st.(chunk := v, ndigs := st.ndigs + |g|))
    decreases |g|
  {
    hide ScanFrom, StepAt, ScanOk, HexDigit;
    if g == [] {
    } else {
      AtSplit(s, i, [g[0]], g[1..]);
      assert g == [g[0]] + g[1..] && s[i] == s[i..i + 1][0] == g[0];
      ScanDigit(s, i, st);
      ScanDigits(s, i + 1, st.(chunk := st.chunk * 16 + HexDigit(g[0]), ndigs := st.ndigs + 1), g[1..]);
    }
  }

  lemma ScanDigit(s: bytes, i: nat, st: Scan)
    requires i < |s| && ScanOk(st) && |st.out| < 16 && IsHex(s[i]) && st.ndigs < 4
    ensures var st' := st.(chunk := st.chunk * 16 + HexDigit(s[i]), ndigs := st.ndigs + 1);
            ScanOk(st') && ScanFrom(s, i, st) == ScanFrom(s, i + 1, st')
  {
    assert s[i] != COLON;
    assert StepAt(s, i, st) == Go(i + 1, st.(chunk := st.chunk * 16 + HexDigit(s[i]), ndigs := st.ndigs + 1));
    hide StepAt, HexDigit;
  }

  lemma ScanColon(s: bytes, i: nat, st: Scan)
    requires i < |s| && ScanOk(st) && |st.out| < 16 && s[i] == COLON && st.ndigs != 0
    ensures st.chunk < 0x1_0000
    ensures var st' := Scan(st.out + Pair(st.chunk), 0, 0, st.izero);
            ScanOk(st') && ScanFrom(s, i, st) == ScanFrom(s, i + 1, st')
  {
    ChunkFits(st);
    assert StepAt(s, i, st) == Go(i + 1, Scan(st.out + Pair(st.chunk), 0, 0, st.izero));
    hide StepAt, Pair;
  }

  /** One group and the ':' after it. */
  lemma ScanGroup(s: bytes, i: nat, st: Scan, g: bytes)
    requires ScanOk(st) && st.ndigs == 0 && st.chunk == 0 && |st.out| < 16
    requires IsGroup(g) && At(s, i, g + [COLON])
    ensures var st' := st.(out := st.out + GroupBytes(g));
            ScanOk(st') && ScanFrom(s, i, st) == ScanFrom(s, i + |g| + 1, st')
  {
    hide ScanFrom, ScanOk, AllDigits, Pair;
    AtSplit(s, i, g, [COLON]);
    GroupHasDigits(g);
    ScanDigits(s, i, st, g);
    var k := i + |g|;
    assert s[k] == s[k..k + 1][0] == COLON;
    ScanColon(s, k, st.(chunk := Value(g, 16), ndigs := |g|));
  }

  lemma GroupHasDigits(g: bytes)
    requires IsGroup(g)
    ensures 1 <= |g| <= 4 && AllDigits(g, 16)
  {
  }

  /** Groups that are each followed by ':' are written out. */
  lemma {:induction false} ScanGroups(s: bytes, i: nat, st: Scan, gs: seq<bytes>)
    requires ScanOk(st) && st.ndigs == 0 && st.chunk == 0 && |st.out| + 2 * |gs| <= 16
    requires AreGroups(gs) && At(s, i, Colons(gs))
    ensures var st' := st.(out := st.out + GroupsBytes(gs));
            ScanOk(st') && ScanFrom(s, i, st) == ScanFrom(s, i + |Colons(gs)|, st')
    decreases |gs|
  {
    hide ScanFrom;
    if gs == [] {
      assert st.out + [] == st.out;
    } else {
      var init, g := gs[..|gs| - 1], gs[|gs| - 1];
      AtSplit(s, i, Colons(init), g + [COLON]);
      ScanGroups(s, i, st, init);
      var st1 := st.(out := st.out + GroupsBytes(init));
      ScanGroup(s, i + |Colons(init)|, st1, g);
      assert st1.out + GroupBytes(g) == st.out + GroupsBytes(gs);
      assert st1.(out := st1.out + GroupBytes(g)) == st.(out := st.out + GroupsBytes(gs));
    }
  }

  /** The last group: the scan ends after it. */
  lemma ScanEndGroup(s: bytes, i: nat, st: Scan, g: bytes)
    requires ScanOk(st) && st.ndigs == 0 && st.chunk == 0 && |st.out| < 16
    requires IsGroup(g) && At(s, i, g) && IsStop(s[i + |g|..])
    ensures ScanFrom(s, i, st) == End(i + |g|, st.(chunk := Value(g, 16), ndigs := |g|))
  {
    ScanDigits(s, i, st, g);
    var n := i + |g|;
    if n < |s| {
      assert s[n..][0] == s[n];
    }
  }

  /** The result after `out`, when the groups end. */
  function Expand(izero: Option<nat>, out: bytes): Option<bytes>
    requires |out| <= 16 && (izero.Some? ==> izero.value <= |out|)
  {
    if izero.Some? then Some(out[..izero.value] + Zeros(16 - |out|) + out[izero.value..])
    else if |out| == 16 then Some(out) else None
  }

  predicate IsResult(e: ScanEnd, n: nat, a: Option<bytes>)
  {
    e.End? && e.n == n && ScanOk(e.st) && Finish(e.st) == a
  }

  predicate Ready(st: Scan, n: nat)
  {
    ScanOk(st) && st.ndigs == 0 && st.chunk == 0 && |st.out| + 2 * n <= 16
  }

  /** The address ends after "::". */
  lemma ScanNone(s: bytes, i: nat, st: Scan)
    requires Ready(st, 0) && i <= |s| && IsStop(s[i..])
    requires st.izero == Some(|st.out|) && |st.out| < 16
    ensures IsResult(ScanFrom(s, i, st), i, Expand(st.izero, st.out))
  {
    if i < |s| {
      assert s[i..][0] == s[i];
    }
  }

  /** The last groups of an address, separated by ':'. */
  lemma ScanSome(s: bytes, i: nat, st: Scan, gs: seq<bytes>)
    requires gs != [] && Ready(st, |gs|)
    requires AreGroups(gs) && At(s, i, Join(gs)) && IsStop(s[i + |Join(gs)|..])
    ensures IsResult(ScanFrom(s, i, st), i + |Join(gs)|, Expand(st.izero, st.out + GroupsBytes(gs)))
  {
    hide ScanFrom, Finish, Expand, IsStop, IsGroup, ScanOk, GroupBytes, GroupsBytes, AreGroups, Join, Colons, Value;
    ReadyFacts(st, gs);
    LastGroup(gs);
    var init, g := gs[..|gs| - 1], gs[|gs| - 1];
    AtSplit(s, i, Colons(init), g);
    ScanGroups(s, i, st, init);
    var st1, j := st.(out := st.out + GroupsBytes(init)), i + |Colons(init)|;
    ScanEndGroup(s, j, st1, g);
    FinishGroup(st1, g);
    assert st1.out + GroupBytes(g) == st.out + GroupsBytes(gs);
  }

  lemma LastGroup(gs: seq<bytes>)
    requires AreGroups(gs) && gs != []
    ensures var init, g := gs[..|gs| - 1], gs[|gs| - 1];
            && AreGroups(init) && IsGroup(g)
            && GroupsBytes(gs) == GroupsBytes(init) + GroupBytes(g) && Join(gs) == Colons(init) + g
  {
    hide IsGroup, GroupBytes;
  }

  lemma ReadyFacts(st: Scan, gs: seq<bytes>)
    requires Ready(st, |gs|)
    ensures ScanOk(st) && |st.out| + 2 * |gs| <= 16
  {
  }

  lemma ScanLast(s: bytes, i: nat, st: Scan, gs: seq<bytes>)
    requires Ready(st, |gs|)
    requires AreGroups(gs) && At(s, i, Join(gs)) && IsStop(s[i + |Join(gs)|..])
    requires gs == [] ==> st.izero == Some(|st.out|) && |st.out| < 16
    ensures IsResult(ScanFrom(s, i, st), i + |Join(gs)|, Expand(st.izero, st.out + GroupsBytes(gs)))
  {
    if gs == [] {
      assert st.out + GroupsBytes(gs) == st.out;
      ScanNone(s, i, st);
    } else {
      ScanSome(s, i, st, gs);
    }
  }

  lemma FinishGroup(st: Scan, g: bytes)
    requires ScanOk(st) && st.ndigs == 0 && st.chunk == 0 && |st.out| < 16 && IsGroup(g)
    ensures var e := st.(chunk := Value(g, 16), ndigs := |g|);
            ScanOk(e) && Finish(e) == Expand(st.izero, st.out + GroupBytes(g))
  {
    GroupValue(g);
  }

  /** Groups followed by "::". */
  lemma ScanToGap(s: bytes, l: seq<bytes>)
    requires AreGroups(l) && |l| < 8 && At(s, 0, Join(l) + [COLON, COLON])
    ensures var st := Scan(GroupsBytes(l), 0, 0, Some(2 * |l|));
            ScanOk(st) && ScanFrom(s, 0, SCAN0) == ScanFrom(s, |Join(l)| + 2, st)
  {
    hide ScanFrom, StepAt, GroupsBytes;
    var st, j := Scan(GroupsBytes(l), 0, 0, Some(2 * |l|)), |Join(l)|;
    AtSplit(s, 0, Join(l), [COLON, COLON]);
    assert s[j] == s[j..j + 2][0] && s[j + 1] == s[j..j + 2][1];
    if l == [] {
      GapAtStart(s);
      assert GroupsBytes(l) == [];
    } else {
      assert Colons(l) == Join(l) + [COLON];
      assert s[0..j + 1] == Join(l) + [COLON];
      ScanGroups(s, 0, SCAN0, l);
      assert [] + GroupsBytes(l) == GroupsBytes(l);
      GapAfter(s, j + 1, st.(izero := None));
    }
  }

  lemma GapAtStart(s: bytes)
    requires |s| >= 2 && s[0] == COLON && s[1] == COLON
    ensures var st := Scan([], 0, 0, Some(0)); ScanOk(st) && ScanFrom(s, 0, SCAN0) == ScanFrom(s, 2, st)
  {
    assert StepAt(s, 0, SCAN0) == Go(2, Scan([], 0, 0, Some(0)));
    hide StepAt;
  }

  lemma GapAfter(s: bytes, i: nat, st: Scan)
    requires 0 < i < |s| && s[i] == COLON && ScanOk(st) && |st.out| < 16 && st.ndigs == 0 && st.izero.None?
    ensures var st' := st.(izero := Some(|st.out|)); ScanOk(st') && ScanFrom(s, i, st) == ScanFrom(s, i + 1, st')
  {
    assert StepAt(s, i, st) == Go(i + 1, st.(izero := Some(|st.out|)));
    hide StepAt;
  }

  lemma ParseGap(s: bytes, l: seq<bytes>, r: seq<bytes>)
    requires IsIp6Text(Gap(l, r)) && At(s, 0, Text(Gap(l, r))) && IsStop(s[|Text(Gap(l, r))|..])
    ensures Parse6(s) == Some((|Text(Gap(l, r))|, Address(Gap(l, r))))
  {
    hide ScanFrom, GroupsBytes, Join, IsStop, Finish;
    var z, j := 2 * |l|, |Join(l)| + 2;
    AtSplit(s, 0, Join(l) + [COLON, COLON], Join(r));
    ScanToGap(s, l);
    ScanLast(s, j, Scan(GroupsBytes(l), 0, 0, Some(z)), r);
    var out := GroupsBytes(l) + GroupsBytes(r);
    assert out[..z] == GroupsBytes(l) && out[z..] == GroupsBytes(r);
  }

  /** Every textual form is accepted, whatever follows it, and gives its address: left groups,
      zeros, right groups. */
  lemma ParseText(t: Ip6Text, rest: bytes)
    requires IsIp6Text(t) && IsStop(rest)
    ensures Parse6(Text(t) + rest) == Some((|Text(t)|, Address(t)))
  {
    var s := Text(t) + rest;
    assert At(s, 0, Text(t)) && s[|Text(t)|..] == rest;
    match t
    case Plain(l) =>
      ScanLast(s, 0, SCAN0, l);
      assert [] + GroupsBytes(l) == GroupsBytes(l);
    case Gap(l, r) =>
      ParseGap(s, l, r);
  }

  /** How the scanned text relates to the parser's variables: groups already written, before
      and after "::", and the digits of the group being read. */
  datatype Shape = Shape(l: seq<bytes>, gap: bool, r: seq<bytes>, cur: bytes)

  function GapText(h: Shape): bytes
  {
    if !h.gap then [] else if h.l == [] then [COLON, COLON] else [COLON]
  }

  predicate Shaped(p: bytes, st: Scan, h: Shape)
  {
    && AreGroups(h.l) && AreGroups(h.r) && AllDigits(h.cur, 16) && |h.cur| <= 4
    && |h.l| + |h.r| <= 8 && (if h.gap then |h.l| < 8 else h.r == [])
    && p == Colons(h.l) + GapText(h) + Colons(h.r) + h.cur
    && st == Scan(GroupsBytes(h.l) + GroupsBytes(h.r), Value(h.cur, 16), |h.cur|,
                  if h.gap then Some(2 * |h.l|) else None)
  }

  lemma ShapedStep(s: bytes, i: nat, st: Scan, h: Shape) returns (h': Shape)
    requires i < |s| && ScanOk(st) && Shaped(s[..i], st, h) && StepAt(s, i, st).Go?
    ensures Shaped(s[..StepAt(s, i, st).next], StepAt(s, i, st).st, h')
  {
    assert s[..i + 1] == s[..i] + [s[i]];
    if s[i] != COLON {
      h' := ShapedDigit(s[..i], st, h, s[i]);
    } else if h.cur != [] {
      h' := ShapedColon(s[..i], st, h);
    } else {
      h' := ShapedGap(s, i, st, h);
    }
  }

  lemma ShapedDigit(p: bytes, st: Scan, h: Shape, d: byte) returns (h': Shape)
    requires ScanOk(st) && Shaped(p, st, h) && |h.cur| < 4 && IsHex(d)
    ensures Shaped(p + [d], st.(chunk := st.chunk * 16 + HexDigit(d), ndigs := st.ndigs + 1), h')
  {
    h' := h.(cur := h.cur + [d]);
    ValueAppend(0, h.cur, d, 16);
    assert p + [d] == Colons(h.l) + GapText(h) + Colons(h.r) + (h.cur + [d]);
  }

  /** A ':' without digits before it. */
  lemma ShapedGap(s: bytes, i: nat, st: Scan, h: Shape) returns (h': Shape)
    requires i < |s| && s[i] == COLON && h.cur == []
    requires ScanOk(st) && Shaped(s[..i], st, h) && StepAt(s, i, st).Go?
    ensures Shaped(s[..StepAt(s, i, st).next], StepAt(s, i, st).st, h')
  {
    h' := h.(gap := true);
    ColonsEmpty(h.l);
    if i == 0 {
      assert |s[..0]| == |Colons(h.l)| + |GapText(h)| + |Colons(h.r)| + |h.cur|;
      assert s[..2] == [COLON, COLON];
    } else {
      assert h.r == [] && !h.gap;
      assert h.l != [] by {
        assert |s[..i]| == |Colons(h.l)| + |GapText(h)| + |Colons(h.r)| + |h.cur|;
      }
      assert s[..i + 1] == s[..i] + [COLON];
    }
    assert GroupsBytes(h.l) + GroupsBytes([]) == GroupsBytes(h.l);
  }

  lemma ColonsEmpty(gs: seq<bytes>)
    ensures gs == [] <==> Colons(gs) == []
  {
  }

  /** A ':' after digits ends the group. */
  lemma ShapedColon(p: bytes, st: Scan, h: Shape) returns (h': Shape)
    requires ScanOk(st) && Shaped(p, st, h) && h.cur != []
    ensures st.chunk < 0x1_0000
    ensures Shaped(p + [COLON], Scan(st.out + Pair(st.chunk), 0, 0, st.izero), h')
  {
    ChunkFits(st);
    if h.gap { h' := ColonRight(p, st, h); } else { h' := ColonLeft(p, st, h); }
  }

  lemma ColonRight(p: bytes, st: Scan, h: Shape) returns (h': Shape)
    requires Shaped(p, st, h) && h.cur != [] && h.gap && st.chunk < 0x1_0000 && |st.out| < 16
    ensures Shaped(p + [COLON], Scan(st.out + Pair(st.chunk), 0, 0, st.izero), h')
  {
    hide Value, Pair, AllDigits, Colons, GroupsBytes, GapText;
    h' := Shape(h.l, true, h.r + [h.cur], []);
    GroupShaped(h.cur);
    OneMore(h.r, h.cur);
    var t := Colons(h.l) + GapText(h);
    assert p + [COLON] == t + (Colons(h.r) + (h.cur + [COLON])) + [];
    assert GapText(h') == GapText(h) by { SameGap(h, h'); }
    assert st.out + Pair(st.chunk) == GroupsBytes(h.l) + (GroupsBytes(h.r) + Pair(st.chunk));
  }

  lemma ColonLeft(p: bytes, st: Scan, h: Shape) returns (h': Shape)
    requires Shaped(p, st, h) && h.cur != [] && !h.gap && st.chunk < 0x1_0000 && |st.out| < 16
    ensures Shaped(p + [COLON], Scan(st.out + Pair(st.chunk), 0, 0, st.izero), h')
  {
    hide Value, Pair, AllDigits;
    h' := Shape(h.l + [h.cur], false, [], []);
    GroupShaped(h.cur);
    OneMore(h.l, h.cur);
  }

  lemma SameGap(h: Shape, h': Shape)
    requires h'.gap == h.gap && h'.l == h.l
    ensures GapText(h') == GapText(h)
  {
  }

  lemma OneMore(gs: seq<bytes>, g: bytes)
    requires AreGroups(gs) && IsGroup(g)
    ensures AreGroups(gs + [g]) && Colons(gs + [g]) == Colons(gs) + (g + [COLON])
    ensures GroupsBytes(gs + [g]) == GroupsBytes(gs) + GroupBytes(g)
  {
    hide GroupBytes, IsGroup;
    var all := gs + [g];
    assert all[..|all| - 1] == gs;
  }

  lemma GroupShaped(cur: bytes)
    requires cur != [] && AllDigits(cur, 16) && |cur| <= 4
    ensures IsGroup(cur) && Value(cur, 16) < 0x1_0000 && GroupBytes(cur) == Pair(Value(cur, 16))
    ensures Value([], 16) == 0 && AllDigits([], 16)
  {
    GroupValue(cur);
  }

  lemma ScanShaped(s: bytes, i: nat, st: Scan, h: Shape) returns (h': Shape)
    requires i <= |s| && ScanOk(st) && Shaped(s[..i], st, h) && ScanFrom(s, i, st).End?
    ensures Shaped(s[..ScanFrom(s, i, st).n], ScanFrom(s, i, st).st, h')
    decreases |s| - i
  {
    h' := h;
    if i < |s| {
      var step := StepAt(s, i, st);
      if step.Go? {
        var h1 := ShapedStep(s, i, st, h);
        h' := ScanShaped(s, step.next, step.st, h1);
      }
    }
  }

  /** The textual form of a scan that ends well. */
  function FormOf(h: Shape): Ip6Text
  {
    if h.cur == [] then Gap(h.l, [])
    else if h.gap then Gap(h.l, h.r + [h.cur])
    else Plain(h.l + [h.cur])
  }

  lemma FinishShaped(p: bytes, st: Scan, h: Shape)
    requires ScanOk(st) && Shaped(p, st, h) && Finish(st).Some?
    ensures IsIp6Text(FormOf(h)) && p == Text(FormOf(h)) && Finish(st) == Some(Address(FormOf(h)))
  {
    ChunkFits(st);
    if h.cur == [] {
      FinishAtGap(p, st, h);
    } else if h.gap {
      FinishRight(p, st, h);
    } else {
      FinishPlain(p, st, h);
    }
  }

  lemma FinishAtGap(p: bytes, st: Scan, h: Shape)
    requires ScanOk(st) && Shaped(p, st, h) && Finish(st).Some? && h.cur == []
    ensures var t := Gap(h.l, []); IsIp6Text(t) && p == Text(t) && Finish(st) == Some(Address(t))
  {
    var z, gl := 2 * |h.l|, GroupsBytes(h.l);
    assert h.gap && h.r == [];
    GapForm(h);
    assert p == Join(h.l) + [COLON, COLON] + Join([]);
    assert gl + GroupsBytes([]) == gl && st.out == gl;
    assert gl[..z] == gl && gl[z..] == GroupsBytes([]);
  }

  lemma FinishRight(p: bytes, st: Scan, h: Shape)
    requires ScanOk(st) && Shaped(p, st, h) && Finish(st).Some? && h.cur != [] && h.gap
    ensures var t := Gap(h.l, h.r + [h.cur]); IsIp6Text(t) && p == Text(t) && Finish(st) == Some(Address(t))
  {
    hide Value, Pair, AllDigits, Colons, Join, GapText, GroupBytes;
    FinishRightText(p, st, h);
    FinishBytes(st, h);
  }

  lemma FinishBytes(st: Scan, h: Shape)
    requires ScanOk(st) && Finish(st).Some? && h.cur != [] && AllDigits(h.cur, 16) && |h.cur| <= 4
    requires AreGroups(h.l) && AreGroups(h.r) && |h.l| < 8 && |h.l| + |h.r| <= 8
    requires st == Scan(GroupsBytes(h.l) + GroupsBytes(h.r), Value(h.cur, 16), |h.cur|, Some(2 * |h.l|))
    ensures IsIp6Text(Gap(h.l, h.r + [h.cur])) && Finish(st) == Some(Address(Gap(h.l, h.r + [h.cur])))
  {
    hide Value, AllDigits, GroupBytes, ScanOk;
    var z, gl, r := 2 * |h.l|, GroupsBytes(h.l), h.r + [h.cur];
    assert r[..|r| - 1] == h.r;
    ChunkFits(st);
    GroupShaped(h.cur);
    hide Pair;
    var out := st.out + Pair(st.chunk);
    assert out == gl + GroupsBytes(r);
    assert |out| <= 16 by { OutFits(st); }
    assert out[..z] == gl && out[z..] == GroupsBytes(r);
  }

  lemma OutFits(st: Scan)
    requires ScanOk(st) && st.ndigs != 0
    ensures |st.out| + 2 <= 16
  {
  }

  lemma FinishRightText(p: bytes, st: Scan, h: Shape)
    requires Shaped(p, st, h) && h.cur != [] && h.gap
    ensures p == Text(Gap(h.l, h.r + [h.cur]))
  {
    var r := h.r + [h.cur];
    assert r[..|r| - 1] == h.r;
    GapForm(h);
    assert p == Join(h.l) + [COLON, COLON] + Join(r);
  }

  lemma FinishPlain(p: bytes, st: Scan, h: Shape)
    requires ScanOk(st) && Shaped(p, st, h) && Finish(st).Some? && h.cur != [] && !h.gap
    ensures var t := Plain(h.l + [h.cur]); IsIp6Text(t) && p == Text(t) && Finish(st) == Some(Address(t))
  {
    var l := h.l + [h.cur];
    assert l[..|l| - 1] == h.l;
    assert p == Join(l);
    ChunkFits(st);
    assert st.out + Pair(st.chunk) == GroupsBytes(l);
  }

  lemma GapForm(h: Shape)
    requires h.gap
    ensures Colons(h.l) + GapText(h) == Join(h.l) + [COLON, COLON]
  {
    if h.l != [] {
      assert Colons(h.l) == Join(h.l) + [COLON];
    }
  }

  /** Every accepted input starts with a textual form of the resulting address, which takes
      exactly the processed bytes. */
  lemma ParsedIsText(s: bytes) returns (t: Ip6Text)
    requires Parse6(s).Some?
    ensures IsIp6Text(t) && Parse6(s) == Some((|Text(t)|, Address(t)))
    ensures s[..|Text(t)|] == Text(t)
  {
    var e := ScanFrom(s, 0, SCAN0);
    assert s[..0] == [];
    assert Shaped(s[..0], SCAN0, Shape([], false, [], []));
    var h := ScanShaped(s, 0, SCAN0, Shape([], false, [], []));
    FinishShaped(s[..e.n], e.st, h);
    t := FormOf(h);
  }

  /** Exactly the textual forms are accepted: for an input that goes on, after n bytes, with
      something that cannot be part of an address, the result is n and the address a exactly
      when the first n bytes are a form of a. */
  lemma Parse6Meaning(s: bytes, n: nat, a: bytes)
    requires n <= |s| && IsStop(s[n..])
    ensures Parse6(s) == Some((n, a)) <==>
            exists t :: IsIp6Text(t) && s[..n] == Text(t) && a == Address(t)
  {
    hide Parse6, Text, Address;
    if Parse6(s) == Some((n, a)) {
      var t := ParsedIsText(s);
    }
    if t :| IsIp6Text(t) && s[..n] == Text(t) && a == Address(t) {
      ParseText(t, s[n..]);
      assert s == Text(t) + s[n..];
    }
  }

  // ------------------------------------------------------------ ffip6_tostr

  /** Positions and lengths below count two-byte groups; the program counts the bytes. */
  predicate IsZeroGroup(a: bytes, k: nat)
    requires |a| == 16 && k < 8
  {
    a[2 * k] == 0 && a[2 * k + 1] == 0
  }

  predicate IsZeroRun(a: bytes, x: nat, m: nat)
    requires |a| == 16
  {
    x + m <= 8 && forall k :: x <= k < x + m ==> IsZeroGroup(a, k)
  }

  /** [from, from + len) is the leftmost of the longest runs of zero groups; len is 0 when
      there is none. */
  ghost predicate IsBestRun(a: bytes, from: nat, len: nat)
    requires |a| == 16
  {
    && IsZeroRun(a, from, len)
    && forall x: nat, m: nat :: m > 0 && IsZeroRun(a, x, m) ==> m < len || (m == len && from <= x)
  }

  /** The same for the groups before i, leaving out the run of nzr groups that ends at i. */
  ghost predicate IsBestBefore(a: bytes, from: nat, len: nat, i: nat, nzr: nat)
    requires |a| == 16
  {
    && IsZeroRun(a, from, len) && from + len + nzr <= i <= 8
    && IsZeroRun(a, i - nzr, nzr)
    && (nzr < i ==> !IsZeroGroup(a, i - nzr - 1))
    && forall x: nat, m: nat :: m > 0 && x + m <= i && IsZeroRun(a, x, m) ==>
         x >= i - nzr || m < len || (m == len && from <= x)
  }

  lemma BestZero(a: bytes, from: nat, len: nat, i: nat, nzr: nat)
    requires |a| == 16 && i < 8 && IsBestBefore(a, from, len, i, nzr) && IsZeroGroup(a, i)
    ensures IsBestBefore(a, from, len, i + 1, nzr + 1)
  {
    forall x: nat, m: nat | m > 0 && x + m <= i + 1 && IsZeroRun(a, x, m)
      ensures x >= i - nzr || m < len || (m == len && from <= x)
    {
    }
  }

  /** The run that ends at i competes with the best one so far. */
  lemma BestClose(a: bytes, from: nat, len: nat, i: nat, nzr: nat)
    requires |a| == 16 && IsBestBefore(a, from, len, i, nzr)
    ensures var f, l := if nzr > len then i - nzr else from, if nzr > len then nzr else len;
            && IsZeroRun(a, f, l) && f + l <= i
            && forall x: nat, m: nat :: m > 0 && x + m <= i && IsZeroRun(a, x, m) ==>
                 m < l || (m == l && f <= x)
  {
  }

  lemma BestNonzero(a: bytes, from: nat, len: nat, i: nat)
    requires |a| == 16 && i < 8 && !IsZeroGroup(a, i) && IsZeroRun(a, from, len) && from + len <= i
    requires forall x: nat, m: nat :: m > 0 && x + m <= i && IsZeroRun(a, x, m) ==>
               m < len || (m == len && from <= x)
    ensures IsBestBefore(a, from, len, i + 1, 0)
  {
    forall x: nat, m: nat | m > 0 && x + m <= i + 1 && IsZeroRun(a, x, m)
      ensures x + m <= i
    {
    }
  }

  /** The loop of ffip6_tostr that finds what to cut; from is -1 when there is nothing. */
  method FindCut(a: bytes) returns (from: int, len: nat)
    requires |a| == 16
    ensures -1 <= from && (from < 0 <==> len == 0)
    ensures IsBestRun(a, if from < 0 then 0 else from, len)
  {
    from, len := -1, 0;
    var zrbegin: nat, nzr: nat := 0, 0;
    var i := 0;
    while i < 8
      invariant 0 <= i <= 8 && -1 <= from && (from < 0 <==> len == 0)
      invariant nzr != 0 ==> zrbegin + nzr == i
      invariant IsBestBefore(a, if from < 0 then 0 else from, len, i, nzr)
    {
      ghost var f := if from < 0 then 0 else from;
      if a[2 * i] == 0 && a[2 * i + 1] == 0 {
        BestZero(a, f, len, i, nzr);
        if nzr == 0 { zrbegin := i; }
        nzr := nzr + 1;
      } else {
        BestClose(a, f, len, i, nzr);
        if nzr != 0 {
          if nzr > len {
            from, len := zrbegin, nzr;
          }
          nzr := 0;
        }
        BestNonzero(a, if from < 0 then 0 else from, len, i);
      }
      i := i + 1;
    }
    BestClose(a, if from < 0 then 0 else from, len, 8, nzr);
    if nzr > len {
      from, len := zrbegin, nzr;
    }
  }

  /** The group at k as hexadecimal digits. */
  function GroupText(a: bytes, k: nat): (g: bytes)
    requires 2 * k + 2 <= |a|
    ensures IsGroup(g) && GroupBytes(g) == a[2 * k..2 * k + 2]
  {
    var v := (a[2 * k] as int) * 256 + a[2 * k + 1];
    assert v < Pow(16, 4) by {
      assert Pow(16, 4) == 0x1_0000;
    }
    DigitsLength(v, 16, 4);
    DigitsValue(v, 16);
    Digits(v, 16)
  }

  function GroupTexts(a: bytes, i: nat, j: nat): (gs: seq<bytes>)
    requires i <= j && 2 * j <= |a|
    ensures AreGroups(gs) && |gs| == j - i
    decreases j
  {
    if i == j then [] else GroupTexts(a, i, j - 1) + [GroupText(a, j - 1)]
  }

  lemma {:induction false} GroupTextsBytes(a: bytes, i: nat, j: nat)
    requires i <= j && 2 * j <= |a|
    ensures GroupsBytes(GroupTexts(a, i, j)) == a[2 * i..2 * j]
    decreases j
  {
    hide GroupText, GroupBytes;
    if i < j {
      GroupTextsBytes(a, i, j - 1);
      var gs := GroupTexts(a, i, j);
      assert gs[..|gs| - 1] == GroupTexts(a, i, j - 1);
      assert a[2 * i..2 * j] == a[2 * i..2 * (j - 1)] + a[2 * (j - 1)..2 * j];
    }
  }

  /** The address with the zero run [from, from + len) cut out, or in full. */
  function FormCut(a: bytes, from: nat, len: nat): (t: Ip6Text)
    requires |a| == 16 && IsZeroRun(a, from, len)
    ensures IsIp6Text(t)
  {
    if len == 0 then Plain(GroupTexts(a, 0, 8))
    else Gap(GroupTexts(a, 0, from), GroupTexts(a, from + len, 8))
  }

  /** Cutting a zero run does not change the address. */
  lemma FormCutAddress(a: bytes, from: nat, len: nat)
    requires |a| == 16 && IsZeroRun(a, from, len)
    ensures Address(FormCut(a, from, len)) == a
  {
    hide GroupTexts, GroupsBytes;
    if len == 0 {
      GroupTextsBytes(a, 0, 8);
      assert a[2 * 0..2 * 8] == a;
    } else {
      GroupTextsBytes(a, 0, from);
      GroupTextsBytes(a, from + len, 8);
      ZeroRunBytes(a, from, len);
    }
  }

  lemma ZeroRunBytes(a: bytes, from: nat, len: nat)
    requires |a| == 16 && IsZeroRun(a, from, len)
    ensures a == a[2 * 0..2 * from] + Zeros(2 * len) + a[2 * (from + len)..2 * 8]
  {
    var x, y := 2 * from, 2 * (from + len);
    forall k | x <= k < y ensures a[k] == 0 {
      assert IsZeroGroup(a, k / 2);
      assert k == 2 * (k / 2) || k == 2 * (k / 2) + 1;
    }
    assert a[x..y] == Zeros(2 * len);
  }

  lemma {:induction false} JoinLength(gs: seq<bytes>)
    requires AreGroups(gs)
    ensures |Colons(gs)| <= 5 * |gs|
    ensures |Join(gs)| <= if gs == [] then 0 else 5 * |gs| - 1
    decreases |gs|
  {
    if gs == [] {
    } else {
      JoinLength(gs[..|gs| - 1]);
      assert IsGroup(gs[|gs| - 1]);
    }
  }

  /** The text printed when the loop stands at group i. */
  function Printed(a: bytes, from: nat, len: nat, i: nat): bytes
    requires |a| == 16 && IsZeroRun(a, from, len) && i <= 8
    requires len == 0 || i <= from || from + len <= i
  {
    if len == 0 || i <= from then Join(GroupTexts(a, 0, i))
    else if i == from + len then
      Join(GroupTexts(a, 0, from)) + (if i == 8 then [COLON, COLON] else [COLON])
    else Join(GroupTexts(a, 0, from)) + [COLON, COLON] + Join(GroupTexts(a, from + len, i))
  }

  lemma PrintedLength(a: bytes, from: nat, len: nat, i: nat)
    requires |a| == 16 && IsZeroRun(a, from, len) && i <= 8
    requires len == 0 || i <= from || from + len <= i
    ensures |Printed(a, from, len, i)| <= if i == 0 then 0 else 5 * i - 1
  {
    if len == 0 || i <= from {
      JoinLength(GroupTexts(a, 0, i));
    } else {
      JoinLength(GroupTexts(a, 0, from));
      JoinLength(GroupTexts(a, from + len, i));
    }
  }

  lemma JoinOneMore(a: bytes, start: nat, i: nat)
    requires start <= i && 2 * i + 2 <= |a|
    ensures Join(GroupTexts(a, start, i + 1)) ==
            Join(GroupTexts(a, start, i)) + (if start == i then [] else [COLON]) + GroupText(a, i)
  {
    var gs, all := GroupTexts(a, start, i), GroupTexts(a, start, i + 1);
    assert all[..|all| - 1] == gs;
    if gs != [] {
      assert Colons(gs) == Join(gs) + [COLON];
    }
  }

  /** Printing one more group. */
  lemma PrintedStep(a: bytes, from: nat, len: nat, i: nat)
    requires |a| == 16 && IsZeroRun(a, from, len) && i < 8
    requires len == 0 || i < from || from + len <= i
    ensures Printed(a, from, len, i + 1) ==
            Printed(a, from, len, i) + (if i == 0 then [] else [COLON]) + GroupText(a, i)
  {
    hide GroupText, GroupTexts, Join;
    if len == 0 || i < from {
      JoinOneMore(a, 0, i);
      JoinNothing(a, 0);
    } else {
      var left, g := Join(GroupTexts(a, 0, from)), GroupText(a, i);
      var right := Join(GroupTexts(a, from + len, i));
      JoinOneMore(a, from + len, i);
      if i == from + len {
        JoinNothing(a, i);
        assert left + [COLON, COLON] + ([] + [] + g) == left + [COLON] + [COLON] + g;
      } else {
        assert left + [COLON, COLON] + (right + [COLON] + g) == left + [COLON, COLON] + right + [COLON] + g;
      }
    }
  }

  lemma JoinNothing(a: bytes, i: nat)
    requires 2 * i <= |a|
    ensures Join(GroupTexts(a, i, i)) == []
  {
  }

  /** Stepping over the run that is cut. */
  lemma PrintedCut(a: bytes, from: nat, len: nat)
    requires |a| == 16 && IsZeroRun(a, from, len) && len > 0
    ensures Printed(a, from, len, from + len) ==
            Printed(a, from, len, from) + [COLON] + if from + len == 8 then [COLON] else []
  {
    hide GroupText, GroupTexts, Join;
    var left := Join(GroupTexts(a, 0, from));
    assert left + [COLON] + [COLON] == left + [COLON, COLON] && left + [COLON] + [] == left + [COLON];
  }

  /** One group, with the ':' before it. */
  method PutGroup(a: bytes, i: nat, dst: array<byte>, p: nat) returns (q: nat)
    requires |a| == 16 && i < 8 && p + 5 <= dst.Length
    modifies dst
    ensures q <= p + 5 && dst[..q] == old(dst[..p]) + (if i == 0 then [] else [COLON]) + GroupText(a, i)
  {
    hide GroupText;
    q := p;
    if i != 0 {
      q := Put(dst, q, [COLON]);
    }
    q := Put(dst, q, GroupText(a, i));
  }

  method PutCut(dst: array<byte>, p: nat, atEnd: bool) returns (q: nat)
    requires p + 2 <= dst.Length
    modifies dst
    ensures q <= p + 2 && dst[..q] == old(dst[..p]) + [COLON] + if atEnd then [COLON] else []
  {
    q := Put(dst, p, [COLON]);
    if atEnd {
      q := Put(dst, q, [COLON]);
    }
  }

  const IP6_STRLEN := 39

  /** ffip6_tostr: the address with the leftmost of its longest runs of zero groups cut. */
  method Ip6ToStr(a: bytes, dst: array<byte>) returns (r: nat, ghost from: nat, ghost len: nat)
    requires |a| == 16
    modifies dst
    ensures IsBestRun(a, from, len)
    ensures if dst.Length < IP6_STRLEN then r == 0
            else 0 < r <= IP6_STRLEN && dst[..r] == Text(FormCut(a, from, len))
  {
    hide Printed, GroupText, IsBestRun, IsZeroRun, Text, FormCut;
    var cutFrom, cutLen := FindCut(a);
    from, len := if cutFrom < 0 then 0 else cutFrom, cutLen;
    if dst.Length < IP6_STRLEN { return 0, from, len; }
    var p := 0;
    var i := 0;
    assert dst[..0] == [];
    BestIsRun(a, from, len);
    while i < 8
      invariant 0 <= i <= 8 && (len == 0 || i <= from || from + len <= i)
      invariant 0 <= p <= IP6_STRLEN
      invariant dst[..p] == Printed(a, from, len, i)
      decreases 8 - i
    {
      PrintedLength(a, from, len, i);
      if i == cutFrom {
        PrintedCut(a, from, len);
        i := cutFrom + cutLen;
        p := PutCut(dst, p, i == 8);
      } else {
        PrintedStep(a, from, len, i);
        p := PutGroup(a, i, dst, p);
        i := i + 1;
      }
    }
    r := p;
    PrintedAll(a, from, len);
  }

  lemma BestIsRun(a: bytes, from: nat, len: nat)
    requires |a| == 16 && IsBestRun(a, from, len)
    ensures IsZeroRun(a, from, len) && Printed(a, from, len, 0) == []
  {
  }

  lemma PrintedAll(a: bytes, from: nat, len: nat)
    requires |a| == 16 && IsZeroRun(a, from, len)
    ensures Printed(a, from, len, 8) == Text(FormCut(a, from, len)) != []
  {
    var gs := GroupTexts(a, 0, 8);
    assert IsGroup(gs[7]);
  }

  /** For every address, printing it and parsing the text gives the address back, also when
      something that cannot be part of an address follows the text. */
  lemma Ip6RoundTrip(a: bytes, from: nat, len: nat, rest: bytes)
    requires |a| == 16 && IsZeroRun(a, from, len) && IsStop(rest)
    ensures var text := Text(FormCut(a, from, len));
            Parse6(text + rest) == Some((|text|, a))
  {
    ParseText(FormCut(a, from, len), rest);
    FormCutAddress(a, from, len);
  }

  /** The round trip as the program runs it. */
  method PrintAndParse6(a: bytes) returns (r: int, b: bytes)
    requires |a| == 16
    ensures r == 0 && b == a
  {
    var text := new byte[IP6_STRLEN](_ => 0);
    var n, from, len := Ip6ToStr(a, text);
    Ip6RoundTrip(a, from, len, []);
    assert Text(FormCut(a, from, len)) + [] == text[..n];
    var dst := new byte[16](_ => 0);
    r := Ip6Parse(dst, text[..n]);
    b := dst[..];
  }
}

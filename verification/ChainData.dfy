/** The data path: references and the partial-send loop, and what the transfer filter lets
    through. */
module ChainData {
  import opened Bytes
  import opened Chain

  // ---------------------------------------------------------------- sending

  predicate AllInBounds(c: Cl, iov: seq<Str>)
  {
    forall i :: 0 <= i < |iov| ==> InBounds(c, iov[i])
  }

  /** The contents of every memory are the same. */
  predicate SameMemory(c: Cl, c': Cl)
  {
    && c'.file.buf == c.file.buf && c'.resp.dir == c.resp.dir && c'.resp.msg == c.resp.msg
    && c'.resp.head == c.resp.head
  }

  lemma SameRef(c: Cl, c': Cl, s: Str)
    requires SameMemory(c, c')
    ensures Deref(c', s) == Deref(c, s) && (InBounds(c', s) <==> InBounds(c, s))
  {
  }

  lemma {:induction false} SameBytes(c: Cl, c': Cl, iov: seq<Str>)
    requires SameMemory(c, c')
    ensures IovBytes(c', iov) == IovBytes(c, iov)
    ensures AllInBounds(c, iov) ==> AllInBounds(c', iov)
    decreases |iov|
  {
    hide Deref, InBounds, SameMemory;
    if iov == [] {
    } else {
      SameRef(c, c', iov[0]);
      SameBytes(c, c', iov[1..]);
      assert forall i :: 0 < i < |iov| ==> iov[i] == iov[1..][i - 1];
    }
  }

  /** A reference, and what is left of it after its first k bytes. */
  lemma RefLength(c: Cl, s: Str, k: nat)
    requires InBounds(c, s) && k <= s.len
    ensures |Deref(c, s)| == s.len
    ensures var s' := Str(s.mem, s.off + k, s.len - k); InBounds(c, s') && Deref(c, s') == Deref(c, s)[k..]
  {
  }

  lemma {:induction false} TotalLength(c: Cl, iov: seq<Str>)
    requires AllInBounds(c, iov)
    ensures |IovBytes(c, iov)| == Total(iov)
    decreases |iov|
  {
    hide Deref, InBounds;
    if iov == [] {
    } else {
      RefLength(c, iov[0], 0);
      TotalLength(c, iov[1..]);
    }
  }

  lemma OneRef(c: Cl, s: Str)
    ensures IovBytes(c, [s]) == Deref(c, s) && Total([s]) == s.len && (AllInBounds(c, [s]) <==> InBounds(c, s))
  {
    hide Deref, InBounds;
    assert [s][1..] == [] && Deref(c, s) + [] == Deref(c, s);
  }

  /** Shifting drops exactly the first n bytes of what the vector refers to. */
  lemma {:induction false} ShiftDrops(c: Cl, iov: seq<Str>, n: nat)
    requires AllInBounds(c, iov) && n <= Total(iov)
    ensures AllInBounds(c, Shift(iov, n)) && Total(Shift(iov, n)) == Total(iov) - n
    ensures n <= |IovBytes(c, iov)| && IovBytes(c, Shift(iov, n)) == IovBytes(c, iov)[n..]
    decreases |iov|
  {
    hide Deref, InBounds, AllInBounds;
    TotalLength(c, iov);
    if iov == [] {
    } else {
      var s, rest := iov[0], iov[1..];
      var k := if n < s.len then n else s.len;
      assert iov == [s] + rest;
      BoundsCons(c, s, rest);
      ShiftDrops(c, rest, n - k);
      TotalLength(c, rest);
      ShiftCons(c, s, rest, n, k);
      DropConcat(Deref(c, s), IovBytes(c, rest), n, k);
    }
  }

  lemma BoundsCons(c: Cl, s: Str, rest: seq<Str>)
    ensures AllInBounds(c, [s] + rest) <==> InBounds(c, s) && AllInBounds(c, rest)
  {
    hide InBounds;
    var iov := [s] + rest;
    assert iov[0] == s && forall i :: 0 <= i < |rest| ==> iov[i + 1] == rest[i];
  }

  /** The first element of a shifted vector, and the others. */
  lemma ShiftCons(c: Cl, s: Str, rest: seq<Str>, n: nat, k: nat)
    requires k == (if n < s.len then n else s.len)
    requires InBounds(c, s) && AllInBounds(c, Shift(rest, n - k))
    ensures var out := Shift([s] + rest, n);
            && AllInBounds(c, out) && Total(out) == s.len - k + Total(Shift(rest, n - k))
            && |Deref(c, s)| == s.len && IovBytes(c, out) == Deref(c, s)[k..] + IovBytes(c, Shift(rest, n - k))
  {
    hide Deref, InBounds, AllInBounds;
    var iov, s', more := [s] + rest, Str(s.mem, s.off + k, s.len - k), Shift(rest, n - k);
    assert iov[1..] == rest;
    assert Shift(iov, n) == [s'] + more;
    RefLength(c, s, k);
    BoundsCons(c, s', more);
    assert ([s'] + more)[1..] == more;
  }

  lemma DropConcat(a: bytes, b: bytes, n: nat, k: nat)
    requires n <= |a| + |b| && k == if n < |a| then n else |a|
    ensures (a + b)[n..] == a[k..] + b[n - k..]
  {
  }

  /** c' is c with some more bytes sent: nothing else changed, the vector still refers to valid
      memory, and what was sent and what is still to be sent make up the same bytes. */
  ghost predicate SentMore(c: Cl, c': Cl)
  {
    && c' == c.(tx := c'.tx) && c'.tx.contLen == c.tx.contLen
    && AllInBounds(c', c'.tx.iov)
    && c'.tx.sent + IovBytes(c', c'.tx.iov) == c.tx.sent + IovBytes(c, c.tx.iov)
    && Prefix(c.tx.sent, c'.tx.sent)
    && (c'.tx.iov != [] ==> Total(c'.tx.iov) > 0)
  }

  lemma SendOneParts(c: Cl, n: nat) returns (k: nat)
    requires AllInBounds(c, c.tx.iov) && c.tx.iov != [] && Total(c.tx.iov) > 0
    ensures var c', data := SendOne(c, n), IovBytes(c, c.tx.iov);
            && 0 < k <= |data| == Total(c.tx.iov)
            && c' == c.(tx := c'.tx) && c'.tx.contLen == c.tx.contLen
            && c'.tx.sent == c.tx.sent + data[..k]
            && IovBytes(c', c'.tx.iov) == data[k..]
            && AllInBounds(c', c'.tx.iov)
            && Total(c'.tx.iov) == Total(c.tx.iov) - k
            && (c'.tx.iov != [] ==> Total(c'.tx.iov) > 0)
  {
    var c', iov := SendOne(c, n), c.tx.iov;
    k := Clip(n, 1, Total(iov));
    TotalLength(c, iov);
    ShiftDrops(c, iov, k);
    hide Shift;
    SameBytes(c, c', c'.tx.iov);
  }

  /** One partial send conserves the bytes, and makes progress. */
  lemma SendOneConserves(c: Cl, n: nat)
    requires AllInBounds(c, c.tx.iov) && c.tx.iov != [] && Total(c.tx.iov) > 0
    ensures SentMore(c, SendOne(c, n))
    ensures Total(SendOne(c, n).tx.iov) < Total(c.tx.iov)
  {
    hide SendOne, IovBytes, Total, AllInBounds;
    var k := SendOneParts(c, n);
    var data := IovBytes(c, c.tx.iov);
    assert c.tx.sent + data == (c.tx.sent + data[..k]) + data[k..];
  }

  /** The send loop conserves the bytes for every sequence of partial sends and suspensions; it
      ends with everything sent, or waits with the timer armed, or fails. */
  lemma {:induction false} SendLoopConserves(c: Cl, sends: seq<SendResult>)
    requires AllInBounds(c, c.tx.iov) && (c.tx.iov != [] ==> Total(c.tx.iov) > 0)
    ensures var (c', r) := SendLoop(c, sends);
            && SentMore(c, c')
            && (r == Fwd || r == Async || r == Err)
            && (r == Fwd ==> c'.tx.iov == [])
            && (r == Async ==> c'.tx.timer)
    decreases |sends|
  {
    hide SendOne, Total, IovBytes, AllInBounds;
    if c.tx.iov != [] && sends != [] && sends[0].Sent? {
      var c1 := SendOne(c, sends[0].n);
      SendOneConserves(c, sends[0].n);
      SendLoopConserves(c1, sends[1..]);
      PrefixTrans(c.tx.sent, c1.tx.sent, SendLoop(c1, sends[1..]).0.tx.sent);
    } else {
      var c' := SendLoop(c, sends).0;
      SameBytes(c, c', c.tx.iov);
      assert c' == c.(tx := c'.tx);
    }
  }

  lemma PrefixTrans(a: bytes, b: bytes, d: bytes)
    requires Prefix(a, b) && Prefix(b, d)
    ensures Prefix(a, d)
  {
    assert d[..|a|] == d[..|b|][..|a|];
  }

  // ---------------------------------------------------------------- transfer

  /** What the transfer filter lets through of successive inputs, for content length L: the
      first L bytes; but once an input has used L up, later inputs pass whole. */
  function Clamp(L: nat, bs: seq<bytes>): bytes
    decreases |bs|, 0
  {
    if bs == [] then []
    else
      var before, b := bs[..|bs| - 1], bs[|bs| - 1];
      var out := Clamp(L, before);
      if Finished(L, before) then out + b else out + b[..Allowed(L, out, b)]
  }

  function Allowed(L: nat, out: bytes, b: bytes): (n: nat)
    ensures n <= |b|
  {
    if |out| >= L then 0 else if |b| < L - |out| then |b| else L - |out|
  }

  /** The transfer filter is done: some input has used the content length up. */
  predicate Finished(L: nat, bs: seq<bytes>)
    decreases |bs|, 1
  {
    bs != [] && |Clamp(L, bs)| >= L
  }

  lemma FinishedStays(L: nat, bs: seq<bytes>, b: bytes)
    requires Finished(L, bs)
    ensures Finished(L, bs + [b]) && Clamp(L, bs + [b]) == Clamp(L, bs) + b
  {
    var all := bs + [b];
    assert all[..|all| - 1] == bs;
  }

  lemma ClampStep(L: nat, bs: seq<bytes>, b: bytes)
    requires !Finished(L, bs)
    ensures |Clamp(L, bs)| <= L
    ensures var out := Clamp(L, bs);
            Clamp(L, bs + [b]) == out + b[..Allowed(L, out, b)]
    ensures |Clamp(L, bs + [b])| <= L
  {
    var all := bs + [b];
    assert all[..|all| - 1] == bs;
  }

  /** While the content length is not used up, everything passes. */
  lemma {:induction false} ClampAll(L: nat, bs: seq<bytes>)
    requires !Finished(L, bs)
    ensures Clamp(L, bs) == Flat(bs)
    decreases |bs|
  {
    if bs == [] {
    } else {
      var before, b := bs[..|bs| - 1], bs[|bs| - 1];
      assert bs == before + [b];
      if Finished(L, before) {
        FinishedStays(L, before, b);
      } else {
        ClampAll(L, before);
        ClampStep(L, before, b);
        FlatAppend(before, b);
        assert b[..|b|] == b;
      }
    }
  }

  /** What passes never exceeds what was given. */
  lemma {:induction false} ClampLength(L: nat, bs: seq<bytes>)
    ensures |Clamp(L, bs)| <= |Flat(bs)|
    ensures |Flat(bs)| <= L ==> Clamp(L, bs) == Flat(bs)
    decreases |bs|
  {
    if bs == [] {
    } else {
      var before, b := bs[..|bs| - 1], bs[|bs| - 1];
      assert bs == before + [b];
      FlatAppend(before, b);
      ClampLength(L, before);
      if Finished(L, before) {
        FinishedStays(L, before, b);
      } else {
        ClampStep(L, before, b);
        assert b[..|b|] == b;
      }
    }
  }

  /** The body is the data that was read when the reads total the announced length. */
  lemma BodyIsContent(L: nat, bs: seq<bytes>)
    requires |Flat(bs)| == L
    ensures Clamp(L, bs) == Flat(bs)
  {
    ClampLength(L, bs);
  }

  /** For reads that are not empty, the body has the announced length exactly when they total at
      least that much and only the last one reached it: reads after that pass unclamped. */
  lemma BodyLength(L: nat, bs: seq<bytes>)
    requires forall b :: b in bs ==> b != []
    ensures |Clamp(L, bs)| == L <==> |Flat(bs)| >= L && (|bs| > 1 ==> |Flat(bs[..|bs| - 1])| < L)
  {
    if bs != [] {
      var before, b := bs[..|bs| - 1], bs[|bs| - 1];
      assert bs == before + [b] && b in bs;
      FlatAppend(before, b);
      if Finished(L, before) {
        FinishedStays(L, before, b);
        ClampLength(L, before);
      } else {
        ClampStep(L, before, b);
        ClampAll(L, before);
      }
    }
  }

  /** The empty input that follows the last read changes nothing. */
  lemma ClampEmpty(L: nat, bs: seq<bytes>)
    ensures Clamp(L, bs + [[]]) == Clamp(L, bs) && Flat(bs + [[]]) == Flat(bs)
  {
    FlatAppend(bs, []);
    if Finished(L, bs) {
      FinishedStays(L, bs, []);
    } else {
      ClampStep(L, bs, []);
    }
  }

  /** How many inputs it takes to use the content length up; all of them when they do not. */
  function Reach(L: nat, bs: seq<bytes>): (j: nat)
    ensures j <= |bs| && (bs != [] ==> j > 0)
    decreases |bs|
  {
    if bs == [] then 0
    else if Finished(L, bs[..|bs| - 1]) then Reach(L, bs[..|bs| - 1])
    else |bs|
  }

  /** The first L bytes of those inputs, and everything after them. */
  lemma {:induction false} ClampShape(L: nat, bs: seq<bytes>)
    ensures var j := Reach(L, bs);
            var first := Flat(bs[..j]);
            && Clamp(L, bs) == (if |first| <= L then first else first[..L]) + Flat(bs[j..])
            && (j < |bs| ==> |first| >= L)
            && (j > 1 ==> |Flat(bs[..j - 1])| < L)
    decreases |bs|
  {
    hide Clamp, Finished, Flat;
    if bs == [] {
      ClampNone(L);
    } else {
      var n := |bs| - 1;
      var before, b, j := bs[..n], bs[n], Reach(L, bs);
      assert bs == before + [b];
      if Finished(L, before) {
        ClampShape(L, before);
        FinishedStays(L, before, b);
        ReachFinished(L, before);
        assert bs[..j] == before[..j] && bs[j..] == before[j..] + [b] && (j > 1 ==> bs[..j - 1] == before[..j - 1]);
        FlatAppend(before[j..], b);
      } else {
        ClampStep(L, before, b);
        ClampAll(L, before);
        FlatAppend(before, b);
        LastInput(L, before, b);
        assert bs[..j] == bs && bs[j..] == [] && bs[..j - 1] == before;
      }
    }
  }

  lemma ClampNone(L: nat)
    ensures Clamp(L, []) == [] && Flat([]) == [] && Reach(L, []) == 0
  {
  }

  lemma {:induction false} ReachFinished(L: nat, bs: seq<bytes>)
    requires Finished(L, bs)
    ensures |Flat(bs[..Reach(L, bs)])| >= L
    decreases |bs|
  {
    var before, b := bs[..|bs| - 1], bs[|bs| - 1];
    if Finished(L, before) {
      ReachFinished(L, before);
      assert bs[..Reach(L, bs)] == before[..Reach(L, bs)];
    } else {
      ClampLength(L, bs);
      assert bs[..|bs|] == bs;
    }
  }

  /** The input that may use the content length up. */
  lemma LastInput(L: nat, before: seq<bytes>, b: bytes)
    requires !Finished(L, before)
    ensures var all := Flat(before) + b;
            Clamp(L, before + [b]) == if |all| <= L then all else all[..L]
    ensures before != [] ==> |Flat(before)| < L
    ensures Flat([]) == []
  {
    ClampAll(L, before);
    ClampStep(L, before, b);
    var out := Clamp(L, before);
    hide Clamp;
    assert b[..|b|] == b;
    if |out + b| > L {
      assert (out + b)[..L] == out + b[..L - |out|];
    }
  }

  /** The output is all of the input, exactly when the content length is not overshot: by no input,
      or only by ending with the input that reaches it. It is a prefix of the input exactly when
      what comes after the overshooting input happens to continue with the bytes that were cut. */
  lemma ClampKeeps(L: nat, bs: seq<bytes>)
    ensures var j := Reach(L, bs);
            var first, after := Flat(bs[..j]), Flat(bs[j..]);
            && (Clamp(L, bs) == Flat(bs) <==> |first| <= L)
            && (Prefix(Clamp(L, bs), Flat(bs)) <==> |first| <= L || Prefix(after, first[L..] + after))
  {
    hide Clamp, Reach, Flat;
    var j := Reach(L, bs);
    var first, after := Flat(bs[..j]), Flat(bs[j..]);
    ClampShape(L, bs);
    assert bs == bs[..j] + bs[j..];
    FlatConcat(bs[..j], bs[j..]);
    if |first| > L {
      var all, out := first + after, first[..L] + after;
      assert all == first[..L] + (first[L..] + after);
      assert all[..|out|] == first[..L] + (first[L..] + after)[..|after|];
      if all[..|out|] == out {
        assert all[..|out|][L..] == (first[L..] + after)[..|after|] && out[L..] == after;
      }
    }
  }

  /** Announced one byte, and read two: both go out. */
  lemma OvershootLength()
    ensures Clamp(1, [[0x61], [0x62], []]) == [0x61, 0x62]
  {
    assert [[0x61], [0x62], []][..2] == [[0x61], [0x62]] && [[0x61], [0x62]][..1] == [[0x61]] && [[0x61]][..0] == [];
    assert Clamp(1, [[0x61]]) == [0x61];
    assert Clamp(1, [[0x61], [0x62]]) == [0x61, 0x62];
  }

  /** Announced two bytes, and read three at once and then one: the third is lost. */
  lemma OvershootHole()
    ensures var bs := [[0x61, 0x62, 0x63], [0x64], []];
            Clamp(2, bs) == [0x61, 0x62, 0x64] && !Prefix(Clamp(2, bs), Flat(bs))
  {
    var a: bytes, b: bytes := [0x61, 0x62, 0x63], [0x64];
    assert [a, b, []][..2] == [a, b] && [a, b][..1] == [a] && [a][..0] == [];
    assert Clamp(2, [a]) == [0x61, 0x62];
    assert Clamp(2, [a, b]) == [0x61, 0x62, 0x64];
    assert [a, b, []][1..] == [b, []] && [b, []][1..] == [[]];
    assert Flat([a, b, []])[2] == 0x63;
  }
}

/** The connection slots of a server: accepting takes a slot from the list of freed slots or the
    next unused one, closing gives it back. Pool is the abstract machine with its invariant over
    every interleaving of accepts and closes; class AlphaHttpd is the linked list the program keeps
    in the slots themselves. */
module Server {
  import opened Bytes

  /** iconn slots have been used so far; `free` is the list of freed slots, last freed first;
      owner maps an occupied slot to its connection; frees counts how often each was freed. */
  datatype Pool = Pool(n: nat, iconn: nat, connNum: nat, free: seq<nat>, owner: map<nat, nat>, frees: seq<nat>)

  datatype Op = Accept(conn: nat) | Fin(slot: nat)

  predicate NoDuplicates(s: seq<nat>)
  {
    forall i, j :: 0 <= i < j < |s| ==> s[i] != s[j]
  }

  /** Free and occupied slots partition the used ones, and the counters agree with them. */
  ghost predicate Inv(p: Pool)
  {
    && p.iconn == p.connNum + |p.free| <= p.n
    && |p.owner| == p.connNum && |p.frees| == p.n
    && NoDuplicates(p.free)
    && (forall i :: 0 <= i < |p.free| ==> p.free[i] < p.iconn && p.free[i] !in p.owner)
    && (forall k :: k in p.owner ==> k < p.iconn)
    && (forall k :: 0 <= k < p.iconn && k !in p.owner ==> k in p.free)
    && (forall k :: p.iconn <= k < p.n ==> p.frees[k] == 0)
  }

  function Empty(n: nat): Pool { Pool(n, 0, 0, [], map[], seq(n, _ => 0)) }

  /** The slot the next connection gets, if there is one. */
  function NextSlot(p: Pool): Option<nat>
  {
    if p.connNum == p.n then None
    else if p.free != [] then Some(p.free[0]) else Some(p.iconn)
  }

  function Step(p: Pool, op: Op): Pool
  {
    match op
    case Accept(conn) =>
      if NextSlot(p).None? then p
      else
        var k := NextSlot(p).value;
        p.(owner := p.owner[k := conn], connNum := p.connNum + 1,
           free := if p.free != [] then p.free[1..] else [],
           iconn := if p.free != [] then p.iconn else p.iconn + 1)
    case Fin(k) =>
      if k !in p.owner || k >= |p.frees| then p
      else
        p.(owner := p.owner - {k}, connNum := if p.connNum > 0 then p.connNum - 1 else 0,
           free := [k] + p.free, frees := p.frees[k := p.frees[k] + 1])
  }

  function Run(p: Pool, ops: seq<Op>): Pool
    decreases |ops|
  {
    if ops == [] then p else Run(Step(p, ops[0]), ops[1..])
  }

  lemma EmptyInv(n: nat)
    ensures Inv(Empty(n))
  {
  }

  /** The slot given to a new connection was not occupied; a limit reached means n connections. */
  lemma AcceptKeepsInv(p: Pool, conn: nat)
    requires Inv(p)
    ensures Inv(Step(p, Accept(conn)))
    ensures NextSlot(p).None? <==> p.connNum == p.n
    ensures NextSlot(p).Some? ==> NextSlot(p).value < p.n && NextSlot(p).value !in p.owner
  {
    if p.connNum != p.n {
      if p.free != [] {
        PopKeepsInv(p, conn);
      } else {
        var q := Step(p, Accept(conn));
        assert q.owner.Keys == p.owner.Keys + {p.iconn};
      }
    }
  }

  lemma PopKeepsInv(p: Pool, conn: nat)
    requires Inv(p) && p.free != []
    ensures Inv(Step(p, Accept(conn)))
  {
    var q, k := Step(p, Accept(conn)), p.free[0];
    assert q.owner.Keys == p.owner.Keys + {k};
    assert p.free == [k] + q.free;
  }

  /** The connection count is not zero when a connection is closed. */
  lemma FinKeepsInv(p: Pool, k: nat)
    requires Inv(p) && k in p.owner
    ensures p.connNum != 0
    ensures Inv(Step(p, Fin(k)))
  {
    var q := Step(p, Fin(k));
    assert k in p.owner.Keys && |p.owner.Keys| == p.connNum;
    assert q.owner.Keys == p.owner.Keys - {k};
    assert q.free == [k] + p.free;
    assert q.free[0] == k;
  }

  /** Who owns what after an accept: with all slots occupied nothing changes; otherwise the new
      connection, and no other, gets a slot that nobody has. */
  lemma AcceptOwns(p: Pool, conn: nat)
    requires Inv(p)
    ensures var q := Step(p, Accept(conn));
            if |p.owner| == p.n then q == p
            else exists k: nat :: k < p.n && k !in p.owner && q.owner == p.owner[k := conn] && q.frees == p.frees
  {
    AcceptKeepsInv(p, conn);
    if |p.owner| != p.n {
      var k := NextSlot(p).value;
      assert Step(p, Accept(conn)).owner == p.owner[k := conn];
    }
  }

  /** A close takes the slot from its connection, and from no other, counts it, and makes it the
      next one to be used. */
  lemma FinFrees(p: Pool, k: nat)
    requires Inv(p) && k in p.owner
    ensures var q := Step(p, Fin(k));
            && q.owner == p.owner - {k} && NextSlot(q) == Some(k)
            && k < |p.frees| && q.frees == p.frees[k := p.frees[k] + 1]
  {
    FinKeepsInv(p, k);
    var q := Step(p, Fin(k));
    assert q.connNum != q.n;
  }

  lemma StepKeepsInv(p: Pool, op: Op)
    requires Inv(p)
    ensures Inv(Step(p, op)) && Step(p, op).n == p.n
  {
    match op
    case Accept(conn) => AcceptKeepsInv(p, conn);
    case Fin(k) => if k in p.owner { FinKeepsInv(p, k); }
  }

  /** In every interleaving of accepts and closes the slots stay partitioned. */
  lemma {:induction false} ReachableInv(p: Pool, ops: seq<Op>)
    requires Inv(p)
    ensures Inv(Run(p, ops)) && Run(p, ops).n == p.n
    decreases |ops|
  {
    if ops == [] {
    } else {
      StepKeepsInv(p, ops[0]);
      ReachableInv(Step(p, ops[0]), ops[1..]);
    }
  }

  /** A server that starts with n unused slots keeps them partitioned in every interleaving of
      accepts and closes: each of the slots used so far is free or belongs to one connection. */
  lemma EveryInterleaving(n: nat, ops: seq<Op>)
    ensures var p := Run(Empty(n), ops);
            && Inv(p) && p.n == n && p.iconn == p.connNum + |p.free| <= n
            && forall k :: 0 <= k < p.iconn ==> (k in p.free <==> k !in p.owner)
  {
    EmptyInv(n);
    ReachableInv(Empty(n), ops);
  }

  // ---------------------------------------------------------------- events

  /** The generation bit of a slot. */
  function Side(p: Pool, k: nat): nat
    requires k < |p.frees|
  {
    p.frees[k] % 2
  }

  lemma {:induction false} FreesGrow(p: Pool, ops: seq<Op>, k: nat)
    requires Inv(p) && k < p.n
    ensures |Run(p, ops).frees| == p.n && p.frees[k] <= Run(p, ops).frees[k]
    ensures k in p.owner && Run(p, ops).frees[k] == p.frees[k] ==>
              k in Run(p, ops).owner && Run(p, ops).owner[k] == p.owner[k]
    decreases |ops|
  {
    if ops == [] {
    } else {
      StepKeepsInv(p, ops[0]);
      var q := Step(p, ops[0]);
      FreesGrow(q, ops[1..], k);
      if ops[0].Accept? {
        AcceptKeepsInv(p, ops[0].conn);
      }
    }
  }

  /** An event captured while slot k is occupied and looked at after any accepts and closes is
      delivered exactly when the slot was freed an even number of times in between: to the same
      connection when it was not freed, and never when it was freed exactly once. */
  lemma EventDelivery(p: Pool, ops: seq<Op>, k: nat)
    requires Inv(p) && k in p.owner
    ensures var q := Run(p, ops);
            && Inv(q) && k < p.n == q.n && q.frees[k] >= p.frees[k]
            && (Side(q, k) == Side(p, k) <==> (q.frees[k] - p.frees[k]) % 2 == 0)
            && (q.frees[k] == p.frees[k] ==> k in q.owner && q.owner[k] == p.owner[k])
            && (q.frees[k] == p.frees[k] + 1 ==> Side(q, k) != Side(p, k))
  {
    hide Run, Step, NoDuplicates;
    ReachableInv(p, ops);
    FreesGrow(p, ops, k);
    Parity(p.frees[k], Run(p, ops).frees[k]);
  }

  lemma Parity(a: nat, b: nat)
    requires a <= b
    ensures b % 2 == a % 2 <==> (b - a) % 2 == 0
  {
  }

  /** One bit is not enough for a slot freed twice: with a single slot, an event of the first
      connection is delivered to the third. */
  lemma StaleEventAfterTwoFrees()
    ensures var p := Step(Empty(1), Accept(1));
            var q := Run(p, [Fin(0), Accept(2), Fin(0), Accept(3)]);
            p.owner == map[0 := 1] && q.owner == map[0 := 3] && Side(q, 0) == Side(p, 0)
  {
    var p := Step(Empty(1), Accept(1));
    assert p == Pool(1, 1, 1, [], map[0 := 1], [0]);
    var p1 := Step(p, Fin(0));
    assert p1 == Pool(1, 1, 0, [0], map[], [1]);
    var p2 := Step(p1, Accept(2));
    assert p2 == Pool(1, 1, 1, [], map[0 := 2], [1]);
    var p3 := Step(p2, Fin(0));
    assert p3 == Pool(1, 1, 0, [0], map[], [2]);
    var p4 := Step(p3, Accept(3));
    assert p4 == Pool(1, 1, 1, [], map[0 := 3], [2]);
    var ops := [Fin(0), Accept(2), Fin(0), Accept(3)];
    assert ops[1..] == [Accept(2), Fin(0), Accept(3)] && ops[1..][1..] == [Fin(0), Accept(3)];
    assert ops[1..][1..][1..] == [Accept(3)] && ops[1..][1..][1..][1..] == [];
  }

  // ------------------------------------------------------------ the program

  /** A slot (struct ahd_kev): generation bit, client object, link of the free list. */
  datatype Kev = Kev(side: nat, obj: Option<nat>, next: Option<nat>)

  /** What ffsock_accept_async answers. */
  datatype AcceptResult = Connected(conn: nat) | InProgress | AcceptError

  function Link(free: seq<nat>, i: nat): Option<nat>
  {
    if i < |free| then Some(free[i]) else None
  }

  /** The links in the slots form the free list. */
  predicate Linked(kevs: seq<Kev>, free: seq<nat>)
  {
    forall i :: 0 <= i < |free| ==> free[i] < |kevs| && kevs[free[i]].next == Link(free, i + 1)
  }

  lemma LinkedPop(kevs: seq<Kev>, free: seq<nat>, kev: Kev)
    requires Linked(kevs, free) && NoDuplicates(free) && free != []
    ensures Linked(kevs[free[0] := kev], free[1..]) && kevs[free[0]].next == Link(free[1..], 0)
  {
  }

  lemma LinkedPush(kevs: seq<Kev>, free: seq<nat>, k: nat, kev: Kev)
    requires Linked(kevs, free) && k < |kevs| && k !in free && kev.next == Link(free, 0)
    ensures Linked(kevs[k := kev], [k] + free)
  {
  }

  /** Other slots may change in everything but their link. */
  lemma LinkedSame(kevs: seq<Kev>, free: seq<nat>, k: nat, kev: Kev)
    requires Linked(kevs, free) && k < |kevs| && kev.next == kevs[k].next
    ensures Linked(kevs[k := kev], free)
  {
  }

  /** The server's fields represent the pool p. */
  ghost predicate Represents(p: Pool, kevs: seq<Kev>, reusable: Option<nat>, iconn: nat, connNum: nat)
  {
    && Inv(p)
    && |kevs| == p.n && iconn == p.iconn && connNum == p.connNum
    && reusable == Link(p.free, 0)
    && Linked(kevs, p.free)
    && (forall k :: 0 <= k < p.n ==> kevs[k].side == Side(p, k))
  }

  lemma AcceptFree(p: Pool, kevs: seq<Kev>, k: nat, conn: nat)
    requires Represents(p, kevs, Some(k), p.iconn, p.connNum) && p.connNum != p.n
    ensures k < |kevs| && NextSlot(p) == Some(k) && k !in p.owner
    ensures Represents(Step(p, Accept(conn)), kevs[k := kevs[k].(next := None)], kevs[k].next, p.iconn, p.connNum + 1)
  {
    assert p.free != [] && k == p.free[0];
    AcceptKeepsInv(p, conn);
    LinkedPop(kevs, p.free, kevs[k].(next := None));
    hide Inv, Linked, NoDuplicates;
  }

  lemma AcceptNew(p: Pool, kevs: seq<Kev>, conn: nat)
    requires Represents(p, kevs, None, p.iconn, p.connNum) && p.connNum != p.n
    ensures NextSlot(p) == Some(p.iconn) && p.iconn !in p.owner
    ensures Represents(Step(p, Accept(conn)), kevs, None, p.iconn + 1, p.connNum + 1)
  {
    assert p.free == [];
    AcceptKeepsInv(p, conn);
    hide Inv, NoDuplicates;
  }

  /** The slot after its connection is gone: the generation bit is flipped. */
  function Freed(kev: Kev, next: Option<nat>): Kev
  {
    Kev(if kev.side == 0 then 1 else 0, None, next)
  }

  lemma FinFree(p: Pool, kevs: seq<Kev>, reusable: Option<nat>, k: nat)
    requires Represents(p, kevs, reusable, p.iconn, p.connNum) && k in p.owner
    ensures p.connNum != 0 && k < |kevs|
    ensures Represents(Step(p, Fin(k)), kevs[k := Freed(kevs[k], reusable)], Some(k), p.iconn, p.connNum - 1)
  {
    hide Inv, Linked, Step, Side;
    FinKeepsInv(p, k);
    FinSize(p, k);
    LinkedPush(kevs, p.free, k, Freed(kevs[k], reusable));
    FinIs(p, k);
    FinSides(p, kevs, k, reusable);
  }

  lemma FinSides(p: Pool, kevs: seq<Kev>, k: nat, next: Option<nat>)
    requires k in p.owner && |kevs| == |p.frees| == p.n && k < p.n && p.connNum > 0
    requires forall j :: 0 <= j < p.n ==> kevs[j].side == Side(p, j)
    ensures forall j :: 0 <= j < p.n ==> kevs[k := Freed(kevs[k], next)][j].side == Side(Step(p, Fin(k)), j)
  {
    hide Step;
    FinIs(p, k);
    Flipped(p.frees[k]);
  }

  lemma FinSize(p: Pool, k: nat)
    requires Inv(p) && k in p.owner
    ensures |p.frees| == p.n && k < p.n && k !in p.free
  {
  }

  lemma FinIs(p: Pool, k: nat)
    requires k in p.owner && k < |p.frees| && p.connNum > 0
    ensures var q := Step(p, Fin(k));
            && q.n == p.n && q.iconn == p.iconn && q.connNum == p.connNum - 1 && q.free == [k] + p.free
            && q.frees == p.frees[k := p.frees[k] + 1]
  {
  }

  lemma Flipped(n: nat)
    ensures (if n % 2 == 0 then 1 else 0) == (n + 1) % 2
  {
  }

  class AlphaHttpd {
    var connections: seq<Kev>
    var reusable: Option<nat>
    var iconn: nat
    var connNum: nat
    ghost var pool: Pool

    ghost predicate Valid()
      reads this
    {
      Represents(pool, connections, reusable, iconn, connNum)
    }

    constructor (n: nat)
      ensures Valid() && pool == Empty(n)
    {
      connections := seq(n, _ => Kev(0, None, None));
      reusable, iconn, connNum := None, 0, 0;
      pool := Empty(n);
    }

    /** sv_accept1: 0 when a connection was accepted, in slot k. */
    method Accept1(a: AcceptResult) returns (r: int, k: nat)
      requires Valid()
      modifies this
      ensures Valid()
      ensures r == 0 <==> a.Connected? && old(connNum) != |old(connections)|
      ensures r == 0 ==> pool == Step(old(pool), Accept(a.conn)) && Some(k) == NextSlot(old(pool))
                         && k !in old(pool).owner
      ensures r != 0 ==> pool == old(pool) && connections == old(connections)
    {
      hide Inv, Linked, Step;
      r, k := -1, 0;
      if connNum == |connections| { return; }
      if !a.Connected? { return; }
      if reusable.Some? {
        k := reusable.value;
        AcceptFree(pool, connections, k, a.conn);
        reusable := connections[k].next;
        connections := connections[k := connections[k].(next := None)];
      } else {
        k := iconn;
        AcceptNew(pool, connections, a.conn);
        iconn := iconn + 1;
      }
      connNum := connNum + 1;
      pool := Step(pool, Accept(a.conn));
      r := 0;
    }

    /** sv_conn_fin, called once by the client that owns the slot. */
    method ConnFin(k: nat)
      requires Valid() && k in pool.owner
      modifies this
      ensures Valid() && pool == Step(old(pool), Fin(k))
      ensures connections[k].side == 1 - old(connections[k].side)
    {
      hide Inv, Linked, Step;
      FinFree(pool, connections, reusable, k);
      var c := connections[k];
      c := c.(side := if c.side == 0 then 1 else 0, obj := None);
      connections := connections[k := c.(next := reusable)];
      reusable := Some(k);
      assert connNum != 0;
      connNum := connNum - 1;
      pool := Step(pool, Fin(k));
    }

    /** sv_kq_attach: 0 when the kernel accepts the socket; the tag given to the kernel is the slot with its generation bit. */
    method KqAttach(k: nat, obj: nat, attached: bool) returns (r: int, tag: (nat, nat))
      requires Valid() && k in pool.owner
      modifies this
      ensures Valid() && pool == old(pool)
      ensures r == (if attached then 0 else -1) && connections[k].obj == Some(obj)
      ensures tag == (k, Side(pool, k))
    {
      LinkedSame(connections, pool.free, k, connections[k].(obj := Some(obj)));
      connections := connections[k := connections[k].(obj := Some(obj))];
      tag := (k, connections[k].side);
      r := if attached then 0 else -1;
    }

    /** The test in sv_worker that decides whether an event's handlers run. */
    method Dispatch(tag: (nat, nat)) returns (deliver: bool)
      requires Valid() && tag.0 < |connections|
      ensures deliver <==> tag.1 == Side(pool, tag.0)
    {
      deliver := tag.1 == connections[tag.0].side;
    }
  }
}

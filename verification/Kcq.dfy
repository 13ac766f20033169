/** Shutting down the worker threads of the kernel call queue: a stop flag, and a counting
    semaphore on which idle workers wait. The boss and the workers are modelled as a step
    relation over their program counters; every interleaving is a run of it. */
module Kcq {

  /** A worker: about to test the stop flag, processing the queue, waiting on the semaphore,
      or returned. Absent is a worker whose thread could not be created. */
  datatype Worker = Check | Process | Wait | Exited | Absent

  /** The boss in kcq_destroy: before it, posting for worker i, joining worker i, done. */
  datatype Boss = Serving | Posting(i: nat) | Joining(i: nat) | Destroyed

  datatype State = State(polling: bool, stop: bool, sem: nat, workers: seq<Worker>, boss: Boss)

  datatype Event =
    | WorkerStep(w: nat)      // worker w takes its next step
    | Submit                  // a call is queued: the submitter posts the semaphore
    | BossStep                // kcq_destroy takes its next step

  /** The step a worker can take, if any: ffsem_wait blocks while the count is zero. */
  predicate CanStep(s: State, w: nat)
  {
    w < |s.workers| &&
    match s.workers[w]
    case Check => true
    case Process => true
    case Wait => s.sem > 0
    case Exited => false
    case Absent => false
  }

  function WorkerNext(s: State, w: nat): State
    requires CanStep(s, w)
  {
    match s.workers[w]
    case Check => s.(workers := s.workers[w := if s.stop then Exited else Process])
    case Process => s.(workers := s.workers[w := if s.polling then Check else Wait])
    case Wait => s.(workers := s.workers[w := Check], sem := s.sem - 1)
  }

  predicate Ended(w: Worker) { w.Exited? || w.Absent? }

  /** ffthread_join returns for a worker that has exited; absent ones are not joined. */
  predicate CanJoin(s: State, i: nat)
  {
    i < |s.workers| && Ended(s.workers[i])
  }

  predicate BossCanStep(s: State)
  {
    match s.boss
    case Serving => true
    case Posting(i) => true
    case Joining(i) => i >= |s.workers| || CanJoin(s, i)
    case Destroyed => false
  }

  function BossNext(s: State): State
    requires BossCanStep(s)
  {
    match s.boss
    case Serving => s.(stop := true, boss := if s.polling then Joining(0) else Posting(0))
    case Posting(i) =>
      if i < |s.workers| then s.(sem := s.sem + 1, boss := Posting(i + 1)) else s.(boss := Joining(0))
    case Joining(i) => s.(boss := if i < |s.workers| then Joining(i + 1) else Destroyed)
  }

  predicate Enabled(s: State, e: Event)
  {
    match e
    case WorkerStep(w) => CanStep(s, w)
    case Submit => !s.polling
    case BossStep => BossCanStep(s)
  }

  function Next(s: State, e: Event): State
    requires Enabled(s, e)
  {
    match e
    case WorkerStep(w) => WorkerNext(s, w)
    case Submit => s.(sem := s.sem + 1)
    case BossStep => BossNext(s)
  }

  predicate Init(s: State)
  {
    && !s.stop && s.sem == 0 && s.boss == Serving
    && forall w :: 0 <= w < |s.workers| ==> s.workers[w] == Check || s.workers[w] == Absent
  }

  /** The state after a run, which takes enabled steps only. */
  ghost predicate Run(s: State, es: seq<Event>, t: State)
    decreases |es|
  {
    if es == [] then s == t else Enabled(s, es[0]) && Run(Next(s, es[0]), es[1..], t)
  }

  // ------------------------------------------------------------- invariant

  /** Workers that will wait once more if the stop flag is set now. */
  function MayWait(ws: seq<Worker>): nat
  {
    if ws == [] then 0
    else MayWait(ws[..|ws| - 1]) + (if ws[|ws| - 1].Process? || ws[|ws| - 1].Wait? then 1 else 0)
  }

  /** Posts the boss has still to make. */
  function PostsLeft(s: State): nat
  {
    match s.boss
    case Posting(i) => if i < |s.workers| then |s.workers| - i else 0
    case _ => 0
  }

  /** Once the stop flag is set, there are enough posts, made or to come, for every worker that
      can still wait. */
  predicate Inv(s: State)
  {
    && (s.stop <==> !s.boss.Serving?)
    && (s.polling ==> !s.boss.Posting? && forall w :: 0 <= w < |s.workers| ==> !s.workers[w].Wait?)
    && (s.stop && !s.polling ==> MayWait(s.workers) <= s.sem + PostsLeft(s))
    && (s.boss.Posting? ==> s.boss.i <= |s.workers|)
    && (s.boss.Joining? ==> s.boss.i <= |s.workers|
                            && forall w :: 0 <= w < s.boss.i ==> Ended(s.workers[w]))
    && (s.boss.Destroyed? ==> forall w :: 0 <= w < |s.workers| ==> Ended(s.workers[w]))
  }

  lemma {:induction false} MayWaitUpdate(ws: seq<Worker>, w: nat, x: Worker)
    requires w < |ws|
    ensures MayWait(ws[w := x]) == MayWait(ws)
              - (if ws[w].Process? || ws[w].Wait? then 1 else 0)
              + (if x.Process? || x.Wait? then 1 else 0)
    decreases |ws|
  {
    var n := |ws| - 1;
    var us := ws[w := x];
    if w == n {
      assert us[..n] == ws[..n];
    } else {
      MayWaitUpdate(ws[..n], w, x);
      assert us[..n] == ws[..n][w := x];
    }
  }

  lemma {:induction false} MayWaitBound(ws: seq<Worker>)
    ensures MayWait(ws) <= |ws|
    ensures MayWait(ws) == 0 ==> forall w :: 0 <= w < |ws| ==> !ws[w].Process? && !ws[w].Wait?
    decreases |ws|
  {
    if ws == [] {
    } else {
      MayWaitBound(ws[..|ws| - 1]);
      assert forall w :: 0 <= w < |ws| - 1 ==> ws[..|ws| - 1][w] == ws[w];
    }
  }

  lemma NextKeepsInv(s: State, e: Event)
    requires Inv(s) && Enabled(s, e)
    ensures Inv(Next(s, e))
  {
    MayWaitBound(s.workers);
    if e.WorkerStep? {
      var x := Next(s, e).workers[e.w];
      MayWaitUpdate(s.workers, e.w, x);
    }
  }

  /** In every reachable state there are enough posts. */
  lemma {:induction false} RunKeepsInv(s: State, es: seq<Event>, t: State)
    requires Inv(s) && Run(s, es, t)
    ensures Inv(t)
    decreases |es|
  {
    if es == [] {
    } else {
      NextKeepsInv(s, es[0]);
      RunKeepsInv(Next(s, es[0]), es[1..], t);
    }
  }

  lemma InitInv(s: State)
    requires Init(s)
    ensures Inv(s)
  {
  }

  /** No deadlock: after the stop flag is set, in every reachable state that is not the final
      one, the boss or some worker can take a step. */
  lemma NoDeadlock(s0: State, es: seq<Event>, s: State)
    requires Init(s0) && Run(s0, es, s) && s.stop && !s.boss.Destroyed?
    ensures BossCanStep(s) || exists w :: CanStep(s, w)
  {
    InitInv(s0);
    RunKeepsInv(s0, es, s);
    if !BossCanStep(s) {
      var w := s.boss.i;
      if s.workers[w].Wait? {
        MayWaitBound(s.workers);
      }
      assert CanStep(s, w);
    }
  }

  // ------------------------------------------------------------ termination

  /** Steps a worker can still take once the stop flag is set: it waits at most once more. */
  function WorkerRank(w: Worker): nat
  {
    match w
    case Process => 3
    case Wait => 2
    case Check => 1
    case Exited => 0
    case Absent => 0
  }

  function Ranks(ws: seq<Worker>): nat
  {
    if ws == [] then 0 else Ranks(ws[..|ws| - 1]) + WorkerRank(ws[|ws| - 1])
  }

  function BossRank(s: State): nat
  {
    match s.boss
    case Serving => 2 * |s.workers| + 3
    case Posting(i) => if i <= |s.workers| then 2 * |s.workers| + 2 - i else |s.workers| + 2
    case Joining(i) => if i <= |s.workers| then |s.workers| + 1 - i else 1
    case Destroyed => 0
  }

  function Rank(s: State): nat { Ranks(s.workers) + BossRank(s) }

  lemma {:induction false} RanksUpdate(ws: seq<Worker>, w: nat, x: Worker)
    requires w < |ws|
    ensures Ranks(ws[w := x]) == Ranks(ws) - WorkerRank(ws[w]) + WorkerRank(x)
    decreases |ws|
  {
    var n := |ws| - 1;
    var us := ws[w := x];
    if w == n {
      assert us[..n] == ws[..n];
    } else {
      RanksUpdate(ws[..n], w, x);
      assert us[..n] == ws[..n][w := x];
    }
  }

  /** After the stop flag is set every step of a worker or of the boss brings the end nearer. */
  lemma StepDecreases(s: State, e: Event)
    requires Inv(s) && s.stop && Enabled(s, e) && !e.Submit?
    ensures Rank(Next(s, e)) < Rank(s) && Next(s, e).stop
  {
    if e.WorkerStep? {
      RanksUpdate(s.workers, e.w, Next(s, e).workers[e.w]);
    }
  }

  /** Number of steps in a run that are not submissions from outside. */
  function OwnSteps(es: seq<Event>): nat
    decreases |es|
  {
    if es == [] then 0 else (if es[0].Submit? then 0 else 1) + OwnSteps(es[1..])
  }

  /** Shutdown ends: however it is interleaved with submissions, a run after the stop flag is set
      has at most Rank(s) steps of the workers and the boss. */
  lemma {:induction false} ShutdownEnds(s: State, es: seq<Event>, t: State)
    requires Inv(s) && s.stop && Run(s, es, t)
    ensures OwnSteps(es) + Rank(t) <= Rank(s)
    ensures Inv(t) && t.stop
    decreases |es|
  {
    if es == [] {
    } else {
      var u := Next(s, es[0]);
      NextKeepsInv(s, es[0]);
      if !es[0].Submit? {
        StepDecreases(s, es[0]);
      }
      ShutdownEnds(u, es[1..], t);
    }
  }

  /** How often worker w returns from the semaphore in a run. */
  function Waits(s: State, es: seq<Event>, w: nat): nat
    decreases |es|
  {
    if es == [] || !Enabled(s, es[0]) then 0
    else
      (if es[0] == WorkerStep(w) && s.workers[w].Wait? then 1 else 0) + Waits(Next(s, es[0]), es[1..], w)
  }

  /** Once the stop flag is set no worker waits more than once. */
  lemma {:induction false} WaitsOnce(s: State, es: seq<Event>, w: nat)
    requires s.stop && w < |s.workers|
    ensures Waits(s, es, w) <= if s.workers[w].Process? || s.workers[w].Wait? then 1 else 0
    decreases |es|
  {
    if es != [] && Enabled(s, es[0]) {
      WaitsOnce(Next(s, es[0]), es[1..], w);
    }
  }

  /** A run that cannot be continued by a worker or the boss has completed every join, and every
      created worker has exited. */
  lemma MaximalRunDestroys(s: State, es: seq<Event>, t: State)
    requires Init(s) && Run(s, es, t) && t.stop
    requires !BossCanStep(t) && forall w :: !CanStep(t, w)
    ensures t.boss.Destroyed?
    ensures forall w :: 0 <= w < |t.workers| ==> Ended(t.workers[w])
  {
    InitInv(s);
    RunKeepsInv(s, es, t);
    if !t.boss.Destroyed? {
      NoDeadlock(s, es, t);
    }
  }
}

/** The invariant of the chain engine alone: which filters are open or done when the cursor
    stands at i, in which direction it moves, and what each answer of a filter makes of it. */
module ChainEngine {
  import opened Chain

  /** Filter k was opened, or declined. */
  predicate Entered(g: Engine, k: nat)
    requires k < N && Sized(g)
  {
    g.mods[k].isOpen || g.mods[k].done
  }

  /** The request is complete: the request filter is done. */
  predicate HasRequest(g: Engine)
    requires Sized(g)
  {
    g.mods[REQ].done
  }

  /** The filters entered so far are the first ones, and every filter before the cursor is among
      them; each was opened at most once for this request, and every opened filter has been
      closed except those open now. */
  predicate Books(g: Engine, i: nat)
    requires i < N && Sized(g)
  {
    && (forall k :: 0 <= k < i ==> Entered(g, k))
    && (forall k :: 0 < k < N && Entered(g, k) ==> Entered(g, k - 1))
    && (forall k :: 0 <= k < N ==> g.calls[k] == if Entered(g, k) then 1 else 0)
    && (forall k :: 0 <= k < N ==> g.opens[k] == g.closes[k] + if g.mods[k].isOpen then 1 else 0)
  }

  /** Before the request is complete the cursor moves between the first two filters. */
  predicate Reading(g: Engine, i: nat)
    requires i < N && Sized(g)
  {
    i <= REQ && !Entered(g, INDEX) && (g.chainBack ==> i == RECV && Entered(g, REQ))
  }

  /** Afterwards it moves forward once to the send filter, and then between file and send until
      the response is done; the other filters on this way are done when passed. */
  predicate Responding(g: Engine, i: nat, respDone: bool)
    requires i < N && Sized(g)
  {
    && i >= INDEX && g.mods[REQ].isOpen
    && (Entered(g, INDEX) ==> g.mods[INDEX].done)
    && (Entered(g, AUTO) ==> g.mods[AUTO].done)
    && (Entered(g, ERROR) ==> g.mods[ERROR].done)
    && (Entered(g, RESP) ==> g.mods[RESP].done)
    && (i <= AUTO ==> !Entered(g, i))
    && (i == FILE ==> !g.mods[FILE].done && (Entered(g, ERROR) ==> g.chainBack))
    && (ERROR <= i <= RESP && Entered(g, i) ==> Entered(g, SEND))
    && (g.chainBack ==> FILE <= i <= RESP && Entered(g, SEND) && !g.mods[FILE].done && !respDone)
    && (g.mods[SEND].done ==> i == LOG)
    && (Entered(g, LOG) ==> i == LOG)
    && (i == LOG ==> g.mods[SEND].done && respDone)
  }

  predicate EngInv(g: Engine, i: nat, respDone: bool)
  {
    && i < N && Sized(g)
    && Books(g, i)
    && !g.mods[RECV].done && !g.mods[LOG].done
    && if HasRequest(g) then Responding(g, i, respDone) else Reading(g, i) && !respDone
  }

  /** The bookkeeping after filter i was called; declined is meant for a first call. */
  function After(g: Engine, i: nat, declined: bool): (g': Engine)
    requires i < N && Sized(g)
    ensures Sized(g')
  {
    if Entered(g, i) then g else Opening(g, i, declined)
  }

  function Done(g: Engine, i: nat): (g': Engine)
    requires i < N && Sized(g)
    ensures Sized(g')
  {
    g.(mods := g.mods[i := g.mods[i].(done := true)])
  }

  /** The cursor moves forward from filter i, which is done, or is the receive, file or transfer
      filter and not done. */
  lemma EngForward(g: Engine, i: nat, d0: bool, declined: bool, done: bool, d1: bool)
    requires EngInv(g, i, d0) && i < LOG && (d0 ==> d1)
    requires Entered(g, i) ==> !declined
    requires !done ==> declined || g.mods[i].done || i == RECV || i == FILE || i == TRANS
    requires declined ==> !done && i != RECV && i != REQ
    requires done ==> i != RECV && !g.mods[i].done
    requires i == REQ ==> !d1
    requires i == RECV ==> !d1
    requires i == SEND ==> d1
    ensures var g1 := After(g, i, declined);
            var g2 := if done then Done(g1, i) else g1;
            EngInv(g2.(chainBack := false), i + 1, d1)
  {
    hide Books;
    var g1 := After(g, i, declined);
    var g2 := if done then Done(g1, i) else g1;
    var g3 := g2.(chainBack := false);
    BooksForward(g, i, declined, done);
    assert g3.mods[RECV] == g2.mods[RECV] && g3.mods[LOG] == g.mods[LOG];
    if HasRequest(g) {
      RespondingForward(g, i, d0, declined, done, d1);
    } else if i == REQ {
      RequestReady(g, i, d1);
    }
  }

  lemma BooksForward(g: Engine, i: nat, declined: bool, done: bool)
    requires Sized(g) && i < LOG && Books(g, i) && (Entered(g, i) ==> !declined)
    ensures var g1 := After(g, i, declined);
            var g2 := if done then Done(g1, i) else g1;
            Books(g2.(chainBack := false), i + 1)
  {
    var g1 := After(g, i, declined);
    var g2 := if done then Done(g1, i) else g1;
    var g3 := g2.(chainBack := false);
    assert g3.mods == g.mods[i := g3.mods[i]] && Entered(g3, i);
    assert g3.mods[i].isOpen == g1.mods[i].isOpen && g3.closes == g.closes;
    assert g3.calls == if Entered(g, i) then g.calls else g.calls[i := g.calls[i] + 1];
    assert g3.opens == if g1.mods[i].isOpen && !Entered(g, i) then g.opens[i := g.opens[i] + 1] else g.opens;
    hide After, Done;
    BooksMoved(g, g3, i);
  }

  /** The books after filter i was called. */
  lemma BooksMoved(g: Engine, g3: Engine, i: nat)
    requires Sized(g) && Sized(g3) && i < LOG && Books(g, i)
    requires g3.mods == g.mods[i := g3.mods[i]] && Entered(g3, i) && g3.closes == g.closes
    requires Entered(g, i) ==> g3.mods[i].isOpen == g.mods[i].isOpen
    requires g3.calls == if Entered(g, i) then g.calls else g.calls[i := g.calls[i] + 1]
    requires g3.opens == if g3.mods[i].isOpen && !Entered(g, i) then g.opens[i := g.opens[i] + 1] else g.opens
    ensures Books(g3, i + 1)
  {
    assert forall k :: 0 <= k < N && k != i ==> (Entered(g3, k) <==> Entered(g, k));
  }

  lemma RespondingForward(g: Engine, i: nat, d0: bool, declined: bool, done: bool, d1: bool)
    requires Sized(g) && i < LOG && Books(g, i) && Responding(g, i, d0) && (d0 ==> d1)
    requires Entered(g, i) ==> !declined
    requires !done ==> declined || g.mods[i].done || i == FILE || i == TRANS
    requires declined ==> !done
    requires done ==> !g.mods[i].done
    requires i == SEND ==> d1
    ensures var g1 := After(g, i, declined);
            var g2 := if done then Done(g1, i) else g1;
            Responding(g2.(chainBack := false), i + 1, d1)
  {
    var g1 := After(g, i, declined);
    var g2 := if done then Done(g1, i) else g1;
    var g3 := g2.(chainBack := false);
    EnteredBelow(g, i);
    assert !Entered(g, LOG);
    hide Books;
    assert g3.mods == g.mods[i := g3.mods[i]] && Entered(g3, i);
    assert i != FILE && i != TRANS ==> g3.mods[i].done;
    hide After, Done;
    RespondingMoved(g, g3, i, d0, d1);
  }

  /** The rules for the next position, from the new record of filter i. */
  lemma RespondingMoved(g: Engine, g3: Engine, i: nat, d0: bool, d1: bool)
    requires Sized(g) && Sized(g3) && i < LOG && Responding(g, i, d0) && (d0 ==> d1)
    requires g3.mods == g.mods[i := g3.mods[i]] && !g3.chainBack && Entered(g3, i)
    requires i != FILE && i != TRANS ==> g3.mods[i].done
    requires i == SEND ==> d1
    requires Entered(g, i + 1) ==> Entered(g, i)
    requires !Entered(g, i) && i < SEND ==> !Entered(g, SEND)
    requires i == AUTO ==> !Entered(g, ERROR) && !Entered(g, FILE)
    ensures Responding(g3, i + 1, d1)
  {
  }

  /** Nothing was entered after filter i, if that was not. */
  lemma EnteredBelow(g: Engine, i: nat)
    requires Sized(g) && i < LOG && Books(g, i)
    ensures Entered(g, i + 1) ==> Entered(g, i)
    ensures !Entered(g, i) && i < SEND ==> !Entered(g, SEND)
    ensures i == AUTO && !Entered(g, i) ==> !Entered(g, ERROR) && !Entered(g, FILE)
  {
    NotEnteredAfter(g, i);
  }

  /** The request filter is done: nothing after it was entered yet. */
  lemma RequestReady(g: Engine, i: nat, d: bool)
    requires Sized(g) && i == REQ && Books(g, i) && Reading(g, i) && !HasRequest(g)
    ensures Responding(Done(After(g, i, false), i).(chainBack := false), i + 1, d)
  {
    NotEnteredAfter(g, i);
    var g3 := Done(After(g, i, false), i).(chainBack := false);
    assert forall k :: INDEX <= k < N ==> g3.mods[k] == g.mods[k] && !Entered(g, k);
  }

  /** Nothing was entered after the first filter that was not. */
  lemma NotEnteredAfter(g: Engine, i: nat)
    requires i < N && Sized(g) && Books(g, i)
    ensures forall k, j :: 0 <= k < j < N && !Entered(g, k) ==> !Entered(g, j)
  {
    forall k, j | 0 <= k < j < N && !Entered(g, k) ensures !Entered(g, j) {
      NotEntered(g, k, j);
    }
  }

  lemma {:induction false} NotEntered(g: Engine, k: nat, j: nat)
    requires k < j < N && Sized(g) && !Entered(g, k)
    requires forall m :: 0 < m < N && Entered(g, m) ==> Entered(g, m - 1)
    ensures !Entered(g, j)
    decreases j
  {
    if k < j - 1 {
      NotEntered(g, k, j - 1);
    }
  }

  /** The cursor moves back from filter i. */
  lemma EngBack(g: Engine, i: nat, d: bool)
    requires EngInv(g, i, d) && i > 0
    requires i == REQ || (i == SEND && !d && !g.mods[FILE].done) || (g.chainBack && FILE < i < SEND)
    requires i == REQ ==> !g.mods[REQ].done
    ensures EngInv(After(g, i, false).(chainBack := true), i - 1, d)
  {
    hide Books, Responding, Reading;
    BooksWait(g, i);
    BooksBack(After(g, i, false), i);
    if HasRequest(g) {
      EnteredBefore(g, i);
      RespondingBack(g, i, d);
    } else {
      ReadingBack(g, i);
    }
  }

  lemma BooksBack(g: Engine, i: nat)
    requires 0 < i < N && Sized(g) && Books(g, i)
    ensures Books(g.(chainBack := true), i - 1)
  {
    assert forall k :: 0 <= k < N ==> (Entered(g.(chainBack := true), k) <==> Entered(g, k));
  }

  lemma EnteredBefore(g: Engine, i: nat)
    requires Sized(g) && 0 < i < N && Books(g, i)
    ensures Entered(g, i - 1) && (i > FILE ==> Entered(g, FILE)) && (i > ERROR ==> Entered(g, ERROR))
    ensures Entered(g, SEND) && i <= SEND ==> Entered(g, i)
  {
    NotEnteredAfter(g, i);
  }

  lemma RespondingBack(g: Engine, i: nat, d: bool)
    requires Sized(g) && i < N && Responding(g, i, d)
    requires (i == SEND && !d && !g.mods[FILE].done) || (g.chainBack && FILE < i < SEND)
    requires Entered(g, i - 1) && Entered(g, FILE) && (i > ERROR ==> Entered(g, ERROR))
    requires Entered(g, SEND) && i <= SEND ==> Entered(g, i)
    ensures Responding(After(g, i, false).(chainBack := true), i - 1, d)
  {
    var g1 := After(g, i, false).(chainBack := true);
    assert forall k :: 0 <= k < N && k != i ==> g1.mods[k] == g.mods[k];
  }

  lemma ReadingBack(g: Engine, i: nat)
    requires Sized(g) && 0 < i < N && Reading(g, i)
    ensures Reading(After(g, i, false).(chainBack := true), i - 1)
  {
  }

  /** Filter i waits for an event. */
  lemma EngWait(g: Engine, i: nat, d: bool)
    requires EngInv(g, i, d) && (i == RECV || i == FILE || i == SEND || i == LOG)
    ensures EngInv(After(g, i, false), i, d)
  {
    hide Books, Responding, Reading;
    BooksWait(g, i);
    if HasRequest(g) {
      RespondingWait(g, i, d);
    } else {
      ReadingWait(g, i);
    }
  }

  lemma BooksWait(g: Engine, i: nat)
    requires i < N && Sized(g) && Books(g, i)
    ensures var g1 := After(g, i, false);
            && Books(g1, i) && (HasRequest(g1) <==> HasRequest(g))
            && g1.mods[RECV].done == g.mods[RECV].done && g1.mods[LOG].done == g.mods[LOG].done
  {
    var g1 := After(g, i, false);
    assert Entered(g1, i);
    assert forall k :: 0 <= k < N && k != i ==> (Entered(g1, k) <==> Entered(g, k));
  }

  lemma RespondingWait(g: Engine, i: nat, d: bool)
    requires i < N && Sized(g) && Responding(g, i, d) && (i == FILE || i == SEND || i == LOG || i == RECV)
    ensures Responding(After(g, i, false), i, d)
  {
    var g1 := After(g, i, false);
    assert forall k :: 0 <= k < N && k != i ==> g1.mods[k] == g.mods[k];
  }

  lemma ReadingWait(g: Engine, i: nat)
    requires i < N && Sized(g) && Reading(g, i)
    ensures Reading(After(g, i, false), i)
  {
  }
}

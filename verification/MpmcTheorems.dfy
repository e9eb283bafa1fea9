/**
 What the queue promises, over every run: any capacity, any number of operations, any order of
 their atomic steps.  A run is a schedule of events executed from the empty queue.
 */
module MpmcTheorems {
  import opened Wrappers
  import opened Arithmetic
  import opened MpmcModel
  import opened MpmcInvariant
  import opened MpmcHistory

  function Run<T>(cap: nat, schedule: seq<Event<T>>): State<T>
    requires cap > 0
  {
    Exec(Initial(cap), schedule)
  }

  lemma RunInv<T>(cap: nat, schedule: seq<Event<T>>)
    requires cap > 0
    ensures Inv(Run(cap, schedule))
  {
    InitialInv<T>(cap);
    ExecKeepsInv(Initial(cap), schedule);
  }

  // ---------- linearizability ----------

  // Where operation id appears in the log, and as what.
  ghost predicate LoggedAt<T>(s: State<T>, i: nat, id: OpId, e: LinEvent<T>) {
    && i < |s.lin| && s.lin[i] == e && e.id == id
    && (forall j :: 0 <= j < |s.lin| && s.lin[j].id == id ==> j == i)
  }

  // The event a completed operation must have in the log, given what it answered.
  function EventOf<T>(id: OpId, kind: Kind<T>, r: Option<T>): Option<LinEvent<T>> {
    match (kind, r)
    case (Push(v), None) => Some(Enq(id, v))
    case (Pop, Some(v)) => Some(Deq(id, v))
    case _ => None
  }

  // The event is that of a call that was made, with the value that call pushes if it is a push.
  ghost predicate Made<T>(s: State<T>, e: LinEvent<T>) {
    && e.id in s.ops
    && match e
       case Enq(_, v) => s.ops[e.id].kind == Push(v)
       case Deq(_, _) => s.ops[e.id].kind.Pop?
  }

  // The log is a legal history of one first-in first-out queue; each completed operation is in
  // it exactly once, as the operation it was with the answer it gave; a failed one is not in it.
  ghost predicate Explains<T>(s: State<T>) {
    && Fifo(s.lin).Some?
    && (forall e :: e in s.lin ==> Made(s, e))
    && (forall i, j :: 0 <= i < j < |s.lin| ==> s.lin[i].id != s.lin[j].id)
    && (forall id :: id in s.ops && s.ops[id].pc.Done? ==>
                       && EventOf(id, s.ops[id].kind, s.ops[id].pc.result).Some?
                       && exists i: nat :: LoggedAt(s, i, id, EventOf(id, s.ops[id].kind, s.ops[id].pc.result).value))
    && (forall id, i :: id in s.ops && s.ops[id].pc.Failed? && 0 <= i < |s.lin| ==> s.lin[i].id != id)
  }

  lemma {:induction false} LogExplainsRun<T>(cap: nat, schedule: seq<Event<T>>)
    requires cap > 0
    ensures Explains(Run(cap, schedule))
  {
    var s := Run(cap, schedule);
    RunInv(cap, schedule);
    forall e | e in s.lin ensures Made(s, e) {
      assert EventOk(s, e);
    }
    forall id | id in s.ops && s.ops[id].pc.Done?
      ensures EventOf(id, s.ops[id].kind, s.ops[id].pc.result).Some?
      ensures exists i: nat :: LoggedAt(s, i, id, EventOf(id, s.ops[id].kind, s.ops[id].pc.result).value)
    {
      assert OpOk(s, id) && Logged(s, id);
      var e := EventOf(id, s.ops[id].kind, s.ops[id].pc.result).value;
      assert e in s.lin;
      var i :| 0 <= i < |s.lin| && s.lin[i] == e;
      assert LoggedAt(s, i, id, e);
    }
    forall id, i | id in s.ops && s.ops[id].pc.Failed? && 0 <= i < |s.lin| ensures s.lin[i].id != id {
      assert EventOk(s, s.lin[i]);
    }
  }

  // If an operation had returned before another was even called, it comes first in the log.
  // With LogExplainsRun this is linearizability of the successful operations.
  lemma {:induction false} LogRespectsRealTime<T>(cap: nat, before: seq<Event<T>>, after: seq<Event<T>>,
                               first: OpId, second: OpId, i: nat, j: nat)
    requires cap > 0
    requires var s := Run(cap, before); first in s.ops && s.ops[first].pc.Done? && second !in s.ops
    requires var s' := Run(cap, before + after);
      i < |s'.lin| && j < |s'.lin| && s'.lin[i].id == first && s'.lin[j].id == second
    ensures i < j
  {
    var s, s' := Run(cap, before), Run(cap, before + after);
    RunInv(cap, before);
    RunInv(cap, before + after);
    InitialInv<T>(cap);
    ExecConcat(Initial(cap), before, after);
    ExecLater(s, after);
    LogExplainsRun(cap, before);
    var k: nat :| LoggedAt(s, k, first, EventOf(first, s.ops[first].kind, s.ops[first].pc.result).value);
    assert s'.lin[k] == s.lin[k];
    forall e | e in s.lin ensures e.id != second {
      assert EventOk(s, e);
    }
  }

  // A completed pop with ticket t answers the very value pushed under ticket t, and tickets are
  // not shared: no two pops answer the same push.
  lemma {:induction false} PopAnswersItsTicket<T>(cap: nat, schedule: seq<Event<T>>, a: OpId, b: OpId)
    requires cap > 0
    requires var s := Run(cap, schedule); a in s.ops && s.ops[a].kind.Pop? && s.ops[a].pc.Done?
    requires var s := Run(cap, schedule); b in s.ops && s.ops[b].kind.Pop? && s.ops[b].pc.Done?
    ensures var s := Run(cap, schedule); var t := s.ops[a].pc.t;
      && t < s.head && s.pushers[t] in s.ops && s.ops[a].pc.result.Some?
      && s.ops[s.pushers[t]] == Op(Push(s.ops[a].pc.result.value), s.ops[s.pushers[t]].mode, Done(t, None))
      && (s.ops[b].pc.t == t ==> a == b)
  {
    var s := Run(cap, schedule);
    RunInv(cap, schedule);
    var t := s.ops[a].pc.t;
    assert OpOk(s, a) && OpOk(s, b);
    assert TicketOk(s, PushSide, t);
    assert OpOk(s, s.pushers[t]);
  }

  // ---------- slot ownership ----------

  // No run constructs over a live object, or moves from or destroys a dead one.
  lemma {:induction false} NoUndefinedBehaviour<T>(cap: nat, schedule: seq<Event<T>>, id: OpId)
    requires cap > 0 && id in Run(cap, schedule).ops
    ensures !Run(cap, schedule).ops[id].pc.Undefined?
  {
    RunInv(cap, schedule);
    assert OpOk(Run(cap, schedule), id);
  }

  // At most one operation at a time has a slot to itself.
  lemma {:induction false} SlotIsExclusive<T>(cap: nat, schedule: seq<Event<T>>, a: OpId, b: OpId)
    requires cap > 0
    requires var s := Run(cap, schedule);
      && a in s.ops && s.ops[a].pc.Critical() && b in s.ops && s.ops[b].pc.Critical()
      && Idx(cap, s.ops[a].pc.t) == Idx(cap, s.ops[b].pc.t)
    ensures a == b
  {
    var s := Run(cap, schedule);
    RunInv(cap, schedule);
    assert OpOk(s, a) && OpOk(s, b);
    WantInjective(cap, s.ops[a].kind.Side(), s.ops[a].pc.t, s.ops[b].kind.Side(), s.ops[b].pc.t);
  }

  // A step changes a slot's turn only by raising it by one, and only the operation whose ticket
  // the turn named does so.
  lemma {:induction false} TurnGrowsByOne<T>(cap: nat, schedule: seq<Event<T>>, e: Event<T>, i: nat)
    requires cap > 0 && i < cap
    requires Run(cap, schedule + [e]).turns[i] != Run(cap, schedule).turns[i]
    ensures var s, s' := Run(cap, schedule), Run(cap, schedule + [e]);
      && s'.turns[i] == s.turns[i] + 1
      && e.Advance? && e.id in s.ops && s.ops[e.id].pc.Leave?
      && i == Idx(cap, s.ops[e.id].pc.t)
      && s.turns[i] == Want(cap, s.ops[e.id].kind.Side(), s.ops[e.id].pc.t)
  {
    var s := Run(cap, schedule);
    RunInv(cap, schedule);
    assert (schedule + [e])[..|schedule|] == schedule;
    assert e.Advance? && e.id in s.ops;
    assert OpOk(s, e.id);
  }

  // The turn test made before the compare-exchange still holds when the exchange succeeds.
  lemma {:induction false} CheckThenCasIsSound<T>(cap: nat, schedule: seq<Event<T>>, id: OpId)
    requires cap > 0
    requires var s := Run(cap, schedule);
      id in s.ops && s.ops[id].pc.Cas? && s.ops[id].pc.t == Counter(s, s.ops[id].kind.Side())
    ensures var s := Run(cap, schedule);
      s.turns[Idx(cap, s.ops[id].pc.t)] == Want(cap, s.ops[id].kind.Side(), s.ops[id].pc.t)
  {
    var s := Run(cap, schedule);
    RunInv(cap, schedule);
    assert OpOk(s, id) && TicketOk(s, s.ops[id].kind.Side(), s.ops[id].pc.t);
  }

  // ---------- failure ----------

  // Operation id was running at this instant, its side's next ticket was t, and that ticket's
  // slot was not ready for it.
  ghost predicate NotReady<T>(s: State<T>, id: OpId, t: nat)
    requires Shape(s)
  {
    && id in s.ops && !s.ops[id].pc.Finished()
    && var side := s.ops[id].kind.Side();
    && t <= Counter(s, side)
    && s.turns[Idx(s.cap, t)] != Want(s.cap, side, t)
  }

  // A push has to wait for the pop one lap back to store its turn; a pop, for its push.
  ghost predicate Released<T>(s: State<T>, t: nat)
    requires Shape(s)
  {
    s.turns[Idx(s.cap, t)] > Want(s.cap, PopSide, t)
  }

  ghost predicate Published<T>(s: State<T>, t: nat)
    requires Shape(s)
  {
    s.turns[Idx(s.cap, t)] > Want(s.cap, PushSide, t)
  }

  lemma LapBack(cap: nat, t: nat)
    requires cap > 0 && t >= cap
    ensures Idx(cap, t - cap) == Idx(cap, t) && Turn(cap, t - cap) == Turn(cap, t) - 1
  {
    OneLess(cap, t);
  }

  lemma TicketAt(cap: nat, t: nat, q: nat, r: nat)
    requires cap > 0 && r < cap && t == cap * q + r
    ensures Turn(cap, t) == q && Idx(cap, t) == r
  {
    DivModOf(cap, t, q, r);
  }

  // At the instant k of the run, the failing call could not have succeeded.
  ghost predicate FullOrEmpty<T>(s: State<T>, id: OpId, t: nat)
    requires Shape(s)
  {
    && id in s.ops && !s.ops[id].pc.Finished()
    && var side := s.ops[id].kind.Side();
    && Counter(s, side) == t
    && match side
       case PushSide => t >= s.cap && !Released(s, t - s.cap)
       case PopSide => !Published(s, t)
  }

  ghost predicate WasNotReady<T>(cap: nat, schedule: seq<Event<T>>, k: nat, id: OpId, t: nat)
    requires cap > 0 && k <= |schedule|
  {
    NotReady(Run(cap, schedule[..k]), id, t)
  }

  ghost predicate WasFullOrEmpty<T>(cap: nat, schedule: seq<Event<T>>, k: nat, id: OpId, t: nat)
    requires cap > 0 && k <= |schedule|
  {
    FullOrEmpty(Run(cap, schedule[..k]), id, t)
  }

  lemma OthersUntouched<T>(s: State<T>, e: Event<T>, id: OpId)
    requires Shape(s) && e.id != id
    ensures id in Step(s, e).ops <==> id in s.ops
    ensures id in s.ops ==> Step(s, e).ops[id] == s.ops[id]
  {
    match e
    case Invoke(_, _, _) =>
    case Advance(other) =>
      if other in s.ops {
        match s.ops[other].pc
        case Start =>
        case Spin(_) =>
        case Test(_) =>
        case Cas(_) =>
        case Reload(_) =>
        case Enter(_) =>
        case Erase(_, _) =>
        case Leave(_, _) =>
        case _ =>
      }
  }

  // The only way to the second load of the counter is through a turn that did not match.
  lemma ReloadStep<T>(s: State<T>, e: Event<T>, id: OpId)
    requires Inv(s)
    requires var s' := Step(s, e); id in s'.ops && s'.ops[id].pc.Reload?
    ensures id in s.ops
    ensures var t := Step(s, e).ops[id].pc.t; s.ops[id].pc == Reload(t) || NotReady(s, id, t)
  {
    if e.id != id {
      OthersUntouched(s, e, id);
    } else if id in s.ops {
      assert OpOk(s, id);
    }
  }

  // The only way to fail is to see the counter unchanged.
  lemma FailedStep<T>(s: State<T>, e: Event<T>, id: OpId)
    requires Inv(s)
    requires var s' := Step(s, e); id in s'.ops && s'.ops[id].pc.Failed?
    ensures id in s.ops
    ensures var t := Step(s, e).ops[id].pc.t;
      s.ops[id].pc == Failed(t) || (s.ops[id].pc == Reload(t) && Counter(s, s.ops[id].kind.Side()) == t)
  {
    if e.id != id {
      OthersUntouched(s, e, id);
    } else if id in s.ops {
      assert OpOk(s, id);
    }
  }

  lemma {:induction false} ReloadWasNotReady<T>(cap: nat, schedule: seq<Event<T>>, id: OpId)
    returns (k: nat)
    requires cap > 0
    requires var s := Run(cap, schedule); id in s.ops && s.ops[id].pc.Reload?
    ensures k <= |schedule| && WasNotReady(cap, schedule, k, id, Run(cap, schedule).ops[id].pc.t)
    decreases |schedule|
  {
    var n := |schedule| - 1;
    var m := Run(cap, schedule[..n]);
    RunInv(cap, schedule[..n]);
    ReloadStep(m, schedule[n], id);
    if m.ops[id].pc == Run(cap, schedule).ops[id].pc {
      k := ReloadWasNotReady(cap, schedule[..n], id);
      assert schedule[..n][..k] == schedule[..k];
    } else {
      k := n;
    }
  }

  // try_emplace and try_pop return false only if at some instant k of the call the answer was
  // right: the slot of the next push ticket not yet given back by the pop one lap before, or
  // the element of the next pop ticket not yet published.
  lemma {:induction false} FailureIsSound<T>(cap: nat, schedule: seq<Event<T>>, id: OpId)
    returns (k: nat)
    requires cap > 0
    requires var s := Run(cap, schedule); id in s.ops && s.ops[id].pc.Failed?
    ensures k <= |schedule| && WasFullOrEmpty(cap, schedule, k, id, Run(cap, schedule).ops[id].pc.t)
    decreases |schedule|
  {
    var n := |schedule| - 1;
    var m := Run(cap, schedule[..n]);
    RunInv(cap, schedule[..n]);
    FailedStep(m, schedule[n], id);
    if m.ops[id].pc.Failed? {
      k := FailureIsSound(cap, schedule[..n], id);
    } else {
      k := ReloadWasNotReady(cap, schedule[..n], id);
      NotReadyAtSameCounter(cap, schedule[..n], k, id, m.ops[id].pc.t);
    }
    assert schedule[..n][..k] == schedule[..k];
  }

  // Counters never go back, so a counter equal at two instants was equal in between.
  lemma NotReadyAtSameCounter<T>(cap: nat, schedule: seq<Event<T>>, k: nat, id: OpId, t: nat)
    requires cap > 0 && k <= |schedule| && WasNotReady(cap, schedule, k, id, t)
    requires var s := Run(cap, schedule); id in s.ops && Counter(s, s.ops[id].kind.Side()) == t
    ensures WasFullOrEmpty(cap, schedule, k, id, t)
  {
    var s := Run(cap, schedule[..k]);
    RunInv(cap, schedule[..k]);
    RunLater(cap, schedule[..k], schedule[k..]);
    assert schedule == schedule[..k] + schedule[k..];
    assert OpLater(s.ops[id], Run(cap, schedule).ops[id]);
    assert Counter(s, s.ops[id].kind.Side()) == t;
    NotReadyMeans(s, id, t);
  }

  lemma RunLater<T>(cap: nat, before: seq<Event<T>>, after: seq<Event<T>>)
    requires cap > 0
    ensures Later(Run(cap, before), Run(cap, before + after))
  {
    InitialInv<T>(cap);
    RunInv(cap, before);
    ExecConcat(Initial(cap), before, after);
    ExecLater(Run(cap, before), after);
  }

  lemma NotReadyMeans<T>(s: State<T>, id: OpId, t: nat)
    requires Inv(s) && NotReady(s, id, t) && Counter(s, s.ops[id].kind.Side()) == t
    ensures FullOrEmpty(s, id, t)
  {
    var side := s.ops[id].kind.Side();
    assert TicketOk(s, side, t);
    if side.PushSide? {
      if t < s.cap {
        assert t == s.cap * 0 + t;
        TicketAt(s.cap, t, 0, t);
      } else {
        LapBack(s.cap, t);
      }
    }
  }
}

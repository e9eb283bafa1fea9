/**
 Who waits for whom, how full the queue can get, and what is left when all calls have returned.
 */
module MpmcProgress {
  import opened Wrappers
  import opened Lifetime
  import opened MpmcModel
  import opened MpmcInvariant
  import opened MpmcHistory
  import opened MpmcTheorems

  // ---------- waiting ----------

  ghost predicate Waiting<T>(s: State<T>, id: OpId, side: Side) {
    id in s.ops && s.ops[id].kind.Side() == side && s.ops[id].pc.Spin?
  }

  // A waiting operation whose turn has not come: its next step is only another look.
  ghost predicate Stuck<T>(s: State<T>, id: OpId)
    requires Shape(s)
  {
    && id in s.ops && s.ops[id].pc.Spin?
    && s.turns[Idx(s.cap, s.ops[id].pc.t)] != Want(s.cap, s.ops[id].kind.Side(), s.ops[id].pc.t)
  }

  // Nothing in flight can make progress.
  ghost predicate Deadlocked<T>(s: State<T>)
    requires Shape(s)
  {
    forall id :: id in s.ops && !s.ops[id].pc.Finished() ==> Stuck(s, id)
  }

  // The slot of an unclaimed or waiting earlier ticket cannot be ready for a later one.
  lemma NextLap(cap: nat, t: nat)
    requires cap > 0
    ensures Idx(cap, t + cap) == Idx(cap, t)
    ensures Want(cap, PushSide, t + cap) == Want(cap, PopSide, t) + 1
  {
    LapBack(cap, t + cap);
  }

  // If nothing can move, every stuck pop is ahead of all pushes: its ticket has no push.
  lemma {:induction false} StuckPopsAreAhead<T>(s: State<T>, id: OpId)
    requires Inv(s) && Deadlocked(s) && Waiting(s, id, PopSide)
    ensures s.ops[id].pc.t >= s.head
    decreases s.ops[id].pc.t, 1
  {
    var t := s.ops[id].pc.t;
    assert OpOk(s, id);
    if t < s.head {
      var p := s.pushers[t];
      assert TicketOk(s, PushSide, t) && OpOk(s, p);
      assert Stuck(s, id);
      assert Stuck(s, p);
      StuckPushIsOverfull(s, p);
    }
  }

  // If nothing can move, every stuck push is a whole lap ahead of all pops: the slot it needs
  // holds an element nobody has come for.
  lemma {:induction false} StuckPushIsOverfull<T>(s: State<T>, id: OpId)
    requires Inv(s) && Deadlocked(s) && Waiting(s, id, PushSide)
    ensures s.ops[id].pc.t >= s.tail + s.cap
    decreases s.ops[id].pc.t, 0
  {
    var t := s.ops[id].pc.t;
    assert OpOk(s, id);
    assert Stuck(s, id);
    if t < s.cap {
      assert t == s.cap * 0 + t;
      TicketAt(s.cap, t, 0, t);
    } else if t < s.tail + s.cap {
      var c := s.poppers[t - s.cap];
      NextLap(s.cap, t - s.cap);
      assert TicketOk(s, PopSide, t - s.cap) && OpOk(s, c);
      StuckPopsAreAhead(s, c);
    }
  }

  // A waiting producer and a waiting consumer never block each other: in a deadlock either all
  // stuck operations are pushes to a full queue, or all are pops from an empty one.
  lemma {:induction false} DeadlockIsOneSided<T>(cap: nat, schedule: seq<Event<T>>)
    requires cap > 0 && Deadlocked(Run(cap, schedule))
    ensures var s := Run(cap, schedule);
      || (forall id :: id in s.ops && !s.ops[id].pc.Finished() ==>
            Waiting(s, id, PushSide) && s.ops[id].pc.t >= s.tail + cap)
      || (forall id :: id in s.ops && !s.ops[id].pc.Finished() ==>
            Waiting(s, id, PopSide) && s.ops[id].pc.t >= s.head)
  {
    var s := Run(cap, schedule);
    RunInv(cap, schedule);
    forall id | id in s.ops && !s.ops[id].pc.Finished()
      ensures Stuck(s, id) && OpOk(s, id)
      ensures Waiting(s, id, PushSide) ==> s.ops[id].pc.t >= s.tail + cap
      ensures Waiting(s, id, PopSide) ==> s.ops[id].pc.t >= s.head
    {
      assert OpOk(s, id);
      if Waiting(s, id, PushSide) { StuckPushIsOverfull(s, id); }
      if Waiting(s, id, PopSide) { StuckPopsAreAhead(s, id); }
    }
  }

  // ---------- occupancy ----------

  function WaitingSet<T>(s: State<T>, side: Side): set<OpId> {
    set id | id in s.ops && s.ops[id].kind.Side() == side && s.ops[id].pc.Spin?
  }

  lemma {:induction false} InjectiveSliceSize(owners: seq<OpId>, lo: nat, hi: nat, bag: set<OpId>)
    requires lo <= hi <= |owners|
    requires forall t :: lo <= t < hi ==> owners[t] in bag
    requires forall t, t' :: lo <= t < t' < hi ==> owners[t] != owners[t']
    ensures hi - lo <= |bag|
    decreases hi
  {
    if lo < hi {
      InjectiveSliceSize(owners, lo, hi - 1, bag - {owners[hi - 1]});
    }
  }

  lemma WaitersOwnTickets<T>(s: State<T>, side: Side, lo: nat)
    requires Inv(s) && lo <= Counter(s, side)
    requires forall t :: lo <= t < Counter(s, side) && Owners(s, side)[t] in s.ops ==>
                           s.ops[Owners(s, side)[t]].pc.Spin?
    ensures Counter(s, side) - lo <= |WaitingSet(s, side)|
  {
    var owners := Owners(s, side);
    forall t | 0 <= t < |owners| ensures owners[t] in s.ops && s.ops[owners[t]].kind.Side() == side
      ensures s.ops[owners[t]].pc.Claimed() && s.ops[owners[t]].pc.t == t
    {
      assert TicketOk(s, side, t);
    }
    forall t, t' | lo <= t < t' < |owners| ensures owners[t] != owners[t'] {
      assert TicketOk(s, side, t) && TicketOk(s, side, t');
    }
    InjectiveSliceSize(owners, lo, |owners|, WaitingSet(s, side));
  }

  // A pop ticket without a push waits; so does a push ticket a lap or more ahead of all pops.
  lemma UnmatchedPopWaits<T>(s: State<T>, t: nat)
    requires Inv(s) && s.head <= t < s.tail
    ensures Waiting(s, s.poppers[t], PopSide)
  {
    assert TicketOk(s, PopSide, t) && TicketOk(s, PushSide, t) && OpOk(s, s.poppers[t]);
  }

  lemma OverfullPushWaits<T>(s: State<T>, t: nat)
    requires Inv(s) && s.tail + s.cap <= t < s.head
    ensures Waiting(s, s.pushers[t], PushSide)
  {
    NextLap(s.cap, t - s.cap);
    assert TicketOk(s, PushSide, t) && TicketOk(s, PopSide, t - s.cap) && OpOk(s, s.pushers[t]);
  }

  // size() is off from the range 0..capacity by no more than the number of waiting calls.
  lemma {:induction false} Occupancy<T>(cap: nat, schedule: seq<Event<T>>)
    requires cap > 0
    ensures var s := Run(cap, schedule);
      -|WaitingSet(s, PopSide)| <= s.head - s.tail <= cap + |WaitingSet(s, PushSide)|
  {
    var s := Run(cap, schedule);
    RunInv(cap, schedule);
    if s.head < s.tail {
      forall t | s.head <= t < s.tail ensures Waiting(s, s.poppers[t], PopSide) {
        UnmatchedPopWaits(s, t);
      }
      WaitersOwnTickets(s, PopSide, s.head);
    } else if s.tail + cap < s.head {
      forall t | s.tail + cap <= t < s.head ensures Waiting(s, s.pushers[t], PushSide) {
        OverfullPushWaits(s, t);
      }
      WaitersOwnTickets(s, PushSide, s.tail + cap);
    }
  }

  // size() loads the two counters at two instants.  Loaded head first, it is at most capacity
  // plus the pushes waiting then; loaded tail first, at least minus the pops waiting then; and
  // the other bound is off by no more than what the second counter moved in between.
  lemma {:induction false} SizeOfTwoLoads<T>(cap: nat, before: seq<Event<T>>, between: seq<Event<T>>)
    requires cap > 0
    ensures var s, s' := Run(cap, before), Run(cap, before + between);
      && -|WaitingSet(s', PopSide)| - (s'.head - s.head) <= s.head - s'.tail <= cap + |WaitingSet(s, PushSide)|
      && -|WaitingSet(s, PopSide)| <= s'.head - s.tail <= cap + |WaitingSet(s', PushSide)| + (s'.tail - s.tail)
  {
    Occupancy(cap, before);
    Occupancy(cap, before + between);
    RunLater(cap, before, between);
  }

  ghost predicate TryOnly<T>(schedule: seq<Event<T>>) {
    forall e :: e in schedule && e.Invoke? ==> e.mode.Try?
  }

  lemma {:induction false} TryOnlyNeverWaits<T>(cap: nat, schedule: seq<Event<T>>, id: OpId)
    requires cap > 0 && TryOnly(schedule) && id in Run(cap, schedule).ops
    ensures Run(cap, schedule).ops[id].mode.Try? && !Run(cap, schedule).ops[id].pc.Spin?
    decreases |schedule|
  {
    var n := |schedule| - 1;
    var m := Run(cap, schedule[..n]);
    if schedule[n].id != id {
      OthersUntouched(m, schedule[n], id);
    }
    if id in m.ops {
      TryOnlyNeverWaits(cap, schedule[..n], id);
    }
  }

  // With try_push and try_pop alone the difference of the counters is always a possible size.
  lemma {:induction false} TryOnlyOccupancy<T>(cap: nat, schedule: seq<Event<T>>)
    requires cap > 0 && TryOnly(schedule)
    ensures var s := Run(cap, schedule); 0 <= s.head - s.tail <= cap
  {
    var s := Run(cap, schedule);
    forall id | id in s.ops ensures !s.ops[id].pc.Spin? {
      TryOnlyNeverWaits(cap, schedule, id);
    }
    Occupancy(cap, schedule);
    assert WaitingSet(s, PushSide) == {} && WaitingSet(s, PopSide) == {};
  }

  // ---------- after the last call ----------

  ghost predicate Quiescent<T>(s: State<T>) {
    forall id :: id in s.ops ==> s.ops[id].pc.Finished()
  }

  // What is stored once every call has returned: exactly the elements of the abstract queue,
  // each in the slot of its ticket, and a live object in precisely the slots with an odd turn.
  ghost predicate AtRest<T>(s: State<T>)
    requires Shape(s)
  {
    && s.tail <= s.head <= s.tail + s.cap
    && Fifo(s.lin) == Some(s.values[s.tail..])
    && (forall t :: s.tail <= t < s.head ==>
          && s.turns[Idx(s.cap, t)] == Want(s.cap, PopSide, t)
          && s.cells[Idx(s.cap, t)].Live?
          && s.cells[Idx(s.cap, t)].value == s.values[t])
    && (forall i :: 0 <= i < s.cap ==> (s.cells[i].Live? <==> s.turns[i] % 2 == 1))
  }

  lemma QuiescentRange<T>(s: State<T>)
    requires Inv(s) && Quiescent(s)
    ensures s.tail <= s.head <= s.tail + s.cap
  {
    if s.head < s.tail {
      UnmatchedPopWaits(s, s.head);
    }
    if s.tail + s.cap < s.head {
      OverfullPushWaits(s, s.tail + s.cap);
    }
  }

  lemma QuiescentSlot<T>(s: State<T>, i: nat)
    requires Inv(s) && Quiescent(s) && i < s.cap
    ensures s.cells[i].Live? <==> s.turns[i] % 2 == 1
  {
    var side := if s.turns[i] % 2 == 0 then PushSide else PopSide;
    var k := s.turns[i] / 2;
    var t := s.cap * k + i;
    TicketAt(s.cap, t, k, i);
    assert Want(s.cap, side, t) == s.turns[i];
    assert TicketOk(s, side, t);
  }

  lemma QuiescentTicket<T>(s: State<T>, t: nat)
    requires Inv(s) && Quiescent(s) && s.tail <= t < s.head
    ensures s.turns[Idx(s.cap, t)] == Want(s.cap, PopSide, t)
    ensures s.cells[Idx(s.cap, t)].Live? && s.cells[Idx(s.cap, t)].value == s.values[t]
  {
    assert TicketOk(s, PushSide, t) && OpOk(s, s.pushers[t]);
    assert TicketOk(s, PopSide, t);
  }

  lemma {:induction false} QuiescentAtRest<T>(cap: nat, schedule: seq<Event<T>>)
    requires cap > 0 && Quiescent(Run(cap, schedule))
    ensures AtRest(Run(cap, schedule))
  {
    var s := Run(cap, schedule);
    RunInv(cap, schedule);
    QuiescentRange(s);
    forall t | s.tail <= t < s.head
      ensures s.turns[Idx(cap, t)] == Want(cap, PopSide, t)
      ensures s.cells[Idx(cap, t)].Live? && s.cells[Idx(cap, t)].value == s.values[t]
    {
      QuiescentTicket(s, t);
    }
    forall i | 0 <= i < cap ensures s.cells[i].Live? <==> s.turns[i] % 2 == 1 {
      QuiescentSlot(s, i);
    }
  }
}

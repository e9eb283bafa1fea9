/**
 The queue's code, proved against the state machine.

 Queue holds the shared memory.  Each atomic access of the source is one small method whose
 contract is one step of the machine; emplace, try_emplace, pop and try_pop are the source's
 code over these, with Yield between any two accesses: there, other calls run any finite number
 of their own steps.  history is the run since construction, so every theorem about runs holds
 of the object whenever it is valid.
 */
module MpmcQueue {
  import opened Wrappers
  import opened Lifetime
  import opened MpmcModel
  import opened MpmcInvariant
  import opened MpmcHistory
  import opened MpmcTheorems
  import opened MpmcProgress

  // The part of a run added between two instants was made by calls other than id.
  ghost predicate ByOthers<T>(before: seq<Event<T>>, after: seq<Event<T>>, id: OpId) {
    && before <= after
    && (forall k :: |before| <= k < |after| ==> after[k].id != id)
  }

  lemma {:induction false} OthersLeaveCall<T>(cap: nat, before: seq<Event<T>>, after: seq<Event<T>>, id: OpId)
    requires cap > 0 && ByOthers(before, after, id)
    ensures var s, s' := Run(cap, before), Run(cap, after);
      && Later(s, s')
      && (id in s'.ops <==> id in s.ops)
      && (id in s.ops ==> s'.ops[id] == s.ops[id])
    decreases |after|
  {
    if |after| == |before| {
      assert after == before;
      RunInv(cap, before);
    } else {
      var n := |after| - 1;
      OthersLeaveCall(cap, before, after[..n], id);
      OthersUntouched(Run(cap, after[..n]), after[n], id);
      assert after == before + after[|before|..];
      RunLater(cap, before, after[|before|..]);
    }
  }

  // The next ticket of a side would find its slot ready.
  ghost predicate Ready<T>(s: State<T>, side: Side)
    requires Shape(s)
  {
    s.turns[Idx(s.cap, Counter(s, side))] == Want(s.cap, side, Counter(s, side))
  }

  lemma QuiescentReadyPop<T>(s: State<T>)
    requires Inv(s) && Quiescent(s)
    ensures Ready(s, PopSide) <==> s.head > s.tail
  {
    QuiescentRange(s);
    if s.tail < s.head {
      QuiescentTicket(s, s.tail);
    } else {
      assert TicketOk(s, PushSide, s.tail);
    }
  }

  lemma QuiescentReadyPush<T>(s: State<T>)
    requires Inv(s) && Quiescent(s)
    ensures Ready(s, PushSide) <==> s.head < s.tail + s.cap
  {
    QuiescentRange(s);
    assert TicketOk(s, PushSide, s.head);
    if s.head < s.cap {
      assert s.head == s.cap * 0 + s.head;
      TicketAt(s.cap, s.head, 0, s.head);
    } else {
      NextLap(s.cap, s.head - s.cap);
      assert TicketOk(s, PopSide, s.head - s.cap);
      if s.head - s.cap < s.tail {
        assert OpOk(s, s.poppers[s.head - s.cap]);
      }
    }
  }

  // With no call in flight, a push would succeed exactly when the queue is not full, and a pop
  // exactly when it is not empty.
  lemma {:induction false} QuiescentReady<T>(cap: nat, schedule: seq<Event<T>>)
    requires cap > 0 && Quiescent(Run(cap, schedule))
    ensures var s := Run(cap, schedule);
      && (Ready(s, PushSide) <==> s.head - s.tail < cap)
      && (Ready(s, PopSide) <==> s.head - s.tail > 0)
  {
    RunInv(cap, schedule);
    QuiescentReadyPush(Run(cap, schedule));
    QuiescentReadyPop(Run(cap, schedule));
  }

  lemma LeaveStep<T>(s: State<T>, id: OpId, t: nat, r: Option<T>)
    requires Shape(s) && id in s.ops && s.ops[id].pc == Leave(t, r)
    ensures Step(s, Advance(id)) ==
            SetPc(s, id, Done(t, r)).(turns := s.turns[Idx(s.cap, t) := Want(s.cap, s.ops[id].kind.Side(), t) + 1])
  {
  }

  // The slot a push enters is empty, and the slot a pop destroys in is not.
  lemma ConstructStep<T>(s: State<T>, id: OpId, t: nat, v: T)
    requires Inv(s) && id in s.ops && s.ops[id].kind == Push(v) && s.ops[id].pc == Enter(t)
    ensures s.cells[Idx(s.cap, t)].Dead?
    ensures Step(s, Advance(id)) ==
            SetPc(s, id, Leave(t, None)).(cells := s.cells[Idx(s.cap, t) := Live(s.made, v)], made := s.made + 1)
  {
    assert OpOk(s, id) && TicketOk(s, PushSide, t);
  }

  lemma DestroyStep<T>(s: State<T>, id: OpId, t: nat, v: T)
    requires Inv(s) && id in s.ops && s.ops[id].kind.Pop? && s.ops[id].pc == Erase(t, v)
    ensures s.cells[Idx(s.cap, t)].Live?
    ensures Step(s, Advance(id)) ==
            SetPc(s, id, Leave(t, Some(v))).(cells := s.cells[Idx(s.cap, t) := Dead],
            died := s.died + multiset{s.cells[Idx(s.cap, t)].serial})
  {
    assert OpOk(s, id) && TicketOk(s, PopSide, t);
  }

  class Queue<T(==)> {
    const capacity: nat
    var head: nat
    var tail: nat
    const turns: array<nat>
    const storage: array<Option<T>>

    ghost var history: seq<Event<T>>   // the run since construction
    ghost var model: State<T>          // and the state it leads to

    // The memory is that of the model's state.
    ghost predicate Memory()
      reads this, turns, storage
    {
      && Shape(model) && capacity == model.cap
      && head == model.head && tail == model.tail
      && turns[..] == model.turns
      && storage.Length == capacity
      && (forall i :: 0 <= i < capacity ==> storage[i] == Stored(model.cells[i]))
    }

    ghost predicate Valid()
      reads this, turns, storage
    {
      Memory() && model == Run(capacity, history)
    }

    constructor (capacity: nat)
      requires capacity > 0
      ensures Valid() && history == [] && this.capacity == capacity && fresh(turns) && fresh(storage)
    {
      this.capacity := capacity;
      head, tail := 0, 0;
      turns := new nat[capacity](_ => 0);
      storage := new Option<T>[capacity](_ => None);
      history := [];
      model := Initial(capacity);
    }

    // A capacity below one is refused.
    static method Create(capacity: nat) returns (r: Result<Queue<T>, string>)
      ensures r.Success? <==> capacity >= 1
      ensures r.Success? ==> fresh(r.value) && r.value.Valid() && r.value.history == [] && r.value.capacity == capacity
    {
      if capacity < 1 {
        return Failure("capacity < 1");
      }
      var q := new Queue(capacity);
      return Success(q);
    }

    ghost predicate At(id: OpId, kind: Kind<T>, mode: Mode, pc: Pc<T>)
      reads this
    {
      id in model.ops && model.ops[id] == Op(kind, mode, pc)
    }

    // What a push adds is all that changes in the abstract record.
    ghost predicate Recorded(s: State<T>, pushed: seq<T>, popped: nat)
      reads this
    {
      model.turns == s.turns && model.values == s.values + pushed && model.tail == s.tail + popped
    }

    // ---------- interference ----------

    // Other calls run; nothing is promised beyond their being other calls, and finitely many steps.
    method Interfere(ghost id: OpId, ghost budget: nat) returns (ghost left: nat)
      requires Valid()
      modifies this, turns, storage
      ensures Valid()
      ensures ByOthers(old(history), history, id) && |history| - |old(history)| + left == budget
    {
      left := budget;
    }

    method Yield(ghost id: OpId, ghost budget: nat) returns (ghost left: nat)
      requires Valid()
      modifies this, turns, storage
      ensures Valid() && old(history) <= history && left <= budget
      ensures old(head) <= head && old(tail) <= tail
      ensures id in model.ops <==> id in old(model).ops
      ensures id in model.ops ==> model.ops[id] == old(model).ops[id]
      ensures left == budget ==> model == old(model)
    {
      left := Interfere(id, budget);
      OthersLeaveCall(capacity, old(history), history, id);
      assert left == budget ==> history == old(history);
    }

    ghost method Tick(e: Event<T>)
      requires capacity > 0 && model == Run(capacity, history)
      modifies this`history, this`model
      ensures model == Step(old(model), e) && model == Run(capacity, history)
      ensures history == old(history) + [e]
    {
      history := history + [e];
      model := Step(model, e);
      assert history[..|history| - 1] == old(history);
    }

    ghost method TickTo(e: Event<T>, next: State<T>)
      requires capacity > 0 && model == Run(capacity, history) && next == Step(model, e)
      modifies this`history, this`model
      ensures model == next && model == Run(capacity, history)
      ensures history == old(history) + [e]
    {
      Tick(e);
    }

    // ---------- one access each, after any interference ----------

    ghost method Call(id: OpId, kind: Kind<T>, mode: Mode)
      requires Valid() && id !in model.ops
      modifies this`history, this`model
      ensures Valid() && old(history) <= history
      ensures At(id, kind, mode, Start) && Recorded(old(model), [], 0)
    {
      Tick(Invoke(id, kind, mode));
    }

    method LoadHead(ghost id: OpId, ghost kind: Kind<T>, ghost first: bool, ghost t: nat, ghost budget: nat)
      returns (h: nat, ghost left: nat)
      requires Valid() && At(id, kind, Try, if first then Start else Reload(t)) && kind.Push?
      modifies this, turns, storage
      ensures Valid() && old(history) <= history && left <= budget
      ensures At(id, kind, Try, if !first && h == t then Failed(t) else Test(h))
      ensures old(head) <= h == head
      ensures left == budget ==> h == old(head) && Recorded(old(model), [], 0)
    {
      left := Yield(id, budget);
      Tick(Advance(id));
      h := head;
    }

    method LoadTail(ghost id: OpId, ghost first: bool, ghost t: nat, ghost budget: nat)
      returns (n: nat, ghost left: nat)
      requires Valid() && At(id, Kind.Pop, Try, if first then Start else Reload(t))
      modifies this, turns, storage
      ensures Valid() && old(history) <= history && left <= budget
      ensures At(id, Kind.Pop, Try, if !first && n == t then Failed(t) else Test(n))
      ensures old(tail) <= n == tail
      ensures left == budget ==> n == old(tail) && Recorded(old(model), [], 0)
    {
      left := Yield(id, budget);
      Tick(Advance(id));
      n := tail;
    }

    method FetchAddHead(ghost id: OpId, ghost kind: Kind<T>, ghost budget: nat) returns (h: nat, ghost left: nat)
      requires Valid() && At(id, kind, Blocking, Start) && kind.Push?
      modifies this, turns, storage
      ensures Valid() && old(history) <= history && left <= budget
      ensures old(head) <= h && At(id, kind, Blocking, Spin(h))
      ensures left == budget ==> h == old(head) && Recorded(old(model), [kind.value], 0)
    {
      left := Yield(id, budget);
      Tick(Advance(id));
      h := head;
      head := head + 1;
    }

    method FetchAddTail(ghost id: OpId, ghost budget: nat) returns (t: nat, ghost left: nat)
      requires Valid() && At(id, Kind.Pop, Blocking, Start)
      modifies this, turns, storage
      ensures Valid() && old(history) <= history && left <= budget
      ensures old(tail) <= t && At(id, Kind.Pop, Blocking, Spin(t))
      ensures left == budget ==> t == old(tail) && Recorded(old(model), [], 1)
    {
      left := Yield(id, budget);
      Tick(Advance(id));
      t := tail;
      tail := tail + 1;
    }

    method CompareExchangeHead(ghost id: OpId, ghost kind: Kind<T>, expected: nat, ghost budget: nat)
      returns (success: bool, seen: nat, ghost left: nat)
      requires Valid() && At(id, kind, Try, Cas(expected)) && kind.Push?
      modifies this, turns, storage
      ensures Valid() && old(history) <= history && left <= budget
      ensures old(head) <= seen && success == (seen == expected) && head == seen + if success then 1 else 0
      ensures At(id, kind, Try, if success then Enter(expected) else Test(seen))
      ensures left == budget ==> seen == old(head) && Recorded(old(model), if success then [kind.value] else [], 0)
    {
      left := Yield(id, budget);
      Tick(Advance(id));
      seen := head;
      success := head == expected;
      if success {
        head := expected + 1;
      }
    }

    method CompareExchangeTail(ghost id: OpId, expected: nat, ghost budget: nat)
      returns (success: bool, seen: nat, ghost left: nat)
      requires Valid() && At(id, Kind.Pop, Try, Cas(expected))
      modifies this, turns, storage
      ensures Valid() && old(history) <= history && left <= budget
      ensures old(tail) <= seen && success == (seen == expected) && tail == seen + if success then 1 else 0
      ensures At(id, Kind.Pop, Try, if success then Enter(expected) else Test(seen))
      ensures left == budget ==> seen == old(tail) && Recorded(old(model), [], if success then 1 else 0)
    {
      left := Yield(id, budget);
      Tick(Advance(id));
      seen := tail;
      success := tail == expected;
      if success {
        tail := expected + 1;
      }
    }

    // The load of the waiting loops.
    method AwaitTurn(ghost id: OpId, ghost kind: Kind<T>, ghost t: nat, i: nat, ghost budget: nat)
      returns (turn: nat, ghost left: nat)
      requires Valid() && At(id, kind, Blocking, Spin(t)) && i == Idx(capacity, t)
      modifies this, turns, storage
      ensures Valid() && old(history) <= history && left <= budget
      ensures At(id, kind, Blocking, if turn == Want(capacity, kind.Side(), t) then Enter(t) else Spin(t))
      ensures left == budget ==> turn == old(turns[i]) && Recorded(old(model), [], 0)
    {
      left := Yield(id, budget);
      Tick(Advance(id));
      turn := turns[i];
    }

    // The load of the retry loops.
    method TestTurn(ghost id: OpId, ghost kind: Kind<T>, ghost t: nat, i: nat, ghost budget: nat)
      returns (turn: nat, ghost left: nat)
      requires Valid() && At(id, kind, Try, Test(t)) && i == Idx(capacity, t)
      modifies this, turns, storage
      ensures Valid() && old(history) <= history && left <= budget
      ensures old(head) <= head && old(tail) <= tail
      ensures At(id, kind, Try, if turn == Want(capacity, kind.Side(), t) then Cas(t) else Reload(t))
      ensures left == budget ==>
                turn == old(turns[i]) && head == old(head) && Recorded(old(model), [], 0)
    {
      left := Yield(id, budget);
      Tick(Advance(id));
      turn := turns[i];
    }

    // slot.turn.store, the last access of every call.
    method StoreTurn(ghost id: OpId, ghost kind: Kind<T>, ghost mode: Mode, ghost t: nat, ghost r: Option<T>,
                     i: nat, turn: nat, ghost budget: nat)
      returns (ghost left: nat)
      requires Valid() && At(id, kind, mode, Leave(t, r)) && i == Idx(capacity, t)
      requires turn == Want(capacity, kind.Side(), t) + 1
      modifies this, turns, storage
      ensures Valid() && old(history) <= history && left <= budget
      ensures At(id, kind, mode, Done(t, r))
      ensures left == budget ==> model.values == old(model).values && tail == old(tail)
    {
      left := Yield(id, budget);
      LeaveStep(model, id, t, r);
      TickTo(Advance(id), SetPc(model, id, Done(t, r)).(turns := model.turns[i := turn]));
      turns[i] := turn;
    }

    // slot.construct.  The slot must hold no object: that it does not is part of what is proved.
    method Construct(ghost id: OpId, ghost kind: Kind<T>, ghost mode: Mode, ghost t: nat, i: nat, v: T, ghost budget: nat)
      returns (ghost left: nat)
      requires Valid() && At(id, kind, mode, Enter(t)) && kind == Push(v) && i == Idx(capacity, t)
      modifies this, turns, storage
      ensures Valid() && old(history) <= history && left <= budget
      ensures At(id, kind, mode, Leave(t, None))
      ensures left == budget ==> Recorded(old(model), [], 0)
    {
      left := Yield(id, budget);
      RunInv(capacity, history);
      ConstructStep(model, id, t, v);
      assert storage[i] == None;
      TickTo(Advance(id), SetPc(model, id, Leave(t, None)).(cells := model.cells[i := Live(model.made, v)], made := model.made + 1));
      storage[i] := Some(v);
    }

    // slot.move.  The slot must hold an object, as must Destroy's.
    method Move(ghost id: OpId, ghost mode: Mode, ghost t: nat, i: nat, ghost budget: nat)
      returns (v: T, ghost left: nat)
      requires Valid() && At(id, Kind.Pop, mode, Enter(t)) && i == Idx(capacity, t)
      modifies this, turns, storage
      ensures Valid() && old(history) <= history && left <= budget
      ensures At(id, Kind.Pop, mode, Erase(t, v))
      ensures t < |model.values| && v == model.values[t]
      ensures left == budget ==> Recorded(old(model), [], 0)
    {
      left := Yield(id, budget);
      RunInv(capacity, history);
      assert OpOk(model, id) && TicketOk(model, PopSide, t);
      Tick(Advance(id));
      v := storage[i].value;
    }

    method Destroy(ghost id: OpId, ghost mode: Mode, ghost t: nat, ghost v: T, i: nat, ghost budget: nat)
      returns (ghost left: nat)
      requires Valid() && At(id, Kind.Pop, mode, Erase(t, v)) && i == Idx(capacity, t)
      modifies this, turns, storage
      ensures Valid() && old(history) <= history && left <= budget
      ensures At(id, Kind.Pop, mode, Leave(t, Some(v)))
      ensures left == budget ==> Recorded(old(model), [], 0)
    {
      left := Yield(id, budget);
      RunInv(capacity, history);
      DestroyStep(model, id, t, v);
      assert storage[i].Some?;
      TickTo(Advance(id), SetPc(model, id, Leave(t, Some(v))).(cells := model.cells[i := Dead],
                                                               died := model.died + multiset{model.cells[i].serial}));
      storage[i] := None;
    }

    // construct, then publish.
    method FinishPush(ghost id: OpId, ghost mode: Mode, v: T, t: nat, ghost budget: nat) returns (ghost left: nat)
      requires Valid() && At(id, Push(v), mode, Enter(t))
      modifies this, turns, storage
      ensures Valid() && old(history) <= history && left <= budget
      ensures At(id, Push(v), mode, Done(t, None))
      ensures left == budget ==> model.values == old(model).values && tail == old(tail)
    {
      var i := Idx(capacity, t);
      left := Construct(id, Push(v), mode, t, i, v, budget);
      left := StoreTurn(id, Push(v), mode, t, None, i, Turn(capacity, t) * 2 + 1, left);
    }

    // move out, destroy, then give the slot back.
    method FinishPop(ghost id: OpId, ghost mode: Mode, t: nat, ghost budget: nat) returns (v: T, ghost left: nat)
      requires Valid() && At(id, Kind.Pop, mode, Enter(t))
      modifies this, turns, storage
      ensures Valid() && old(history) <= history && left <= budget
      ensures At(id, Kind.Pop, mode, Done(t, Some(v)))
      ensures left == budget ==> model.values == old(model).values && tail == old(tail)
      ensures left == budget ==> t < |model.values| && v == model.values[t]
    {
      var i := Idx(capacity, t);
      v, left := Move(id, mode, t, i, budget);
      left := Destroy(id, mode, t, v, i, left);
      left := StoreTurn(id, Kind.Pop, mode, t, Some(v), i, Turn(capacity, t) * 2 + 2, left);
    }

    // ---------- the operations ----------

    // looks bounds how often the waiting loop looks at the turn; done is false if the turn has
    // not come by then, and the call is then still waiting with its ticket t.  Undisturbed, one
    // look tells: the call is done exactly if the next ticket's slot was ready.
    method Emplace(v: T, looks: nat, ghost id: OpId, ghost budget: nat) returns (done: bool, ghost t: nat)
      requires Valid() && id !in model.ops
      modifies this, turns, storage
      ensures Valid() && old(history) <= history
      ensures old(head) <= t && At(id, Push(v), Blocking, if done then Done(t, None) else Spin(t))
      ensures budget == 0 && looks > 0 ==> (done <==> Ready(old(model), PushSide))
      ensures budget == 0 ==> t == old(head) && model.values == old(model).values + [v] && tail == old(tail)
    {
      Call(id, Push(v), Blocking);
      var h: nat, left: nat := FetchAddHead(id, Push(v), budget);
      t := h;
      var i := Idx(capacity, h);
      done := false;
      var n := 0;
      while n < looks && !done
        invariant Valid() && old(history) <= history
        invariant At(id, Push(v), Blocking, if done then Enter(h) else Spin(h))
        invariant left <= budget && (n == 0 ==> !done)
        invariant budget == 0 ==> Recorded(old(model), [v], 0)
        invariant budget == 0 && n > 0 ==> (done <==> Ready(old(model), PushSide))
      {
        var turn;
        turn, left := AwaitTurn(id, Push(v), h, i, left);
        done := Turn(capacity, h) * 2 == turn;
        n := n + 1;
      }
      if done {
        left := FinishPush(id, Blocking, v, h, left);
      }
    }

    method Pop(looks: nat, ghost id: OpId, ghost budget: nat) returns (r: Option<T>, ghost t: nat)
      requires Valid() && id !in model.ops
      modifies this, turns, storage
      ensures Valid() && old(history) <= history
      ensures old(tail) <= t && At(id, Kind.Pop, Blocking, if r.Some? then Done(t, r) else Spin(t))
      ensures budget == 0 && looks > 0 ==> (r.Some? <==> Ready(old(model), PopSide))
      ensures budget == 0 ==> t == old(tail) && tail == t + 1 && model.values == old(model).values
      ensures budget == 0 && r.Some? ==> t < |model.values| && r.value == model.values[t]
    {
      Call(id, Kind.Pop, Blocking);
      var n: nat, left: nat := FetchAddTail(id, budget);
      t := n;
      var i := Idx(capacity, n);
      var ready := false;
      var seen := 0;
      while seen < looks && !ready
        invariant Valid() && old(history) <= history
        invariant At(id, Kind.Pop, Blocking, if ready then Enter(n) else Spin(n))
        invariant left <= budget && (seen == 0 ==> !ready)
        invariant budget == 0 ==> Recorded(old(model), [], 1)
        invariant budget == 0 && seen > 0 ==> (ready <==> Ready(old(model), PopSide))
      {
        var turn;
        turn, left := AwaitTurn(id, Kind.Pop, n, i, left);
        ready := Turn(capacity, n) * 2 + 1 == turn;
        seen := seen + 1;
      }
      r := None;
      if ready {
        var v;
        v, left := FinishPop(id, Blocking, n, left);
        r := Some(v);
      }
    }

    // One iteration of try_emplace's loop: over with an answer, or again with a later head.
    method TryEmplaceOnce(v: T, h: nat, ghost id: OpId, ghost budget: nat)
      returns (over: bool, ok: bool, next: nat, ghost left: nat)
      requires Valid() && At(id, Push(v), Try, Test(h)) && h == head
      modifies this, turns, storage
      ensures Valid() && old(history) <= history && left <= budget
      ensures At(id, Push(v), Try, if !over then Test(next) else if ok then Done(h, None) else Failed(h))
      ensures !over ==> next == head > h && left < budget
      ensures left == budget ==> over && (ok <==> Ready(old(model), PushSide)) && tail == old(tail)
      ensures left == budget ==> model.values == old(model).values + if ok then [v] else []
    {
      over, ok, next := false, false, h;
      var turn;
      turn, left := TestTurn(id, Push(v), h, Idx(capacity, h), budget);
      if Turn(capacity, h) * 2 == turn {
        over, next, left := CompareExchangeHead(id, Push(v), h, left);
        if over {
          ok := true;
          left := FinishPush(id, Try, v, h, left);
        }
      } else {
        next, left := LoadHead(id, Push(v), false, h, left);
        over := next == h;
      }
    }

    method TryPopOnce(n: nat, ghost id: OpId, ghost budget: nat)
      returns (over: bool, r: Option<T>, next: nat, ghost left: nat)
      requires Valid() && At(id, Kind.Pop, Try, Test(n)) && n == tail
      modifies this, turns, storage
      ensures Valid() && old(history) <= history && left <= budget
      ensures At(id, Kind.Pop, Try, if !over then Test(next) else if r.Some? then Done(n, r) else Failed(n))
      ensures !over ==> next == tail > n && left < budget
      ensures left == budget ==> over && (r.Some? <==> Ready(old(model), PopSide)) && model.values == old(model).values
      ensures left == budget ==> tail == old(tail) + if r.Some? then 1 else 0
      ensures left == budget && r.Some? ==> n < |model.values| && r.value == model.values[n]
    {
      over, r, next := false, None, n;
      var turn;
      turn, left := TestTurn(id, Kind.Pop, n, Idx(capacity, n), budget);
      if Turn(capacity, n) * 2 + 1 == turn {
        over, next, left := CompareExchangeTail(id, n, left);
        if over {
          var v;
          v, left := FinishPop(id, Try, n, left);
          r := Some(v);
        }
      } else {
        next, left := LoadTail(id, false, n, left);
        over := next == n;
      }
    }

    // t is the last ticket tried.  rounds counts the iterations of the retry loop: at most one
    // more than the tickets other pushes took between the call and its claim or failure.
    // Undisturbed, the call succeeds exactly when the next ticket's slot is ready, and appends v.
    method TryEmplace(v: T, ghost id: OpId, ghost budget: nat) returns (ok: bool, ghost t: nat, ghost rounds: nat)
      requires Valid() && id !in model.ops
      modifies this, turns, storage
      ensures Valid() && old(history) <= history
      ensures At(id, Push(v), Try, if ok then Done(t, None) else Failed(t))
      ensures old(head) <= t && rounds <= 1 + t - old(head)
      ensures budget == 0 ==> (ok <==> Ready(old(model), PushSide)) && tail == old(tail)
      ensures budget == 0 ==> model.values == old(model).values + if ok then [v] else []
    {
      Call(id, Push(v), Try);
      var h: nat, left: nat := LoadHead(id, Push(v), true, 0, budget);
      ok, t, rounds := false, 0, 0;
      var over := false;
      while !over
        invariant Valid() && old(history) <= history && left <= budget
        invariant At(id, Push(v), Try, if !over then Test(h) else if ok then Done(t, None) else Failed(t))
        invariant !over ==> old(head) + rounds <= h == head
        invariant over ==> old(head) <= t && rounds <= 1 + t - old(head)
        invariant budget == 0 && !over ==> h == old(head) && Recorded(old(model), [], 0)
        invariant budget == 0 && over ==> (ok <==> Ready(old(model), PushSide)) && tail == old(tail)
        invariant budget == 0 && over ==> model.values == old(model).values + if ok then [v] else []
        decreases !over, left
      {
        t := h;
        rounds := rounds + 1;
        over, ok, h, left := TryEmplaceOnce(v, h, id, left);
      }
    }

    // The same for pops; undisturbed, the element returned is that of the next pop ticket.
    method TryPop(ghost id: OpId, ghost budget: nat) returns (r: Option<T>, ghost t: nat, ghost rounds: nat)
      requires Valid() && id !in model.ops
      modifies this, turns, storage
      ensures Valid() && old(history) <= history
      ensures At(id, Kind.Pop, Try, if r.Some? then Done(t, r) else Failed(t))
      ensures old(tail) <= t && rounds <= 1 + t - old(tail)
      ensures budget == 0 ==> (r.Some? <==> Ready(old(model), PopSide)) && model.values == old(model).values
      ensures budget == 0 ==> tail == old(tail) + if r.Some? then 1 else 0
      ensures budget == 0 && r.Some? ==> t == old(tail) < |model.values| && r.value == model.values[t]
    {
      Call(id, Kind.Pop, Try);
      var n: nat, left: nat := LoadTail(id, true, 0, budget);
      r, t, rounds := None, 0, 0;
      var over := false;
      while !over
        invariant Valid() && old(history) <= history && left <= budget
        invariant At(id, Kind.Pop, Try, if !over then Test(n) else if r.Some? then Done(t, r) else Failed(t))
        invariant !over ==> old(tail) + rounds <= n == tail
        invariant over ==> old(tail) <= t && rounds <= 1 + t - old(tail)
        invariant budget == 0 && !over ==> n == old(tail) && Recorded(old(model), [], 0)
        invariant budget == 0 && over ==> (r.Some? <==> Ready(old(model), PopSide)) && model.values == old(model).values
        invariant budget == 0 && over ==> tail == old(tail) + if r.Some? then 1 else 0
        invariant budget == 0 && over && r.Some? ==> t == old(tail) < |model.values| && r.value == model.values[t]
        decreases !over, left
      {
        t := n;
        rounds := rounds + 1;
        over, r, n, left := TryPopOnce(n, id, left);
      }
    }

    // ---------- the destructor ----------

    lemma AtRestForTeardown()
      requires Valid() && Quiescent(model)
      ensures LifeOk(model) && forall i :: 0 <= i < capacity ==> (storage[i].Some? <==> turns[i] % 2 == 1)
    {
      RunInv(capacity, history);
      QuiescentAtRest(capacity, history);
      forall i | 0 <= i < capacity ensures storage[i].Some? <==> turns[i] % 2 == 1 {
        assert turns[..][i] == turns[i];
      }
    }

    // ~Queue, called when no call is in flight, destroys the object of every slot with an odd
    // turn.  Each slot so treated holds one, and counting these, every object ever constructed
    // has been destroyed exactly once.
    method Teardown() returns (ghost died: multiset<nat>)
      requires Valid() && Quiescent(model)
      modifies storage
      ensures forall i :: 0 <= i < capacity ==> storage[i] == None
      ensures forall k: nat :: died[k] == if k < model.made then 1 else 0
    {
      AtRestForTeardown();
      ghost var cells := model.cells;
      died := model.died;
      for i := 0 to capacity
        invariant |cells| == capacity && LifeInv(cells, model.made, died)
        invariant forall k :: 0 <= k < capacity ==> storage[k] == Stored(cells[k])
        invariant forall k :: 0 <= k < i ==> cells[k] == Dead
        invariant forall k :: i <= k < capacity ==> cells[k] == model.cells[k]
      {
        if turns[i] % 2 == 1 {
          cells, died := DestroyLeft(i, cells, died);
        }
      }
      NothingLeft(cells, model.made, died);
    }

    // ~Slot: the slot must hold an object.
    method DestroyLeft(i: nat, ghost cells: seq<Cell<T>>, ghost died: multiset<nat>)
      returns (ghost cells': seq<Cell<T>>, ghost died': multiset<nat>)
      requires i < storage.Length == |cells| && cells[i].Live? && LifeInv(cells, model.made, died)
      requires forall k :: 0 <= k < |cells| ==> storage[k] == Stored(cells[k])
      modifies storage
      ensures cells' == cells[i := Dead] && LifeInv(cells', model.made, died')
      ensures forall k :: 0 <= k < |cells| ==> storage[k] == Stored(cells'[k])
    {
      assert storage[i].Some?;
      DeathKeepsLife(cells, model.made, died, i);
      died' := died + multiset{cells[i].serial};
      cells' := cells[i := Dead];
      storage[i] := None;
    }
  }
}

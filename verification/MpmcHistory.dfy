/**
 The linearization log and the lifetimes of stored objects, as invariants of every step.
 */
module MpmcHistory {
  import opened Wrappers
  import opened Lifetime
  import opened MpmcModel
  import opened MpmcInvariant

  // ---------- the log ----------

  // The log speaks only of operations that hold a ticket, and of the values they carry.
  ghost predicate EventOk<T>(s: State<T>, e: LinEvent<T>)
    requires Shape(s)
  {
    && e.id in s.ops
    && var op := s.ops[e.id];
    && op.pc.Claimed()
    && match e
       case Enq(_, v) => op.kind == Push(v)
       case Deq(_, v) => op.kind.Pop? && op.pc.t < s.head && v == s.values[op.pc.t]
  }

  // Every push with a ticket is in the log, and every pop whose ticket has a push.
  ghost predicate Logged<T>(s: State<T>, id: OpId)
    requires Shape(s) && id in s.ops
  {
    var op := s.ops[id];
    op.pc.Claimed() ==>
      match op.kind
      case Push(v) => Enq(id, v) in s.lin
      case Pop => op.pc.t < s.head ==> Deq(id, s.values[op.pc.t]) in s.lin
  }

  function Min(a: nat, b: nat): nat {
    if a < b then a else b
  }

  ghost predicate LinInv<T>(s: State<T>)
    requires Shape(s)
  {
    && (forall e :: e in s.lin ==> EventOk(s, e))
    && (forall i, j :: 0 <= i < j < |s.lin| ==> s.lin[i].id != s.lin[j].id)
    && (forall id :: id in s.ops ==> Logged(s, id))
    && Fifo(s.lin) == Some(s.values[Min(s.head, s.tail)..])
  }

  lemma FifoAppend<T>(log: seq<LinEvent<T>>, e: LinEvent<T>)
    ensures Fifo(log + [e]) ==
            match (Fifo(log), e)
            case (None, _) => None
            case (Some(q), Enq(_, v)) => Some(q + [v])
            case (Some(q), Deq(_, v)) => if q != [] && q[0] == v then Some(q[1..]) else None
  {
    assert (log + [e])[..|log|] == log;
  }

  // Steps that claim nothing leave the log alone; the program counter stays claimed once it is.
  ghost predicate SameTickets<T>(s: State<T>, s': State<T>)
    requires Shape(s) && Shape(s')
  {
    && s'.head == s.head && s'.tail == s.tail && s'.values == s.values && s'.lin == s.lin
    && (forall i :: i in s.ops ==> i in s'.ops && s'.ops[i].kind == s.ops[i].kind)
    && (forall i :: i in s.ops && s.ops[i].pc.Claimed() ==>
                      s'.ops[i].pc.Claimed() && s'.ops[i].pc.t == s.ops[i].pc.t)
    && (forall i :: i in s'.ops && s'.ops[i].pc.Claimed() ==> i in s.ops && s.ops[i].pc.Claimed())
  }

  lemma SameTicketsKeepsLog<T>(s: State<T>, s': State<T>)
    requires Shape(s) && Shape(s') && LinInv(s) && SameTickets(s, s')
    ensures LinInv(s')
  {
    forall e | e in s'.lin ensures EventOk(s', e) {
      assert EventOk(s, e);
    }
    forall i | i in s'.ops ensures Logged(s', i) {
      if s'.ops[i].pc.Claimed() { assert Logged(s, i); }
    }
  }

  lemma PushClaimKeepsFifo<T>(s: State<T>, id: OpId, pc: Pc<T>)
    requires SlotInv(s) && LinInv(s) && Claiming(s, id, pc) && s.ops[id].kind.Push?
    ensures var s' := Claim(s, id, pc); Fifo(s'.lin) == Some(s'.values[Min(s'.head, s'.tail)..])
  {
    var v := s.ops[id].kind.value;
    var q := s.values[Min(s.head, s.tail)..];
    FifoAppend(s.lin, Enq(id, v));
    assert s.lin + [Enq(id, v)] + [] == s.lin + [Enq(id, v)];
    var values' := s.values + [v];
    if s.head < s.tail {
      FifoAppend(s.lin + [Enq(id, v)], Deq(s.poppers[s.head], v));
      assert q == [] && (q + [v])[1..] == [] == values'[s.head + 1..];
    } else {
      assert q + [v] == values'[s.tail..];
    }
  }

  lemma PopClaimKeepsFifo<T>(s: State<T>, id: OpId, pc: Pc<T>)
    requires SlotInv(s) && LinInv(s) && Claiming(s, id, pc) && s.ops[id].kind.Pop?
    ensures var s' := Claim(s, id, pc); Fifo(s'.lin) == Some(s'.values[Min(s'.head, s'.tail)..])
  {
    if s.tail < s.head {
      FifoAppend(s.lin, Deq(id, s.values[s.tail]));
      assert s.values[s.tail..][1..] == s.values[s.tail + 1..];
    } else {
      assert s.lin + [] == s.lin;
    }
  }

  // An operation without a ticket is not in the log, nor is a pop whose ticket has no push.
  lemma NotYetLogged<T>(s: State<T>, id: OpId)
    requires Shape(s) && LinInv(s) && id in s.ops
    requires var op := s.ops[id]; op.pc.Claimed() ==> op.kind.Pop? && op.pc.t >= s.head
    ensures forall e :: e in s.lin ==> e.id != id
  {
    forall e | e in s.lin ensures e.id != id {
      assert EventOk(s, e);
    }
  }

  lemma ClaimKeepsEvent<T>(s: State<T>, id: OpId, pc: Pc<T>, e: LinEvent<T>)
    requires SlotInv(s) && LinInv(s) && Claiming(s, id, pc) && e in Claim(s, id, pc).lin
    ensures EventOk(Claim(s, id, pc), e)
  {
    if e in s.lin {
      assert EventOk(s, e);
    } else if s.ops[id].kind.Push? && s.head < s.tail {
      assert TicketOk(s, PopSide, s.head);
    }
  }

  lemma ClaimKeepsLogged<T>(s: State<T>, id: OpId, pc: Pc<T>, i: OpId)
    requires SlotInv(s) && LinInv(s) && Claiming(s, id, pc) && i in s.ops
    ensures Logged(Claim(s, id, pc), i)
  {
    var s' := Claim(s, id, pc);
    assert s.lin <= s'.lin;
    assert OpOk(s, i);
    if i == id {
      match s.ops[id].kind
      case Push(v) => assert s'.lin[|s.lin|] == Enq(id, v);
      case Pop => if s.tail < s.head { assert s'.lin[|s.lin|] == Deq(id, s.values[s.tail]); }
    } else if s.ops[i].pc.Claimed() {
      assert Logged(s, i);
      if s.ops[i].kind.Pop? && s.ops[id].kind.Push? && s.ops[i].pc.t == s.head {
        assert s.poppers[s.head] == i;
        assert s'.lin[|s.lin| + 1] == Deq(i, s'.values[s.head]);
      }
    }
  }

  lemma ClaimKeepsLog<T>(s: State<T>, id: OpId, pc: Pc<T>)
    requires SlotInv(s) && LinInv(s) && Claiming(s, id, pc)
    ensures LinInv(Claim(s, id, pc))
  {
    var s' := Claim(s, id, pc);
    forall e | e in s'.lin ensures EventOk(s', e) {
      ClaimKeepsEvent(s, id, pc, e);
    }
    forall i | i in s'.ops ensures Logged(s', i) {
      ClaimKeepsLogged(s, id, pc, i);
    }
    ClaimKeepsDistinct(s, id, pc);
    if s.ops[id].kind.Push? {
      PushClaimKeepsFifo(s, id, pc);
    } else {
      PopClaimKeepsFifo(s, id, pc);
    }
  }

  lemma ClaimKeepsDistinct<T>(s: State<T>, id: OpId, pc: Pc<T>)
    requires SlotInv(s) && LinInv(s) && Claiming(s, id, pc)
    ensures var lin := Claim(s, id, pc).lin; forall i, j :: 0 <= i < j < |lin| ==> lin[i].id != lin[j].id
  {
    NotYetLogged(s, id);
    if s.ops[id].kind.Push? && s.head < s.tail {
      assert TicketOk(s, PopSide, s.head);
      NotYetLogged(s, s.poppers[s.head]);
    }
  }

  predicate ClaimsNow<T>(s: State<T>, id: OpId)
    requires Shape(s) && id in s.ops
  {
    var op := s.ops[id];
    || (op.pc.Start? && op.mode.Blocking?)
    || (op.pc.Cas? && Counter(s, op.kind.Side()) == op.pc.t)
  }

  lemma SetPcKeepsTickets<T>(s: State<T>, id: OpId, pc: Pc<T>)
    requires Shape(s) && id in s.ops
    requires var was := s.ops[id].pc;
      pc.Claimed() == was.Claimed() && (pc.Claimed() ==> pc.t == was.t)
    ensures SameTickets(s, SetPc(s, id, pc))
  {
  }

  lemma OtherStepsKeepTickets<T>(s: State<T>, id: OpId)
    requires SlotInv(s) && id in s.ops && !ClaimsNow(s, id)
    ensures SameTickets(s, StepOp(s, id))
  {
    var op := s.ops[id];
    assert OpOk(s, id);
    var n := Counter(s, op.kind.Side());
    match op.pc
    case Start => SetPcKeepsTickets(s, id, Test(n));
    case Spin(t) => SetPcKeepsTickets(s, id, Enter(t));
    case Test(t) => SetPcKeepsTickets(s, id, Cas(t)); SetPcKeepsTickets(s, id, Reload(t));
    case Cas(t) => SetPcKeepsTickets(s, id, Test(n));
    case Reload(t) => SetPcKeepsTickets(s, id, Test(n)); SetPcKeepsTickets(s, id, Failed(t));
    case Enter(t) => EnterKeepsTickets(s, id, t);
    case Erase(t, v) => EraseKeepsTickets(s, id, t, v);
    case Leave(t, r) => SetPcKeepsTickets(s, id, Done(t, r));
    case _ =>
  }

  lemma EnterKeepsTickets<T>(s: State<T>, id: OpId, t: nat)
    requires SlotInv(s) && id in s.ops && s.ops[id].pc == Enter(t)
    ensures SameTickets(s, UseSlot(s, id, t))
  {
    assert OpOk(s, id);
    assert TicketOk(s, s.ops[id].kind.Side(), t);
    SetPcKeepsTickets(s, id, Leave(t, None));
  }

  lemma EraseKeepsTickets<T>(s: State<T>, id: OpId, t: nat, v: T)
    requires SlotInv(s) && id in s.ops && s.ops[id].pc == Erase(t, v)
    ensures SameTickets(s, DestroySlot(s, id, t, v))
  {
    assert OpOk(s, id);
    assert TicketOk(s, s.ops[id].kind.Side(), t);
    SetPcKeepsTickets(s, id, Leave(t, Some(v)));
  }

  lemma StepKeepsLog<T>(s: State<T>, e: Event<T>)
    requires SlotInv(s) && LinInv(s)
    ensures LinInv(Step(s, e))
  {
    var s' := Step(s, e);
    if e.Advance? && e.id in s.ops {
      var op := s.ops[e.id];
      var n := Counter(s, op.kind.Side());
      assert OpOk(s, e.id);
      if op.pc.Start? && op.mode.Blocking? {
        ClaimKeepsLog(s, e.id, Spin(n));
      } else if op.pc.Cas? && n == op.pc.t {
        ClaimKeepsLog(s, e.id, Enter(n));
      } else {
        OtherStepsKeepTickets(s, e.id);
        SameTicketsKeepsLog(s, s');
      }
    } else {
      SameTicketsKeepsLog(s, s');
    }
  }

  // ---------- lifetimes ----------

  ghost predicate LifeOk<T>(s: State<T>) {
    LifeInv(s.cells, s.made, s.died)
  }

  lemma EnterKeepsLife<T>(s: State<T>, id: OpId, t: nat)
    requires Shape(s) && LifeOk(s) && id in s.ops
    ensures LifeOk(UseSlot(s, id, t))
  {
    var i := Idx(s.cap, t);
    if s.ops[id].kind.Push? && s.cells[i].Dead? {
      BirthKeepsLife(s.cells, s.made, s.died, i, s.ops[id].kind.value);
    }
  }

  lemma EraseKeepsLife<T>(s: State<T>, id: OpId, t: nat, v: T)
    requires Shape(s) && LifeOk(s) && id in s.ops
    ensures LifeOk(DestroySlot(s, id, t, v))
  {
    var i := Idx(s.cap, t);
    if s.cells[i].Live? {
      DeathKeepsLife(s.cells, s.made, s.died, i);
    }
  }

  lemma StepKeepsLife<T>(s: State<T>, e: Event<T>)
    requires Shape(s) && LifeOk(s)
    ensures LifeOk(Step(s, e))
  {
    if e.Advance? && e.id in s.ops {
      var pc := s.ops[e.id].pc;
      if pc.Enter? {
        EnterKeepsLife(s, e.id, pc.t);
      } else if pc.Erase? {
        EraseKeepsLife(s, e.id, pc.t, pc.got);
      } else {
        var s' := Step(s, e);
        assert s'.cells == s.cells && s'.made == s.made && s'.died == s.died;
      }
    }
  }

  // ---------- every reachable state ----------

  ghost predicate Inv<T>(s: State<T>) {
    SlotInv(s) && LinInv(s) && LifeOk(s)
  }

  lemma InitialInv<T>(cap: nat)
    requires cap > 0
    ensures Shape(Initial<T>(cap)) && Inv(Initial<T>(cap))
  {
    var s := Initial<T>(cap);
    forall side, t: nat ensures TicketOk(s, side, t) {}
  }

  lemma StepKeepsInv<T>(s: State<T>, e: Event<T>)
    requires Inv(s)
    ensures Inv(Step(s, e))
  {
    match e {
      case Invoke(id, kind, mode) => InvokeKeepsSlots(s, id, kind, mode);
      case Advance(id) => StepOpKeepsSlots(s, id);
    }
    StepKeepsLog(s, e);
    StepKeepsLife(s, e);
  }

  lemma {:induction false} ExecKeepsInv<T>(s: State<T>, schedule: seq<Event<T>>)
    requires Inv(s)
    ensures Inv(Exec(s, schedule))
    decreases |schedule|
  {
    if schedule != [] {
      var n := |schedule| - 1;
      ExecKeepsInv(s, schedule[..n]);
      StepKeepsInv(Exec(s, schedule[..n]), schedule[n]);
    }
  }

  lemma {:induction false} ExecConcat<T>(s: State<T>, a: seq<Event<T>>, b: seq<Event<T>>)
    requires Shape(s)
    ensures Exec(s, a + b) == Exec(Exec(s, a), b)
    decreases |b|
  {
    if b == [] {
      assert a + b == a;
    } else {
      var n := |b| - 1;
      ExecConcat(s, a, b[..n]);
      assert (a + b)[..|a + b| - 1] == a + b[..n];
    }
  }

  // ---------- what never goes back ----------

  // Counters and turns only grow, records are only appended to, and an operation keeps what it
  // is, its ticket and its answer.
  ghost predicate Later<T>(s: State<T>, s': State<T>)
    requires Shape(s) && Shape(s') && s.cap == s'.cap
  {
    && s.pushers <= s'.pushers && s.values <= s'.values && s.poppers <= s'.poppers && s.lin <= s'.lin
    && (forall i :: 0 <= i < s.cap ==> s.turns[i] <= s'.turns[i])
    && (forall id :: id in s.ops ==> id in s'.ops && OpLater(s.ops[id], s'.ops[id]))
  }

  predicate OpLater<T(==)>(op: Op<T>, op': Op<T>) {
    && op'.kind == op.kind && op'.mode == op.mode
    && (op.pc.Finished() ==> op'.pc == op.pc)
    && (op.pc.Claimed() && !op'.pc.Undefined? ==> op'.pc.Claimed() && op'.pc.t == op.pc.t)
  }

  lemma StepLater<T>(s: State<T>, e: Event<T>)
    requires Inv(s)
    ensures Later(s, Step(s, e))
  {
    match e
    case Invoke(_, _, _) =>
    case Advance(id) => if id in s.ops { StepOpLater(s, id); }
  }

  lemma StepOpLater<T>(s: State<T>, id: OpId)
    requires Inv(s) && id in s.ops
    ensures Later(s, StepOp(s, id))
  {
    assert OpOk(s, id);
    if ClaimsNow(s, id) {
      ClaimLater(s, id, if s.ops[id].pc.Start? then Spin(Counter(s, s.ops[id].kind.Side())) else Enter(s.ops[id].pc.t));
    } else {
      OtherStepsKeepTickets(s, id);
      OtherStepsGrow(s, id);
    }
  }

  lemma ClaimLater<T>(s: State<T>, id: OpId, pc: Pc<T>)
    requires Shape(s) && id in s.ops && !s.ops[id].pc.Claimed() && !s.ops[id].pc.Finished()
    ensures Later(s, Claim(s, id, pc))
  {
    assert s.lin <= Claim(s, id, pc).lin;
  }

  lemma OtherStepsGrow<T>(s: State<T>, id: OpId)
    requires SlotInv(s) && id in s.ops && !ClaimsNow(s, id)
    ensures var s' := StepOp(s, id);
      && s'.pushers == s.pushers && s'.poppers == s.poppers
      && (forall i :: 0 <= i < s.cap ==> s.turns[i] <= s'.turns[i])
      && (forall i :: i in s.ops ==> i in s'.ops && (i == id || s'.ops[i] == s.ops[i]))
      && s'.ops[id].mode == s.ops[id].mode
      && (s.ops[id].pc.Finished() ==> s' == s)
  {
    assert OpOk(s, id);
  }

  lemma {:induction false} ExecLater<T>(s: State<T>, schedule: seq<Event<T>>)
    requires Inv(s)
    ensures Later(s, Exec(s, schedule))
    decreases |schedule|
  {
    if schedule != [] {
      var n := |schedule| - 1;
      var m := Exec(s, schedule[..n]);
      ExecLater(s, schedule[..n]);
      ExecKeepsInv(s, schedule[..n]);
      StepLater(m, schedule[n]);
      StepKeepsInv(m, schedule[n]);
      LaterTransitive(s, m, Exec(s, schedule));
    }
  }

  lemma LaterTransitive<T>(a: State<T>, b: State<T>, c: State<T>)
    requires Shape(a) && Shape(b) && Shape(c) && a.cap == b.cap == c.cap
    requires Inv(b) && Later(a, b) && Later(b, c)
    ensures Later(a, c)
  {
    forall id | id in a.ops ensures id in c.ops && OpLater(a.ops[id], c.ops[id]) {
      assert OpLater(a.ops[id], b.ops[id]) && OpLater(b.ops[id], c.ops[id]);
      assert OpOk(b, id);
    }
  }
}

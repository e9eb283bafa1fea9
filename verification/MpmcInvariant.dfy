/**
 The inductive invariant of the queue.

 Turn arithmetic does all the work: a slot's turn equals Want(side, t) for at most one side and
 ticket t, so a turn names the one operation that may use the slot next.
 */
module MpmcInvariant {
  import opened Wrappers
  import opened Lifetime
  import opened MpmcModel

  // A side and a ticket are determined by the slot and the turn they wait for.
  lemma WantInjective(cap: nat, side: Side, t: nat, side': Side, t': nat)
    requires cap > 0
    requires Idx(cap, t) == Idx(cap, t') && Want(cap, side, t) == Want(cap, side', t')
    ensures side == side' && t == t'
  {
    assert Turn(cap, t) == Turn(cap, t');
    assert t == cap * Turn(cap, t) + Idx(cap, t);
    assert t' == cap * Turn(cap, t') + Idx(cap, t');
  }

  // ---------- slots and tickets ----------

  ghost predicate Leaving<T>(s: State<T>, side: Side, t: nat)
    requires Shape(s)
  {
    && t < Counter(s, side)
    && Owners(s, side)[t] in s.ops
    && s.ops[Owners(s, side)[t]].pc.Leave?
  }

  // The slot whose turn is that of (side, t) holds the object of ticket t exactly when its push
  // has constructed it and its pop has not destroyed it.
  ghost predicate CellOk<T>(s: State<T>, side: Side, t: nat)
    requires Shape(s)
  {
    var c := s.cells[Idx(s.cap, t)];
    && (c.Live? <==> (side.PopSide? != Leaving(s, side, t)))
    && (c.Live? ==> t < s.head && c.value == s.values[t])
  }

  ghost predicate TicketOk<T>(s: State<T>, side: Side, t: nat)
    requires Shape(s)
  {
    var turn := s.turns[Idx(s.cap, t)];
    var want := Want(s.cap, side, t);
    && (t < Counter(s, side) ==>
          && Owners(s, side)[t] in s.ops
          && var op := s.ops[Owners(s, side)[t]];
          && op.kind.Side() == side && op.pc.Claimed() && op.pc.t == t)
    && (t >= Counter(s, side) ==> turn <= want)
    && (turn == want ==> CellOk(s, side, t))
  }

  // ---------- operations ----------

  ghost predicate Owns<T>(s: State<T>, id: OpId, t: nat)
    requires Shape(s) && id in s.ops
  {
    var kind := s.ops[id].kind;
    && t < Counter(s, kind.Side())
    && Owners(s, kind.Side())[t] == id
    && (kind.Push? ==> s.values[t] == kind.value)
  }

  // What the operation with ticket t answers: a pop returns what the push of ticket t brought.
  ghost predicate ResultOk<T>(s: State<T>, kind: Kind<T>, t: nat, r: Option<T>)
    requires Shape(s)
  {
    match kind
    case Push(_) => r == None
    case Pop => t < s.head && r == Some(s.values[t])
  }

  ghost predicate OpOk<T>(s: State<T>, id: OpId)
    requires Shape(s) && id in s.ops
  {
    var op := s.ops[id];
    var side := op.kind.Side();
    match op.pc
    case Start => true
    case Spin(t) => Owns(s, id, t) && s.turns[Idx(s.cap, t)] <= Want(s.cap, side, t)
    case Test(t) => t <= Counter(s, side)
    case Cas(t) => t <= Counter(s, side) && s.turns[Idx(s.cap, t)] >= Want(s.cap, side, t)
    case Reload(t) => t <= Counter(s, side)
    case Enter(t) => Owns(s, id, t) && s.turns[Idx(s.cap, t)] == Want(s.cap, side, t)
    case Erase(t, v) =>
      && Owns(s, id, t) && s.turns[Idx(s.cap, t)] == Want(s.cap, side, t)
      && op.kind.Pop? && ResultOk(s, op.kind, t, Some(v))
    case Leave(t, r) =>
      Owns(s, id, t) && s.turns[Idx(s.cap, t)] == Want(s.cap, side, t) && ResultOk(s, op.kind, t, r)
    case Done(t, r) =>
      Owns(s, id, t) && s.turns[Idx(s.cap, t)] > Want(s.cap, side, t) && ResultOk(s, op.kind, t, r)
    case Failed(t) => t <= Counter(s, side)
    case Undefined => false
  }

  ghost predicate SlotInv<T>(s: State<T>) {
    && Shape(s)
    && (forall side, t: nat :: TicketOk(s, side, t))
    && (forall id :: id in s.ops ==> OpOk(s, id))
  }

  lemma InvokeKeepsSlots<T>(s: State<T>, id: OpId, kind: Kind<T>, mode: Mode)
    requires SlotInv(s)
    ensures SlotInv(Step(s, Invoke(id, kind, mode)))
  {
    var s' := Step(s, Invoke(id, kind, mode));
    forall side, t: nat ensures TicketOk(s', side, t) {
      assert TicketOk(s, side, t);
    }
    forall i | i in s'.ops ensures OpOk(s', i) {
      if i in s.ops { assert OpOk(s, i); }
    }
  }

  // A step that only moves the program counter of an operation, between points with or
  // without the ticket it has, keeps the invariant if the operation's own part holds.
  lemma MoveKeepsSlots<T>(s: State<T>, id: OpId, pc: Pc<T>)
    requires SlotInv(s) && id in s.ops
    requires var was := s.ops[id].pc;
      && !was.Leave? && !pc.Leave?
      && (was.Claimed() ==> pc.Claimed() && pc.t == was.t)
    requires OpOk(SetPc(s, id, pc), id)
    ensures SlotInv(SetPc(s, id, pc))
  {
    var s' := SetPc(s, id, pc);
    forall side, t: nat ensures TicketOk(s', side, t) {
      assert TicketOk(s, side, t);
    }
    forall i | i in s'.ops ensures OpOk(s', i) {
      assert OpOk(s, i);
    }
  }

  // The next ticket of the operation's side, taken either to wait or with the slot ready.
  ghost predicate Claiming<T>(s: State<T>, id: OpId, pc: Pc<T>)
    requires Shape(s)
  {
    && id in s.ops && !s.ops[id].pc.Claimed()
    && var side := s.ops[id].kind.Side();
    && var t := Counter(s, side);
    && (pc == Spin(t) || (pc == Enter(t) && s.turns[Idx(s.cap, t)] >= Want(s.cap, side, t)))
  }

  lemma ClaimKeepsTicket<T>(s: State<T>, id: OpId, pc: Pc<T>, side: Side, t: nat)
    requires SlotInv(s) && Claiming(s, id, pc)
    ensures TicketOk(Claim(s, id, pc), side, t)
  {
    assert TicketOk(s, side, t);
    if t < Counter(s, side) {
      assert Owners(Claim(s, id, pc), side)[t] == Owners(s, side)[t];
    }
  }

  // s' has the same slots and more tickets claimed.
  ghost predicate Extends<T>(s: State<T>, s': State<T>)
    requires Shape(s) && Shape(s')
  {
    && s'.cap == s.cap && s'.turns == s.turns
    && s.pushers <= s'.pushers && s.values <= s'.values && s.poppers <= s'.poppers
  }

  lemma ExtendKeepsOp<T>(s: State<T>, s': State<T>, i: OpId)
    requires Shape(s) && Shape(s') && Extends(s, s')
    requires i in s.ops && i in s'.ops && s'.ops[i] == s.ops[i] && OpOk(s, i)
    ensures OpOk(s', i)
  {
    forall t: nat | t < s.head ensures s'.values[t] == s.values[t] && s'.pushers[t] == s.pushers[t] {}
    forall t: nat | t < s.tail ensures s'.poppers[t] == s.poppers[t] {}
  }

  lemma ClaimKeepsSlots<T>(s: State<T>, id: OpId, pc: Pc<T>)
    requires SlotInv(s) && Claiming(s, id, pc)
    ensures SlotInv(Claim(s, id, pc))
  {
    var s' := Claim(s, id, pc);
    forall side, t: nat ensures TicketOk(s', side, t) {
      ClaimKeepsTicket(s, id, pc, side, t);
    }
    var side := s.ops[id].kind.Side();
    assert TicketOk(s, side, Counter(s, side));
    forall i | i in s'.ops ensures OpOk(s', i) {
      if i != id { ExtendKeepsOp(s, s', i); }
    }
  }

  lemma UseSlotKeepsSlots<T>(s: State<T>, id: OpId, t: nat)
    requires SlotInv(s) && id in s.ops && s.ops[id].pc == Enter(t)
    ensures SlotInv(UseSlot(s, id, t))
  {
    var s' := UseSlot(s, id, t);
    var mine := s.ops[id].kind.Side();
    assert OpOk(s, id);
    assert TicketOk(s, mine, t);
    forall side, t': nat ensures TicketOk(s', side, t') {
      assert TicketOk(s, side, t');
      if Idx(s.cap, t') == Idx(s.cap, t) && Want(s.cap, side, t') == Want(s.cap, mine, t) {
        WantInjective(s.cap, side, t', mine, t);
      }
    }
    forall i | i in s'.ops ensures OpOk(s', i) {
      assert OpOk(s, i);
    }
  }

  lemma DestroySlotKeepsSlots<T>(s: State<T>, id: OpId, t: nat, v: T)
    requires SlotInv(s) && id in s.ops && s.ops[id].pc == Erase(t, v)
    ensures SlotInv(DestroySlot(s, id, t, v))
  {
    var s' := DestroySlot(s, id, t, v);
    var mine := s.ops[id].kind.Side();
    assert OpOk(s, id);
    assert TicketOk(s, mine, t);
    forall side, t': nat ensures TicketOk(s', side, t') {
      assert TicketOk(s, side, t');
      if Idx(s.cap, t') == Idx(s.cap, t) && Want(s.cap, side, t') == Want(s.cap, mine, t) {
        WantInjective(s.cap, side, t', mine, t);
      }
    }
    forall i | i in s'.ops ensures OpOk(s', i) {
      assert OpOk(s, i);
    }
  }

  // Storing the turn hands the slot to the next side: the pop of the same ticket, or the push
  // of the ticket one lap later.
  lemma LeaveKeepsSlots<T>(s: State<T>, id: OpId)
    requires SlotInv(s) && id in s.ops && s.ops[id].pc.Leave?
    ensures SlotInv(StepOp(s, id))
  {
    var s' := StepOp(s, id);
    var mine, t := s.ops[id].kind.Side(), s.ops[id].pc.t;
    assert OpOk(s, id);
    assert TicketOk(s, mine, t);
    forall side, t': nat ensures TicketOk(s', side, t') {
      LeaveKeepsTicket(s, id, side, t');
    }
    forall i | i in s'.ops ensures OpOk(s', i) {
      assert OpOk(s, i);
      var pc := s.ops[i].pc;
      if i != id && !pc.Start? && !pc.Undefined? && Idx(s.cap, pc.t) == Idx(s.cap, t)
         && Want(s.cap, s.ops[i].kind.Side(), pc.t) == Want(s.cap, mine, t) {
        WantInjective(s.cap, s.ops[i].kind.Side(), pc.t, mine, t);
      }
    }
  }

  lemma LeaveKeepsTicket<T>(s: State<T>, id: OpId, side: Side, t': nat)
    requires SlotInv(s) && id in s.ops && s.ops[id].pc.Leave?
    ensures TicketOk(StepOp(s, id), side, t')
  {
    var s' := StepOp(s, id);
    var mine, t := s.ops[id].kind.Side(), s.ops[id].pc.t;
    assert OpOk(s, id);
    assert TicketOk(s, mine, t);
    assert TicketOk(s, side, t');
    if Idx(s.cap, t') == Idx(s.cap, t) {
      if Want(s.cap, side, t') == Want(s.cap, mine, t) {
        WantInjective(s.cap, side, t', mine, t);
      }
      if s'.turns[Idx(s.cap, t')] == Want(s.cap, side, t') {
        if t' < Counter(s, side) {
          assert OpOk(s, Owners(s, side)[t']);
        }
        if mine.PushSide? {
          WantInjective(s.cap, side, t', PopSide, t);
        }
      }
    }
  }

  lemma StepOpKeepsSlots<T>(s: State<T>, id: OpId)
    requires SlotInv(s)
    ensures SlotInv(StepOp(s, id))
  {
    if id !in s.ops { return; }
    assert OpOk(s, id);
    var op := s.ops[id];
    var side := op.kind.Side();
    var n := Counter(s, side);
    match op.pc
    case Start =>
      if op.mode.Blocking? { ClaimKeepsSlots(s, id, Spin(n)); } else { MoveKeepsSlots(s, id, Test(n)); }
    case Spin(t) =>
      if s.turns[Idx(s.cap, t)] == Want(s.cap, side, t) { MoveKeepsSlots(s, id, Enter(t)); }
    case Test(t) =>
      if s.turns[Idx(s.cap, t)] == Want(s.cap, side, t) {
        MoveKeepsSlots(s, id, Cas(t));
      } else {
        MoveKeepsSlots(s, id, Reload(t));
      }
    case Cas(t) =>
      if n == t { ClaimKeepsSlots(s, id, Enter(t)); } else { MoveKeepsSlots(s, id, Test(n)); }
    case Reload(t) =>
      if n == t { MoveKeepsSlots(s, id, Failed(t)); } else { MoveKeepsSlots(s, id, Test(n)); }
    case Enter(t) => UseSlotKeepsSlots(s, id, t);
    case Erase(t, v) => DestroySlotKeepsSlots(s, id, t, v);
    case Leave(_, _) => LeaveKeepsSlots(s, id);
    case _ =>
  }
}

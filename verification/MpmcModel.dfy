/**
 The multi-producer multi-consumer queue as a state machine.

 Every access to shared memory is one step, steps of different operations interleave in any
 order, and any number of operations may be in flight.  An operation is one call of emplace,
 try_emplace, pop or try_pop; it is known by an identifier that is never reused.

 The state records, beside the queue's own memory, which operation claimed which ticket, the
 value each pushing ticket carries, the log of linearization points, and how often each
 constructed element was destroyed.  No step ever branches on these records.
 */
module MpmcModel {
  import opened Wrappers
  import opened Lifetime

  type OpId = nat

  datatype Side = PushSide | PopSide

  datatype Kind<T> = Push(value: T) | Pop {
    function Side(): Side {
      if Push? then PushSide else PopSide
    }
  }

  datatype Mode = Blocking | Try

  // What an operation does next; t is its local copy of head_ or tail_.
  datatype Pc<T> =
    | Start                            // fetch_add (blocking) or first load (try) of the counter
    | Spin(t: nat)                     // ticket claimed, waiting for the slot's turn
    | Test(t: nat)                     // load the slot's turn
    | Cas(t: nat)                      // the turn matched: compare-exchange of the counter
    | Reload(t: nat)                   // the turn did not match: load the counter again
    | Enter(t: nat)                    // the slot is ours: construct or move
    | Erase(t: nat, got: T)            // moved out: destroy
    | Leave(t: nat, result: Option<T>) // store the next turn
    | Done(t: nat, result: Option<T>)
    | Failed(t: nat)                   // try_emplace or try_pop returned false
    | Undefined                        // constructed over a live object, or used a dead one
  {
    // The operation has a ticket.
    predicate Claimed() {
      Spin? || Enter? || Erase? || Leave? || Done?
    }

    // The operation is between having the slot to itself and storing its turn.
    predicate Critical() {
      Enter? || Erase? || Leave?
    }

    predicate Finished() {
      Done? || Failed?
    }
  }

  datatype Op<T> = Op(kind: Kind<T>, mode: Mode, pc: Pc<T>)

  datatype LinEvent<T> = Enq(id: OpId, value: T) | Deq(id: OpId, value: T)

  datatype State<T> = State(
    cap: nat,
    head: nat,
    tail: nat,
    turns: seq<nat>,
    cells: seq<Cell<T>>,
    ops: map<OpId, Op<T>>,
    pushers: seq<OpId>,         // pushers[t] claimed head ticket t
    values: seq<T>,             // and pushes values[t]
    poppers: seq<OpId>,         // poppers[t] claimed tail ticket t
    lin: seq<LinEvent<T>>,
    made: nat,                  // objects constructed so far
    died: multiset<nat>         // serial numbers of destroyed objects
  )

  datatype Event<T> = Invoke(id: OpId, kind: Kind<T>, mode: Mode) | Advance(id: OpId)

  function Idx(cap: nat, t: nat): nat
    requires cap > 0
  {
    t % cap
  }

  function Turn(cap: nat, t: nat): nat
    requires cap > 0
  {
    t / cap
  }

  // The turn at which ticket t of a side may use its slot.
  function Want(cap: nat, side: Side, t: nat): nat
    requires cap > 0
  {
    2 * Turn(cap, t) + if side.PushSide? then 0 else 1
  }

  predicate Shape<T>(s: State<T>) {
    && s.cap > 0
    && |s.turns| == |s.cells| == s.cap
    && |s.pushers| == |s.values| == s.head
    && |s.poppers| == s.tail
  }

  function Initial<T>(cap: nat): State<T> {
    State(cap, 0, 0, seq(cap, _ => 0), seq(cap, _ => Dead), map[], [], [], [], [], 0, multiset{})
  }

  function Counter<T>(s: State<T>, side: Side): nat {
    if side.PushSide? then s.head else s.tail
  }

  function Owners<T>(s: State<T>, side: Side): seq<OpId> {
    if side.PushSide? then s.pushers else s.poppers
  }

  function SetPc<T>(s: State<T>, id: OpId, pc: Pc<T>): State<T>
    requires id in s.ops
  {
    s.(ops := s.ops[id := s.ops[id].(pc := pc)])
  }

  // The counter is raised by one and the operation takes the old value as its ticket.  A push
  // linearizes here; so does the pop waiting for this very ticket, or a pop whose push is there.
  function Claim<T>(s: State<T>, id: OpId, pc: Pc<T>): State<T>
    requires Shape(s) && id in s.ops
  {
    var s' := SetPc(s, id, pc);
    match s.ops[id].kind
    case Push(v) =>
      s'.(head := s.head + 1, pushers := s.pushers + [id], values := s.values + [v],
      lin := s.lin + [Enq(id, v)] + if s.head < s.tail then [Deq(s.poppers[s.head], v)] else [])
    case Pop =>
      s'.(tail := s.tail + 1, poppers := s.poppers + [id],
      lin := s.lin + if s.tail < s.head then [Deq(id, s.values[s.tail])] else [])
  }

  // construct, or move, on the slot of ticket t.
  function UseSlot<T>(s: State<T>, id: OpId, t: nat): State<T>
    requires Shape(s) && id in s.ops
  {
    var i := Idx(s.cap, t);
    match (s.ops[id].kind, s.cells[i])
    case (Push(v), Dead) =>
      SetPc(s, id, Leave(t, None)).(cells := s.cells[i := Live(s.made, v)], made := s.made + 1)
    case (Pop, Live(_, v)) =>
      SetPc(s, id, Erase(t, v))
    case _ =>
      SetPc(s, id, Undefined)
  }

  function DestroySlot<T>(s: State<T>, id: OpId, t: nat, v: T): State<T>
    requires Shape(s) && id in s.ops
  {
    var i := Idx(s.cap, t);
    match s.cells[i]
    case Live(serial, _) =>
      SetPc(s, id, Leave(t, Some(v))).(cells := s.cells[i := Dead], died := s.died + multiset{serial})
    case Dead =>
      SetPc(s, id, Undefined)
  }

  // One atomic step of operation id, whatever it is about to do.
  function StepOp<T>(s: State<T>, id: OpId): (r: State<T>)
    requires Shape(s)
    ensures Shape(r) && r.cap == s.cap
  {
    if id !in s.ops then s else
    var op := s.ops[id];
    var side := op.kind.Side();
    var n := Counter(s, side);
    match op.pc
    case Start => if op.mode.Blocking? then Claim(s, id, Spin(n)) else SetPc(s, id, Test(n))
    case Spin(t) => if s.turns[Idx(s.cap, t)] == Want(s.cap, side, t) then SetPc(s, id, Enter(t)) else s
    case Test(t) =>
      if s.turns[Idx(s.cap, t)] == Want(s.cap, side, t) then SetPc(s, id, Cas(t)) else SetPc(s, id, Reload(t))
    case Cas(t) => if n == t then Claim(s, id, Enter(t)) else SetPc(s, id, Test(n))
    case Reload(t) => if n == t then SetPc(s, id, Failed(t)) else SetPc(s, id, Test(n))
    case Enter(t) => UseSlot(s, id, t)
    case Erase(t, v) => DestroySlot(s, id, t, v)
    case Leave(t, r) =>
      SetPc(s, id, Done(t, r)).(turns := s.turns[Idx(s.cap, t) := Want(s.cap, side, t) + 1])
    case _ => s
  }

  function Step<T>(s: State<T>, e: Event<T>): (r: State<T>)
    requires Shape(s)
    ensures Shape(r) && r.cap == s.cap
  {
    match e
    case Invoke(id, kind, mode) => if id in s.ops then s else s.(ops := s.ops[id := Op(kind, mode, Start)])
    case Advance(id) => StepOp(s, id)
  }

  function Exec<T>(s: State<T>, schedule: seq<Event<T>>): (r: State<T>)
    requires Shape(s)
    ensures Shape(r) && r.cap == s.cap
    decreases |schedule|
  {
    if schedule == [] then s else
    Step(Exec(s, schedule[..|schedule| - 1]), schedule[|schedule| - 1])
  }

  // The atomic specification: an unbounded first-in first-out queue.  None marks an illegal log.
  function Fifo<T(==)>(log: seq<LinEvent<T>>): Option<seq<T>> {
    if log == [] then Some([]) else
    match (Fifo(log[..|log| - 1]), log[|log| - 1])
    case (None, _) => None
    case (Some(q), Enq(_, v)) => Some(q + [v])
    case (Some(q), Deq(_, v)) => if q != [] && q[0] == v then Some(q[1..]) else None
  }
}

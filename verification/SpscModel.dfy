/**
 The single-producer single-consumer queue as a state machine: one producer thread and one
 consumer thread, whose steps interleave in any order.

 Each side keeps a private copy of the other side's index and reloads it only when it must.
 Besides the queue's memory the state records the elements pushed and popped so far; no step
 branches on these records.  capacity_, one more than the user's capacity, is cap here.
 */
module SpscModel {
  import opened Wrappers
  import opened Lifetime

  datatype Mode = Blocking | Try

  datatype Producer<T> =
    | Free                      // between calls
    | Reload(v: T, mode: Mode)  // the cached read index says full: load the real one
    | Construct(v: T)           // there is room
    | Publish(v: T)             // constructed: store the write index

  datatype Consumer<T> =
    | Ready                     // between calls
    | Look                      // in front, the cached write index says empty: load the real one
    | Destroy                   // in pop
    | Release(v: T)             // destroyed v: store the read index

  datatype State<T> = State(
    cap: nat,
    writeIdx: nat,
    readIdx: nat,
    readIdxCache: nat,          // the producer's
    writeIdxCache: nat,         // the consumer's
    cells: seq<Cell<T>>,
    producer: Producer<T>,
    consumer: Consumer<T>,
    pushed: Option<bool>,       // the answer of the last finished push call
    front: Option<nat>,         // the answer of the last front, until the next pop
    broken: bool,               // undefined behaviour has happened
    sent: seq<T>,               // elements published so far
    taken: seq<T>,              // elements released so far
    seenRead: nat,              // |taken| when readIdxCache was loaded
    seenWrite: nat,             // |sent| when writeIdxCache was loaded
    made: nat,
    died: multiset<nat>
  )

  datatype Event<T> = Push(v: T, mode: Mode) | ProducerStep | Front | Pop | ConsumerStep {
    predicate ByProducer() {
      Push? || ProducerStep?
    }
  }

  predicate Shape<T>(s: State<T>) {
    && s.cap >= 2 && |s.cells| == s.cap
    && s.writeIdx < s.cap && s.readIdx < s.cap
  }

  function Initial<T>(cap: nat): State<T> {
    State(cap, 0, 0, 0, 0, seq(cap, _ => Dead), Free, Ready, None, None, false, [], [], 0, 0, 0, multiset{})
  }

  // Indices wrap by compare and reset.
  function Next(cap: nat, i: nat): nat {
    if i + 1 == cap then 0 else i + 1
  }

  function ProducerMoves<T>(s: State<T>): State<T>
    requires Shape(s)
  {
    match s.producer
    case Free => s
    case Reload(v, mode) =>
      var s' := s.(readIdxCache := s.readIdx, seenRead := |s.taken|);
      if Next(s.cap, s.writeIdx) != s.readIdx then s'.(producer := Construct(v))
      else if mode.Try? then s'.(producer := Free, pushed := Some(false))
      else s'
    case Construct(v) =>
      if s.cells[s.writeIdx].Live? then s.(broken := true) else
      s.(producer := Publish(v), cells := s.cells[s.writeIdx := Live(s.made, v)], made := s.made + 1)
    case Publish(v) =>
      s.(producer := Free, pushed := Some(true), writeIdx := Next(s.cap, s.writeIdx), sent := s.sent + [v])
  }

  function ConsumerMoves<T>(s: State<T>): State<T>
    requires Shape(s)
  {
    match s.consumer
    case Ready => s
    case Look =>
      s.(consumer := Ready, writeIdxCache := s.writeIdx, seenWrite := |s.sent|,
      front := if s.writeIdx == s.readIdx then None else Some(s.readIdx))
    case Destroy =>
      if s.cells[s.readIdx].Dead? then s.(broken := true) else
      s.(consumer := Release(s.cells[s.readIdx].value), cells := s.cells[s.readIdx := Dead],
      died := s.died + multiset{s.cells[s.readIdx].serial})
    case Release(v) =>
      s.(consumer := Ready, readIdx := Next(s.cap, s.readIdx), taken := s.taken + [v])
  }

  // A call is ignored while the same thread's previous one is still running.  pop asserts that
  // the queue is not empty.
  function Step<T>(s: State<T>, e: Event<T>): (r: State<T>)
    requires Shape(s)
    ensures Shape(r) && r.cap == s.cap
  {
    match e
    case Push(v, mode) =>
      if !s.producer.Free? then s else
      s.(producer := if Next(s.cap, s.writeIdx) == s.readIdxCache then Reload(v, mode) else Construct(v))
    case ProducerStep => ProducerMoves(s)
    case Front =>
      if !s.consumer.Ready? then s
      else if s.readIdx == s.writeIdxCache then s.(consumer := Look)
      else s.(front := Some(s.readIdx))
    case Pop =>
      if !s.consumer.Ready? then s
      else if s.writeIdx == s.readIdx then s.(broken := true)
      else s.(consumer := Destroy, front := None)
    case ConsumerStep => ConsumerMoves(s)
  }

  function Exec<T>(s: State<T>, schedule: seq<Event<T>>): (r: State<T>)
    requires Shape(s)
    ensures Shape(r) && r.cap == s.cap
    decreases |schedule|
  {
    if schedule == [] then s else
    Step(Exec(s, schedule[..|schedule| - 1]), schedule[|schedule| - 1])
  }

  function Run<T>(cap: nat, schedule: seq<Event<T>>): State<T>
    requires cap >= 2
  {
    Exec(Initial(cap), schedule)
  }

  // The caller's side of the contract: pop only while the cached write index is ahead, as it is
  // after a non-null front, and stays for as many pops as there were elements at its last load.
  predicate Polite<T>(s: State<T>, e: Event<T>) {
    e.Pop? && s.consumer.Ready? ==> s.readIdx != s.writeIdxCache
  }

  predicate PoliteRun<T>(cap: nat, schedule: seq<Event<T>>)
    requires cap >= 2
    decreases |schedule|
  {
    schedule != [] ==>
      var n := |schedule| - 1;
      PoliteRun(cap, schedule[..n]) && Polite(Run(cap, schedule[..n]), schedule[n])
  }
}

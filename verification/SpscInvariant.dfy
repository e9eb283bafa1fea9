/**
 The ring refines a bounded first-in first-out queue.

 With counts instead of indices, seenRead <= |taken| <= seenWrite <= |sent|: each side's copy
 lags behind the truth on the safe side.  An index is its count modulo cap.
 */
module SpscInvariant {
  import opened Wrappers
  import opened Arithmetic
  import opened Lifetime
  import opened SpscModel

  lemma NextIsMod(cap: nat, n: nat)
    requires cap >= 2
    ensures Next(cap, n % cap) == (n + 1) % cap
  {
    var q := n / cap;
    assert n == cap * q + n % cap;
    if n % cap + 1 == cap {
      assert n + 1 == cap * (q + 1) + 0;
      DivModOf(cap, n + 1, q + 1, 0);
    } else {
      DivModOf(cap, n + 1, q, n % cap + 1);
    }
  }

  // Counts less than a lap apart have the same index only if equal.
  lemma SameIndex(cap: nat, a: nat, b: nat)
    requires cap > 0 && a <= b && b - a < cap && a % cap == b % cap
    ensures a == b
  {
    assert a == cap * (a / cap) + a % cap && b == cap * (b / cap) + b % cap;
    if a / cap < b / cap {
      Scale(cap, a / cap, b / cap);
    } else if b / cap < a / cap {
      Scale(cap, b / cap, a / cap);
    }
  }

  lemma LapAhead(cap: nat, a: nat)
    requires cap > 0
    ensures (a + cap) % cap == a % cap
  {
    assert a == cap * (a / cap) + a % cap;
    assert a + cap == cap * (a / cap + 1) + a % cap;
    DivModOf(cap, a + cap, a / cap + 1, a % cap);
  }

  // What is in the slot of count k, for k within a lap of the reader.
  ghost predicate SlotOk<T>(s: State<T>, k: nat)
    requires Shape(s)
  {
    var c := s.cells[k % s.cap];
    if |s.taken| <= k < |s.sent| then
      (if k == |s.taken| && s.consumer.Release? then c.Dead? else c.Live? && c.value == s.sent[k])
    else if k == |s.sent| && s.producer.Publish? then c.Live? && c.value == s.producer.v
    else c.Dead?
  }

  ghost predicate CountsOk<T>(s: State<T>) {
    && Shape(s)
    && s.seenRead <= |s.taken| <= s.seenWrite <= |s.sent| < s.seenRead + s.cap
    && s.taken <= s.sent
    && s.writeIdx == |s.sent| % s.cap && s.readIdx == |s.taken| % s.cap
    && s.readIdxCache == s.seenRead % s.cap && s.writeIdxCache == s.seenWrite % s.cap
  }

  ghost predicate Inv<T>(s: State<T>) {
    && CountsOk(s)
    && !s.broken
    && (forall k :: |s.taken| <= k < |s.taken| + s.cap ==> SlotOk(s, k))
    && (s.producer.Construct? || s.producer.Publish? ==> |s.sent| + 1 < s.seenRead + s.cap)
    && (s.consumer.Look? ==> |s.taken| == s.seenWrite)
    && (s.consumer.Destroy? || s.consumer.Release? ==> |s.taken| < s.seenWrite)
    && (s.consumer.Release? ==> s.consumer.v == s.sent[|s.taken|])
    && (s.front.Some? ==> s.front.value == s.readIdx && |s.taken| < s.seenWrite && s.consumer != Destroy && !s.consumer.Release?)
    && LifeInv(s.cells, s.made, s.died)
  }

  // The producer's test: the next write index meets a read index exactly when the ring is full.
  lemma FullTest<T>(s: State<T>, seen: nat)
    requires CountsOk(s) && s.seenRead <= seen <= |s.sent|
    ensures Next(s.cap, s.writeIdx) == seen % s.cap <==> |s.sent| - seen == s.cap - 1
  {
    NextIsMod(s.cap, |s.sent|);
    if |s.sent| + 1 - seen == s.cap {
      LapAhead(s.cap, seen);
    } else if (|s.sent| + 1) % s.cap == seen % s.cap {
      SameIndex(s.cap, seen, |s.sent| + 1);
    }
  }

  // The consumer's test: a write index meets the read index exactly when nothing is stored.
  lemma EmptyTest<T>(s: State<T>, seen: nat)
    requires CountsOk(s) && |s.taken| <= seen <= |s.sent|
    ensures s.readIdx == seen % s.cap <==> seen == |s.taken|
  {
    if s.readIdx == seen % s.cap { SameIndex(s.cap, |s.taken|, seen); }
  }

  lemma AheadMeansStored<T>(s: State<T>)
    requires CountsOk(s) && s.readIdx != s.writeIdxCache
    ensures |s.taken| < |s.sent| && s.readIdx != s.writeIdx
  {
    EmptyTest(s, s.seenWrite);
    EmptyTest(s, |s.sent|);
  }

  lemma OtherSlots<T>(s: State<T>, s': State<T>, at: nat)
    requires Inv(s) && Shape(s') && s'.cap == s.cap
    requires |s.taken| <= at < |s.taken| + s.cap
    requires s'.sent == s.sent && s'.taken == s.taken
    requires forall i :: 0 <= i < s.cap && i != at % s.cap ==> s'.cells[i] == s.cells[i]
    requires s'.producer.Publish? == s.producer.Publish? || at == |s.sent|
    requires s'.producer.Publish? && s.producer.Publish? ==> s'.producer == s.producer
    requires s'.consumer.Release? == s.consumer.Release? || at == |s.taken|
    ensures forall k :: |s.taken| <= k < |s.taken| + s.cap && k != at ==> SlotOk(s', k)
  {
    forall k | |s.taken| <= k < |s.taken| + s.cap && k != at ensures SlotOk(s', k) {
      assert SlotOk(s, k);
      if k % s.cap == at % s.cap {
        if k < at { SameIndex(s.cap, k, at); } else { SameIndex(s.cap, at, k); }
      }
    }
  }

  lemma ConstructKeeps<T>(s: State<T>)
    requires Inv(s) && s.producer.Construct?
    ensures Inv(ProducerMoves(s))
  {
    assert SlotOk(s, |s.sent|);
    var s' := ProducerMoves(s);
    OtherSlots(s, s', |s.sent|);
    BirthKeepsLife(s.cells, s.made, s.died, s.writeIdx, s.producer.v);
  }

  lemma PublishKeeps<T>(s: State<T>)
    requires Inv(s) && s.producer.Publish?
    ensures Inv(ProducerMoves(s))
  {
    var s' := ProducerMoves(s);
    NextIsMod(s.cap, |s.sent|);
    forall k | |s'.taken| <= k < |s'.taken| + s.cap ensures SlotOk(s', k) {
      assert SlotOk(s, k);
    }
  }

  lemma DestroyKeeps<T>(s: State<T>)
    requires Inv(s) && s.consumer.Destroy?
    ensures Inv(ConsumerMoves(s))
  {
    assert SlotOk(s, |s.taken|);
    var s' := ConsumerMoves(s);
    OtherSlots(s, s', |s.taken|);
    DeathKeepsLife(s.cells, s.made, s.died, s.readIdx);
  }

  lemma ReleaseKeeps<T>(s: State<T>)
    requires Inv(s) && s.consumer.Release?
    ensures Inv(ConsumerMoves(s))
  {
    var s' := ConsumerMoves(s);
    NextIsMod(s.cap, |s.taken|);
    forall k | |s'.taken| <= k < |s'.taken| + s.cap ensures SlotOk(s', k) {
      if k < |s.taken| + s.cap {
        assert SlotOk(s, k);
      } else {
        LapAhead(s.cap, |s.taken|);
        assert SlotOk(s, |s.taken|);
      }
    }
  }

  // A step that changes no slot and no count keeps what is in the slots.
  lemma SameSlots<T>(s: State<T>, s': State<T>)
    requires Inv(s) && Shape(s') && s'.cap == s.cap && s'.cells == s.cells
    requires s'.sent == s.sent && s'.taken == s.taken
    requires s'.producer == s.producer || (!s'.producer.Publish? && !s.producer.Publish?)
    requires s'.consumer.Release? == s.consumer.Release?
    ensures forall k :: |s'.taken| <= k < |s'.taken| + s.cap ==> SlotOk(s', k)
  {
    forall k | |s'.taken| <= k < |s'.taken| + s.cap ensures SlotOk(s', k) {
      assert SlotOk(s, k);
    }
  }

  lemma ReloadKeeps<T>(s: State<T>)
    requires Inv(s) && s.producer.Reload?
    ensures Inv(ProducerMoves(s))
  {
    FullTest(s, |s.taken|);
    SameSlots(s, ProducerMoves(s));
  }

  lemma LookKeeps<T>(s: State<T>)
    requires Inv(s) && s.consumer.Look?
    ensures Inv(ConsumerMoves(s))
  {
    EmptyTest(s, |s.sent|);
    SameSlots(s, ConsumerMoves(s));
  }

  lemma CallKeeps<T>(s: State<T>, e: Event<T>)
    requires Inv(s) && Polite(s, e) && (e.Push? || e.Front? || e.Pop?)
    ensures Inv(Step(s, e))
  {
    FullTest(s, s.seenRead);
    EmptyTest(s, s.seenWrite);
    EmptyTest(s, |s.sent|);
    SameSlots(s, Step(s, e));
  }

  lemma StepKeepsInv<T>(s: State<T>, e: Event<T>)
    requires Inv(s) && Polite(s, e)
    ensures Inv(Step(s, e))
  {
    match e {
      case ProducerStep =>
        match s.producer {
          case Free =>
          case Reload(_, _) => ReloadKeeps(s);
          case Construct(_) => ConstructKeeps(s);
          case Publish(_) => PublishKeeps(s);
        }
      case ConsumerStep =>
        match s.consumer {
          case Ready =>
          case Look => LookKeeps(s);
          case Destroy => DestroyKeeps(s);
          case Release(_) => ReleaseKeeps(s);
        }
      case _ => CallKeeps(s, e);
    }
  }

  lemma {:induction false} RunKeepsInv<T>(cap: nat, schedule: seq<Event<T>>)
    requires cap >= 2 && PoliteRun(cap, schedule)
    ensures Inv(Run(cap, schedule))
    decreases |schedule|
  {
    if schedule != [] {
      var n := |schedule| - 1;
      RunKeepsInv(cap, schedule[..n]);
      StepKeepsInv(Run(cap, schedule[..n]), schedule[n]);
    }
  }

  // What pop destroys, and where emplace constructs.
  lemma OldestIsStored<T>(s: State<T>)
    requires Inv(s) && s.consumer.Destroy?
    ensures |s.taken| < |s.sent| && s.cells[s.readIdx].Live? && s.cells[s.readIdx].value == s.sent[|s.taken|]
  {
    assert SlotOk(s, |s.taken|);
  }

  lemma WriteSlotIsFree<T>(s: State<T>)
    requires Inv(s) && s.producer.Construct?
    ensures s.cells[s.writeIdx].Dead?
  {
    assert SlotOk(s, |s.sent|);
  }
}

/**
 What the single-producer single-consumer queue promises over every interleaving, and what
 happens when pop is called without front.
 */
module SpscTheorems {
  import opened Wrappers
  import opened Arithmetic
  import opened Lifetime
  import opened SpscModel
  import opened SpscInvariant

  // The consumer gets a prefix of what the producer gave, at most capacity() elements are
  // stored, and no slot is constructed over while live or destroyed while dead.
  lemma {:induction false} ConsumerGetsPrefix<T>(cap: nat, schedule: seq<Event<T>>)
    requires cap >= 2 && PoliteRun(cap, schedule)
    ensures var s := Run(cap, schedule);
      s.taken <= s.sent && |s.sent| - |s.taken| <= cap - 1 && !s.broken
  {
    RunKeepsInv(cap, schedule);
  }

  lemma ExecNext<T>(s: State<T>, run: seq<Event<T>>, e: Event<T>)
    requires Shape(s)
    ensures Exec(s, run + [e]) == Step(Exec(s, run), e)
  {
    assert (run + [e])[..|run|] == run;
  }

  lemma {:induction false} ExecConcat<T>(s: State<T>, a: seq<Event<T>>, b: seq<Event<T>>)
    requires Shape(s)
    ensures Exec(s, a + b) == Exec(Exec(s, a), b)
    decreases |b|
  {
    if b == [] {
      assert a + b == a;
    } else {
      var m, e := b[..|b| - 1], b[|b| - 1];
      ExecConcat(s, a, m);
      ExecNext(s, a + m, e);
      ExecNext(Exec(s, a), m, e);
      LastApart(a, b);
    }
  }

  lemma LastApart<T>(a: seq<T>, b: seq<T>)
    requires b != []
    ensures b[..|b| - 1] + [b[|b| - 1]] == b && a + b[..|b| - 1] + [b[|b| - 1]] == a + b
  {
  }

  // ---------- answers ----------

  // A push call ends with false at this step exactly if it is try_emplace's reload of the read
  // index and, at that instant, capacity() elements are stored.
  lemma {:induction false} PushFailsIffFull<T>(cap: nat, schedule: seq<Event<T>>, e: Event<T>)
    requires cap >= 2 && PoliteRun(cap, schedule + [e]) && e.ProducerStep?
    ensures var s := Run(cap, schedule); var s' := Run(cap, schedule + [e]);
      (!s.producer.Free? && s'.producer.Free? && s'.pushed == Some(false)) <==>
      (s.producer.Reload? && s.producer.mode.Try? && |s.sent| - |s.taken| == cap - 1)
  {
    assert (schedule + [e])[..|schedule|] == schedule;
    RunKeepsInv(cap, schedule);
    FullTest(Run(cap, schedule), |Run(cap, schedule).taken|);
  }

  // front's reload answers null exactly if nothing is stored at that instant; without a reload
  // the answer is never null.
  lemma {:induction false} FrontIsNullIffEmpty<T>(cap: nat, schedule: seq<Event<T>>, e: Event<T>)
    requires cap >= 2 && PoliteRun(cap, schedule + [e]) && (e.Front? || e.ConsumerStep?)
    requires var s := Run(cap, schedule); e.Front? ==> s.consumer.Ready?
    requires var s := Run(cap, schedule); e.ConsumerStep? ==> s.consumer.Look?
    ensures var s := Run(cap, schedule); var s' := Run(cap, schedule + [e]);
      s'.consumer.Ready? ==>
        && (s'.front.None? <==> |s.sent| == |s.taken|)
        && (s'.front.Some? ==> s'.front.value == s.readIdx)
  {
    assert (schedule + [e])[..|schedule|] == schedule;
    RunKeepsInv(cap, schedule);
    var s := Run(cap, schedule);
    EmptyTest(s, s.seenWrite);
    EmptyTest(s, |s.sent|);
  }

  // The slot front points to holds the oldest element not yet popped.
  ghost predicate PointsToOldest<T>(s: State<T>)
    requires Shape(s)
  {
    && s.front == Some(s.readIdx) && |s.taken| < |s.sent|
    && s.cells[s.readIdx].Live? && s.cells[s.readIdx].value == s.sent[|s.taken|]
  }

  lemma FrontPoints<T>(cap: nat, run: seq<Event<T>>)
    requires cap >= 2 && PoliteRun(cap, run) && Run(cap, run).front.Some?
    ensures PointsToOldest(Run(cap, run))
  {
    RunKeepsInv(cap, run);
    assert SlotOk(Run(cap, run), |Run(cap, run).taken|);
  }

  ghost predicate SameFront<T>(s: State<T>, s': State<T>) {
    s'.front == s.front && s'.taken == s.taken && s.sent <= s'.sent
  }

  lemma FrontStep<T>(cap: nat, run: seq<Event<T>>, e: Event<T>)
    requires cap >= 2 && PoliteRun(cap, run) && Run(cap, run).front.Some? && !e.Pop?
    ensures SameFront(Run(cap, run), Run(cap, run + [e]))
  {
    var s := Run(cap, run);
    assert (run + [e])[..|run|] == run;
    RunKeepsInv(cap, run);
    EmptyTest(s, s.seenWrite);
    EmptyTest(s, |s.sent|);
  }

  lemma {:induction false} FrontRun<T>(cap: nat, before: seq<Event<T>>, after: seq<Event<T>>)
    requires cap >= 2 && PoliteRun(cap, before + after)
    requires Run(cap, before).front.Some? && Pop !in after
    ensures SameFront(Run(cap, before), Run(cap, before + after))
    decreases |after|
  {
    if after == [] {
      assert before + after == before;
    } else {
      var n := |after| - 1;
      assert (before + after)[..|before| + n] == before + after[..n];
      assert before + after == before + after[..n] + [after[n]];
      FrontRun(cap, before, after[..n]);
      FrontStep(cap, before + after[..n], after[n]);
    }
  }

  // Whatever both threads do, short of calling pop, a non-null front keeps pointing to the same
  // slot, and that slot keeps holding the element that was oldest when front was called.
  lemma {:induction false} FrontStays<T>(cap: nat, before: seq<Event<T>>, after: seq<Event<T>>)
    requires cap >= 2 && PoliteRun(cap, before) && PoliteRun(cap, before + after)
    requires Run(cap, before).front.Some? && Pop !in after
    ensures var s, s' := Run(cap, before), Run(cap, before + after);
      && PointsToOldest(s) && PointsToOldest(s') && s'.front == s.front
      && s'.cells[s'.readIdx].value == s.cells[s.readIdx].value
  {
    FrontRun(cap, before, after);
    FrontPoints(cap, before);
    FrontPoints(cap, before + after);
  }

  // ---------- size ----------

  function Size(cap: nat, writeIdx: nat, readIdx: nat): int {
    var diff := writeIdx - readIdx;
    if diff < 0 then diff + cap else diff
  }

  // Whichever index size() loads first, and whatever happens between its two loads, it is within
  // 0..capacity(); it is the number of elements stored at the first load if nothing happened to
  // the other index in between, and at the second load if nothing happened to the first index.
  lemma {:induction false} SizeIsInRange<T>(cap: nat, before: seq<Event<T>>, between: seq<Event<T>>)
    requires cap >= 2 && PoliteRun(cap, before) && PoliteRun(cap, before + between)
    ensures var s, s' := Run(cap, before), Run(cap, before + between);
      && 0 <= Size(cap, s.writeIdx, s'.readIdx) <= cap - 1
      && 0 <= Size(cap, s'.writeIdx, s.readIdx) <= cap - 1
      && (|s'.taken| == |s.taken| ==>
            Size(cap, s.writeIdx, s'.readIdx) == |s.sent| - |s.taken|
            && Size(cap, s'.writeIdx, s.readIdx) == |s'.sent| - |s'.taken|)
      && (|s'.sent| == |s.sent| ==>
            Size(cap, s.writeIdx, s'.readIdx) == |s'.sent| - |s'.taken|
            && Size(cap, s'.writeIdx, s.readIdx) == |s.sent| - |s.taken|)
  {
    var s, s' := Run(cap, before), Run(cap, before + between);
    RunKeepsInv(cap, before);
    RunKeepsInv(cap, before + between);
    SizeOfCounts(cap, |s.taken|, |s.sent|);
    SizeOfCounts(cap, |s'.taken|, |s'.sent|);
  }

  lemma SizeOfCounts(cap: nat, r: nat, w: nat)
    requires cap > 0 && r <= w < r + cap
    ensures Size(cap, w % cap, r % cap) == w - r
  {
    var q, i := r / cap, r % cap;
    assert r == cap * q + i;
    if i + (w - r) < cap {
      DivModOf(cap, w, q, i + (w - r));
    } else {
      assert w == cap * (q + 1) + (i + (w - r) - cap);
      DivModOf(cap, w, q + 1, i + (w - r) - cap);
    }
  }

  // ---------- pop without front ----------

  // Every pop comes after front has answered with an element, one pop for each such answer.
  predicate FrontFirst<T>(s: State<T>, run: seq<Event<T>>)
    requires Shape(s)
    decreases |run|
  {
    run != [] ==>
      var n := |run| - 1;
      var m := Exec(s, run[..n]);
      FrontFirst(s, run[..n]) && (run[n].Pop? && m.consumer.Ready? ==> m.front.Some?)
  }

  predicate Sound<T(==)>(s: State<T>) {
    && !s.broken && s.taken <= s.sent
    && (s.front.Some? ==> |s.taken| < |s.sent|)
  }

  // A non-null front is a caller's way to know that the cached write index is ahead.
  lemma FrontIsPolite<T>(s: State<T>)
    requires Inv(s) && s.front.Some?
    ensures s.readIdx != s.writeIdxCache
  {
    EmptyTest(s, s.seenWrite);
  }

  lemma {:induction false} FrontFirstKeepsInv<T>(s: State<T>, run: seq<Event<T>>)
    requires Inv(s) && FrontFirst(s, run)
    ensures Inv(Exec(s, run))
    decreases |run|
  {
    if run != [] {
      var n := |run| - 1;
      var m := Exec(s, run[..n]);
      FrontFirstKeepsInv(s, run[..n]);
      if m.front.Some? { FrontIsPolite(m); }
      StepKeepsInv(m, run[n]);
    }
  }

  // The consumer is between calls and has popped past the write index it last loaded.
  ghost predicate Stale<T>(s: State<T>) {
    && Shape(s) && s.consumer.Ready? && !s.broken && s.taken <= s.sent
    && s.seenWrite < |s.taken| && |s.sent| < s.seenWrite + s.cap
    && s.writeIdx == |s.sent| % s.cap && s.readIdx == |s.taken| % s.cap
    && s.writeIdxCache == s.seenWrite % s.cap
    && (forall k :: |s.taken| <= k < |s.sent| ==> Holds(s, k))
  }

  ghost predicate Holds<T>(s: State<T>, k: nat)
    requires Shape(s) && k < |s.sent|
  {
    s.cells[k % s.cap].Live? && s.cells[k % s.cap].value == s.sent[k]
  }

  // Destroying and releasing the oldest element, from inside pop.
  function Popped<T>(s: State<T>): State<T>
    requires Shape(s)
  {
    Step(Step(s, ConsumerStep), ConsumerStep)
  }

  lemma PoppedIsStale<T>(s: State<T>)
    requires Shape(s) && s.consumer.Destroy? && s.front.None? && !s.broken && s.taken <= s.sent
    requires s.seenWrite <= |s.taken| < |s.sent| < s.seenWrite + s.cap
    requires s.writeIdx == |s.sent| % s.cap && s.readIdx == |s.taken| % s.cap
    requires s.writeIdxCache == s.seenWrite % s.cap
    requires forall k :: |s.taken| <= k < |s.sent| ==> Holds(s, k)
    ensures var s' := Popped(s);
      && Stale(s') && s'.sent == s.sent && |s'.taken| == |s.taken| + 1
  {
    var s' := Popped(s);
    var r := |s.taken|;
    assert Holds(s, r);
    NextIsMod(s.cap, r);
    forall k | r + 1 <= k < |s.sent| ensures Holds(s', k) {
      assert Holds(s, k);
      if k % s.cap == r % s.cap { SameIndex(s.cap, r, k); }
    }
  }

  // Popped past its last load, the consumer is answered with an element however many are left,
  // one or none.
  lemma StaleFront<T>(s: State<T>)
    requires Stale(s)
    ensures Step(s, Front) == s.(front := Some(s.readIdx))
  {
    if s.readIdx == s.writeIdxCache { SameIndex(s.cap, s.seenWrite, |s.taken|); }
  }

  lemma StalePop<T>(s: State<T>)
    requires Stale(s) && |s.taken| < |s.sent|
    ensures var s' := Popped(Step(Step(s, Front), Pop));
      && Stale(s') && s'.sent == s.sent && |s'.taken| == |s.taken| + 1
  {
    StaleFront(s);
    if s.readIdx == s.writeIdx { SameIndex(s.cap, |s.taken|, |s.sent|); }
    var m := Step(Step(s, Front), Pop);
    forall k | |m.taken| <= k < |m.sent| ensures Holds(m, k) {
      assert Holds(s, k);
    }
    PoppedIsStale(m);
  }

  lemma {:induction false} FrontFirstConcat<T>(s: State<T>, a: seq<Event<T>>, b: seq<Event<T>>)
    requires Shape(s) && FrontFirst(s, a) && FrontFirst(Exec(s, a), b)
    ensures FrontFirst(s, a + b)
    decreases |b|
  {
    if b == [] {
      assert a + b == a;
    } else {
      var n := |b| - 1;
      FrontFirstConcat(s, a, b[..n]);
      ExecConcat(s, a, b[..n]);
      assert (a + b)[..|a + b| - 1] == a + b[..n];
    }
  }

  lemma RunOne<T>(s: State<T>, e: Event<T>)
    requires Shape(s) && (e.Pop? && s.consumer.Ready? ==> s.front.Some?)
    ensures Exec(s, [e]) == Step(s, e) && FrontFirst(s, [e])
  {
    assert [e][..0] == [];
  }

  lemma RunTwo<T>(s: State<T>, e: Event<T>, f: Event<T>)
    requires Shape(s) && (e.Pop? && s.consumer.Ready? ==> s.front.Some?)
    requires f.Pop? && Step(s, e).consumer.Ready? ==> Step(s, e).front.Some?
    ensures Exec(s, [e, f]) == Step(Step(s, e), f) && FrontFirst(s, [e, f])
  {
    RunOne(s, e);
    RunOne(Step(s, e), f);
    ExecConcat(s, [e], [f]);
    FrontFirstConcat(s, [e], [f]);
    assert [e] + [f] == [e, f];
  }

  // Front before every pop no longer helps: the consumer empties the queue and is then pointed
  // into it once more.
  lemma {:induction false} StaleBreaks<T>(s: State<T>) returns (run: seq<Event<T>>)
    requires Stale(s)
    ensures FrontFirst(s, run) && forall e :: e in run ==> !e.ByProducer()
    ensures var s' := Exec(s, run); s'.sent == s'.taken == s.sent && s'.front.Some? && !s'.broken
    decreases |s.sent| - |s.taken|
  {
    StaleFront(s);
    if |s.sent| == |s.taken| {
      run := [Front];
      RunOne(s, Front);
    } else {
      StalePop(s);
      var m := Step(Step(s, Front), Pop);
      RunTwo(s, Front, Pop);
      RunTwo(m, ConsumerStep, ConsumerStep);
      var more := StaleBreaks(Popped(m));
      ExecConcat(m, [ConsumerStep, ConsumerStep], more);
      FrontFirstConcat(m, [ConsumerStep, ConsumerStep], more);
      run := [Front, Pop] + ([ConsumerStep, ConsumerStep] + more);
      ExecConcat(s, [Front, Pop], [ConsumerStep, ConsumerStep] + more);
      FrontFirstConcat(s, [Front, Pop], [ConsumerStep, ConsumerStep] + more);
    }
  }

  lemma PopOfStaleCache<T>(s: State<T>) returns (run: seq<Event<T>>)
    requires Inv(s) && s.consumer.Ready? && |s.taken| < |s.sent| && s.readIdx == s.writeIdxCache
    ensures FrontFirst(Step(s, Pop), run) && forall e :: e in run ==> !e.ByProducer()
    ensures var s' := Exec(Step(s, Pop), run); s'.sent == s'.taken == s.sent && s'.front.Some? && !s'.broken
  {
    EmptyTest(s, s.seenWrite);
    EmptyTest(s, |s.sent|);
    var m := Step(s, Pop);
    forall k | |m.taken| <= k < |m.sent| ensures Holds(m, k) {
      assert SlotOk(s, k);
    }
    PoppedIsStale(m);
    RunTwo(m, ConsumerStep, ConsumerStep);
    var more := StaleBreaks(Popped(m));
    run := [ConsumerStep, ConsumerStep] + more;
    ExecConcat(m, [ConsumerStep, ConsumerStep], more);
    FrontFirstConcat(m, [ConsumerStep, ConsumerStep], more);
  }

  // With an element stored, whatever the producer is doing: a pop is safe, in that every later
  // run of both threads with front before each pop stays sound, exactly if the cached write
  // index is ahead.  pop's own assertion, that the queue is not empty, holds either way.
  lemma {:induction false} PopNeedsFreshCache<T>(s: State<T>)
    requires Inv(s) && s.consumer.Ready? && |s.taken| < |s.sent|
    ensures s.writeIdx != s.readIdx
    ensures s.readIdx != s.writeIdxCache <==>
            forall run :: FrontFirst(Step(s, Pop), run) ==> Sound(Exec(Step(s, Pop), run))
  {
    EmptyTest(s, |s.sent|);
    if s.readIdx != s.writeIdxCache {
      StepKeepsInv(s, Pop);
      forall run | FrontFirst(Step(s, Pop), run) ensures Sound(Exec(Step(s, Pop), run)) {
        FrontFirstKeepsInv(Step(s, Pop), run);
      }
    } else {
      var run := PopOfStaleCache(s);
      assert FrontFirst(Step(s, Pop), run) && !Sound(Exec(Step(s, Pop), run));
    }
  }

  lemma RunNext<T>(cap: nat, before: seq<Event<T>>, e: Event<T>)
    requires cap >= 2
    ensures Run(cap, before + [e]) == Step(Run(cap, before), e)
  {
    assert (before + [e])[..|before|] == before;
  }

  lemma RunThree<T>(cap: nat, before: seq<Event<T>>, a: Event<T>, b: Event<T>, c: Event<T>)
    requires cap >= 2
    ensures Run(cap, before + [a, b, c]) == Step(Step(Step(Run(cap, before), a), b), c)
  {
    RunNext(cap, before, a);
    RunNext(cap, before + [a], b);
    RunNext(cap, before + [a] + [b], c);
    assert before + [a] + [b] + [c] == before + [a, b, c];
  }

  // A run without pops is polite.
  lemma {:induction false} PushIsPolite<T>(cap: nat, run: seq<Event<T>>)
    requires cap >= 2 && Pop !in run
    ensures PoliteRun(cap, run)
    decreases |run|
  {
    if run != [] { PushIsPolite(cap, run[..|run| - 1]); }
  }

  const OnePush: seq<Event<int>> := [Push(7, Try), ProducerStep, ProducerStep]

  // A run that shows it: one push, a pop without front, and front points into an empty queue;
  // the next pop, though now called after a non-null front, is undefined behaviour.
  lemma {:induction false} PopWithoutFrontBreaks()
    ensures PoliteRun(2, OnePush)
    ensures var s := Run(2, OnePush + [Pop, ConsumerStep, ConsumerStep] + [Front]);
      s.sent == s.taken && s.front.Some? && !s.broken
    ensures Run(2, OnePush + [Pop, ConsumerStep, ConsumerStep] + [Front] + [Pop]).broken
  {
    RunThree(2, [], Push(7, Try), ProducerStep, ProducerStep);
    assert [] + OnePush == OnePush;
    PushIsPolite(2, OnePush);
    RunThree(2, OnePush, Pop, ConsumerStep, ConsumerStep);
    RunNext(2, OnePush + [Pop, ConsumerStep, ConsumerStep], Front);
    RunNext(2, OnePush + [Pop, ConsumerStep, ConsumerStep] + [Front], Pop);
    AfterOnePush();
    AfterBarePop(Run(2, OnePush));
  }

  lemma AfterOnePush()
    ensures var s := Step(Step(Step(Initial<int>(2), Push(7, Try)), ProducerStep), ProducerStep);
      && s.sent == [7] && s.taken == [] && s.writeIdx == 1 && s.readIdx == s.writeIdxCache == 0
      && s.consumer.Ready? && s.cells[0] == Live(0, 7) && !s.broken
  {
  }

  lemma AfterBarePop(s: State<int>)
    requires Shape(s) && s.cap == 2
    requires s.sent == [7] && s.taken == [] && s.writeIdx == 1 && s.readIdx == s.writeIdxCache == 0
    requires s.consumer.Ready? && s.cells[0] == Live(0, 7) && !s.broken
    ensures var s' := Step(Popped(Step(s, Pop)), Front);
      s'.sent == s'.taken && s'.front.Some? && !s'.broken && Step(s', Pop).broken
  {
  }
}

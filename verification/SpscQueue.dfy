/**
 The queue's code, proved against the state machine.  Before every access to memory the other
 thread may run any finite number of its own steps.
 */
module SpscQueue {
  import opened Wrappers
  import opened Arithmetic
  import opened Lifetime
  import opened SpscModel
  import opened SpscInvariant
  import opened SpscTheorems

  // The part of a run added between two instants was made by one thread alone.
  ghost predicate By<T>(producer: bool, before: seq<Event<T>>, after: seq<Event<T>>) {
    && before <= after
    && (forall k :: |before| <= k < |after| ==> after[k].ByProducer() == producer)
  }

  // What the producer thread sees: nobody else touches its own state; pops only make room.
  ghost predicate ProducerKept<T>(s: State<T>, s': State<T>) {
    && s'.producer == s.producer && s'.pushed == s.pushed && s'.writeIdx == s.writeIdx
    && s'.readIdxCache == s.readIdxCache && s'.seenRead == s.seenRead
    && s'.sent == s.sent && |s.taken| <= |s'.taken|
  }

  // What the consumer thread sees: pushes only add elements.
  ghost predicate ConsumerKept<T>(s: State<T>, s': State<T>) {
    && s'.consumer == s.consumer && s'.front == s.front && s'.readIdx == s.readIdx
    && s'.writeIdxCache == s.writeIdxCache && s'.seenWrite == s.seenWrite
    && s'.taken == s.taken && s.sent <= s'.sent
  }

  lemma {:induction false} OtherThread<T>(cap: nat, before: seq<Event<T>>, after: seq<Event<T>>, producer: bool)
    requires cap >= 2 && By(producer, before, after)
    requires PoliteRun(cap, after)
    ensures var s, s' := Run(cap, before), Run(cap, after);
      if producer then ConsumerKept(s, s') else ProducerKept(s, s')
    decreases |after|
  {
    if |after| == |before| {
      assert before == after;
    } else {
      var n := |after| - 1;
      OtherThread(cap, before, after[..n], producer);
      OtherStep(Run(cap, after[..n]), after[n]);
    }
  }

  lemma OtherStep<T>(s: State<T>, e: Event<T>)
    requires Shape(s)
    ensures e.ByProducer() ==> ConsumerKept(s, Step(s, e))
    ensures !e.ByProducer() ==> ProducerKept(s, Step(s, e))
  {
  }

  class Queue<T> {
    const capacity: nat
    const slots: array<Option<T>>
    var writeIdx: nat
    var readIdxCache: nat
    var readIdx: nat
    var writeIdxCache: nat

    ghost var history: seq<Event<T>>   // the run since construction
    ghost var model: State<T>          // and the state it leads to

    ghost predicate Memory()
      reads this, slots
    {
      && Shape(model) && capacity == model.cap == slots.Length
      && writeIdx == model.writeIdx && readIdx == model.readIdx
      && readIdxCache == model.readIdxCache && writeIdxCache == model.writeIdxCache
      && (forall i :: 0 <= i < capacity ==> slots[i] == Stored(model.cells[i]))
    }

    ghost predicate Valid()
      reads this, slots
    {
      Memory() && model == Run(capacity, history) && PoliteRun(capacity, history)
    }

    // At least one element, and one slack slot.
    constructor (requested: nat)
      ensures Valid() && history == [] && fresh(slots)
      ensures capacity == (if requested < 1 then 1 else requested) + 1
    {
      var n := (if requested < 1 then 1 else requested) + 1;
      capacity := n;
      slots := new Option<T>[n](_ => None);
      writeIdx, readIdxCache, readIdx, writeIdxCache := 0, 0, 0, 0;
      history := [];
      model := Initial(n);
    }

    // The other thread runs; nothing is promised beyond its being the other thread, polite, and
    // finitely many steps.
    method Interfere(ghost producer: bool, ghost budget: nat) returns (ghost left: nat)
      requires Valid()
      modifies this, slots
      ensures Valid()
      ensures By(producer, old(history), history) && |history| - |old(history)| + left == budget
    {
      left := budget;
    }

    method Yield(ghost producer: bool, ghost budget: nat) returns (ghost left: nat)
      requires Valid()
      modifies this, slots
      ensures Valid() && old(history) <= history && left <= budget
      ensures if producer then ConsumerKept(old(model), model) else ProducerKept(old(model), model)
      ensures left == budget ==> model == old(model)
    {
      left := Interfere(producer, budget);
      OtherThread(capacity, old(history), history, producer);
      assert left == budget ==> history == old(history);
    }

    ghost method Tick(e: Event<T>)
      requires capacity >= 2 && model == Run(capacity, history) && PoliteRun(capacity, history)
      requires Polite(model, e)
      modifies this`history, this`model
      ensures model == Step(old(model), e) && model == Run(capacity, history) && PoliteRun(capacity, history)
      ensures history == old(history) + [e]
    {
      history := history + [e];
      model := Step(model, e);
      assert history[..|history| - 1] == old(history);
    }

    // ---------- the producer ----------

    // The call's own reads: the write index nobody else writes, and the cached read index.
    method StartPush(v: T, mode: Mode) returns (w: nat, next: nat)
      requires Valid() && model.producer.Free?
      modifies this`history, this`model
      ensures Valid() && old(history) <= history && ProducerKept(old(model).(producer := model.producer), model)
      ensures |model.taken| == |old(model).taken|
      ensures w == writeIdx && next == Next(capacity, w)
      ensures model.producer == if next == readIdxCache then Reload(v, mode) else Construct(v)
    {
      Tick(Push(v, mode));
      w := writeIdx;
      next := w + 1;
      if next == capacity {
        next := 0;
      }
    }

    method ReloadReadIdx(v: T, ghost mode: Mode, next: nat, ghost budget: nat) returns (ghost left: nat)
      requires Valid() && model.producer == Reload(v, mode) && next == Next(capacity, writeIdx)
      modifies this, slots
      ensures Valid() && old(history) <= history && left <= budget
      ensures model.sent == old(model).sent && writeIdx == old(writeIdx) && |old(model).taken| <= |model.taken|
      ensures left == budget ==> model.taken == old(model).taken
      ensures next != readIdxCache ==> model.producer == Construct(v)
      ensures next == readIdxCache && mode.Blocking? ==> model.producer == Reload(v, mode)
      ensures next == readIdxCache && mode.Try? ==> model.producer == Free && model.pushed == Some(false)
      ensures next == readIdxCache <==> |model.sent| - |model.taken| == capacity - 1
    {
      left := Yield(false, budget);
      RunKeepsInv(capacity, history);
      FullTest(model, |model.taken|);
      Tick(ProducerStep);
      readIdxCache := readIdx;
    }

    // Construct in the slot, which must hold no object, and publish.
    method FinishPush(v: T, w: nat, next: nat, ghost budget: nat) returns (ghost left: nat)
      requires Valid() && model.producer == Construct(v) && w == writeIdx && next == Next(capacity, w)
      modifies this, slots
      ensures Valid() && old(history) <= history
      ensures model.producer == Free && model.pushed == Some(true) && model.sent == old(model).sent + [v]
    {
      left := ConstructSlot(v, w, budget);
      left := Yield(false, left);
      Tick(ProducerStep);
      writeIdx := next;
    }

    method ConstructSlot(v: T, w: nat, ghost budget: nat) returns (ghost left: nat)
      requires Valid() && model.producer == Construct(v) && w == writeIdx
      modifies this, slots
      ensures Valid() && old(history) <= history
      ensures model.producer == Publish(v) && model.sent == old(model).sent && writeIdx == old(writeIdx)
    {
      left := Yield(false, budget);
      RunKeepsInv(capacity, history);
      WriteSlotIsFree(model);
      assert slots[w] == None;
      Tick(ProducerStep);
      slots[w] := Some(v);
    }

    // looks bounds how often the waiting loop reloads the read index; done is false if there is
    // no room by then, and the call is then still waiting.  One look tells if there was room when
    // the call began.
    method Emplace(v: T, looks: nat, ghost budget: nat) returns (done: bool)
      requires Valid() && model.producer.Free?
      modifies this, slots
      ensures Valid() && old(history) <= history
      ensures done ==> model.producer.Free? && model.pushed == Some(true)
      ensures !done ==> model.producer == Reload(v, Blocking)
      ensures model.sent == old(model).sent + if done then [v] else []
      ensures looks > 0 && |old(model).sent| - |old(model).taken| < capacity - 1 ==> done
      ensures budget == 0 && |old(model).sent| - |old(model).taken| == capacity - 1 ==> !done
    {
      RunKeepsInv(capacity, history);
      FullTest(model, model.seenRead);
      var w, next := StartPush(v, Blocking);
      ghost var left := AwaitRoom(v, next, looks, budget);
      done := next != readIdxCache;
      if done {
        left := FinishPush(v, w, next, left);
      }
    }

    // The waiting loop.
    method AwaitRoom(v: T, next: nat, looks: nat, ghost budget: nat) returns (ghost left: nat)
      requires Valid() && next == Next(capacity, writeIdx)
      requires model.producer == if next == readIdxCache then Reload(v, Blocking) else Construct(v)
      modifies this, slots
      ensures Valid() && old(history) <= history && left <= budget
      ensures writeIdx == old(writeIdx) && model.sent == old(model).sent
      ensures model.producer == if next == readIdxCache then Reload(v, Blocking) else Construct(v)
      ensures old(readIdxCache) != next ==> readIdxCache != next
      ensures looks > 0 && readIdxCache == next ==> |old(model).sent| - |old(model).taken| == capacity - 1
      ensures budget == 0 && old(readIdxCache) == next && |old(model).sent| - |old(model).taken| == capacity - 1 ==>
                readIdxCache == next
    {
      left := budget;
      AtMostFull();
      ghost var stored := |model.sent| - |model.taken|;
      var n := 0;
      while next == readIdxCache && n < looks
        invariant Valid() && old(history) <= history && left <= budget
        invariant writeIdx == old(writeIdx) && model.sent == old(model).sent
        invariant model.producer == if next == readIdxCache then Reload(v, Blocking) else Construct(v)
        invariant old(readIdxCache) != next ==> n == 0 && readIdxCache != next
        invariant stored >= |model.sent| - |model.taken|
        invariant n > 0 && readIdxCache == next ==> stored >= capacity - 1
        invariant budget == 0 ==> stored == |model.sent| - |model.taken|
        invariant budget == 0 && old(readIdxCache) == next && stored == capacity - 1 ==> readIdxCache == next
      {
        left := ReloadReadIdx(v, Blocking, next, left);
        n := n + 1;
      }
    }

    lemma AtMostFull()
      requires Valid()
      ensures |model.sent| - |model.taken| <= capacity - 1
    {
      RunKeepsInv(capacity, history);
    }

    // false only if capacity() elements were stored when the call began, and, undisturbed,
    // exactly then.
    method TryEmplace(v: T, ghost budget: nat) returns (ok: bool)
      requires Valid() && model.producer.Free?
      modifies this, slots
      ensures Valid() && old(history) <= history
      ensures model.producer.Free? && model.pushed == Some(ok)
      ensures model.sent == old(model).sent + if ok then [v] else []
      ensures !ok ==> |old(model).sent| - |old(model).taken| == capacity - 1
      ensures budget == 0 && ok ==> |old(model).sent| - |old(model).taken| < capacity - 1
    {
      RunKeepsInv(capacity, history);
      FullTest(model, model.seenRead);
      var w, next := StartPush(v, Try);
      ghost var left := budget;
      if next == readIdxCache {
        left := ReloadReadIdx(v, Try, next, left);
        if next == readIdxCache {
          RunKeepsInv(capacity, history);
          return false;
        }
      }
      left := FinishPush(v, w, next, left);
      return true;
    }

    // ---------- the consumer ----------

    // The oldest element's slot, or null: null only if the queue was empty when the call began,
    // and, undisturbed, exactly then.
    method Front(ghost budget: nat) returns (r: Option<nat>)
      requires Valid() && model.consumer.Ready?
      modifies this, slots
      ensures Valid() && old(history) <= history
      ensures model.consumer.Ready? && model.front == r && model.taken == old(model).taken
      ensures old(model).sent <= model.sent
      ensures r.None? ==> |old(model).sent| == |old(model).taken|
      ensures r.Some? ==> PointsToOldest(model) && r.value == readIdx != writeIdxCache && slots[readIdx] == Some(model.sent[|model.taken|])
      ensures budget == 0 ==> model.producer == old(model).producer && model.sent == old(model).sent && (r.None? <==> |old(model).sent| == |old(model).taken|)
    {
      var i := StartFront();
      if i == writeIdxCache {
        ghost var left := ReloadWriteIdx(i, budget);
        if writeIdxCache == i {
          return None;
        }
      }
      RunKeepsInv(capacity, history);
      assert SlotOk(model, |model.taken|);
      return Some(i);
    }

    method StartFront() returns (i: nat)
      requires Valid() && model.consumer.Ready?
      modifies this`history, this`model
      ensures Valid() && old(history) <= history
      ensures i == readIdx && model.sent == old(model).sent && model.taken == old(model).taken
      ensures |model.taken| <= |model.sent|
      ensures model.producer == old(model).producer
      ensures if i == writeIdxCache then model.consumer.Look?
              else model.consumer.Ready? && model.front == Some(i) && |model.taken| < |model.sent|
    {
      RunKeepsInv(capacity, history);
      EmptyTest(model, model.seenWrite);
      i := readIdx;
      Tick(Event.Front);
    }

    method ReloadWriteIdx(i: nat, ghost budget: nat) returns (ghost left: nat)
      requires Valid() && model.consumer.Look? && i == readIdx
      modifies this, slots
      ensures Valid() && old(history) <= history
      ensures i == readIdx && old(model).sent <= model.sent && model.taken == old(model).taken
      ensures model.consumer.Ready? && model.front == if writeIdxCache == i then None else Some(i)
      ensures writeIdxCache == i <==> |model.sent| == |model.taken|
      ensures left == budget ==> model.producer == old(model).producer && model.sent == old(model).sent
      ensures left <= budget
    {
      left := Yield(true, budget);
      RunKeepsInv(capacity, history);
      EmptyTest(model, |model.sent|);
      Tick(ConsumerStep);
      writeIdxCache := writeIdx;
    }

    // Destroy the oldest element and give its slot back.  pop's own assertion holds.  The cached
    // write index does not move, so as many pops may follow one front as it was ahead by.
    method Pop(ghost budget: nat)
      requires Valid() && model.consumer.Ready? && readIdx != writeIdxCache
      modifies this, slots
      ensures readIdx == Next(capacity, old(readIdx)) && writeIdxCache == old(writeIdxCache)
      ensures Valid() && old(history) <= history && |old(model).taken| < |old(model).sent|
      ensures model.consumer.Ready? && model.front == None
      ensures model.taken == old(model).taken + [old(model).sent[|old(model).taken|]] && old(model).sent <= model.sent
      ensures budget == 0 ==> model.producer == old(model).producer && model.sent == old(model).sent
    {
      RunKeepsInv(capacity, history);
      AheadMeansStored(model);
      var i := readIdx;
      ghost var left := AssertNotEmpty(budget);
      left := DestroySlot(i, left);
      ReleaseSlot(i, left);
    }

    method ReleaseSlot(i: nat, ghost budget: nat)
      requires Valid() && model.consumer.Release? && model.front.None? && i == readIdx
      modifies this, slots
      ensures readIdx == Next(capacity, i) && writeIdxCache == old(writeIdxCache)
      ensures Valid() && old(history) <= history
      ensures model.consumer.Ready? && model.front == None
      ensures model.taken == old(model).taken + [old(model).consumer.v] && old(model).sent <= model.sent
      ensures budget == 0 ==> model.producer == old(model).producer && model.sent == old(model).sent
    {
      var next := i + 1;
      if next == capacity {
        next := 0;
      }
      ghost var left := Yield(true, budget);
      Tick(ConsumerStep);
      readIdx := next;
    }

    method AssertNotEmpty(ghost budget: nat) returns (ghost left: nat)
      requires Valid() && model.consumer.Ready? && readIdx != writeIdxCache
      modifies this, slots
      ensures Valid() && old(history) <= history && left <= budget
      ensures |model.taken| < |model.sent| && writeIdxCache == old(writeIdxCache)
      ensures model.consumer.Destroy? && model.front == None && model.taken == old(model).taken
      ensures old(model).sent <= model.sent && readIdx == old(readIdx)
      ensures left == budget ==> model.producer == old(model).producer && model.sent == old(model).sent
    {
      left := Yield(true, budget);
      RunKeepsInv(capacity, history);
      AheadMeansStored(model);
      assert writeIdx != readIdx;
      Tick(Event.Pop);
    }

    method DestroySlot(i: nat, ghost budget: nat) returns (ghost left: nat)
      requires Valid() && model.consumer.Destroy? && i == readIdx && |model.taken| < |model.sent|
      requires model.front.None?
      modifies this, slots
      ensures Valid() && old(history) <= history && left <= budget
      ensures model.consumer == Release(old(model).sent[|old(model).taken|])
      ensures model.front.None? && model.taken == old(model).taken
      ensures old(model).sent <= model.sent && readIdx == old(readIdx) && writeIdxCache == old(writeIdxCache)
      ensures left == budget ==> model.producer == old(model).producer && model.sent == old(model).sent
    {
      left := Yield(true, budget);
      RunKeepsInv(capacity, history);
      OldestIsStored(model);
      assert slots[i].Some?;
      Tick(ConsumerStep);
      slots[i] := None;
    }

    // ---------- the destructor ----------

    // ~SPSCQueue pops until front is null.  Then nothing is stored, and every object ever
    // constructed has been destroyed exactly once.
    method Teardown()
      requires Valid() && model.producer.Free? && model.consumer.Ready?
      modifies this, slots
      ensures Valid() && model.taken == model.sent == old(model).sent
      ensures forall i :: 0 <= i < capacity ==> slots[i] == None
      ensures forall k: nat :: model.died[k] == if k < model.made then 1 else 0
    {
      var f := Front(0);
      while f.Some?
        invariant Valid() && model.consumer.Ready? && model.front == f
        invariant model.producer.Free? && model.sent == old(model).sent
        invariant f.None? ==> |model.sent| == |model.taken|
        invariant f.Some? ==> readIdx != writeIdxCache
        invariant |model.taken| <= |model.sent|
        decreases |model.sent| - |model.taken|, f.Some?
      {
        Pop(0);
        RunKeepsInv(capacity, history);
        f := Front(0);
      }
      EmptyAtEnd();
    }

    lemma EmptyAtEnd()
      requires Valid() && |model.sent| == |model.taken| && !model.producer.Publish?
      ensures model.taken == model.sent
      ensures forall i :: 0 <= i < capacity ==> slots[i] == None
      ensures forall k: nat :: model.died[k] == if k < model.made then 1 else 0
    {
      RunKeepsInv(capacity, history);
      forall i | 0 <= i < capacity ensures model.cells[i] == Dead {
        var r := |model.taken|;
        var k := if i >= r % capacity then r + (i - r % capacity) else r + capacity - (r % capacity - i);
        IndexOf(capacity, r, i, k);
        assert SlotOk(model, k);
      }
      NothingLeft(model.cells, model.made, model.died);
    }
  }

  lemma IndexOf(cap: nat, r: nat, i: nat, k: int)
    requires cap > 0 && i < cap
    requires k == if i >= r % cap then r + (i - r % cap) else r + cap - (r % cap - i)
    ensures r <= k < r + cap && k % cap == i
  {
    assert r == cap * (r / cap) + r % cap;
    if i >= r % cap {
      DivModOf(cap, k, r / cap, i);
    } else {
      assert k == cap * (r / cap + 1) + i;
      DivModOf(cap, k, r / cap + 1, i);
    }
  }
}

/**
 Pinning threads to CPUs round robin.
 */
module Affinity {
  import opened Wrappers
  import opened Arithmetic
  import opened Counting

  type Bitmask = seq<bool>

  predicate Any(mask: Bitmask) {
    true in mask
  }

  // The set positions from a given one on, ascending.
  function Cpus(mask: Bitmask, from: nat): (r: seq<nat>)
    ensures forall c :: c in r ==> from <= c < |mask| && mask[c]
    decreases |mask| - from
  {
    if from >= |mask| then []
    else if mask[from] then [from] + Cpus(mask, from + 1)
    else Cpus(mask, from + 1)
  }

  // The lowest set position from start on and before end, or -1.
  function FindLowest(mask: Bitmask, start: nat, end: nat): int
    requires start <= end <= |mask|
    decreases end - start
  {
    if start == end then -1
    else if mask[start] then start
    else FindLowest(mask, start + 1, end)
  }

  function OneCpu(size: nat, pos: nat): Bitmask {
    seq(size, i => i == pos)
  }

  lemma {:induction false} CpusAscend(mask: Bitmask, from: nat)
    ensures forall i, j :: 0 <= i < j < |Cpus(mask, from)| ==> Cpus(mask, from)[i] < Cpus(mask, from)[j]
    decreases |mask| - from
  {
    if from < |mask| {
      CpusAscend(mask, from + 1);
      var more := Cpus(mask, from + 1);
      forall i | 0 <= i < |more| ensures from < more[i] {
        assert more[i] in more;
      }
    }
  }

  lemma {:induction false} CpusComplete(mask: Bitmask, from: nat, c: nat)
    requires from <= c < |mask| && mask[c]
    ensures c in Cpus(mask, from)
    decreases |mask| - from
  {
    if from < c { CpusComplete(mask, from + 1, c); }
  }

  lemma {:induction false} LowestIsFirst(mask: Bitmask, from: nat)
    requires from <= |mask|
    ensures var p := FindLowest(mask, from, |mask|); var cs := Cpus(mask, from);
      && (p < 0 <==> cs == [])
      && (p >= 0 ==> p < |mask| && cs[0] == p && Cpus(mask, p + 1) == cs[1..])
    decreases |mask| - from
  {
    if from < |mask| && !mask[from] { LowestIsFirst(mask, from + 1); }
  }

  lemma {:induction false} CpusSuffix(mask: Bitmask, from: nat)
    ensures |Cpus(mask, from)| <= |Cpus(mask, 0)|
    ensures Cpus(mask, from) == Cpus(mask, 0)[|Cpus(mask, 0)| - |Cpus(mask, from)|..]
    decreases from
  {
    if from > 0 { CpusSuffix(mask, from - 1); }
  }

  lemma AnyHasCpu(mask: Bitmask)
    requires Any(mask)
    ensures Cpus(mask, 0) != []
  {
    var c :| 0 <= c < |mask| && mask[c];
    CpusComplete(mask, 0, c);
  }

  // The next CPU, and where the search after it starts: wrap around at the end.
  function Next(mask: Bitmask, last: nat): (r: (nat, nat))
    requires Any(mask) && last <= |mask|
    ensures r.0 < |mask| && mask[r.0] && r.1 == r.0 + 1
  {
    LowestIsFirst(mask, last);
    LowestIsFirst(mask, 0);
    AnyHasCpu(mask);
    var p := FindLowest(mask, last, |mask|);
    var q := if p < 0 then FindLowest(mask, 0, |mask|) else p;
    (q, q + 1)
  }

  // It is the first set position from where the search starts, or, if there is none, the first
  // of all.
  lemma NextIsNext(mask: Bitmask, last: nat)
    requires Any(mask) && last <= |mask|
    ensures var cpu := Next(mask, last).0;
      if exists c :: last <= c < |mask| && mask[c]
      then last <= cpu && forall c :: last <= c < cpu ==> !mask[c]
      else forall c :: 0 <= c < cpu ==> !mask[c]
  {
    LowestIsLowest(mask, last);
    LowestIsLowest(mask, 0);
  }

  lemma {:induction false} LowestIsLowest(mask: Bitmask, start: nat)
    requires start <= |mask|
    ensures var p := FindLowest(mask, start, |mask|);
      if p < 0 then forall c :: start <= c < |mask| ==> !mask[c]
      else start <= p < |mask| && mask[p] && forall c :: start <= c < p ==> !mask[c]
    decreases |mask| - start
  {
    if start < |mask| && !mask[start] { LowestIsLowest(mask, start + 1); }
  }

  class AffinityEntryRr {
    const mask: Bitmask
    const hostCpus: nat
    var lastPosUsed: nat

    ghost predicate Valid()
      reads this
    {
      lastPosUsed <= |mask|
    }

    constructor (mask: Bitmask, hostCpus: nat)
      ensures Valid() && this.mask == mask && lastPosUsed == 0 && this.hostCpus == hostCpus
    {
      this.mask := mask;
      this.hostCpus := hostCpus;
      lastPosUsed := 0;
    }

    // One CPU of the mask, found in at most two rounds; the default mask if there is none.
    method CalculateMask() returns (r: Bitmask, ghost rounds: nat)
      requires Valid()
      modifies this
      ensures Valid() && rounds <= 2
      ensures |r| == (if Any(mask) then |mask| else hostCpus)
      ensures Any(mask) ==> lastPosUsed == Next(mask, old(lastPosUsed)).0 + 1
      ensures Any(mask) ==> forall i :: 0 <= i < |r| ==> (r[i] <==> i == Next(mask, old(lastPosUsed)).0)
      ensures !Any(mask) ==> true !in r && lastPosUsed == old(lastPosUsed)
    {
      rounds := 0;
      if !Any(mask) {
        return seq(hostCpus, _ => false), 0;
      }
      AnyHasCpu(mask);
      LowestIsFirst(mask, 0);
      LowestIsFirst(mask, lastPosUsed);
      var pos := -1;
      while pos < 0
        invariant Valid() && rounds <= 2
        invariant pos < 0 ==> rounds <= 1
        invariant pos < 0 && rounds == 0 ==> lastPosUsed == old(lastPosUsed)
        invariant pos < 0 && rounds == 1 ==>
                    lastPosUsed == 0 && FindLowest(mask, old(lastPosUsed), |mask|) < 0
        invariant pos >= 0 ==> (pos, lastPosUsed) == Next(mask, old(lastPosUsed))
        decreases pos < 0, 2 - rounds
      {
        pos := FindLowest(mask, lastPosUsed, |mask|);
        LowestIsFirst(mask, lastPosUsed);
        lastPosUsed := if pos < 0 then 0 else pos + 1;
        rounds := rounds + 1;
      }
      r := OneCpu(|mask|, pos);
    }
  }

  // ---------- many calls ----------

  // The CPUs of n calls in a row, and the state after them.
  function HandedOut(mask: Bitmask, last: nat, n: nat): (r: seq<nat>)
    requires Any(mask) && last <= |mask|
    ensures |r| == n
    decreases n
  {
    if n == 0 then [] else
    var (cpu, last') := Next(mask, last);
    [cpu] + HandedOut(mask, last', n - 1)
  }

  function LastAfter(mask: Bitmask, last: nat, n: nat): (r: nat)
    requires Any(mask) && last <= |mask|
    ensures r <= |mask|
    decreases n
  {
    if n == 0 then last else LastAfter(mask, Next(mask, last).1, n - 1)
  }

  // Which of the mask's CPUs comes next, by number.
  function Turn(mask: Bitmask, last: nat): nat
    requires |Cpus(mask, last)| <= |Cpus(mask, 0)|
  {
    if Cpus(mask, last) == [] then 0 else |Cpus(mask, 0)| - |Cpus(mask, last)|
  }

  lemma TurnStep(mask: Bitmask, last: nat)
    requires Any(mask) && last <= |mask|
    ensures var cs := Cpus(mask, 0); var (cpu, last') := Next(mask, last);
      && |Cpus(mask, last)| <= |cs| && |Cpus(mask, last')| <= |cs|
      && Turn(mask, last) < |cs| && cpu == cs[Turn(mask, last)]
      && Turn(mask, last') == if Turn(mask, last) + 1 == |cs| then 0 else Turn(mask, last) + 1
  {
    var (_, last') := Next(mask, last);
    AnyHasCpu(mask);
    CpusSuffix(mask, last);
    CpusSuffix(mask, last');
    NextFirst(mask, last);
  }

  // The next CPU is the first of those left, or of all, and the rest of them are left then.
  lemma NextFirst(mask: Bitmask, last: nat)
    requires Any(mask) && last <= |mask|
    ensures var left := if Cpus(mask, last) == [] then Cpus(mask, 0) else Cpus(mask, last);
      left != [] && Next(mask, last).0 == left[0] && Cpus(mask, Next(mask, last).1) == left[1..]
  {
    AnyHasCpu(mask);
    LowestIsFirst(mask, last);
    LowestIsFirst(mask, 0);
  }

  // Calls that do not pass the end of the list hand out a stretch of it.
  lemma {:induction false} Stretch(mask: Bitmask, last: nat, n: nat)
    requires Any(mask) && last <= |mask| && |Cpus(mask, last)| <= |Cpus(mask, 0)|
    requires Turn(mask, last) + n <= |Cpus(mask, 0)|
    ensures var cs := Cpus(mask, 0); var p := Turn(mask, last); var last' := LastAfter(mask, last, n);
      && HandedOut(mask, last, n) == cs[p..p + n]
      && |Cpus(mask, last')| <= |cs|
      && Turn(mask, last') == if p + n == |cs| then 0 else p + n
    decreases n
  {
    TurnStep(mask, last);
    if n == 0 {
      assert Cpus(mask, 0)[Turn(mask, last)..Turn(mask, last)] == [];
    } else {
      var (cpu, last') := Next(mask, last);
      Stretch(mask, last', n - 1);
      SliceStep(Cpus(mask, 0), Turn(mask, last), Turn(mask, last'), n);
      assert HandedOut(mask, last, n) == [cpu] + HandedOut(mask, last', n - 1);
      assert LastAfter(mask, last, n) == LastAfter(mask, last', n - 1);
    }
  }

  lemma SliceStep(cs: seq<nat>, p: nat, p': nat, n: nat)
    requires p < |cs| && 0 < n && p + n <= |cs| && p' == if p + 1 == |cs| then 0 else p + 1
    ensures cs[p..p + n] == [cs[p]] + cs[p'..p' + n - 1]
  {
  }

  lemma {:induction false} HandedOutSplit(mask: Bitmask, last: nat, a: nat, b: nat)
    requires Any(mask) && last <= |mask|
    ensures HandedOut(mask, last, a + b) == HandedOut(mask, last, a) + HandedOut(mask, LastAfter(mask, last, a), b)
    ensures LastAfter(mask, last, a + b) == LastAfter(mask, LastAfter(mask, last, a), b)
    decreases a
  {
    if a > 0 {
      HandedOutSplit(mask, Next(mask, last).1, a - 1, b);
    }
  }

  // To the end of the list, then from its start.
  lemma AroundOnce(mask: Bitmask, last: nat, p: nat)
    requires Any(mask) && last <= |mask| && |Cpus(mask, last)| <= |Cpus(mask, 0)|
    requires p == Turn(mask, last) < |Cpus(mask, 0)|
    ensures var cs := Cpus(mask, 0); var last' := LastAfter(mask, last, |cs|);
      && HandedOut(mask, last, |cs|) == cs[p..] + cs[..p]
      && |Cpus(mask, last')| <= |cs| && Turn(mask, last') == p
  {
    var cs := Cpus(mask, 0);
    var rest := |cs| - p;
    Stretch(mask, last, rest);
    Stretch(mask, LastAfter(mask, last, rest), p);
    HandedOutSplit(mask, last, rest, p);
    assert cs[p..p + rest] == cs[p..] && cs[0..p] == cs[..p];
  }

  // As many calls as there are CPUs: the list from where it stood, once around.
  lemma {:induction false} OneRound(mask: Bitmask, last: nat, c: nat)
    requires Any(mask) && last <= |mask|
    ensures var cs := Cpus(mask, 0); var last' := LastAfter(mask, last, |cs|);
      && Count(HandedOut(mask, last, |cs|), c) == Count(cs, c)
      && |Cpus(mask, last')| <= |cs| && |Cpus(mask, last)| <= |cs|
      && Turn(mask, last') == Turn(mask, last)
  {
    var cs := Cpus(mask, 0);
    TurnStep(mask, last);
    var p := Turn(mask, last);
    AroundOnce(mask, last, p);
    CountConcat(cs[p..], cs[..p], c);
    CountConcat(cs[..p], cs[p..], c);
    assert cs == cs[..p] + cs[p..];
  }

  // Fairness: whatever came before, k calls in a row hand out each of the k CPUs exactly once.
  lemma {:induction false} EveryWindowIsFair(mask: Bitmask, start: nat, c: nat)
    requires Any(mask)
    ensures var k := |Cpus(mask, 0)|;
      Count(HandedOut(mask, 0, start + k)[start..], c) == if c < |mask| && mask[c] then 1 else 0
  {
    var k := |Cpus(mask, 0)|;
    HandedOutSplit(mask, 0, start, k);
    assert HandedOut(mask, 0, start + k)[start..] == HandedOut(mask, LastAfter(mask, 0, start), k);
    OneRound(mask, LastAfter(mask, 0, start), c);
    OnceInCpus(mask, c);
  }

  lemma OnceInCpus(mask: Bitmask, c: nat)
    ensures Count(Cpus(mask, 0), c) == if c < |mask| && mask[c] then 1 else 0
  {
    var cs := Cpus(mask, 0);
    CpusAscend(mask, 0);
    if c < |mask| && mask[c] {
      CpusComplete(mask, 0, c);
      var j :| 0 <= j < |cs| && cs[j] == c;
      OnceAt(cs, j);
    } else {
      CountZero(cs, c);
    }
  }

  lemma {:induction false} OnceAt(s: seq<nat>, j: nat)
    requires j < |s| && forall i, i' :: 0 <= i < i' < |s| ==> s[i] < s[i']
    ensures Count(s, s[j]) == 1
  {
    if j == 0 {
      CountZero(s[1..], s[0]);
    } else {
      OnceAt(s[1..], j - 1);
    }
  }

  // After n calls the j-th CPU has been handed out n / k times, and once more if j < n % k.
  lemma {:induction false} EveryCpuInTurn(mask: Bitmask, last: nat, n: nat, j: nat)
    requires Any(mask) && last <= |mask| && j < |Cpus(mask, 0)|
    requires |Cpus(mask, last)| <= |Cpus(mask, 0)| && Turn(mask, last) == 0
    ensures var cs := Cpus(mask, 0);
      Count(HandedOut(mask, last, n), cs[j]) == n / |cs| + if j < n % |cs| then 1 else 0
    decreases n
  {
    var cs := Cpus(mask, 0);
    var k := |cs|;
    CpusAscend(mask, 0);
    if n < k {
      Stretch(mask, last, n);
      CountInPrefix(cs, n, j);
    } else {
      var last' := LastAfter(mask, last, k);
      OnceAt(cs, j);
      OneRound(mask, last, cs[j]);
      HandedOutSplit(mask, last, k, n - k);
      CountConcat(HandedOut(mask, last, k), HandedOut(mask, last', n - k), cs[j]);
      EveryCpuInTurn(mask, last', n - k, j);
      OneLess(k, n);
    }
  }

  // The same from the first call on.
  lemma EveryCpuFromStart(mask: Bitmask, n: nat, c: nat)
    requires Any(mask) && c < |mask| && mask[c]
    ensures var k := |Cpus(mask, 0)|;
      k > 0 && n / k <= Count(HandedOut(mask, 0, n), c) <= n / k + if n % k == 0 then 0 else 1
  {
    CpusComplete(mask, 0, c);
    var j :| 0 <= j < |Cpus(mask, 0)| && Cpus(mask, 0)[j] == c;
    EveryCpuInTurn(mask, 0, n, j);
  }

  lemma CountInPrefix(s: seq<nat>, n: nat, j: nat)
    requires n < |s| && j < |s| && forall i, i' :: 0 <= i < i' < |s| ==> s[i] < s[i']
    ensures Count(s[0..n], s[j]) == (if j < n then 1 else 0)
    ensures (if j < n then 1 else 0) == n / |s| + if j < n % |s| then 1 else 0
  {
    DivModOf(|s|, n, 0, n);
    if j < n {
      OnceAt(s[0..n], j);
    } else {
      CountZero(s[0..n], s[j]);
    }
  }

  // ---------- the manager ----------

  datatype Policy = NoPolicy | RoundRobin(entry: AffinityEntryRr) | SameMask(mask: Bitmask)

  datatype Config = Config(kind: nat, mask: Bitmask, pinning: Pinning)

  datatype Pinning = PinRoundRobin | PinMask | PinUnset

  // The last of the first n configurations that is for a kind.
  function Latest(entries: seq<Config>, n: nat, kind: nat): Option<Config>
    requires n <= |entries|
  {
    if n == 0 then None
    else if entries[n - 1].kind == kind then Some(entries[n - 1])
    else Latest(entries, n - 1, kind)
  }

  lemma {:induction false} LatestIsLast(entries: seq<Config>, n: nat, kind: nat)
    requires n <= |entries|
    ensures Latest(entries, n, kind).None? <==> forall i :: 0 <= i < n ==> entries[i].kind != kind
    ensures forall i :: 0 <= i < n && entries[i].kind == kind && (forall j :: i < j < n ==> entries[j].kind != kind) ==>
              Latest(entries, n, kind) == Some(entries[i])
  {
    if n > 0 { LatestIsLast(entries, n - 1, kind); }
  }

  // The policy is what the configuration asks for, at the start of its round; none if there is none.
  ghost predicate Follows(policy: Policy, c: Option<Config>)
    reads if policy.RoundRobin? then {policy.entry} else {}
  {
    match c
    case None => policy == NoPolicy
    case Some(config) =>
      match config.pinning
      case PinRoundRobin => policy.RoundRobin? && policy.entry.mask == config.mask && policy.entry.lastPosUsed == 0
      case PinMask => policy == SameMask(config.mask)
      case PinUnset => policy == NoPolicy
  }

  class AffinityManager {
    const kinds: nat
    var cpuMasks: seq<Policy>

    ghost predicate Valid()
      reads this, Entries()
    {
      && |cpuMasks| == kinds
      && (forall i :: 0 <= i < kinds && cpuMasks[i].RoundRobin? ==> cpuMasks[i].entry.Valid())
      && (forall i, j :: 0 <= i < j < kinds && cpuMasks[i].RoundRobin? && cpuMasks[j].RoundRobin? ==>
            cpuMasks[i].entry != cpuMasks[j].entry)
    }

    ghost function Entries(): set<AffinityEntryRr>
      reads this
    {
      set i | 0 <= i < |cpuMasks| && cpuMasks[i].RoundRobin? :: cpuMasks[i].entry
    }

    // The last configuration given for a kind counts.
    constructor (kinds: nat, entries: seq<Config>, hostCpus: nat)
      requires forall c :: c in entries ==> c.kind < kinds
      ensures Valid() && this.kinds == kinds && fresh(Entries())
      ensures forall k :: 0 <= k < kinds ==> Follows(cpuMasks[k], Latest(entries, |entries|, k))
    {
      this.kinds := kinds;
      cpuMasks := seq(kinds, _ => NoPolicy);
      new;
      for n := 0 to |entries|
        invariant Valid() && fresh(Entries())
        invariant forall k :: 0 <= k < kinds ==> Follows(cpuMasks[k], Latest(entries, n, k))
      {
        SetPolicy(entries[n], hostCpus);
      }
    }

    method SetPolicy(c: Config, hostCpus: nat)
      requires Valid() && c.kind < kinds
      modifies this
      ensures Valid() && |cpuMasks| == |old(cpuMasks)|
      ensures forall k :: 0 <= k < kinds && k != c.kind ==> cpuMasks[k] == old(cpuMasks[k])
      ensures Follows(cpuMasks[c.kind], Some(c)) && fresh(Entries() - old(Entries()))
    {
      var policy := MakePolicy(c, hostCpus);
      ghost var before := Entries();
      cpuMasks := cpuMasks[c.kind := policy];
      assert Entries() <= before + if policy.RoundRobin? then {policy.entry} else {};
    }

    static method MakePolicy(c: Config, hostCpus: nat) returns (policy: Policy)
      ensures Follows(policy, Some(c))
      ensures policy.RoundRobin? ==> fresh(policy.entry) && policy.entry.Valid()
    {
      match c.pinning {
        case PinRoundRobin =>
          var e := new AffinityEntryRr(c.mask, hostCpus);
          policy := RoundRobin(e);
        case PinMask => policy := SameMask(c.mask);
        case PinUnset => policy := NoPolicy;
      }
    }

    // Only the asked kind's position moves: the other kinds' rounds go on undisturbed.
    method CalculateAffinityMask(kind: nat) returns (r: Bitmask)
      requires Valid() && kind < kinds && cpuMasks[kind] != NoPolicy
      modifies Entries()
      ensures Valid() && cpuMasks == old(cpuMasks)
      ensures cpuMasks[kind].SameMask? ==> r == cpuMasks[kind].mask
      ensures cpuMasks[kind].RoundRobin? && Any(cpuMasks[kind].entry.mask) ==>
                var e := cpuMasks[kind].entry;
                && |r| == |e.mask| && e.lastPosUsed == Next(e.mask, old(e.lastPosUsed)).0 + 1
                && forall i :: 0 <= i < |r| ==> (r[i] <==> i == Next(e.mask, old(e.lastPosUsed)).0)
      ensures cpuMasks[kind].RoundRobin? && !Any(cpuMasks[kind].entry.mask) ==>
                true !in r && |r| == cpuMasks[kind].entry.hostCpus && cpuMasks[kind].entry.lastPosUsed == old(cpuMasks[kind].entry.lastPosUsed)
      ensures forall i :: 0 <= i < kinds && i != kind && cpuMasks[i].RoundRobin? ==>
                cpuMasks[i].entry.lastPosUsed == old(cpuMasks[i].entry.lastPosUsed)
    {
      match cpuMasks[kind] {
        case RoundRobin(e) =>
          assert e in Entries();
          ghost var rounds;
          r, rounds := e.CalculateMask();
        case SameMask(m) => r := m;
      }
    }
  }

  // The masks of a pool of workers: as many calls in a row as there are workers.
  method WorkerMasks(manager: AffinityManager, kind: nat, workers: nat) returns (masks: seq<Bitmask>)
    requires manager.Valid() && kind < manager.kinds
    requires manager.cpuMasks[kind].RoundRobin? && Any(manager.cpuMasks[kind].entry.mask)
    modifies manager.Entries()
    ensures manager.Valid() && manager.cpuMasks == old(manager.cpuMasks)
    ensures var e := manager.cpuMasks[kind].entry;
      && |masks| == workers
      && (forall w :: 0 <= w < workers ==> |masks[w]| == |e.mask|)
      && (forall w, i :: 0 <= w < workers && 0 <= i < |masks[w]| ==>
            (masks[w][i] <==> i == HandedOut(e.mask, old(e.lastPosUsed), workers)[w]))
      && e.lastPosUsed == LastAfter(e.mask, old(e.lastPosUsed), workers)
  {
    masks := [];
    ghost var e := manager.cpuMasks[kind].entry;
    ghost var start := e.lastPosUsed;
    for w := 0 to workers
      invariant manager.Valid() && manager.cpuMasks == old(manager.cpuMasks) && manager.Entries() == old(manager.Entries())
      invariant |masks| == w
      invariant forall k :: 0 <= k < w ==> |masks[k]| == |e.mask|
      invariant forall k, i :: 0 <= k < w && 0 <= i < |masks[k]| ==> (masks[k][i] <==> i == HandedOut(e.mask, start, w)[k])
      invariant e.lastPosUsed == LastAfter(e.mask, start, w)
    {
      OneMoreOut(e.mask, start, w);
      var mask := manager.CalculateAffinityMask(kind);
      masks := masks + [mask];
    }
  }

  lemma OneMoreOut(mask: Bitmask, last: nat, n: nat)
    requires Any(mask) && last <= |mask|
    ensures var (cpu, last') := Next(mask, LastAfter(mask, last, n));
      && HandedOut(mask, last, n + 1) == HandedOut(mask, last, n) + [cpu]
      && LastAfter(mask, last, n + 1) == last'
  {
    HandedOutSplit(mask, last, n, 1);
    assert HandedOut(mask, LastAfter(mask, last, n), 1) == [Next(mask, LastAfter(mask, last, n)).0];
  }
}

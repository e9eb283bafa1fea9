/**
 Lists of CPUs in the configuration: single ids and ranges a-b, separated by commas.
 */
module AffinityMask {
  import opened Wrappers
  import opened Text
  import opened Numbers
  import opened Counting
  import opened Affinity

  const UNSIGNED_RANGE := 0x1_0000_0000

  // ---------- one CPU ----------

  // std::stoi
  function ParseInt(s: string): Option<int> {
    match Integer(s)
    case None => None
    case Some(v) => if -INT_MAX - 1 <= v <= INT_MAX then Some(v) else None
  }

  function ToUnsigned(v: int): int {
    if v < 0 then v + UNSIGNED_RANGE else v
  }

  predicate IsValidCpuIndex(available: Bitmask, idx: int) {
    0 <= idx < |available| && available[idx]
  }

  function ParseOneCpu(available: Bitmask, value: string): (r: Option<nat>)
    ensures r.Some? ==> r.value < |available| && available[r.value]
  {
    match ParseInt(value)
    case None => None
    case Some(v) => if IsValidCpuIndex(available, ToUnsigned(v)) then Some(ToUnsigned(v)) else None
  }

  // ---------- tokens ----------

  // Reading up to each delimiter while the stream is good: n delimiters make n + 1 tokens, the
  // last of them empty if the text ends in one.
  function Tokens(s: string, delim: char): (r: seq<string>)
    ensures r != []
    decreases |s|
  {
    match Find(s, delim, 0)
    case None => [s]
    case Some(k) => [s[..k]] + Tokens(s[k + 1..], delim)
  }

  // The CPUs of all tokens, if every one is an available CPU.
  function ParseAll(available: Bitmask, tokens: seq<string>): (r: Option<seq<nat>>)
    ensures r.Some? ==> |r.value| == |tokens| && forall c :: c in r.value ==> c < |available|
    decreases |tokens|
  {
    if tokens == [] then Some([]) else
    var n := |tokens| - 1;
    match (ParseAll(available, tokens[..n]), ParseOneCpu(available, tokens[n]))
    case (Some(cpus), Some(c)) => Some(cpus + [c])
    case _ => None
  }

  lemma ParseAllNext(available: Bitmask, tokens: seq<string>, token: string)
    ensures ParseAll(available, tokens + [token]) ==
            match (ParseAll(available, tokens), ParseOneCpu(available, token))
            case (Some(cpus), Some(c)) => Some(cpus + [c])
            case _ => None
  {
    assert (tokens + [token])[..|tokens|] == tokens;
  }

  lemma {:induction false} ParseAllStops(available: Bitmask, tokens: seq<string>, more: seq<string>)
    requires ParseAll(available, tokens).None?
    ensures ParseAll(available, tokens + more).None?
    decreases |more|
  {
    if more == [] {
      assert tokens + more == tokens;
    } else {
      var n := |more| - 1;
      ParseAllStops(available, tokens, more[..n]);
      ParseAllNext(available, tokens + more[..n], more[n]);
      assert tokens + more == (tokens + more[..n]) + [more[n]];
    }
  }

  // A range is two numbers, the lower first.
  function AsRange(cpus: Option<seq<nat>>): Option<(nat, nat)> {
    match cpus
    case None => None
    case Some(range) =>
      if |range| != 2 then None
      else if range[1] <= range[0] then None
      else Some((range[0], range[1]))
  }

  function RangeOf(available: Bitmask, token: string): (r: Option<(nat, nat)>)
    ensures r.Some? ==> r.value.0 < r.value.1 < |available|
  {
    var cpus := ParseAll(available, Tokens(token, '-'));
    assert cpus.Some? && |cpus.value| == 2 ==> cpus.value[1] in cpus.value;
    AsRange(cpus)
  }

  function CpusOf(available: Bitmask, token: string): (r: Option<(nat, nat)>)
    ensures r.Some? ==> r.value.0 <= r.value.1 < |available|
  {
    if '-' in token then RangeOf(available, token)
    else match ParseOneCpu(available, token)
      case None => None
      case Some(c) => Some((c, c))
  }

  predicate AllParse(available: Bitmask, tokens: seq<string>) {
    forall t :: t in tokens ==> CpusOf(available, t).Some?
  }

  // Some token names the CPU, by itself or within a range.
  predicate Named(available: Bitmask, tokens: seq<string>, c: nat) {
    exists i :: 0 <= i < |tokens| && NamedBy(available, tokens[i], c)
  }

  predicate NamedBy(available: Bitmask, token: string, c: nat) {
    CpusOf(available, token).Some? && CpusOf(available, token).value.0 <= c <= CpusOf(available, token).value.1
  }

  method ParseCpuRange(available: Bitmask, value: string) returns (r: Option<(nat, nat)>)
    ensures r == RangeOf(available, value)
  {
    var cpus := ParseCpus(available, value);
    if cpus.None? {
      return None;
    }
    var range := cpus.value;
    if |range| != 2 || range[1] <= range[0] {
      return None;
    }
    return Some((range[0], range[1]));
  }

  method ParseCpus(available: Bitmask, value: string) returns (r: Option<seq<nat>>)
    ensures r == ParseAll(available, Tokens(value, '-'))
  {
    var range: seq<nat> := [];
    var rest, good := value, true;
    ghost var done: seq<string> := [];
    ghost var all := Tokens(value, '-');
    while good
      invariant done + (if good then Tokens(rest, '-') else []) == all
      invariant ParseAll(available, done) == Some(range)
      decreases good, |rest|
    {
      var str;
      ghost var was := Tokens(rest, '-');
      str, rest, good := GetLine(rest, '-');
      ghost var left := if good then Tokens(rest, '-') else [];
      OneTokenMore(done, was, str, left);
      var parsed := ParseOneCpu(available, str);
      ParseAllNext(available, done, str);
      done := done + [str];
      if parsed.None? {
        ParseAllStops(available, done, left);
        return None;
      }
      range := range + [parsed.value];
    }
    assert done == all;
    r := Some(range);
  }

  lemma OneTokenMore(done: seq<string>, was: seq<string>, str: string, left: seq<string>)
    requires was == [str] + left
    ensures done + was == done + [str] + left
  {
  }

  // One token, what is left of the stream, and whether the stream is still good.
  method GetLine(rest: string, delim: char) returns (str: string, left: string, good: bool)
    ensures Tokens(rest, delim) == [str] + if good then Tokens(left, delim) else []
    ensures good ==> |left| < |rest|
  {
    var k := Find(rest, delim, 0);
    if k.Some? {
      return rest[..k.value], rest[k.value + 1..], true;
    }
    return rest, "", false;
  }

  method MarkToken(mask: array<bool>, available: Bitmask, str: string) returns (ok: bool)
    requires mask.Length == |available|
    modifies mask
    ensures ok == CpusOf(available, str).Some?
    ensures ok ==> forall c :: 0 <= c < mask.Length ==> mask[c] == (old(mask[c]) || NamedBy(available, str, c))
  {
    var cpus: Option<(nat, nat)>;
    if '-' in str {
      cpus := ParseCpuRange(available, str);
    } else {
      var one := ParseOneCpu(available, str);
      cpus := if one.Some? then Some((one.value, one.value)) else None;
    }
    assert cpus == CpusOf(available, str);
    if cpus.None? {
      return false;
    }
    forall c | cpus.value.0 <= c < cpus.value.1 + 1 {
      mask[c] := true;
    }
    return true;
  }

  // The named CPUs are added to the mask.  False stands for the error report that ends the
  // program at the first token that is no available CPU or range between two such.
  method ParseAffinityMask(mask: array<bool>, available: Bitmask, value: string) returns (ok: bool)
    requires mask.Length == |available|
    modifies mask
    ensures ok <==> AllParse(available, Tokens(value, ','))
    ensures ok ==> forall c :: 0 <= c < mask.Length ==> mask[c] == (old(mask[c]) || Named(available, Tokens(value, ','), c))
  {
    var rest, good := value, true;
    ghost var done: seq<string> := [];
    ghost var all := Tokens(value, ',');
    while good
      invariant done + (if good then Tokens(rest, ',') else []) == all
      invariant AllParse(available, done)
      invariant forall c :: 0 <= c < mask.Length ==> mask[c] == (old(mask[c]) || Named(available, done, c))
      decreases good, |rest|
    {
      var str;
      ghost var was := Tokens(rest, ',');
      str, rest, good := GetLine(rest, ',');
      ghost var left := if good then Tokens(rest, ',') else [];
      assert done + was == (done + [str]) + left;
      var marked := MarkToken(mask, available, str);
      if !marked {
        assert str in (done + [str]) + left;
        return false;
      }
      forall c: nat ensures Named(available, done + [str], c) <==> Named(available, done, c) || NamedBy(available, str, c) {
        OneMoreToken(available, done, str, c);
      }
      done := done + [str];
    }
    assert done == all;
    return true;
  }

  lemma OneMoreToken(available: Bitmask, tokens: seq<string>, token: string, c: nat)
    ensures Named(available, tokens + [token], c) <==> Named(available, tokens, c) || NamedBy(available, token, c)
  {
    var more := tokens + [token];
    if Named(available, tokens, c) {
      var i :| 0 <= i < |tokens| && NamedBy(available, tokens[i], c);
      assert more[i] == tokens[i];
    }
    assert more[|tokens|] == token;
  }

  // ---------- what the writer prints ----------

  function Printed(ids: seq<nat>): string {
    if ids == [] then ""
    else if |ids| == 1 then Decimal(ids[0])
    else Decimal(ids[0]) + "," + Printed(ids[1..])
  }

  lemma ParsePrintedInt(n: nat)
    requires n <= INT_MAX
    ensures ParseInt(Decimal(n)) == Some(n)
  {
    IntegerOfDecimal(n);
  }

  lemma ParsePrinted(available: Bitmask, n: nat)
    requires n < |available| && available[n] && n <= INT_MAX
    ensures CpusOf(available, Decimal(n)) == Some((n, n))
  {
    ParsePrintedInt(n);
    DecimalDigits(n);
    assert '-' !in Decimal(n);
    assert ParseOneCpu(available, Decimal(n)) == Some(n);
  }

  lemma TokensCons(head: string, tail: string, delim: char)
    requires delim !in head
    ensures Tokens(head + [delim] + tail, delim) == [head] + Tokens(tail, delim)
  {
    var s := head + [delim] + tail;
    FindFirst(s, delim, 0, |head|);
    assert s[..|head|] == head && s[|head| + 1..] == tail;
  }

  function Decimals(ids: seq<nat>): seq<string> {
    seq(|ids|, i requires 0 <= i < |ids| => Decimal(ids[i]))
  }

  lemma {:induction false} PrintedTokens(ids: seq<nat>)
    requires ids != []
    ensures Tokens(Printed(ids), ',') == Decimals(ids)
  {
    DecimalDigits(ids[0]);
    assert ',' !in Decimal(ids[0]);
    if |ids| == 1 {
      FindNone(Printed(ids), ',', 0);
      assert Decimals(ids) == [Decimal(ids[0])];
    } else {
      assert Decimal(ids[0]) + "," + Printed(ids[1..]) == Decimal(ids[0]) + [','] + Printed(ids[1..]);
      TokensCons(Decimal(ids[0]), Printed(ids[1..]), ',');
      PrintedTokens(ids[1..]);
      assert Decimals(ids) == [Decimal(ids[0])] + Decimals(ids[1..]);
    }
  }

  lemma SinglesName(available: Bitmask, tokens: seq<string>, ids: seq<nat>, c: nat)
    requires |tokens| == |ids|
    requires forall i :: 0 <= i < |ids| ==> CpusOf(available, tokens[i]) == Some((ids[i], ids[i]))
    ensures AllParse(available, tokens)
    ensures Named(available, tokens, c) <==> c in ids
  {
    if c in ids {
      var i :| 0 <= i < |ids| && ids[i] == c;
      assert NamedBy(available, tokens[i], c);
    }
  }

  // Whatever non-empty set of available CPUs is printed, its text parses and names exactly it.
  lemma {:induction false} PrintedMaskReadsBack(available: Bitmask, mask: Bitmask, c: nat)
    requires |mask| == |available| <= INT_MAX && Any(mask)
    requires forall i :: 0 <= i < |mask| && mask[i] ==> available[i]
    ensures AllParse(available, Tokens(Printed(Cpus(mask, 0)), ','))
    ensures Named(available, Tokens(Printed(Cpus(mask, 0)), ','), c) <==> c < |mask| && mask[c]
  {
    var ids := Cpus(mask, 0);
    AnyHasCpu(mask);
    PrintedTokens(ids);
    forall i | 0 <= i < |ids| ensures CpusOf(available, Decimals(ids)[i]) == Some((ids[i], ids[i])) {
      assert ids[i] in ids;
      ParsePrinted(available, ids[i]);
    }
    SinglesName(available, Decimals(ids), ids, c);
    if c < |mask| && mask[c] { CpusComplete(mask, 0, c); }
  }

  // ---------- lists of ids and ranges ----------

  datatype CpuItem = Single(cpu: nat) | Range(lo: nat, hi: nat)

  function ItemText(x: CpuItem): string {
    match x
    case Single(cpu) => Decimal(cpu)
    case Range(lo, hi) => Decimal(lo) + ['-'] + Decimal(hi)
  }

  // Ids and range ends are available CPUs that fit an int, and a range goes upwards.
  predicate IsCpu(available: Bitmask, cpu: nat) {
    cpu <= INT_MAX && cpu < |available| && available[cpu]
  }

  predicate ItemOk(available: Bitmask, x: CpuItem) {
    match x
    case Single(cpu) => IsCpu(available, cpu)
    case Range(lo, hi) => IsCpu(available, lo) && IsCpu(available, hi) && lo < hi
  }

  predicate Covers(x: CpuItem, c: nat) {
    match x
    case Single(cpu) => c == cpu
    case Range(lo, hi) => lo <= c <= hi
  }

  lemma NumberReads(available: Bitmask, n: nat)
    ensures ParseOneCpu(available, Decimal(n)) == if IsCpu(available, n) then Some(n) else None
    ensures '-' !in Decimal(n) && ',' !in Decimal(n)
  {
    IntegerOfDecimal(n);
    DecimalDigits(n);
  }

  // A number spelled with a sign or spaces is read if it fits an int.
  lemma IntegersFit(spaces: string, sign: string, n: nat, rest: string)
    requires Spaces(spaces) && (sign == "" || sign == "+" || sign == "-") && (rest != "" ==> !IsDigit(rest[0]))
    ensures var v: int := if sign == "-" then 0 - n else n;
      ParseInt(spaces + (sign + (Decimal(n) + rest))) == if -0x8000_0000 <= v <= 0x7FFF_FFFF then Some(v) else None
  {
    SpelledInteger(spaces, sign, n, rest);
  }

  lemma TwoTokens(a: string, b: string, delim: char)
    requires delim !in a && delim !in b
    ensures Tokens(a + [delim] + b, delim) == [a, b]
  {
    TokensCons(a, b, delim);
    FindNone(b, delim, 0);
  }

  lemma ParseTwo(available: Bitmask, a: string, b: string)
    ensures ParseAll(available, [a, b]) ==
            match (ParseOneCpu(available, a), ParseOneCpu(available, b))
            case (Some(x), Some(y)) => Some([x, y])
            case _ => None
  {
    ParseAllNext(available, [], a);
    ParseAllNext(available, [a], b);
    assert [] + [a] == [a] && [a] + [b] == [a, b];
    match (ParseOneCpu(available, a), ParseOneCpu(available, b))
    case (Some(x), Some(y)) => assert [] + [x] == [x] && [x] + [y] == [x, y];
    case _ =>
  }

  // A range reads as the CPUs from its first end to its last; it is refused if an end is no
  // available CPU or the ends are not in order.
  lemma RangeReads(available: Bitmask, lo: nat, hi: nat)
    ensures CpusOf(available, Decimal(lo) + ['-'] + Decimal(hi)) ==
            if IsCpu(available, lo) && IsCpu(available, hi) && lo < hi then Some((lo, hi)) else None
  {
    var text := Decimal(lo) + ['-'] + Decimal(hi);
    assert text[|Decimal(lo)|] == '-';
    NumberReads(available, lo);
    NumberReads(available, hi);
    TwoTokens(Decimal(lo), Decimal(hi), '-');
    ParseTwo(available, Decimal(lo), Decimal(hi));
  }

  lemma ItemReads(available: Bitmask, x: CpuItem)
    ensures CpusOf(available, ItemText(x)).Some? <==> ItemOk(available, x)
    ensures ItemOk(available, x) ==> forall c: nat :: NamedBy(available, ItemText(x), c) <==> Covers(x, c)
    ensures ',' !in ItemText(x)
  {
    match x
    case Single(cpu) => NumberReads(available, cpu);
    case Range(lo, hi) =>
      NumberReads(available, lo);
      NumberReads(available, hi);
      RangeReads(available, lo, hi);
  }

  function ListText(items: seq<CpuItem>): string {
    if items == [] then ""
    else if |items| == 1 then ItemText(items[0])
    else ItemText(items[0]) + [','] + ListText(items[1..])
  }

  function ItemTexts(items: seq<CpuItem>): seq<string> {
    seq(|items|, i requires 0 <= i < |items| => ItemText(items[i]))
  }

  lemma {:induction false} ListTokens(items: seq<CpuItem>)
    requires items != []
    ensures Tokens(ListText(items), ',') == ItemTexts(items)
  {
    ItemReads([], items[0]);
    if |items| == 1 {
      FindNone(ListText(items), ',', 0);
      ItemTextsStep(items);
    } else {
      TokensCons(ItemText(items[0]), ListText(items[1..]), ',');
      ListTokens(items[1..]);
      ItemTextsStep(items);
    }
  }

  lemma ItemTextsStep(items: seq<CpuItem>)
    requires items != []
    ensures ItemTexts(items) == [ItemText(items[0])] + ItemTexts(items[1..])
  {
  }

  // Any list of ids and ranges, in any order, overlapping or not: it is accepted exactly if every
  // item is in order, and then names exactly the CPUs its items cover.
  lemma {:induction false} MixedListReads(available: Bitmask, items: seq<CpuItem>, c: nat)
    requires items != []
    ensures AllParse(available, Tokens(ListText(items), ',')) <==> forall x :: x in items ==> ItemOk(available, x)
    ensures (forall x :: x in items ==> ItemOk(available, x)) ==>
              (Named(available, Tokens(ListText(items), ','), c) <==> exists x :: x in items && Covers(x, c))
  {
    var texts := ItemTexts(items);
    ListTokens(items);
    forall i | 0 <= i < |items|
      ensures texts[i] in texts && items[i] in items
      ensures CpusOf(available, texts[i]).Some? <==> ItemOk(available, items[i])
      ensures ItemOk(available, items[i]) ==> (NamedBy(available, texts[i], c) <==> Covers(items[i], c))
    {
      ItemReads(available, items[i]);
    }
    if exists x :: x in items && Covers(x, c) {
      var i :| 0 <= i < |items| && Covers(items[i], c);
      assert ItemOk(available, items[i]) ==> NamedBy(available, texts[i], c);
    }
  }

  // ---------- what is refused ----------

  lemma {:induction false} TokensCount(s: string, delim: char)
    ensures |Tokens(s, delim)| == Count(s, delim) + 1
    decreases |s|
  {
    match Find(s, delim, 0)
    case None =>
      BeforeFirst(s, delim, 0);
      CountZero(s, delim);
    case Some(k) =>
      BeforeFirst(s, delim, 0);
      TokensCount(s[k + 1..], delim);
      assert s == s[..k] + ([delim] + s[k + 1..]);
      CountConcat(s[..k], [delim] + s[k + 1..], delim);
      CountConcat([delim], s[k + 1..], delim);
      CountZero(s[..k], delim);
  }

  // A token with any number of '-' but one is no range, and no id either.
  lemma RangeHasOneDash(available: Bitmask, token: string)
    requires CpusOf(available, token).Some?
    ensures Count(token, '-') <= 1
  {
    if '-' in token {
      TokensCount(token, '-');
    } else {
      CountZero(token, '-');
    }
  }

  // A delimiter at either end, or two in a row, leaves an empty token, which is refused.
  lemma EmptyTokenIsRefused(available: Bitmask, text: string)
    requires "" in Tokens(text, ',')
    ensures !AllParse(available, Tokens(text, ','))
  {
    assert Integer("").None?;
  }

  lemma {:induction false} TrailingCommaIsRefused(available: Bitmask, text: string)
    ensures !AllParse(available, Tokens(text + [','], ','))
  {
    LastTokenIsEmpty(text, ',');
    EmptyTokenIsRefused(available, text + [',']);
  }

  lemma {:induction false} LastTokenIsEmpty(text: string, delim: char)
    ensures "" in Tokens(text + [delim], delim)
    decreases |text|
  {
    var s := text + [delim];
    assert s[|text|] == delim;
    BeforeFirst(s, delim, 0);
    match Find(s, delim, 0)
    case None =>
    case Some(k) =>
      if k < |text| {
        assert s[k + 1..] == text[k + 1..] + [delim];
        LastTokenIsEmpty(text[k + 1..], delim);
      } else {
        assert s[k + 1..] == "" && Tokens("", delim) == [""];
      }
  }
}

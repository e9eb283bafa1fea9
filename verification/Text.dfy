/**
 String helpers.
 */
module Text {
  import opened Wrappers

  predicate IsSpace(c: char) {
    c == ' ' || c == '\t' || c == '\n' || c == '\r' || c == '\U{000B}' || c == '\U{000C}'
  }

  predicate IsDigit(c: char) {
    '0' <= c <= '9'
  }

  predicate IsQuote(c: char) {
    c == '"' || c == '\''
  }

  function LTrim(s: string): (r: string)
    ensures |r| <= |s|
  {
    if s != "" && IsSpace(s[0]) then LTrim(s[1..]) else s
  }

  function RTrim(s: string): (r: string)
    ensures |r| <= |s|
  {
    if s != "" && IsSpace(s[|s| - 1]) then RTrim(s[..|s| - 1]) else s
  }

  lemma {:induction false} LTrimSuffix(s: string)
    ensures LTrim(s) == s[|s| - |LTrim(s)|..]
    ensures LTrim(s) != "" ==> !IsSpace(LTrim(s)[0])
  {
    if s != "" && IsSpace(s[0]) { LTrimSuffix(s[1..]); }
  }

  lemma {:induction false} RTrimPrefix(s: string)
    ensures RTrim(s) == s[..|RTrim(s)|]
    ensures RTrim(s) != "" ==> !IsSpace(RTrim(s)[|RTrim(s)| - 1])
    decreases |s|
  {
    if s != "" && IsSpace(s[|s| - 1]) { RTrimPrefix(s[..|s| - 1]); }
  }

  function Trim(s: string): (r: string)
    ensures |r| <= |s|
  {
    LTrim(RTrim(s))
  }

  // Text that starts and ends with something other than a space is left alone.
  lemma TrimSolid(s: string)
    requires s != "" ==> !IsSpace(s[0]) && !IsSpace(s[|s| - 1])
    ensures Trim(s) == s
  {
  }

  lemma TrimFree(s: string, c: char)
    requires c !in s
    ensures c !in Trim(s)
  {
    RTrimPrefix(s);
    LTrimSuffix(RTrim(s));
  }

  // The first position of c in s, from a given one on.
  function Find(s: string, c: char, from: nat): (r: Option<nat>)
    ensures r.Some? ==> from <= r.value < |s| && s[r.value] == c
    decreases |s| - from
  {
    if from >= |s| then None
    else if s[from] == c then Some(from)
    else Find(s, c, from + 1)
  }

  lemma {:induction false} FindFirst(s: string, c: char, from: nat, at: nat)
    requires from <= at < |s| && s[at] == c && forall i :: from <= i < at ==> s[i] != c
    ensures Find(s, c, from) == Some(at)
    decreases at - from
  {
    if from < at { FindFirst(s, c, from + 1, at); }
  }

  lemma {:induction false} FindNone(s: string, c: char, from: nat)
    requires c !in s
    ensures Find(s, c, from) == None
    decreases |s| - from
  {
    if from < |s| { FindNone(s, c, from + 1); }
  }

  lemma {:induction false} BeforeFirst(s: string, c: char, from: nat)
    ensures var end := match Find(s, c, from) case Some(k) => k case None => |s|;
      forall i :: from <= i < end ==> s[i] != c
    decreases |s| - from
  {
    if from < |s| && s[from] != c { BeforeFirst(s, c, from + 1); }
  }

  function RemoveQuotes(s: string): string {
    if |s| > 1 && IsQuote(s[0]) && s[0] == s[|s| - 1] then s[1..|s| - 1] else s
  }

  function ToLowerChar(c: char): char {
    if 'A' <= c <= 'Z' then c - 'A' + 'a' else c
  }

  function ToLower(s: string): string {
    seq(|s|, i requires 0 <= i < |s| => ToLowerChar(s[i]))
  }

  // getline by getline; a delimiter at the very end starts no further piece.
  function Split(s: string, delim: char): (r: seq<string>)
    ensures r != []
    decreases |s|
  {
    match Find(s, delim, 0)
    case None => [s]
    case Some(k) => if k + 1 == |s| then [s[..k]] else [s[..k]] + Split(s[k + 1..], delim)
  }

  // ---------- padding ----------

  predicate Spaces(s: string) {
    forall i :: 0 <= i < |s| ==> IsSpace(s[i])
  }

  predicate Solid(s: string) {
    s != "" && !IsSpace(s[0]) && !IsSpace(s[|s| - 1])
  }

  lemma {:induction false} SpacesTrimmed(spaces: string, s: string)
    requires Spaces(spaces) && s != "" && !IsSpace(s[0])
    ensures LTrim(spaces + s) == s
  {
    if spaces == "" {
      assert spaces + s == s;
    } else {
      assert (spaces + s)[1..] == spaces[1..] + s;
      SpacesTrimmed(spaces[1..], s);
    }
  }

  lemma {:induction false} TrailingTrimmed(s: string, spaces: string)
    requires Spaces(spaces) && s != "" && !IsSpace(s[|s| - 1])
    ensures RTrim(s + spaces) == s
    decreases |spaces|
  {
    if spaces == "" {
      assert s + spaces == s;
    } else {
      assert (s + spaces)[..|s + spaces| - 1] == s + spaces[..|spaces| - 1];
      TrailingTrimmed(s, spaces[..|spaces| - 1]);
    }
  }

  lemma Padded(before: string, s: string, after: string)
    requires Spaces(before) && Spaces(after) && Solid(s)
    ensures Trim(before + s + after) == s
  {
    assert (before + s)[|before + s| - 1] == s[|s| - 1];
    TrailingTrimmed(before + s, after);
    SpacesTrimmed(before, s);
  }

  // ---------- parts between delimiters ----------

  function Joined(parts: seq<string>, d: char): string
    requires parts != []
  {
    if |parts| == 1 then parts[0] else parts[0] + ([d] + Joined(parts[1..], d))
  }

  lemma SplitPart(part: string, rest: string, d: char)
    requires d !in part && rest != ""
    ensures Split(part + ([d] + rest), d) == [part] + Split(rest, d)
  {
    var s := part + ([d] + rest);
    assert s[|part|] == d;
    FindFirst(s, d, 0, |part|);
    assert s[..|part|] == part && s[|part| + 1..] == rest;
  }

  lemma {:induction false} JoinedSplits(parts: seq<string>, d: char)
    requires parts != [] && (forall p :: p in parts ==> d !in p) && parts[|parts| - 1] != ""
    ensures Split(Joined(parts, d), d) == parts && Joined(parts, d) != ""
    ensures |parts| > 1 ==> d in Joined(parts, d)
  {
    assert parts[0] in parts;
    if |parts| == 1 {
      FindNone(parts[0], d, 0);
    } else {
      JoinedSplits(parts[1..], d);
      SplitPart(parts[0], Joined(parts[1..], d), d);
      assert Joined(parts, d)[|parts[0]|] == d;
    }
  }

  // A delimiter at the very end starts no further part.
  lemma {:induction false} LastDelimiter(s: string, d: char)
    requires s != "" && s[|s| - 1] != d
    ensures Split(s + [d], d) == Split(s, d)
    decreases |s|
  {
    BeforeFirst(s, d, 0);
    var t := s + [d];
    match Find(s, d, 0)
    case None =>
      FindFirst(t, d, 0, |s|);
      assert t[..|s|] == s;
    case Some(k) =>
      FindFirst(t, d, 0, k);
      assert t[..k] == s[..k] && t[k + 1..] == s[k + 1..] + [d];
      LastDelimiter(s[k + 1..], d);
  }
}

/** `pattern_match`: file names against patterns with `*` and `?`. */
module Wildcard {

  const QUESTION: nat := 0x3F
  const STAR: nat := 0x2A

  /** Recursion limit `f_findnext` passes. */
  const FIND_RECURS: nat := 4

  /** Names and patterns are decoded characters, none of them 0. */
  ghost predicate Text(s: seq<nat>) {
    forall i :: 0 <= i < |s| ==> s[i] != 0
  }

  /** `ff_wtoupper` is not part of this model; all that matters is that it keeps the terminator apart. */
  ghost predicate UpperOk(up: nat -> nat) {
    up(0) == 0 && forall c :: c != 0 ==> up(c) != 0
  }

  predicate IsWild(c: nat) { c == QUESTION || c == STAR }

  /** What a pattern means: `?` is one character, `*` any number, anything else itself up to case. */
  ghost predicate Matches(up: nat -> nat, pat: seq<nat>, nam: seq<nat>)
    decreases |pat|
  {
    if pat == [] then nam == []
    else if pat[0] == QUESTION then nam != [] && Matches(up, pat[1..], nam[1..])
    else if pat[0] == STAR then exists k :: 0 <= k <= |nam| && Matches(up, pat[1..], nam[k..])
    else nam != [] && up(pat[0]) == up(nam[0]) && Matches(up, pat[1..], nam[1..])
  }

  // ----- wildcard terms

  /** Length of the run of wildcards at the start of the pattern. */
  function WildLen(pat: seq<nat>): (n: nat)
    ensures n <= |pat| && (forall i :: 0 <= i < n ==> IsWild(pat[i])) && (n < |pat| ==> !IsWild(pat[n]))
  {
    if pat == [] || !IsWild(pat[0]) then 0 else 1 + WildLen(pat[1..])
  }

  /** `sk |= 0x100` */
  function OrStar(sk: nat): nat { if sk / 0x100 % 2 == 1 then sk else sk + 0x100 }

  /** The skip count of the first `n` wildcards: `?`s are added up, a `*` sets bit 8. */
  function SkipOf(pat: seq<nat>, n: nat): nat
    requires n <= |pat|
  {
    if n == 0 then 0
    else if pat[n - 1] == QUESTION then SkipOf(pat, n - 1) + 1 else OrStar(SkipOf(pat, n - 1))
  }

  /** The number of wildcard terms. */
  function Terms(pat: seq<nat>): nat
    decreases |pat|
  {
    if pat == [] then 0
    else if IsWild(pat[0]) then 1 + Terms(pat[WildLen(pat)..])
    else Terms(pat[1..])
  }

  /** What `pattern_match` decides: like `Matches`, but a term is worth its skip count only, whose low
      eight bits are the characters to skip and whose other bits mean any number. */
  ghost predicate CodeMatches(up: nat -> nat, pat: seq<nat>, nam: seq<nat>)
    decreases |pat|, 0
  {
    if pat == [] then nam == []
    else if IsWild(pat[0]) then
      SkipThen(up, pat[WildLen(pat)..], nam, SkipOf(pat, WildLen(pat)) % 0x100, SkipOf(pat, WildLen(pat)) >= 0x100)
    else nam != [] && up(pat[0]) == up(nam[0]) && CodeMatches(up, pat[1..], nam[1..])
  }

  /** The rest of the pattern matches after `q` characters, or after at least `q`. */
  ghost predicate SkipThen(up: nat -> nat, pat: seq<nat>, nam: seq<nat>, q: nat, more: bool)
    decreases |pat|, 1
  {
    q <= |nam| && if more then exists k :: q <= k <= |nam| && CodeMatches(up, pat, nam[k..])
                  else CodeMatches(up, pat, nam[q..])
  }

  // ----- the matcher

  /** The character at `i`, 0 at the end. */
  function At(s: seq<nat>, i: nat): nat
    requires i <= |s|
  {
    if i < |s| then s[i] else 0
  }

  datatype Outcome = Matched | TooManyTerms | Missed(nchr: nat)

  /** `pattern_match` */
  method PatternMatch(up: nat -> nat, pat: seq<nat>, nam: seq<nat>, skip0: nat, recur: nat) returns (r: bool)
    requires UpperOk(up) && Text(pat) && Text(nam)
    ensures r <==> Terms(pat) <= recur && SkipThen(up, pat, nam, skip0 % 0x100, skip0 >= 0x100)
    decreases recur, 1
  {
    var skip: nat := skip0;
    var n: nat := 0;
    while skip % 0x100 != 0
      invariant n <= |nam| && skip + n == skip0 && skip / 0x100 == skip0 / 0x100 && skip % 0x100 + n == skip0 % 0x100
      decreases skip
    {
      if up(At(nam, n)) == 0 {
        assert n == |nam|;
        return false;
      }
      n := n + 1;
      skip := skip - 1;
    }
    if pat == [] && skip != 0 {
      assert CodeMatches(up, pat, nam[|nam|..]);
      return true;
    }
    ghost var q := n;
    assert q == skip0 % 0x100 && (skip != 0 <==> skip0 >= 0x100);
    var nchr: nat := 1;
    var first := true;
    while first || (skip != 0 && nchr != 0)
      invariant q <= n && (first ==> n == q) && (!first ==> n > q)
      invariant first || nchr != 0 ==> n <= |nam|
      invariant forall k :: q <= k < n && k <= |nam| ==> !Hit(up, pat, nam, k, recur)
      invariant !first && nchr == 0 ==> forall k :: n <= k <= |nam| ==> !Hit(up, pat, nam, k, recur)
      decreases first, |nam| - n
    {
      first := false;
      var o := Align(up, pat, nam, n, recur);
      match o {
        case Matched =>
          HitSuffices(up, pat, nam, q, n, skip0 >= 0x100, recur);
          return true;
        case TooManyTerms => return false;
        case Missed(c) => nchr := c;
      }
      n := n + 1;
    }
    NoHit(up, pat, nam, q, skip0 >= 0x100, recur);
    r := false;
  }

  lemma HitSuffices(up: nat -> nat, pat: seq<nat>, nam: seq<nat>, q: nat, n: nat, more: bool, recur: nat)
    requires q <= n <= |nam| && Hit(up, pat, nam, n, recur) && (more || n == q)
    ensures Terms(pat) <= recur && SkipThen(up, pat, nam, q, more)
  {
  }

  lemma NoHit(up: nat -> nat, pat: seq<nat>, nam: seq<nat>, q: nat, more: bool, recur: nat)
    requires q <= |nam| && if more then forall k :: q <= k <= |nam| ==> !Hit(up, pat, nam, k, recur)
                           else !Hit(up, pat, nam, q, recur)
    ensures !(Terms(pat) <= recur && SkipThen(up, pat, nam, q, more))
  {
    if Terms(pat) <= recur && SkipThen(up, pat, nam, q, more) {
      SomeHit(up, pat, nam, q, more, recur);
    }
  }

  lemma SomeHit(up: nat -> nat, pat: seq<nat>, nam: seq<nat>, q: nat, more: bool, recur: nat)
    requires q <= |nam| && Terms(pat) <= recur && SkipThen(up, pat, nam, q, more)
    ensures if more then exists k :: q <= k <= |nam| && Hit(up, pat, nam, k, recur) else Hit(up, pat, nam, q, recur)
  {
    if more {
      var k :| q <= k <= |nam| && CodeMatches(up, pat, nam[k..]);
      assert Hit(up, pat, nam, k, recur);
    }
  }

  /** The pattern matches from position `k` within the allowed number of terms. */
  ghost predicate Hit(up: nat -> nat, pat: seq<nat>, nam: seq<nat>, k: nat, recur: nat)
    requires k <= |nam|
  {
    Terms(pat) <= recur && CodeMatches(up, pat, nam[k..])
  }

  /** The inner loop: compares from position `n` of the name on. When it misses at the end of the name,
      no later position can match either. */
  method Align(up: nat -> nat, pat: seq<nat>, nam: seq<nat>, n: nat, recur: nat) returns (o: Outcome)
    requires UpperOk(up) && Text(pat) && Text(nam) && n <= |nam|
    ensures o.Matched? ==> Hit(up, pat, nam, n, recur)
    ensures o.TooManyTerms? ==> Terms(pat) > recur
    ensures o.Missed? ==> !Hit(up, pat, nam, n, recur) && (o.nchr != 0 ==> n < |nam|)
    ensures o == Missed(0) ==> forall k :: n <= k <= |nam| ==> !Hit(up, pat, nam, k, recur)
    decreases recur, 0
  {
    hide Hit, CodeMatches, Terms, WildLen, SkipOf, SkipThen, Text;
    var p: nat := 0;
    NothingCompared(up, pat, nam, n, recur);
    while true
      invariant Compared(up, pat, nam, n, p, recur)
      decreases |pat| - p
    {
      if p < |pat| && IsWild(pat[p]) {
        TermNeedsRecursion(up, pat, nam, n, p, recur);
        if recur == 0 { return TooManyTerms; }
        var sk, len := Analyze(pat[p..]);
        TextTail(pat, p + len);
        TextTail(nam, n + p);
        var m := PatternMatch(up, pat[p + len..], nam[n + p..], sk, recur - 1);
        TermDecides(up, pat, nam, n, p, len, recur);
        if m { return Matched; }
        if At(nam, n + p) == 0 {
          MissedAtEnd(up, pat, nam, n, p, recur);
        }
        return Missed(At(nam, n + p));
      }
      var pchr, nchr := up(At(pat, p)), up(At(nam, n + p));
      CharDecides(up, pat, nam, n, p, recur);
      if pchr != nchr {
        if nchr == 0 {
          MissedAtEnd(up, pat, nam, n, p, recur);
        }
        return Missed(nchr);
      }
      if pchr == 0 { return Matched; }
      p := p + 1;
    }
  }

  /** The first `p` characters of the pattern are literals and equal those of the name from `n` on. */
  ghost predicate Compared(up: nat -> nat, pat: seq<nat>, nam: seq<nat>, n: nat, p: nat, recur: nat) {
    && p <= |pat| && n + p <= |nam| && Literals(pat, p)
    && Terms(pat) == Terms(pat[p..])
    && (Hit(up, pat, nam, n, recur) <==> Terms(pat[p..]) <= recur && CodeMatches(up, pat[p..], nam[n + p..]))
  }

  lemma NothingCompared(up: nat -> nat, pat: seq<nat>, nam: seq<nat>, n: nat, recur: nat)
    requires n <= |nam|
    ensures Compared(up, pat, nam, n, 0, recur)
  {
    hide CodeMatches, Terms;
    assert pat[0..] == pat;
  }

  lemma TextTail(s: seq<nat>, k: nat)
    requires Text(s) && k <= |s|
    ensures Text(s[k..])
  {
  }

  lemma TermNeedsRecursion(up: nat -> nat, pat: seq<nat>, nam: seq<nat>, n: nat, p: nat, recur: nat)
    requires Compared(up, pat, nam, n, p, recur) && p < |pat| && IsWild(pat[p])
    ensures Terms(pat) > 0
  {
  }

  lemma TermDecides(up: nat -> nat, pat: seq<nat>, nam: seq<nat>, n: nat, p: nat, len: nat, recur: nat)
    requires Compared(up, pat, nam, n, p, recur) && p < |pat| && IsWild(pat[p]) && recur > 0
    requires len == WildLen(pat[p..]) && p + len <= |pat|
    ensures var sk := SkipOf(pat[p..], len);
      Hit(up, pat, nam, n, recur) <==>
      (Terms(pat[p + len..]) <= recur - 1 && SkipThen(up, pat[p + len..], nam[n + p..], sk % 0x100, sk >= 0x100))
  {
    hide Hit, SkipThen;
    assert pat[p..][len..] == pat[p + len..];
  }

  lemma CharDecides(up: nat -> nat, pat: seq<nat>, nam: seq<nat>, n: nat, p: nat, recur: nat)
    requires UpperOk(up) && Text(pat) && Text(nam)
    requires Compared(up, pat, nam, n, p, recur) && (p < |pat| ==> !IsWild(pat[p]))
    ensures var pchr, nchr := up(At(pat, p)), up(At(nam, n + p));
      && (pchr != nchr ==> !Hit(up, pat, nam, n, recur))
      && (pchr == nchr == 0 ==> Hit(up, pat, nam, n, recur) || Terms(pat) > recur)
      && (pchr == nchr == 0 ==> Terms(pat) == 0)
      && (pchr == nchr != 0 ==> Compared(up, pat, nam, n, p + 1, recur))
      && (nchr != 0 ==> n + p < |nam|) && (nchr == 0 ==> n + p == |nam|)
  {
    hide Hit;
    if p < |pat| {
      assert pat[p..][1..] == pat[p + 1..];
    }
    if n + p < |nam| {
      assert nam[n + p..][1..] == nam[n + p + 1..];
    }
  }

  /** The inner loop over one wildcard term. */
  method Analyze(pat: seq<nat>) returns (sk: nat, len: nat)
    requires pat != [] && IsWild(pat[0])
    ensures 0 < len == WildLen(pat) && sk == SkipOf(pat, len)
  {
    sk, len := 0, 0;
    while len < |pat| && IsWild(pat[len])
      invariant len <= |pat| && sk == SkipOf(pat, len)
      invariant forall i :: 0 <= i < len ==> IsWild(pat[i])
    {
      sk := if pat[len] == QUESTION then sk + 1 else OrStar(sk);
      len := len + 1;
    }
    WildLenIs(pat, len);
  }

  lemma {:induction false} WildLenIs(pat: seq<nat>, n: nat)
    requires n <= |pat| && (forall i :: 0 <= i < n ==> IsWild(pat[i])) && (n < |pat| ==> !IsWild(pat[n]))
    ensures WildLen(pat) == n
  {
    if n > 0 {
      WildLenIs(pat[1..], n - 1);
    }
  }

  /** The first `p` characters are not wildcards. */
  ghost predicate Literals(pat: seq<nat>, p: nat)
    requires p <= |pat|
  {
    forall i :: 0 <= i < p ==> !IsWild(pat[i])
  }

  lemma {:induction false} LiteralsNeedRoom(up: nat -> nat, pat: seq<nat>, p: nat, nam: seq<nat>)
    requires p <= |pat| && Literals(pat, p) && CodeMatches(up, pat, nam)
    ensures p <= |nam|
    decreases p
  {
    if p > 0 {
      LiteralsNeedRoom(up, pat[1..], p - 1, nam[1..]);
    }
  }

  /** The early exit loses no match: a later start leaves too few characters for the literals. */
  lemma MissedAtEnd(up: nat -> nat, pat: seq<nat>, nam: seq<nat>, n: nat, p: nat, recur: nat)
    requires n + p == |nam| && p <= |pat| && Literals(pat, p) && !Hit(up, pat, nam, n, recur)
    ensures forall k :: n <= k <= |nam| ==> !Hit(up, pat, nam, k, recur)
  {
    forall k | n <= k <= |nam|
      ensures !Hit(up, pat, nam, k, recur)
    {
      if k > n && Hit(up, pat, nam, k, recur) {
        LiteralsNeedRoom(up, pat, p, nam[k..]);
      }
    }
  }

  /** The call `f_findnext` makes. */
  method FindMatch(up: nat -> nat, pat: seq<nat>, nam: seq<nat>) returns (r: bool)
    requires UpperOk(up) && Text(pat) && Text(nam)
    ensures r <==> Decides(up, pat, nam, FIND_RECURS)
  {
    r := PatternMatch(up, pat, nam, 0, FIND_RECURS);
    assert nam[0..] == nam;
  }

  /** The answer `pattern_match` gives without a pre-skip. */
  ghost predicate Decides(up: nat -> nat, pat: seq<nat>, nam: seq<nat>, recur: nat) {
    Terms(pat) <= recur && CodeMatches(up, pat, nam)
  }

  // ----- when the answer is right

  /** Number of `?` among the first `n` characters. */
  function Questions(pat: seq<nat>, n: nat): nat
    requires n <= |pat|
  {
    if n == 0 then 0 else (if pat[0] == QUESTION then 1 else 0) + Questions(pat[1..], n - 1)
  }

  predicate HasStar(pat: seq<nat>, n: nat)
    requires n <= |pat|
  {
    n > 0 && (pat[0] == STAR || HasStar(pat[1..], n - 1))
  }

  /** Every wildcard term has fewer than 256 `?`. */
  predicate TermsSmall(pat: seq<nat>)
    decreases |pat|
  {
    if pat == [] then true
    else if IsWild(pat[0]) then Questions(pat, WildLen(pat)) < 0x100 && TermsSmall(pat[WildLen(pat)..])
    else TermsSmall(pat[1..])
  }

  lemma {:induction false} CountsFromBack(pat: seq<nat>, n: nat)
    requires 0 < n <= |pat|
    ensures Questions(pat, n) == Questions(pat, n - 1) + if pat[n - 1] == QUESTION then 1 else 0
    ensures HasStar(pat, n) <==> HasStar(pat, n - 1) || pat[n - 1] == STAR
  {
    if n > 1 {
      CountsFromBack(pat[1..], n - 1);
    }
  }

  /** What a skip count says about its term. */
  lemma {:induction false} SkipOfValue(pat: seq<nat>, n: nat)
    requires n <= |pat| && forall i :: 0 <= i < n ==> IsWild(pat[i])
    ensures SkipOf(pat, n) % 0x100 == Questions(pat, n) % 0x100
    ensures SkipOf(pat, n) >= 0x100 <==> HasStar(pat, n) || Questions(pat, n) >= 0x100
    ensures !HasStar(pat, n) ==> SkipOf(pat, n) == Questions(pat, n)
  {
    hide OrStar, Questions, HasStar;
    if n > 0 {
      SkipOfValue(pat, n - 1);
      CountsFromBack(pat, n);
      OrStarValue(SkipOf(pat, n - 1));
      OneMore(SkipOf(pat, n - 1), Questions(pat, n - 1));
      assert IsWild(pat[n - 1]);
    } else {
      NoCounts(pat);
    }
  }

  lemma OneMore(sk: nat, q: nat)
    ensures sk % 0x100 == q % 0x100 ==> (sk + 1) % 0x100 == (q + 1) % 0x100
    ensures sk >= 0x100 ==> sk + 1 >= 0x100
  {
  }

  lemma OrStarValue(sk: nat)
    ensures OrStar(sk) % 0x100 == sk % 0x100 && OrStar(sk) >= 0x100
  {
    var a, b := sk / 0x100, sk % 0x100;
    assert sk == 0x100 * a + b;
    assert a % 2 == 1 ==> a >= 1;
  }

  lemma NoCounts(pat: seq<nat>)
    ensures Questions(pat, 0) == 0 && !HasStar(pat, 0)
  {
  }

  ghost predicate SkipThenMatches(up: nat -> nat, pat: seq<nat>, nam: seq<nat>, q: nat, more: bool) {
    q <= |nam| && if more then exists k :: q <= k <= |nam| && Matches(up, pat, nam[k..]) else Matches(up, pat, nam[q..])
  }

  /** A run of wildcards stands for its number of `?`, or for at least that many with a `*`. */
  lemma {:induction false} RunMeaning(up: nat -> nat, pat: seq<nat>, n: nat, nam: seq<nat>)
    requires n <= |pat| && forall i :: 0 <= i < n ==> IsWild(pat[i])
    ensures Matches(up, pat, nam) <==> SkipThenMatches(up, pat[n..], nam, Questions(pat, n), HasStar(pat, n))
    decreases n
  {
    if n == 0 {
      assert pat[0..] == pat && nam[0..] == nam;
    } else {
      assert pat[1..][n - 1..] == pat[n..];
      if pat[0] == QUESTION {
        if nam != [] {
          RunMeaning(up, pat[1..], n - 1, nam[1..]);
          ShiftSkip(up, pat[n..], nam, Questions(pat, n), HasStar(pat, n));
        }
      } else {
        forall k | 0 <= k <= |nam|
          ensures Matches(up, pat[1..], nam[k..]) <==>
                  SkipThenMatches(up, pat[n..], nam[k..], Questions(pat, n), HasStar(pat[1..], n - 1))
        {
          RunMeaning(up, pat[1..], n - 1, nam[k..]);
        }
        StarSkip(up, pat[n..], nam, Questions(pat, n), HasStar(pat[1..], n - 1));
      }
    }
  }

  lemma ShiftSkip(up: nat -> nat, pat: seq<nat>, nam: seq<nat>, q: nat, more: bool)
    requires nam != [] && q > 0
    ensures SkipThenMatches(up, pat, nam, q, more) <==> SkipThenMatches(up, pat, nam[1..], q - 1, more)
  {
    forall k | 1 <= k <= |nam|
      ensures nam[1..][k - 1..] == nam[k..]
    {
    }
    if more && SkipThenMatches(up, pat, nam, q, more) {
      var k :| q <= k <= |nam| && Matches(up, pat, nam[k..]);
      assert Matches(up, pat, nam[1..][k - 1..]);
    }
    if more && SkipThenMatches(up, pat, nam[1..], q - 1, more) {
      var k :| q - 1 <= k <= |nam| - 1 && Matches(up, pat, nam[1..][k..]);
      assert nam[1..][k..] == nam[k + 1..];
    }
  }

  lemma StarSkip(up: nat -> nat, pat: seq<nat>, nam: seq<nat>, q: nat, more: bool)
    ensures (exists k :: 0 <= k <= |nam| && SkipThenMatches(up, pat, nam[k..], q, more))
       <==> SkipThenMatches(up, pat, nam, q, true)
  {
    if exists k :: 0 <= k <= |nam| && SkipThenMatches(up, pat, nam[k..], q, more) {
      var k :| 0 <= k <= |nam| && SkipThenMatches(up, pat, nam[k..], q, more);
      if more {
        var m :| q <= m <= |nam[k..]| && Matches(up, pat, nam[k..][m..]);
        assert nam[k..][m..] == nam[k + m..];
      } else {
        assert nam[k..][q..] == nam[k + q..];
      }
    }
    if SkipThenMatches(up, pat, nam, q, true) {
      var m :| q <= m <= |nam| && Matches(up, pat, nam[m..]);
      assert nam[m - q..][q..] == nam[m..];
      assert SkipThenMatches(up, pat, nam[m - q..], q, more);
    }
  }

  /** With small terms the matcher decides the meaning of the pattern. */
  lemma {:induction false} SmallTermsAreExact(up: nat -> nat, pat: seq<nat>, nam: seq<nat>)
    requires TermsSmall(pat)
    ensures CodeMatches(up, pat, nam) <==> Matches(up, pat, nam)
    decreases |pat|
  {
    if pat != [] {
      if IsWild(pat[0]) {
        var n := WildLen(pat);
        forall k | 0 <= k <= |nam|
          ensures CodeMatches(up, pat[n..], nam[k..]) <==> Matches(up, pat[n..], nam[k..])
        {
          SmallTermsAreExact(up, pat[n..], nam[k..]);
        }
        TermIsExact(up, pat, nam);
      } else if nam != [] {
        SmallTermsAreExact(up, pat[1..], nam[1..]);
      }
    }
  }

  /** One small term, when what follows it is decided rightly. */
  lemma TermIsExact(up: nat -> nat, pat: seq<nat>, nam: seq<nat>)
    requires pat != [] && IsWild(pat[0]) && Questions(pat, WildLen(pat)) < 0x100
    requires forall k :: 0 <= k <= |nam| ==>
      (CodeMatches(up, pat[WildLen(pat)..], nam[k..]) <==> Matches(up, pat[WildLen(pat)..], nam[k..]))
    ensures CodeMatches(up, pat, nam) <==> Matches(up, pat, nam)
  {
    hide Matches, SkipOf, Questions, HasStar, CodeMatches, SkipThen;
    var n := WildLen(pat);
    SkipOfValue(pat, n);
    RunMeaning(up, pat, n, nam);
    CodeOfTerm(up, pat, nam);
    SkipsAgree(up, pat[n..], nam, Questions(pat, n), HasStar(pat, n));
    SkipsAgree(up, pat[n..], nam, Questions(pat, n), true);
  }

  lemma CodeOfTerm(up: nat -> nat, pat: seq<nat>, nam: seq<nat>)
    requires pat != [] && IsWild(pat[0])
    ensures var n := WildLen(pat);
      CodeMatches(up, pat, nam) <==> SkipThen(up, pat[n..], nam, SkipOf(pat, n) % 0x100, SkipOf(pat, n) >= 0x100)
  {
    hide SkipOf, SkipThen;
  }

  lemma SkipsAgree(up: nat -> nat, pat: seq<nat>, nam: seq<nat>, q: nat, more: bool)
    requires forall k :: 0 <= k <= |nam| ==> (CodeMatches(up, pat, nam[k..]) <==> Matches(up, pat, nam[k..]))
    ensures SkipThen(up, pat, nam, q, more) <==> SkipThenMatches(up, pat, nam, q, more)
  {
    hide Matches, CodeMatches;
  }

  /** Characters every match needs. */
  function MinLength(pat: seq<nat>): nat {
    if pat == [] then 0 else (if pat[0] == STAR then 0 else 1) + MinLength(pat[1..])
  }

  lemma {:induction false} MatchNeedsLength(up: nat -> nat, pat: seq<nat>, nam: seq<nat>)
    requires Matches(up, pat, nam)
    ensures |nam| >= MinLength(pat)
    decreases |pat|
  {
    if pat != [] {
      if pat[0] == STAR {
        var k :| 0 <= k <= |nam| && Matches(up, pat[1..], nam[k..]);
        MatchNeedsLength(up, pat[1..], nam[k..]);
      } else {
        MatchNeedsLength(up, pat[1..], nam[1..]);
      }
    }
  }

  /** A shortest name with the meaning of the pattern. */
  function ShortestName(pat: seq<nat>): seq<nat> {
    if pat == [] then []
    else if pat[0] == STAR then ShortestName(pat[1..])
    else [pat[0]] + ShortestName(pat[1..])
  }

  lemma {:induction false} ShortestNameMatches(up: nat -> nat, pat: seq<nat>)
    requires Text(pat)
    ensures Matches(up, pat, ShortestName(pat)) && Text(ShortestName(pat))
  {
    if pat != [] {
      ShortestNameMatches(up, pat[1..]);
      var s := ShortestName(pat);
      if pat[0] == STAR {
        assert s[0..] == s;
      } else {
        assert s[1..] == ShortestName(pat[1..]);
      }
    }
  }

  /** A name the matcher accepts that has only the characters its skip counts ask for. */
  function CodeName(pat: seq<nat>): seq<nat>
    decreases |pat|
  {
    if pat == [] then []
    else if IsWild(pat[0]) then seq(SkipOf(pat, WildLen(pat)) % 0x100, i => 0x41) + CodeName(pat[WildLen(pat)..])
    else [pat[0]] + CodeName(pat[1..])
  }

  lemma {:induction false} CodeNameMatches(up: nat -> nat, pat: seq<nat>)
    requires Text(pat)
    ensures CodeMatches(up, pat, CodeName(pat)) && Text(CodeName(pat))
    decreases |pat|
  {
    if pat != [] {
      var s := CodeName(pat);
      if IsWild(pat[0]) {
        var n := WildLen(pat);
        CodeNameMatches(up, pat[n..]);
        assert s[SkipOf(pat, n) % 0x100..] == CodeName(pat[n..]);
      } else {
        CodeNameMatches(up, pat[1..]);
        assert s[1..] == CodeName(pat[1..]);
      }
    }
  }

  lemma {:induction false} MinLengthOfRun(pat: seq<nat>, n: nat)
    requires n <= |pat| && forall i :: 0 <= i < n ==> IsWild(pat[i])
    ensures MinLength(pat) == Questions(pat, n) + MinLength(pat[n..])
    decreases n
  {
    if n > 0 {
      MinLengthOfRun(pat[1..], n - 1);
      assert pat[1..][n - 1..] == pat[n..];
    }
  }

  /** A term with 256 or more `?` makes the matcher content with too short a name. */
  lemma {:induction false} CodeNameLength(pat: seq<nat>)
    ensures |CodeName(pat)| <= MinLength(pat)
    ensures !TermsSmall(pat) ==> |CodeName(pat)| < MinLength(pat)
    decreases |pat|
  {
    if pat != [] {
      if IsWild(pat[0]) {
        var n := WildLen(pat);
        SkipOfValue(pat, n);
        MinLengthOfRun(pat, n);
        CodeNameLength(pat[n..]);
      } else {
        CodeNameLength(pat[1..]);
      }
    }
  }

  /** For a given pattern the matcher is right about every name exactly when the pattern has at most
      `recur` wildcard terms and no term has 256 or more `?`. */
  lemma ExactlyWhenRight(up: nat -> nat, pat: seq<nat>, recur: nat)
    requires UpperOk(up) && Text(pat)
    ensures (forall nam: seq<nat> :: Text(nam) ==> (Decides(up, pat, nam, recur) <==> Matches(up, pat, nam)))
       <==> (Terms(pat) <= recur && TermsSmall(pat))
  {
    if Terms(pat) <= recur && TermsSmall(pat) {
      forall nam: seq<nat> | Text(nam)
        ensures Decides(up, pat, nam, recur) <==> Matches(up, pat, nam)
      {
        SmallTermsAreExact(up, pat, nam);
      }
    } else if Terms(pat) > recur {
      ShortestNameMatches(up, pat);
      assert !Decides(up, pat, ShortestName(pat), recur);
    } else {
      CodeNameMatches(up, pat);
      CodeNameLength(pat);
      assert Decides(up, pat, CodeName(pat), recur);
      if Matches(up, pat, CodeName(pat)) {
        MatchNeedsLength(up, pat, CodeName(pat));
      }
    }
  }
}

/** Cluster chains: the FAT read as a set of linked lists. */
module Chains {

  /** `ch` is an end-marked chain of distinct clusters. */
  ghost predicate IsChain(fat: seq<nat>, ch: seq<nat>) {
    && |ch| > 0
    && (forall i :: 0 <= i < |ch| ==> 2 <= ch[i] < |fat|)
    && (forall i :: 0 <= i < |ch| - 1 ==> fat[ch[i]] == ch[i + 1])
    && fat[ch[|ch| - 1]] >= |fat|
    && (forall i, j :: 0 <= i < j < |ch| ==> ch[i] != ch[j])
  }

  ghost predicate Disjoint(a: seq<nat>, b: seq<nat>) {
    forall c :: c in a ==> c !in b
  }

  ghost predicate AllChains(fat: seq<nat>, chains: set<seq<nat>>) {
    forall ch :: ch in chains ==> IsChain(fat, ch)
  }

  ghost predicate PairwiseDisjoint(chains: set<seq<nat>>) {
    forall a, b :: a in chains && b in chains && a != b ==> Disjoint(a, b)
  }

  ghost predicate Owned(chains: set<seq<nat>>, c: nat) {
    exists ch :: ch in chains && c in ch
  }

  ghost predicate AllOwned(fat: seq<nat>, chains: set<seq<nat>>) {
    forall c :: 2 <= c < |fat| && fat[c] != 0 ==> Owned(chains, c)
  }

  /** The allocated clusters are exactly those of the pairwise disjoint chains. */
  ghost predicate WellFormed(fat: seq<nat>, chains: set<seq<nat>>) {
    AllChains(fat, chains) && PairwiseDisjoint(chains) && AllOwned(fat, chains)
  }

  lemma AddDisjoint(chains: set<seq<nat>>, ch: seq<nat>)
    requires PairwiseDisjoint(chains)
    requires forall a :: a in chains ==> Disjoint(a, ch)
    ensures PairwiseDisjoint(chains + {ch})
  {
    forall a | a in chains
      ensures Disjoint(ch, a)
    {
      assert Disjoint(a, ch);
    }
  }

  /** Clusters of a chain are allocated. */
  lemma ChainAllocated(fat: seq<nat>, ch: seq<nat>, c: nat)
    requires IsChain(fat, ch) && c in ch
    ensures 2 <= c < |fat| && fat[c] >= 2
  {
    var i :| 0 <= i < |ch| && ch[i] == c;
    if i < |ch| - 1 {
      assert fat[ch[i]] == ch[i + 1];
    }
  }

  /** A chain is fixed by its entries, so changes elsewhere leave it alone. */
  lemma ChainKept(fat: seq<nat>, fat': seq<nat>, ch: seq<nat>)
    requires IsChain(fat, ch) && |fat'| == |fat|
    requires forall c :: c in ch && c < |fat| ==> fat'[c] == fat[c]
    ensures IsChain(fat', ch)
  {
  }

  /** The FAT after `create_chain` took cluster `ncl` and linked it behind `clst` (0: a new chain). */
  function Linked(fat: seq<nat>, clst: nat, ncl: nat, eoc: nat): (r: seq<nat>)
    requires clst < |fat| && ncl < |fat|
    ensures |r| == |fat|
  {
    if clst == 0 then fat[ncl := eoc] else fat[ncl := eoc][clst := ncl]
  }

  lemma NewChain(fat: seq<nat>, chains: set<seq<nat>>, ncl: nat, eoc: nat)
    requires WellFormed(fat, chains) && 2 <= ncl < |fat| <= eoc && fat[ncl] == 0
    ensures WellFormed(Linked(fat, 0, ncl, eoc), chains + {[ncl]})
  {
    var fat' := Linked(fat, 0, ncl, eoc);
    assert IsChain(fat', [ncl]);
    forall ch | ch in chains
      ensures IsChain(fat', ch) && Disjoint(ch, [ncl])
    {
      NotInChain(fat, ch, ncl);
      ChainKept(fat, fat', ch);
    }
    AddDisjoint(chains, [ncl]);
    forall c | 2 <= c < |fat'| && fat'[c] != 0
      ensures Owned(chains + {[ncl]}, c)
    {
      if c == ncl {
        assert c in [ncl];
      } else {
        assert Owned(chains, c);
      }
    }
  }

  lemma NotInChain(fat: seq<nat>, ch: seq<nat>, c: nat)
    requires IsChain(fat, ch) && c < |fat| && fat[c] == 0
    ensures c !in ch
  {
    if c in ch {
      ChainAllocated(fat, ch, c);
    }
  }

  /** Stretching appends the free cluster to one chain and keeps every other chain. */
  lemma StretchChain(fat: seq<nat>, chains: set<seq<nat>>, ch: seq<nat>, ncl: nat, eoc: nat)
    requires WellFormed(fat, chains) && ch in chains
    requires 2 <= ncl < |fat| <= eoc && fat[ncl] == 0
    ensures WellFormed(Linked(fat, ch[|ch| - 1], ncl, eoc), chains - {ch} + {ch + [ncl]})
  {
    hide IsChain;
    ChainTail(fat, ch);
    var tail := ch[|ch| - 1];
    var fat' := Linked(fat, tail, ncl, eoc);
    NotInChain(fat, ch, ncl);
    StretchedIsChain(fat, ch, ncl, eoc);
    forall a | a in chains - {ch}
      ensures IsChain(fat', a) && Disjoint(a, ch + [ncl])
    {
      NotInChain(fat, a, ncl);
      assert Disjoint(ch, a) && Disjoint(a, ch);
      ChainKept(fat, fat', a);
    }
    AddDisjoint(chains - {ch}, ch + [ncl]);
    forall c | 2 <= c < |fat'| && fat'[c] != 0
      ensures Owned(chains - {ch} + {ch + [ncl]}, c)
    {
      if c == ncl || c in ch {
        assert c in ch + [ncl];
      } else {
        OwnedElsewhere(chains, ch, c, {ch + [ncl]});
      }
    }
  }

  lemma ChainTail(fat: seq<nat>, ch: seq<nat>)
    requires IsChain(fat, ch)
    ensures |ch| > 0 && ch[|ch| - 1] in ch && 2 <= ch[|ch| - 1] < |fat|
  {
  }

  lemma OwnedElsewhere(chains: set<seq<nat>>, ch: seq<nat>, c: nat, more: set<seq<nat>>)
    requires Owned(chains, c) && c !in ch
    ensures Owned(chains - {ch} + more, c)
  {
    var a :| a in chains && c in a;
    assert a in chains - {ch} + more;
  }

  lemma StretchedIsChain(fat: seq<nat>, ch: seq<nat>, ncl: nat, eoc: nat)
    requires IsChain(fat, ch) && 2 <= ncl < |fat| <= eoc && ncl !in ch
    ensures IsChain(Linked(fat, ch[|ch| - 1], ncl, eoc), ch + [ncl])
  {
    var fat' := Linked(fat, ch[|ch| - 1], ncl, eoc);
    var r := ch + [ncl];
    forall i | 0 <= i < |r| - 1
      ensures fat'[r[i]] == r[i + 1]
    {
      if i < |ch| - 1 {
        assert ch[i] != ch[|ch| - 1] && ch[i] in ch;
      }
    }
  }

  /** The FAT after the clusters of `cs` are freed. */
  function Freed(fat: seq<nat>, cs: seq<nat>): (r: seq<nat>)
    ensures |r| == |fat|
  {
    seq(|fat|, c requires 0 <= c < |fat| => if c in cs then 0 else fat[c])
  }

  /** The FAT after the suffix of `ch` from position `k` is cut off: the new tail is marked, the rest freed. */
  function Cut(fat: seq<nat>, ch: seq<nat>, k: nat, eoc: nat): (r: seq<nat>)
    requires k < |ch| && forall i :: 0 <= i < |ch| ==> ch[i] < |fat|
    ensures |r| == |fat|
  {
    Freed(if k == 0 then fat else fat[ch[k - 1] := eoc], ch[k..])
  }

  lemma CutChain(fat: seq<nat>, chains: set<seq<nat>>, ch: seq<nat>, k: nat, eoc: nat)
    requires WellFormed(fat, chains) && ch in chains && k < |ch| && |fat| <= eoc
    ensures WellFormed(Cut(fat, ch, k, eoc), chains - {ch} + if k == 0 then {} else {ch[..k]})
  {
    var fat' := Cut(fat, ch, k, eoc);
    var kept := if k == 0 then {} else {ch[..k]};
    forall a | a in chains - {ch}
      ensures IsChain(fat', a) && Disjoint(a, ch[..k])
    {
      assert Disjoint(ch, a) && Disjoint(a, ch);
      CutElsewhere(fat, ch, k, eoc, a);
    }
    if k > 0 {
      PrefixIsChain(fat, ch, k, eoc);
      AddDisjoint(chains - {ch}, ch[..k]);
    }
    CutOwned(fat, chains, ch, k, eoc);
  }

  lemma CutOwned(fat: seq<nat>, chains: set<seq<nat>>, ch: seq<nat>, k: nat, eoc: nat)
    requires AllOwned(fat, chains) && k < |ch| && forall i :: 0 <= i < |ch| ==> ch[i] < |fat|
    ensures AllOwned(Cut(fat, ch, k, eoc), chains - {ch} + if k == 0 then {} else {ch[..k]})
  {
    var fat' := Cut(fat, ch, k, eoc);
    var kept := if k == 0 then {} else {ch[..k]};
    forall c | 2 <= c < |fat'| && fat'[c] != 0
      ensures Owned(chains - {ch} + kept, c)
    {
      assert c !in ch[k..];
      if c in ch {
        assert ch == ch[..k] + ch[k..];
        assert c in ch[..k];
      } else {
        OwnedElsewhere(chains, ch, c, kept);
      }
    }
  }

  lemma CutElsewhere(fat: seq<nat>, ch: seq<nat>, k: nat, eoc: nat, a: seq<nat>)
    requires IsChain(fat, ch) && IsChain(fat, a) && k < |ch| && Disjoint(a, ch)
    ensures IsChain(Cut(fat, ch, k, eoc), a)
  {
    var fat' := Cut(fat, ch, k, eoc);
    forall c | c in a && c < |fat|
      ensures fat'[c] == fat[c]
    {
      assert c !in ch;
      assert forall i :: k <= i < |ch| ==> ch[i] in ch;
    }
    ChainKept(fat, fat', a);
  }

  lemma PrefixIsChain(fat: seq<nat>, ch: seq<nat>, k: nat, eoc: nat)
    requires IsChain(fat, ch) && 0 < k < |ch| && |fat| <= eoc
    ensures IsChain(Cut(fat, ch, k, eoc), ch[..k])
  {
    forall i | 0 <= i < k
      ensures ch[i] !in ch[k..]
    {
    }
  }

  /** `remove_chain` from `c` on an arbitrary FAT: each visited entry is zeroed until the walk meets
      a free cluster, an entry holding 1 or an end mark. False reports the error. */
  function FreeRun(fat: seq<nat>, c: nat): (r: (seq<nat>, bool))
    requires 2 <= c < |fat|
    ensures |r.0| == |fat|
    decreases |fat| - Zeros(fat)
  {
    var nxt := fat[c];
    if nxt == 0 then (fat, true)
    else if nxt == 1 then (fat, false)
    else
      ZerosUpdate(fat, c, 0);
      ZerosBound(fat[c := 0]);
      if nxt < |fat| then FreeRun(fat[c := 0], nxt) else (fat[c := 0], true)
  }

  /** On a chain the run frees exactly the suffix. */
  lemma {:induction false} FreeRunOnChain(fat: seq<nat>, ch: seq<nat>, k: nat)
    requires k < |ch| && forall i :: 0 <= i < |ch| ==> 2 <= ch[i] < |fat|
    requires forall i, j :: k <= i < j < |ch| ==> ch[i] != ch[j]
    requires forall i :: k <= i < |ch| - 1 ==> fat[ch[i]] == ch[i + 1]
    requires fat[ch[|ch| - 1]] >= |fat|
    ensures FreeRun(fat, ch[k]) == (Freed(fat, ch[k..]), true)
    decreases |ch| - k
  {
    var fat1 := fat[ch[k] := 0];
    if k == |ch| - 1 {
      assert ch[k..] == [ch[k]];
      assert fat1 == Freed(fat, ch[k..]);
    } else {
      FreeRunOnChain(fat1, ch, k + 1);
      assert ch[k..] == [ch[k]] + ch[k + 1..];
      assert Freed(fat1, ch[k + 1..]) == Freed(fat, ch[k..]);
    }
  }

  // ----- counting free clusters

  function Zeros(t: seq<nat>): (n: nat) {
    if t == [] then 0 else Zeros(t[..|t| - 1]) + if t[|t| - 1] == 0 then 1 else 0
  }

  lemma {:induction false} ZerosBound(t: seq<nat>)
    ensures Zeros(t) <= |t|
  {
    if t != [] {
      ZerosBound(t[..|t| - 1]);
    }
  }

  lemma {:induction false} ZerosUpdate(t: seq<nat>, i: nat, v: nat)
    requires i < |t|
    ensures Zeros(t[i := v]) == Zeros(t) - (if t[i] == 0 then 1 else 0) + (if v == 0 then 1 else 0)
    decreases |t|
  {
    var m := |t| - 1;
    if i == m {
      assert t[i := v][..m] == t[..m];
    } else {
      assert t[i := v][..m] == t[..m][i := v];
      ZerosUpdate(t[..m], i, v);
    }
  }

  lemma {:induction false} ZerosPositive(t: seq<nat>, i: nat)
    requires i < |t| && t[i] == 0
    ensures Zeros(t) > 0
  {
    if i < |t| - 1 {
      ZerosPositive(t[..|t| - 1], i);
    }
  }

  lemma {:induction false} ZerosNone(t: seq<nat>)
    requires forall i :: 0 <= i < |t| ==> t[i] != 0
    ensures Zeros(t) == 0
  {
    if t != [] {
      ZerosNone(t[..|t| - 1]);
    }
  }

  /** Number of free clusters; entries 0 and 1 belong to no cluster. */
  function FreeCount(fat: seq<nat>): (n: nat)
    requires |fat| >= 2
  {
    Zeros(fat[2..])
  }

  lemma FreeCountUpdate(fat: seq<nat>, c: nat, v: nat)
    requires 2 <= c < |fat|
    ensures FreeCount(fat[c := v]) == FreeCount(fat) - (if fat[c] == 0 then 1 else 0) + (if v == 0 then 1 else 0)
    ensures FreeCount(fat) <= |fat| - 2
    ensures fat[c] != 0 ==> FreeCount(fat) < |fat| - 2
  {
    assert fat[c := v][2..] == fat[2..][c - 2 := v];
    ZerosUpdate(fat[2..], c - 2, v);
    ZerosBound(fat[2..]);
    if fat[c] != 0 {
      ZerosUpdate(fat[2..], c - 2, 0);
      ZerosBound(fat[2..][c - 2 := 0]);
    }
  }

  ghost predicate NoneFree(fat: seq<nat>) {
    forall c :: 2 <= c < |fat| ==> fat[c] != 0
  }

  lemma FreeCountZero(fat: seq<nat>)
    requires |fat| >= 2
    ensures FreeCount(fat) == 0 <==> NoneFree(fat)
  {
    if NoneFree(fat) {
      ZerosNone(fat[2..]);
    } else {
      var c :| 2 <= c < |fat| && fat[c] == 0;
      ZerosPositive(fat[2..], c - 2);
    }
  }

  // ----- the search order

  /** How far cluster `c` is from `scl` when clusters 2 .. n-1 are visited in a circle, 1 .. n-2. */
  function Distance(n: nat, scl: nat, c: nat): int {
    if c > scl then c - scl else n - scl + c - 2
  }

  /** The clusters up to distance `done` are in use. */
  ghost predicate InUseUpTo(fat: seq<nat>, scl: nat, done: int) {
    forall c :: 2 <= c < |fat| && Distance(|fat|, scl, c) <= done ==> fat[c] != 0
  }

  /** The search from `scl` stands at `cur`: it has passed `done` clusters, all in use. */
  ghost predicate Passed(fat: seq<nat>, scl: nat, cur: nat, done: nat) {
    && cur < |fat| && done <= |fat| - 2
    && (if done == 0 then cur == scl else 2 <= cur && cur != scl && done == Distance(|fat|, scl, cur))
    && InUseUpTo(fat, scl, done)
  }

  /** The cluster visited after `cur`. */
  function Next(n: nat, cur: nat): nat { if cur + 1 >= n then 2 else cur + 1 }

  lemma NothingPassed(fat: seq<nat>, scl: nat)
    requires 0 < scl < |fat| && |fat| > 2
    ensures Passed(fat, scl, scl, 0)
  {
  }

  lemma PassOne(fat: seq<nat>, scl: nat, cur: nat, done: nat, c: nat)
    requires 0 < scl < |fat| && |fat| > 2 && Passed(fat, scl, cur, done)
    requires c == Next(|fat|, cur) && fat[c] != 0 && c != scl && (cur + 1 >= |fat| ==> scl >= 2)
    ensures Passed(fat, scl, c, done + 1)
  {
  }

  lemma PassedBound(fat: seq<nat>, scl: nat, cur: nat, done: nat)
    requires Passed(fat, scl, cur, done)
    ensures done < |fat|
  {
  }

  lemma CircleClosed(fat: seq<nat>, scl: nat, cur: nat, done: nat)
    requires 0 < scl < |fat| && |fat| > 2 && Passed(fat, scl, cur, done)
    requires (Next(|fat|, cur) == scl && fat[scl] != 0) || (cur + 1 >= |fat| && scl < 2)
    ensures NoneFree(fat)
  {
  }

  lemma FirstFreeFound(fat: seq<nat>, scl: nat, cur: nat, done: nat, c: nat)
    requires 0 < scl < |fat| && |fat| > 2 && Passed(fat, scl, cur, done)
    requires c == Next(|fat|, cur) && fat[c] == 0 && (cur + 1 >= |fat| ==> scl >= 2)
    ensures FirstFree(fat, scl, c)
  {
  }

  /** `ncl` is the free cluster the circular search from `scl` meets first. */
  ghost predicate FirstFree(fat: seq<nat>, scl: nat, ncl: nat) {
    && 2 <= ncl < |fat| && fat[ncl] == 0
    && forall c :: 2 <= c < |fat| && Distance(|fat|, scl, c) < Distance(|fat|, scl, ncl) ==> fat[c] != 0
  }

  /** The cluster `create_chain` tries first when it stretches. */
  function Following(n: nat, clst: nat): nat {
    if clst + 1 >= n then 2 else clst + 1
  }

  /** Where the circular search starts. */
  function SearchStart(n: nat, last: nat, clst: nat): nat {
    if clst == 0 then (if last == 0 || last >= n then 1 else last)
    else if 2 <= last < n then last else clst
  }

  /** The free cluster `create_chain` takes. */
  ghost predicate Chosen(fat: seq<nat>, last: nat, clst: nat, ncl: nat)
    requires |fat| > 2
  {
    && 2 <= ncl < |fat| && fat[ncl] == 0
    && if clst != 0 && fat[Following(|fat|, clst)] == 0 then ncl == Following(|fat|, clst)
       else FirstFree(fat, SearchStart(|fat|, last, clst), ncl)
  }

  /** Without distances: the cluster behind `clst` when it is free; else the first free one above the last allocated
      cluster (or above `clst` when that is not known), or, with none above it, the lowest free one of all. */
  lemma ChosenIs(fat: seq<nat>, last: nat, clst: nat, ncl: nat)
    requires |fat| > 2 && Chosen(fat, last, clst, ncl) && (clst == 0 || 2 <= clst < |fat|)
    ensures var behind := if clst + 1 < |fat| then clst + 1 else 2;
      var from := if 2 <= last < |fat| then last else if clst != 0 then clst else 1;
      if clst != 0 && fat[behind] == 0 then ncl == behind
      else forall c :: 2 <= c < |fat| && fat[c] == 0 ==> if c > from then from < ncl <= c else ncl > from || ncl <= c
  {
  }
}

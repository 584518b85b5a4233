/** `create_chain`, `remove_chain` and the free-cluster count of `f_getfree`. */
module Allocator {
  import opened Words
  import opened Layout
  import opened FatTable
  import opened Drive
  import opened Volumes
  import opened Chains

  const DISK_FULL: nat := 0
  const INTERNAL: nat := 1

  /** The cached count is unknown or right. */
  ghost predicate CountTrusted(free: nat, fat: seq<nat>)
    requires |fat| >= 2
  {
    free > |fat| - 2 || free == FreeCount(fat)
  }

  /** `free_clst` after `k` clusters were freed: it stops at the number of clusters. */
  function CountAfterFreeing(free: nat, n: nat, k: nat): nat {
    if free + 2 >= n then free else if free + k + 2 >= n then n - 2 else free + k
  }

  /** `free_clst` went from `free` to `free'` while the FAT went from `fat` to `fat'` by freeing clusters. */
  ghost predicate CountFollows(free: nat, fat: seq<nat>, free': nat, fat': seq<nat>) {
    && Zeros(fat') >= Zeros(fat)
    && free' == CountAfterFreeing(free, |fat|, Zeros(fat') - Zeros(fat))
  }

  /** The FAT after the predecessor of the removed part became the end of its chain. */
  function TailMarked(fat: seq<nat>, pclst: nat, eoc: nat): (r: seq<nat>)
    requires pclst < |fat|
    ensures |r| == |fat|
  {
    if pclst == 0 then fat else fat[pclst := eoc]
  }

  /** `remove_chain`. Works on any FAT: it ends because every round zeroes a nonzero entry. */
  method RemoveChain(fs: Volume, clst0: nat, pclst: nat) returns (res: Result)
    requires fs.Valid()
    modifies fs, fs.win
    ensures fs.Valid() && FatOnly(old(fs.Abs()), fs.Abs(), fs.g) && fs.lastClst == old(fs.lastClst)
    ensures !fs.g.InCluster(clst0) || (pclst != 0 && !fs.g.InCluster(pclst)) ==>
      res == IntErr && fs.Abs() == old(fs.Abs()) && fs.freeClst == old(fs.freeClst) && fs.winsect == old(fs.winsect)
    ensures fs.g.InCluster(clst0) && (pclst == 0 || fs.g.InCluster(pclst)) ==>
      && var f := TailMarked(old(fs.Fat()), pclst, fs.g.Eoc());
      && fs.Fat() == FreeRun(f, clst0).0
      && res == (if FreeRun(f, clst0).1 then Ok else IntErr)
      && CountFollows(old(fs.freeClst), f, fs.freeClst, fs.Fat())
      && fs.g.InFirstFat(fs.winsect)
  {
    hide FreeRun, CountFollows, Volume.Abs, TableOf, FatOnly, DiskOk, TailMarked;
    FatOnlyRefl(fs.Abs(), fs.g);
    if !fs.g.InCluster(clst0) {
      return IntErr;
    }
    if pclst != 0 {
      res := MarkTail(fs, pclst);
      if res != Ok { return; }
    }
    NothingMarked(old(fs.Fat()), fs.g.Eoc());
    ghost var d: Disk := fs.Abs();
    res := RemoveRun(fs, clst0);
    FatOnlyTrans(old(fs.Abs()), d, fs.Abs(), fs.g);
  }

  lemma NothingMarked(fat: seq<nat>, eoc: nat)
    requires |fat| > 0
    ensures TailMarked(fat, 0, eoc) == fat
  {
  }

  /** Makes `pclst` the end of its chain. */
  method MarkTail(fs: Volume, pclst: nat) returns (res: Result)
    requires fs.Valid() && pclst != 0
    modifies fs, fs.win
    ensures fs.Valid() && FatOnly(old(fs.Abs()), fs.Abs(), fs.g)
    ensures fs.lastClst == old(fs.lastClst) && fs.freeClst == old(fs.freeClst)
    ensures res == if fs.g.InCluster(pclst) then Ok else IntErr
    ensures !fs.g.InCluster(pclst) ==> fs.Abs() == old(fs.Abs()) && fs.winsect == old(fs.winsect)
    ensures fs.g.InCluster(pclst) ==> fs.Fat() == TailMarked(old(fs.Fat()), pclst, fs.g.Eoc())
  {
    hide Geometry.EntryMod, Geometry.Eoc, Geometry.Valid, Volume.Abs, TableOf, FatOnly, DiskOk;
    GeometryFacts(fs.disk, fs.g);
    res := fs.PutFat(pclst, TWO32 - 1);
  }

  /** The loop of `remove_chain`. */
  method RemoveRun(fs: Volume, clst0: nat) returns (res: Result)
    requires fs.Valid() && fs.g.InCluster(clst0)
    modifies fs, fs.win
    ensures fs.Valid() && FatOnly(old(fs.Abs()), fs.Abs(), fs.g) && fs.lastClst == old(fs.lastClst) && fs.g.InFirstFat(fs.winsect)
    ensures (fs.Fat(), res) == var r := FreeRun(old(fs.Fat()), clst0); (r.0, if r.1 then Ok else IntErr)
    ensures CountFollows(old(fs.freeClst), old(fs.Fat()), fs.freeClst, fs.Fat())
  {
    hide FreeRun, Zeros, Volume.Abs, TableOf, FatOnly;
    var clst := clst0;
    ghost var f := fs.Fat();
    ghost var k: nat := 0;
    var nxt: nat := FreeOne(fs, clst);
    FreeRunStep(f, clst);
    k := if nxt < 2 then 0 else 1;
    while 2 <= nxt < fs.g.nFatent
      invariant fs.Valid() && FatOnly(old(fs.Abs()), fs.Abs(), fs.g) && fs.lastClst == old(fs.lastClst) && fs.g.InFirstFat(fs.winsect)
      invariant FreeRun(f, clst0) == RunAfter(fs.Fat(), nxt)
      invariant Zeros(fs.Fat()) == Zeros(f) + k
      invariant fs.freeClst == CountAfterFreeing(old(fs.freeClst), fs.g.nFatent, k)
      invariant Zeros(fs.Fat()) <= fs.g.nFatent
      decreases fs.g.nFatent - Zeros(fs.Fat()), if 2 <= nxt < fs.g.nFatent then 1 else 0
    {
      clst := nxt;
      FreeRunStep(fs.Fat(), clst);
      ghost var d: Disk := fs.Abs();
      nxt := FreeOne(fs, clst);
      FatOnlyTrans(old(fs.Abs()), d, fs.Abs(), fs.g);
      k := if nxt < 2 then k else k + 1;
    }
    res := if nxt == 1 then IntErr else Ok;
  }

  /** What is left of a run after the entry holding `nxt` was dealt with. */
  function RunAfter(fat: seq<nat>, nxt: nat): (seq<nat>, bool) {
    if nxt == 1 then (fat, false) else if 2 <= nxt < |fat| then FreeRun(fat, nxt) else (fat, true)
  }

  lemma FreeRunStep(fat: seq<nat>, c: nat)
    requires 2 <= c < |fat|
    ensures FreeRun(fat, c) == RunAfter(if fat[c] < 2 then fat else fat[c := 0], fat[c])
  {
  }

  /** One round of `remove_chain`: look up the successor and free the cluster. */
  method FreeOne(fs: Volume, clst: nat) returns (nxt: nat)
    requires fs.Valid() && fs.g.InCluster(clst)
    modifies fs, fs.win
    ensures fs.Valid() && FatOnly(old(fs.Abs()), fs.Abs(), fs.g) && fs.lastClst == old(fs.lastClst)
    ensures fs.g.InFirstFat(fs.winsect) && nxt == old(fs.Fat())[clst]
    ensures fs.Fat() == if nxt < 2 then old(fs.Fat()) else old(fs.Fat())[clst := 0]
    ensures fs.freeClst == CountAfterFreeing(old(fs.freeClst), fs.g.nFatent, if nxt < 2 then 0 else 1)
    ensures Zeros(fs.Fat()) == Zeros(old(fs.Fat())) + if nxt < 2 then 0 else 1
    ensures Zeros(fs.Fat()) <= fs.g.nFatent
  {
    hide Volume.Abs, TableOf, FatOnly, Geometry.EntryMod, Geometry.Valid, DiskOk, Zeros;
    GeometryFacts(fs.disk, fs.g);
    FatOnlyRefl(fs.Abs(), fs.g);
    ghost var t := fs.Fat();
    ZerosUpdate(t, clst, 0);
    ZerosBound(t[clst := 0]);
    nxt := fs.GetFat(clst);
    if nxt < 2 { return; }
    var res := fs.PutFat(clst, 0);
    CountFreed(fs);
  }

  /** Updates `free_clst` for one freed cluster. */
  method CountFreed(fs: Volume)
    requires fs.Valid()
    modifies fs`freeClst
    ensures fs.Valid() && fs.freeClst == CountAfterFreeing(old(fs.freeClst), fs.g.nFatent, 1)
  {
    if fs.freeClst < fs.g.nFatent - 2 {
      fs.freeClst := fs.freeClst + 1;
    }
  }

  /** No entry holds 1, the value `get_fat` reserves for internal errors. */
  ghost predicate NoError(fat: seq<nat>) {
    forall c :: 2 <= c < |fat| ==> fat[c] != 1
  }

  /** `create_chain` returns without looking for a cluster: its error or the cluster that already follows. */
  predicate Settled(fat: seq<nat>, clst: nat) {
    clst != 0 && !(2 <= clst < |fat| <= fat[clst])
  }

  function SettledResult(fat: seq<nat>, clst: nat): nat {
    if 2 <= clst < |fat| && fat[clst] >= 2 then fat[clst] else INTERNAL
  }

  /** The state when no cluster was taken. */
  twostate predicate NothingTaken(fs: Volume)
    requires old(fs.Valid()) && fs.Valid()
    reads fs, fs.win
  {
    fs.Abs() == old(fs.Abs()) && fs.lastClst == old(fs.lastClst) && fs.freeClst == old(fs.freeClst)
  }

  /** The part of `create_chain` that looks for a free cluster, from `start`. */
  method Search(fs: Volume, clst: nat, start: nat) returns (ncl: nat)
    requires fs.Valid() && 0 < start < fs.g.nFatent
    requires if clst == 0 then start == SearchStart(fs.g.nFatent, fs.lastClst, 0) else start == clst && fs.g.InCluster(clst)
    modifies fs, fs.win
    ensures fs.Valid() && NothingTaken(fs)
    ensures ncl == DISK_FULL ==> NoneFree(fs.Fat())
    ensures ncl == INTERNAL ==> !NoError(fs.Fat())
    ensures ncl < fs.g.nFatent && (ncl >= 2 ==> Chosen(fs.Fat(), fs.lastClst, clst, ncl))
    ensures fs.g.InFirstFat(fs.winsect) || fs.winsect == old(fs.winsect)
  {
    hide Volume.Abs, TableOf, Geometry.EntryMod, Geometry.Valid, DiskOk, NoneFree, Distance;
    GeometryFacts(fs.disk, fs.g);
    var scl := start;
    ncl := 0;
    if scl == clst {
      ncl := scl + 1;
      if ncl >= fs.g.nFatent { ncl := 2; }
      var cs := fs.GetFat(ncl);
      if cs == 1 {
        assert fs.Fat()[ncl] == 1;
        return INTERNAL;
      }
      if cs != 0 {
        cs := fs.lastClst;
        if cs >= 2 && cs < fs.g.nFatent { scl := cs; }
        ncl := 0;
      }
    }
    if ncl == 0 {
      ncl := Circle(fs, scl);
    }
  }

  /** The circular scan over all clusters that begins behind `scl`. */
  method Circle(fs: Volume, scl: nat) returns (ncl: nat)
    requires fs.Valid() && 0 < scl < fs.g.nFatent
    modifies fs, fs.win
    ensures fs.Valid() && NothingTaken(fs)
    ensures ncl == DISK_FULL ==> NoneFree(fs.Fat())
    ensures ncl == INTERNAL ==> !NoError(fs.Fat())
    ensures ncl < fs.g.nFatent && (ncl >= 2 ==> FirstFree(fs.Fat(), scl, ncl))
    ensures fs.g.InFirstFat(fs.winsect) || fs.winsect == old(fs.winsect)
  {
    hide Volume.Abs, TableOf, Geometry.EntryMod, Geometry.Valid, DiskOk, Passed, NoneFree, FirstFree;
    ghost var fat := fs.Fat();
    GeometryFacts(fs.disk, fs.g);
    NothingPassed(fat, scl);
    var cur := scl;
    ghost var done: nat := 0;
    while true
      invariant fs.Valid() && NothingTaken(fs) && fs.Fat() == fat
      invariant fs.g.InFirstFat(fs.winsect) || fs.winsect == old(fs.winsect)
      invariant cur < |fat| && done < |fat| && Passed(fat, scl, cur, done)
      decreases |fat| - done
    {
      ncl := cur + 1;
      if ncl >= fs.g.nFatent {
        ncl := 2;
        if ncl > scl {
          CircleClosed(fat, scl, cur, done);
          return DISK_FULL;
        }
      }
      var cs := fs.GetFat(ncl);
      if cs == 0 {
        FirstFreeFound(fat, scl, cur, done, ncl);
        return;
      }
      if cs == 1 { return INTERNAL; }
      if ncl == scl {
        CircleClosed(fat, scl, cur, done);
        return DISK_FULL;
      }
      PassOne(fat, scl, cur, done, ncl);
      PassedBound(fat, scl, ncl, done + 1);
      cur, done := ncl, done + 1;
    }
  }

  /** Marks `ncl` as an end and links it behind `clst`. */
  method TakeCluster(fs: Volume, clst: nat, ncl: nat)
    requires fs.Valid() && fs.g.InCluster(ncl) && (clst == 0 || fs.g.InCluster(clst))
    modifies fs, fs.win
    ensures fs.Valid() && FatOnly(old(fs.Abs()), fs.Abs(), fs.g)
    ensures fs.Fat() == Linked(old(fs.Fat()), clst, ncl, fs.g.Eoc())
    ensures fs.g.InFirstFat(fs.winsect)
    ensures fs.lastClst == old(fs.lastClst) && fs.freeClst == old(fs.freeClst)
  {
    hide FatOnly, Volume.Abs, TableOf, Geometry.EntryMod, Geometry.Eoc, Geometry.Valid, DiskOk;
    GeometryFacts(fs.disk, fs.g);
    var res := fs.PutFat(ncl, TWO32 - 1);
    if clst != 0 {
      ghost var d: Disk := fs.Abs();
      res := fs.PutFat(clst, ncl);
      FatOnlyTrans(old(fs.Abs()), d, fs.Abs(), fs.g);
    }
  }

  /** `create_chain`: stretches the chain ending in `clst`, or starts a chain when `clst` is 0. */
  method CreateChain(fs: Volume, clst: nat) returns (ncl: nat)
    requires fs.Valid()
    modifies fs, fs.win
    ensures fs.Valid() && FatOnly(old(fs.Abs()), fs.Abs(), fs.g)
    ensures Settled(old(fs.Fat()), clst) ==> ncl == SettledResult(old(fs.Fat()), clst) && NothingTaken(fs)
    ensures !Settled(old(fs.Fat()), clst) && ncl < 2 ==> NothingTaken(fs)
    ensures !Settled(old(fs.Fat()), clst) && old(fs.freeClst) == 0 ==> ncl == DISK_FULL
    ensures !Settled(old(fs.Fat()), clst) && old(fs.freeClst) != 0 && ncl == DISK_FULL ==> NoneFree(old(fs.Fat()))
    ensures !Settled(old(fs.Fat()), clst) && ncl == INTERNAL ==> !NoError(old(fs.Fat()))
    ensures !Settled(old(fs.Fat()), clst) && ncl >= 2 ==>
      && Chosen(old(fs.Fat()), old(fs.lastClst), clst, ncl)
      && fs.Fat() == Linked(old(fs.Fat()), clst, ncl, fs.g.Eoc())
      && fs.g.InFirstFat(fs.winsect)
      && fs.lastClst == ncl
      && fs.freeClst == if old(fs.freeClst) <= fs.g.nFatent - 2 then old(fs.freeClst) - 1 else old(fs.freeClst)
    ensures fs.g.InFirstFat(fs.winsect) || fs.winsect == old(fs.winsect)
  {
    hide Chosen, NoneFree, NoError, Linked, DiskOk, FatOnly, Volume.Abs, TableOf, Geometry.EntryMod, Geometry.Valid;
    GeometryFacts(fs.disk, fs.g);
    FatOnlyRefl(fs.Abs(), fs.g);
    var n := fs.g.nFatent;
    var scl := 1;
    if clst == 0 {
      scl := fs.lastClst;
      if scl == 0 || scl >= n { scl := 1; }
    } else {
      var cs := fs.GetFat(clst);
      if cs < 2 { return INTERNAL; }
      if cs < n { return cs; }
      scl := clst;
    }
    if fs.freeClst == 0 { return DISK_FULL; }
    ncl := Search(fs, clst, scl);
    if ncl < 2 { return; }
    TakeCluster(fs, clst, ncl);
    CountTaken(fs, ncl);
  }

  /** Updates `last_clst` and `free_clst` for an allocated cluster. */
  method CountTaken(fs: Volume, ncl: nat)
    requires fs.Valid() && ncl < TWO32 && fs.freeClst != 0
    modifies fs`lastClst, fs`freeClst
    ensures fs.Valid() && fs.lastClst == ncl
    ensures fs.freeClst == if old(fs.freeClst) <= fs.g.nFatent - 2 then old(fs.freeClst) - 1 else old(fs.freeClst)
  {
    fs.lastClst := ncl;
    if fs.freeClst <= fs.g.nFatent - 2 {
      fs.freeClst := fs.freeClst - 1;
    }
  }
}

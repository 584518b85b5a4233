/** What `create_chain` and `remove_chain` keep, for one call and for whole runs. */
module AllocatorProofs {
  import opened Layout
  import opened Drive
  import opened Volumes
  import opened Chains
  import opened Allocator

  lemma ChainLink(fat: seq<nat>, ch: seq<nat>, i: nat)
    requires IsChain(fat, ch) && i < |ch|
    ensures fat[ch[i]] >= |fat| <==> i == |ch| - 1
  {
    if i < |ch| - 1 {
      assert fat[ch[i]] == ch[i + 1];
    }
  }

  lemma ChainBackLink(fat: seq<nat>, ch: seq<nat>, i: nat)
    requires IsChain(fat, ch) && i < |ch|
    ensures i > 0 ==> 2 <= ch[i - 1] < |fat| && fat[ch[i - 1]] == ch[i]
  {
    if i > 0 {
      assert fat[ch[i - 1]] == ch[i - 1 + 1];
    }
  }

  /** The last cluster of a chain is the one entry of it that ends a chain. */
  lemma TailIsLast(fat: seq<nat>, chains: set<seq<nat>>, clst: nat) returns (ch: seq<nat>)
    requires WellFormed(fat, chains) && 2 <= clst < |fat| <= fat[clst]
    ensures ch in chains && |ch| > 0 && ch[|ch| - 1] == clst
  {
    assert Owned(chains, clst);
    ch :| ch in chains && clst in ch;
    assert IsChain(fat, ch);
    var i :| 0 <= i < |ch| && ch[i] == clst;
    ChainLink(fat, ch, i);
  }

  /** The chains after a cluster was taken. */
  ghost predicate Grown(chains: set<seq<nat>>, chains': set<seq<nat>>, clst: nat, ncl: nat) {
    if clst == 0 then chains' == chains + {[ncl]}
    else exists ch :: ch in chains && |ch| > 0 && ch[|ch| - 1] == clst && chains' == chains - {ch} + {ch + [ncl]}
  }

  /** Taking a cluster appends it to the one chain that ended in `clst`, or makes it a chain of its own. */
  lemma CreateKeeps(fat: seq<nat>, chains: set<seq<nat>>, last: nat, clst: nat, ncl: nat, eoc: nat)
    returns (chains': set<seq<nat>>)
    requires |fat| > 2 && WellFormed(fat, chains) && |fat| <= eoc
    requires !Settled(fat, clst) && Chosen(fat, last, clst, ncl)
    ensures WellFormed(Linked(fat, clst, ncl, eoc), chains') && Grown(chains, chains', clst, ncl)
  {
    if clst == 0 {
      NewChain(fat, chains, ncl, eoc);
      chains' := chains + {[ncl]};
    } else {
      var ch := TailIsLast(fat, chains, clst);
      StretchChain(fat, chains, ch, ncl, eoc);
      chains' := chains - {ch} + {ch + [ncl]};
    }
  }

  /** `remove_chain` on a position of a chain frees exactly the suffix and reports success. */
  lemma RemoveIsCut(fat: seq<nat>, ch: seq<nat>, k: nat, eoc: nat)
    requires IsChain(fat, ch) && k < |ch| && |fat| <= eoc
    ensures FreeRun(TailMarked(fat, if k == 0 then 0 else ch[k - 1], eoc), ch[k]) == (Cut(fat, ch, k, eoc), true)
  {
    var f := TailMarked(fat, if k == 0 then 0 else ch[k - 1], eoc);
    forall i | k <= i < |ch|
      ensures f[ch[i]] == fat[ch[i]]
    {
    }
    FreeRunOnChain(f, ch, k);
  }

  lemma RemoveKeeps(fat: seq<nat>, chains: set<seq<nat>>, ch: seq<nat>, k: nat, eoc: nat)
    requires WellFormed(fat, chains) && ch in chains && k < |ch| && |fat| <= eoc
    ensures WellFormed(FreeRun(TailMarked(fat, if k == 0 then 0 else ch[k - 1], eoc), ch[k]).0,
                       chains - {ch} + if k == 0 then {} else {ch[..k]})
  {
    assert IsChain(fat, ch);
    RemoveIsCut(fat, ch, k, eoc);
    CutChain(fat, chains, ch, k, eoc);
  }

  // ----- the cached number of free clusters

  /** A run frees clusters only, so entries 0 and 1 do not count. */
  lemma {:induction false} FreeRunCounts(fat: seq<nat>, c: nat)
    requires 2 <= c < |fat|
    ensures FreeRun(fat, c).0[..2] == fat[..2]
    ensures FreeCount(FreeRun(fat, c).0) - FreeCount(fat) == Zeros(FreeRun(fat, c).0) - Zeros(fat)
    ensures FreeCount(FreeRun(fat, c).0) <= |fat| - 2
    decreases |fat| - Zeros(fat)
  {
    FreeCountUpdate(fat, c, 0);
    ZerosUpdate(fat, c, 0);
    var nxt := fat[c];
    if nxt >= 2 {
      ZerosBound(fat[c := 0]);
      if nxt < |fat| {
        FreeRunCounts(fat[c := 0], nxt);
      } else {
        FreeCountUpdate(fat[c := 0], c, 0);
      }
    }
  }

  /** An unknown count stays unknown and a right one stays right when clusters are freed. */
  lemma RemoveKeepsCount(fat: seq<nat>, pclst: nat, c: nat, eoc: nat, free: nat, free': nat)
    requires 2 <= c < |fat| <= eoc
    requires pclst == 0 || (2 <= pclst < |fat| && fat[pclst] != 0)
    requires CountTrusted(free, fat)
    requires CountFollows(free, TailMarked(fat, pclst, eoc), free', FreeRun(TailMarked(fat, pclst, eoc), c).0)
    ensures CountTrusted(free', FreeRun(TailMarked(fat, pclst, eoc), c).0)
  {
    var f := TailMarked(fat, pclst, eoc);
    if pclst != 0 {
      FreeCountUpdate(fat, pclst, eoc);
    }
    assert FreeCount(f) == FreeCount(fat);
    FreeRunCounts(f, c);
  }

  /** An unknown count stays unknown and a right one stays right when a cluster is taken. */
  lemma CreateKeepsCount(fat: seq<nat>, clst: nat, ncl: nat, eoc: nat, free: nat)
    requires 2 <= ncl < |fat| <= eoc && fat[ncl] == 0
    requires clst == 0 || (2 <= clst < |fat| && fat[clst] != 0)
    requires CountTrusted(free, fat) && free != 0
    ensures CountTrusted(if free <= |fat| - 2 then free - 1 else free, Linked(fat, clst, ncl, eoc))
  {
    FreeCountUpdate(fat, ncl, eoc);
    if clst != 0 {
      FreeCountUpdate(fat[ncl := eoc], clst, ncl);
    }
  }

  // ----- runs

  datatype State = State(fat: seq<nat>, last: nat, free: nat)

  datatype Call = Create(clst: nat, result: nat) | Remove(ch: seq<nat>, k: nat)

  /** `ch` is the whole chain of an object: no cluster is linked to its first one. */
  ghost predicate WholeChain(fat: seq<nat>, ch: seq<nat>) {
    IsChain(fat, ch) && forall c :: 2 <= c < |fat| ==> fat[c] != ch[0]
  }

  /** One call as its contract describes it; removals cut the chain of a file or directory somewhere. */
  ghost predicate Step(s: State, call: Call, s': State, eoc: nat)
    requires |s.fat| > 2
  {
    && |s'.fat| == |s.fat|
    && match call
       case Create(clst, ncl) =>
         if Settled(s.fat, clst) || ncl < 2 then s' == s
         else
           && s.free != 0
           && Chosen(s.fat, s.last, clst, ncl)
           && s' == State(Linked(s.fat, clst, ncl, eoc), ncl, if s.free <= |s.fat| - 2 then s.free - 1 else s.free)
       case Remove(ch, k) =>
         && WholeChain(s.fat, ch) && k < |ch|
         && var f := TailMarked(s.fat, if k == 0 then 0 else ch[k - 1], eoc);
         && s'.fat == FreeRun(f, ch[k]).0
         && CountFollows(s.free, f, s'.free, s'.fat)
         && s'.last == s.last
  }

  ghost function StateOf(fs: Volume): State
    requires fs.WindowOk()
    reads fs, fs.win
  {
    State(fs.Fat(), fs.lastClst, fs.freeClst)
  }

  /** `create_chain` on a volume is a step. */
  method CreateStep(fs: Volume, clst: nat) returns (ncl: nat)
    requires fs.Valid()
    modifies fs, fs.win
    ensures fs.Valid() && |old(fs.Fat())| > 2
    ensures Step(old(StateOf(fs)), Create(clst, ncl), StateOf(fs), fs.g.Eoc())
  {
    hide Volume.Abs, TableOf, DiskOk, Chosen, Linked, FatOnly, Geometry.Valid, Geometry.Eoc;
    GeometryFacts(fs.Abs(), fs.g);
    ncl := CreateChain(fs, clst);
  }

  /** `remove_chain` from element `k` of the chain of an object on is a step, and reports success. */
  method RemoveStep(fs: Volume, ghost ch: seq<nat>, ghost k: nat, clst: nat, pclst: nat) returns (res: Result)
    requires fs.Valid() && WholeChain(fs.Fat(), ch) && k < |ch|
    requires clst == ch[k] && pclst == if k == 0 then 0 else ch[k - 1]
    modifies fs, fs.win
    ensures fs.Valid() && |old(fs.Fat())| > 2 && res == Result.Ok
    ensures Step(old(StateOf(fs)), Remove(ch, k), StateOf(fs), fs.g.Eoc())
  {
    hide Volume.Abs, TableOf, DiskOk, FreeRun, TailMarked, FatOnly, CountFollows, Geometry.Valid, Geometry.Eoc;
    GeometryFacts(fs.Abs(), fs.g);
    RemoveIsCut(fs.Fat(), ch, k, fs.g.Eoc());
    res := RemoveChain(fs, clst, pclst);
  }

  ghost predicate Sound(s: State) {
    && |s.fat| > 2
    && (exists chains :: WellFormed(s.fat, chains))
    && CountTrusted(s.free, s.fat)
  }

  lemma WholeChainIsMember(fat: seq<nat>, chains: set<seq<nat>>, ch: seq<nat>)
    requires WellFormed(fat, chains) && WholeChain(fat, ch)
    ensures ch in chains
  {
    ChainAllocated(fat, ch, ch[0]);
    assert Owned(chains, ch[0]);
    var a :| a in chains && ch[0] in a;
    assert IsChain(fat, a);
    var j :| 0 <= j < |a| && a[j] == ch[0];
    ChainBackLink(fat, a, j);
    SameWalk(fat, a, 0, ch);
    assert a == ch;
  }

  /** Two chains that meet agree from there on. */
  lemma SameWalk(fat: seq<nat>, a: seq<nat>, j: nat, b: seq<nat>)
    requires IsChain(fat, a) && IsChain(fat, b) && j < |a| && a[j] == b[0]
    ensures |a| - j == |b| && forall i :: 0 <= i < |b| ==> a[j + i] == b[i]
  {
    var i := 0;
    while i < |b| - 1
      invariant 0 <= i <= |b| - 1 && j + i < |a|
      invariant forall m :: 0 <= m <= i ==> a[j + m] == b[m]
    {
      assert fat[b[i]] == b[i + 1] && a[j + i] == b[i];
      assert j + i < |a| - 1;
      assert fat[a[j + i]] == a[j + i + 1];
      i := i + 1;
    }
    assert a[j + i] == b[i];
    ChainLink(fat, a, j + i);
  }

  /** Every call keeps the FAT a set of disjoint end-marked chains and the cached count unknown or right. */
  lemma StepKeeps(s: State, call: Call, s': State, eoc: nat)
    requires Sound(s) && |s.fat| <= eoc && Step(s, call, s', eoc)
    ensures Sound(s')
  {
    match call
    case Create(clst, ncl) =>
      if !Settled(s.fat, clst) && ncl >= 2 {
        CreateStepKeeps(s, clst, ncl, s', eoc);
      }
    case Remove(ch, k) =>
      var chains' := RemoveStepKeeps(s, ch, k, s', eoc);
      RemoveStepCount(s, ch, k, s', eoc);
  }

  lemma CreateStepKeeps(s: State, clst: nat, ncl: nat, s': State, eoc: nat)
    requires Sound(s) && |s.fat| <= eoc && Step(s, Create(clst, ncl), s', eoc)
    requires !Settled(s.fat, clst) && ncl >= 2
    ensures Sound(s')
  {
    var chains :| WellFormed(s.fat, chains);
    hide WellFormed, CountTrusted, FirstFree;
    var chains' := CreateKeeps(s.fat, chains, s.last, clst, ncl, eoc);
    CreateKeepsCount(s.fat, clst, ncl, eoc, s.free);
  }

  lemma RemoveStepKeeps(s: State, ch: seq<nat>, k: nat, s': State, eoc: nat)
    returns (chains': set<seq<nat>>)
    requires Sound(s) && |s.fat| <= eoc && Step(s, Remove(ch, k), s', eoc)
    ensures WellFormed(s'.fat, chains')
  {
    var chains :| WellFormed(s.fat, chains);
    hide WellFormed, FreeRun, TailMarked, CountFollows, CountTrusted, IsChain;
    WholeChainIsMember(s.fat, chains, ch);
    chains' := chains - {ch} + if k == 0 then {} else {ch[..k]};
    var p := if k == 0 then 0 else ch[k - 1];
    assert s'.fat == FreeRun(TailMarked(s.fat, p, eoc), ch[k]).0;
    RemoveKeeps(s.fat, chains, ch, k, eoc);
  }

  lemma RemoveStepCount(s: State, ch: seq<nat>, k: nat, s': State, eoc: nat)
    requires |s.fat| > 2 && |s.fat| <= eoc && CountTrusted(s.free, s.fat)
    requires Step(s, Remove(ch, k), s', eoc)
    ensures CountTrusted(s'.free, s'.fat)
  {
    if k > 0 {
      ChainAllocated(s.fat, ch, ch[k - 1]);
    }
    RemoveKeepsCount(s.fat, if k == 0 then 0 else ch[k - 1], ch[k], eoc, s.free, s'.free);
  }

  /** A run of calls: state `i + 1` follows from state `i` by call `i`. */
  ghost predicate Run(states: seq<State>, calls: seq<Call>, eoc: nat) {
    && |states| == |calls| + 1
    && forall i :: 0 <= i < |calls| ==>
         |states[i].fat| > 2 && Step(states[i], calls[i], states[i + 1], eoc)
  }

  /** In every run from a sound FAT every state is sound. */
  lemma {:induction false} RunKeeps(states: seq<State>, calls: seq<Call>, eoc: nat, i: nat)
    requires Run(states, calls, eoc) && Sound(states[0]) && |states[0].fat| <= eoc && i < |states|
    ensures Sound(states[i]) && |states[i].fat| == |states[0].fat|
  {
    if i > 0 {
      RunKeeps(states, calls, eoc, i - 1);
      StepKeeps(states[i - 1], calls[i - 1], states[i - 1 + 1], eoc);
    }
  }

  /** With an exact or unknown count a search fails only on a full volume. */
  lemma DiskFullIsFull(fat: seq<nat>, free: nat)
    requires |fat| > 2 && CountTrusted(free, fat) && free == 0
    ensures NoneFree(fat)
  {
    FreeCountZero(fat);
  }
}

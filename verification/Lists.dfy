/** Lists of nodes as sequences: order, distinctness and removal, for whatever the nodes are. */
module Lists {
  /** What follows place `i` of a list through `s` that ends with `last`. */
  function After<T>(s: seq<T>, i: nat, last: T): T {
    if i + 1 < |s| then s[i + 1] else last
  }

  ghost predicate NoDup<T>(s: seq<T>) {
    forall i, j :: 0 <= i < j < |s| ==> s[i] != s[j]
  }

  ghost predicate Separate<T>(s: seq<T>, t: seq<T>) {
    forall b :: b in s ==> b !in t
  }

  function Dropped<T>(s: seq<T>, k: nat): (t: seq<T>)
    requires k < |s|
    ensures |t| == |s| - 1
    ensures forall i :: 0 <= i < k ==> t[i] == s[i]
    ensures forall i :: k <= i < |t| ==> t[i] == s[i + 1]
  {
    s[..k] + s[k + 1..]
  }

  /** A sequence around one of its elements, with it and without it. */
  lemma DroppedSplit<T>(s: seq<T>, k: nat)
    requires k < |s|
    ensures s == s[..k] + ([s[k]] + s[k + 1..]) && Dropped(s, k) == s[..k] + s[k + 1..]
  {
  }

  lemma DroppedFacts<T>(s: seq<T>, k: nat)
    requires NoDup(s) && k < |s|
    ensures NoDup(Dropped(s, k)) && s[k] !in Dropped(s, k)
    ensures forall b :: b in s <==> b == s[k] || b in Dropped(s, k)
  {
    assert s == s[..k] + [s[k]] + s[k + 1..];
  }

  lemma NoDupTail<T>(s: seq<T>)
    requires NoDup(s) && s != []
    ensures NoDup(s[1..]) && s[0] !in s[1..]
    ensures forall i :: 0 < i < |s| ==> s[i] != s[0]
    ensures forall b :: b in s <==> b == s[0] || b in s[1..]
  {
    assert s == [s[0]] + s[1..];
  }

  lemma NoDupCons<T>(b: T, s: seq<T>)
    requires NoDup(s) && b !in s
    ensures NoDup([b] + s) && NoDup(s + [b])
    ensures forall x :: x in [b] + s <==> x == b || x in s
    ensures forall x :: x in s + [b] <==> x == b || x in s
  {
  }

  function Placed<T>(s: seq<T>, k: nat, b: T): (t: seq<T>)
    requires k <= |s|
    ensures |t| == |s| + 1 && t[k] == b
    ensures forall i :: 0 <= i < k ==> t[i] == s[i]
    ensures forall i :: k < i < |t| ==> t[i] == s[i - 1]
  {
    s[..k] + [b] + s[k..]
  }

  lemma PlacedHas<T>(s: seq<T>, k: nat, b: T)
    requires k <= |s|
    ensures forall x :: x in Placed(s, k, b) <==> x in s || x == b
  {
    assert s == s[..k] + s[k..];
  }

  lemma PlacedNoDup<T>(s: seq<T>, k: nat, b: T)
    requires k <= |s| && NoDup(s) && b !in s
    ensures NoDup(Placed(s, k, b))
  {
  }
}

/** The list of packet sinks as it is built: entries put in and taken out through pointers to links. */
module SinkLists {
  import opened Lists
  import opened NetSpec

  /** `packet_sink_t` */
  class SinkNode {
    var next: SinkNode?
    var k: Sink

    constructor (sink: Sink)
      ensures next == null && k == sink
    {
      next, k := null, sink;
    }
  }

  /** The list from `head` runs through `s` to its end. */
  ghost predicate Linked(head: SinkNode?, s: seq<SinkNode>)
    reads s`next
  {
    && head == (if |s| > 0 then s[0] else null)
    && forall i :: 0 <= i < |s| ==> s[i].next == After(s, i, null)
  }

  lemma LinkedAt(head: SinkNode?, s: seq<SinkNode>, i: nat)
    requires Linked(head, s)
    ensures head == (if |s| > 0 then s[0] else null)
    ensures i < |s| ==> s[i].next == After(s, i, null)
  {
  }

  lemma LinkedAll(head: SinkNode?, s: seq<SinkNode>)
    requires Linked(head, s)
    ensures head == (if |s| > 0 then s[0] else null)
    ensures forall i :: 0 <= i < |s| ==> s[i].next == After(s, i, null)
  {
  }

  /** A sink linked in between two neighbours. */
  lemma PlacedLinked(head: SinkNode?, s: seq<SinkNode>, k: nat, b: SinkNode)
    requires k <= |s|
    requires forall i :: 0 <= i < |s| && i + 1 != k ==> s[i].next == After(s, i, null)
    requires k > 0 ==> s[k - 1].next == b && head == s[0]
    requires k == 0 ==> head == b
    requires b.next == (if k < |s| then s[k] else null)
    ensures Linked(head, Placed(s, k, b))
  {
    var t := Placed(s, k, b);
    forall i | 0 <= i < |t| ensures t[i].next == After(t, i, null) {
      if i + 1 < k { assert s[i].next == After(s, i, null); }
      if i > k { assert s[i - 1].next == After(s, i - 1, null); }
    }
  }

  lemma DroppedLinked(head: SinkNode?, s: seq<SinkNode>, k: nat)
    requires k < |s|
    requires forall i :: 0 <= i < |s| && i != k && i + 1 != k ==> s[i].next == After(s, i, null)
    requires k > 0 ==> s[k - 1].next == After(s, k, null) && head == s[0]
    requires k == 0 ==> head == After(s, 0, null)
    ensures Linked(head, Dropped(s, k))
  {
    var t := Dropped(s, k);
    forall i | 0 <= i < |t| ensures t[i].next == After(t, i, null) {
      if i + 1 < k {
        assert s[i].next == After(s, i, null);
      } else if i >= k {
        assert s[i + 1].next == After(s, i + 1, null);
      }
    }
  }

  /** The sinks of the nodes. */
  ghost function SinksOf(s: seq<SinkNode>): (k: seq<Sink>)
    reads s`k
    ensures |k| == |s| && forall i :: 0 <= i < |s| ==> k[i] == s[i].k
  {
    if s == [] then [] else SinksOf(s[..|s| - 1]) + [s[|s| - 1].k]
  }

  lemma {:induction false} PlaceIs(s: seq<Sink>, score: nat, k: nat)
    requires k <= |s| && (forall i :: 0 <= i < k ==> Score(s[i]) > score) && (k < |s| ==> Score(s[k]) <= score)
    ensures Place(s, score) == k
  {
    hide Score;
  }

  lemma PlacedSinks(s: seq<SinkNode>, b: SinkNode)
    ensures SinksOf(Placed(s, Place(SinksOf(s), Score(b.k)), b)) == AddSink(SinksOf(s), b.k)
  {
    hide Score;
  }

  lemma DroppedSinks(s: seq<SinkNode>, i: nat)
    requires i < |s|
    ensures SinksOf(Dropped(s, i)) == Dropped(SinksOf(s), i)
  {
  }

  class SinkList {
    var head: SinkNode?
    ghost var s: seq<SinkNode>

    ghost predicate Valid()
      reads this, s`next
    {
      Linked(head, s) && NoDup(s)
    }

    constructor ()
      ensures Valid() && s == []
    {
      head, s := null, [];
    }

    /** `net_add_packet_sink` of a sink that is on no list; one with a successor is on some list and left alone. */
    method Add(b: SinkNode)
      requires Valid() && b !in s
      modifies `head, `s, s`next, b`next
      ensures Valid()
      ensures old(b.next) != null ==> s == old(s) && b.next == old(b.next)
      ensures old(b.next) == null ==>
        s == Placed(old(s), Place(old(SinksOf(s)), Score(b.k)), b) && SinksOf(s) == AddSink(old(SinksOf(s)), b.k)
    {
      hide Linked, NoDup, Score, AddSink, SinksOf, Place, Placed;
      if b.next != null {
        return;
      }
      var prev, entry;
      ghost var i;
      prev, entry, i := FindPlace(Score(b.k));
      PlacedSinks(s, b);
      PutBefore(b, prev, entry, i);
    }

    /** The walk to the first sink that scores no more than `score`. */
    method FindPlace(score: nat) returns (prev: SinkNode?, entry: SinkNode?, ghost i: nat)
      requires Valid()
      ensures i == Place(SinksOf(s), score) <= |s|
      ensures entry == (if i < |s| then s[i] else null) && prev == (if i > 0 then s[i - 1] else null)
    {
      hide Linked, NoDup, Score, SinksOf;
      LinkedAt(head, s, 0);
      prev, entry, i := null, head, 0;
      while entry != null && Score(entry.k) > score
        invariant i <= |s|
        invariant entry == (if i < |s| then s[i] else null) && prev == (if i > 0 then s[i - 1] else null)
        invariant forall j :: 0 <= j < i ==> Score(s[j].k) > score
        decreases |s| - i
      {
        LinkedAt(head, s, i);
        prev, entry, i := entry, entry.next, i + 1;
      }
      PlaceIs(SinksOf(s), score, i);
    }

    /** `*ptr = sink; sink->next = entry`: puts `b` between two neighbours, or at either end. */
    method PutBefore(b: SinkNode, prev: SinkNode?, entry: SinkNode?, ghost i: nat)
      requires Valid() && b !in s && i <= |s| && b.next == null
      requires entry == (if i < |s| then s[i] else null) && prev == (if i > 0 then s[i - 1] else null)
      modifies `head, `s, s`next, b`next
      ensures Valid() && s == Placed(old(s), i, b)
    {
      hide Linked, NoDup;
      LinkedAll(head, s);
      PlacedNoDup(s, i, b);
      Distinct(s, i);
      if prev == null {
        head := b;
      } else {
        prev.next := b;
      }
      b.next := entry;
      PlacedLinked(head, s, i, b);
      s := Placed(s, i, b);
    }

    lemma Distinct(s: seq<SinkNode>, i: nat)
      requires NoDup(s) && i <= |s|
      ensures i > 0 ==> forall j :: 0 <= j < |s| && j + 1 != i ==> s[j] != s[i - 1]
    {
    }

    /** `net_remove_packet_sink`: the sink leaves the list with its link cleared; one that is not there stays out. */
    method Remove(b: SinkNode) returns (found: bool, ghost i: nat)
      requires Valid()
      modifies `head, `s, s`next, b`next
      ensures Valid() && found == (b in old(s))
      ensures found ==>
        && i < |old(s)| && old(s)[i] == b && s == Dropped(old(s), i) && b.next == null && b !in s
        && SinksOf(s) == Dropped(old(SinksOf(s)), i)
      ensures !found ==> s == old(s) && b.next == old(b.next)
    {
      hide Linked, NoDup, SinksOf;
      var prev;
      found, prev, i := Find(b);
      if found {
        DroppedSinks(s, i);
        TakeOut(b, prev, i);
      }
    }

    /** The walk to a sink. */
    method Find(b: SinkNode) returns (found: bool, prev: SinkNode?, ghost i: nat)
      requires Valid()
      ensures found == (b in s)
      ensures found ==> i < |s| && s[i] == b && prev == (if i > 0 then s[i - 1] else null)
    {
      hide Linked, NoDup;
      LinkedAt(head, s, 0);
      var entry := head;
      prev, i := null, 0;
      while entry != null && entry != b
        invariant i <= |s|
        invariant entry == (if i < |s| then s[i] else null) && prev == (if i > 0 then s[i - 1] else null)
        invariant forall j :: 0 <= j < i ==> s[j] != b
        decreases |s| - i
      {
        LinkedAt(head, s, i);
        prev, entry, i := entry, entry.next, i + 1;
      }
      found := entry != null;
    }

    /** `*ptr = entry->next; entry->next = NULL` */
    method TakeOut(b: SinkNode, prev: SinkNode?, ghost i: nat)
      requires Valid() && i < |s| && b == s[i] && prev == (if i > 0 then s[i - 1] else null)
      modifies `head, `s, s`next
      ensures Valid() && s == Dropped(old(s), i) && b.next == null && b !in s
    {
      hide Linked, NoDup;
      LinkedAll(head, s);
      DroppedFacts(s, i);
      Distinct(s, i);
      Distinct(s, i + 1);
      if prev == null {
        head := b.next;
      } else {
        prev.next := b.next;
      }
      b.next := null;
      DroppedLinked(head, s, i);
      s := Dropped(s, i);
    }
  }
}

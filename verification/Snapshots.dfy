/**
 snapshot.h: the snapshots in use, in a circular doubly-linked list around a dummy head.
 */
module Snapshots {
  import opened Entries

  class Snapshot {
    const number: nat
    var prev: Snapshot?
    var next: Snapshot?

    constructor (number: nat)
      ensures this.number == number
    {
      this.number := number;
      prev, next := null, null;
    }
  }

  function RemoveAt<T>(s: seq<T>, i: nat): (r: seq<T>)
    requires i < |s|
    ensures |r| == |s| - 1
  {
    s[..i] + s[i + 1..]
  }

  class SnapshotList {
    const head: Snapshot
    ghost var nodes: seq<Snapshot>

    /** The dummy head, then the snapshots from oldest to newest. */
    ghost function Ring(): seq<Snapshot>
      reads this
    {
      [head] + nodes
    }

    ghost predicate Linked(ring: seq<Snapshot>)
      reads ring
    {
      && ring != []
      && (forall i, j :: 0 <= i < j < |ring| ==> ring[i] != ring[j])
      && (forall i :: 0 <= i < |ring| - 1 ==> ring[i].next == ring[i + 1])
      && (forall i :: 0 < i < |ring| ==> ring[i].prev == ring[i - 1])
      && ring[|ring| - 1].next == ring[0] && ring[0].prev == ring[|ring| - 1]
    }

    ghost predicate Valid()
      reads this, Ring()
    {
      Linked(Ring())
    }

    ghost function Numbers(): (ns: seq<nat>)
      reads this
      ensures |ns| == |nodes|
    {
      seq(|nodes|, i requires 0 <= i < |nodes| reads this => nodes[i].number)
    }

    constructor ()
      ensures Valid() && nodes == [] && fresh(head)
    {
      head := new Snapshot(0);
      nodes := [];
      new;
      head.prev, head.next := head, head;
    }

    predicate Empty()
      requires Valid()
      reads this, Ring()
      ensures Empty() <==> nodes == []
    {
      assert Ring()[0] == head;
      assert nodes != [] ==> Ring()[1] == nodes[0];
      head.next == head
    }

    /** The oldest snapshot: the first one taken of those still held. */
    method Oldest() returns (s: Snapshot)
      requires Valid() && nodes != []
      ensures s == nodes[0] && s.number == Numbers()[0]
    {
      assert Ring()[0] == head && Ring()[1] == nodes[0];
      s := head.next;
    }

    method Newest() returns (s: Snapshot)
      requires Valid() && nodes != []
      ensures s == nodes[|nodes| - 1] && s.number == Numbers()[|nodes| - 1]
    {
      assert Ring()[0] == head && Ring()[|nodes|] == nodes[|nodes| - 1];
      s := head.prev;
    }

    /** New: the snapshot goes to the newest end. */
    method New(number: nat) returns (s: Snapshot)
      requires Valid()
      modifies this, Ring()
      ensures Valid() && fresh(s) && nodes == old(nodes) + [s]
      ensures Numbers() == old(Numbers()) + [number]
    {
      ghost var ring := Ring();
      s := new Snapshot(number);
      s.next := head;
      s.prev := head.prev;
      assert ring[0] == head;
      var last := head.prev;
      assert last == ring[|ring| - 1];
      last.next := s;
      head.prev := s;
      nodes := nodes + [s];
      assert Ring() == ring + [s];
    }

    /** Delete: the neighbours of s are linked to each other. */
    method Delete(s: Snapshot, ghost i: nat)
      requires Valid() && i < |nodes| && s == nodes[i]
      modifies this, Ring()
      ensures Valid() && nodes == RemoveAt(old(nodes), i)
      ensures Numbers() == RemoveAt(old(Numbers()), i)
    {
      ghost var ring := Ring();
      assert ring[i + 1] == s;
      var before, after := s.prev, s.next;
      assert before == ring[i];
      assert after == if i + 2 < |ring| then ring[i + 2] else ring[0];
      before.next := after;
      after.prev := before;
      nodes := RemoveAt(nodes, i);
      assert Ring() == RemoveAt(ring, i + 1);
    }
  }

  predicate Ascending(ns: seq<nat>) {
    forall i, j :: 0 <= i < j < |ns| ==> ns[i] <= ns[j]
  }

  /**
   GetSnapshot passes the last sequence number, which never goes down: so the list ascends, the
   oldest snapshot is the smallest one held, and none is above the last sequence number.
   */
  ghost predicate Held(ns: seq<nat>, lastSequence: nat) {
    Ascending(ns) && forall i :: 0 <= i < |ns| ==> ns[i] <= lastSequence
  }

  lemma {:induction false} TakingKeepsHeld(ns: seq<nat>, lastSequence: nat, later: nat)
    requires Held(ns, lastSequence) && lastSequence <= later
    ensures Held(ns + [later], later)
  {
  }

  lemma {:induction false} ReleasingKeepsHeld(ns: seq<nat>, lastSequence: nat, i: nat)
    requires Held(ns, lastSequence) && i < |ns|
    ensures Held(RemoveAt(ns, i), lastSequence)
    ensures |ns| > 1 ==> RemoveAt(ns, i)[0] >= ns[0]
  {
    var r := RemoveAt(ns, i);
    forall a, b | 0 <= a < b < |r| ensures r[a] <= r[b] {
      assert r[a] == ns[if a < i then a else a + 1] && r[b] == ns[if b < i then b else b + 1];
    }
  }
}

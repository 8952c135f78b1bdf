/** The retransmission list as it lies in memory: nodes linked by `next`, behind a dummy head. */
module TrackerImpl {
  import opened FlowControl
  import opened Wire

  lemma {:induction false} UntrackAt(trk: seq<Entry>, sock: int, i: int, k: nat)
    requires k < |trk| && Matches(trk[k], sock, i) && forall j :: 0 <= j < k ==> !Matches(trk[j], sock, i)
    ensures Untrack(trk, sock, i) == trk[..k] + trk[k + 1..]
  {
    if k == 0 {
    } else {
      UntrackAt(trk[1..], sock, i, k - 1);
      assert trk[..k] == [trk[0]] + trk[1..][..k - 1];
    }
  }

  lemma {:induction false} UntrackNone(trk: seq<Entry>, sock: int, i: int)
    requires forall j :: 0 <= j < |trk| ==> !Matches(trk[j], sock, i)
    ensures Untrack(trk, sock, i) == trk
  {
    if trk == [] {
    } else {
      UntrackNone(trk[1..], sock, i);
    }
  }

  /** Where element `i` of a sequence without its element `k` was before. */
  function Skip(k: nat, i: nat): nat { if i < k then i else i + 1 }

  ghost predicate IsTimed(trk: seq<Entry>, sock: int, i: int) {
    exists j :: 0 <= j < |trk| && Matches(trk[j], sock, i)
  }

  /** The first match is at `k`, or there is none. */
  lemma FirstMatch(trk: seq<Entry>, sock: int, i: int, k: nat)
    requires k <= |trk| && forall j :: 0 <= j < k ==> !Matches(trk[j], sock, i)
    requires k < |trk| ==> Matches(trk[k], sock, i)
    ensures IsTimed(trk, sock, i) == (k < |trk|)
    ensures Untrack(trk, sock, i) == if k < |trk| then trk[..k] + trk[k + 1..] else trk
  {
    if k < |trk| {
      UntrackAt(trk, sock, i, k);
    } else {
      UntrackNone(trk, sock, i);
    }
  }

  class TimerNode {
    var entry: Entry
    var next: TimerNode?

    constructor (entry: Entry, next: TimerNode?)
      ensures this.entry == entry && this.next == next
    {
      this.entry, this.next := entry, next;
    }
  }

  /** The node at position `k`, none beyond the end. */
  ghost function At(ns: seq<TimerNode>, k: nat): TimerNode? {
    if k < |ns| then ns[k] else null
  }

  ghost function Without(ns: seq<TimerNode>, k: nat): seq<TimerNode>
    requires k < |ns|
  {
    ns[..k] + ns[k + 1..]
  }

  lemma WithoutAt(ns: seq<TimerNode>, k: nat, i: nat)
    requires k < |ns|
    ensures At(Without(ns, k), i) == At(ns, Skip(k, i))
  {
  }

  lemma AppendAt(ns: seq<TimerNode>, n: TimerNode, i: nat)
    ensures At(ns + [n], i) == if i == |ns| then n else At(ns, i)
  {
  }

  ghost predicate Different(ns: seq<TimerNode>) {
    forall i, j :: 0 <= i < j < |ns| ==> ns[i] != ns[j]
  }

  lemma WithoutDiffers(ns: seq<TimerNode>, k: nat)
    requires k < |ns| && Different(ns)
    ensures Different(Without(ns, k)) && forall i :: 0 <= i < |ns| - 1 ==> Without(ns, k)[i] in ns
  {
  }

  lemma AppendDiffers(ns: seq<TimerNode>, n: TimerNode)
    requires Different(ns) && forall i :: 0 <= i < |ns| ==> ns[i] != n
    ensures Different(ns + [n])
  {
  }

  lemma EntriesAppend(before: seq<Entry>, entry: Entry, after: seq<Entry>)
    requires |after| == |before| + 1 && after[|before|] == entry
    requires forall i :: 0 <= i < |before| ==> after[i] == before[i]
    ensures after == before + [entry]
  {
  }

  lemma EntriesWithout(before: seq<Entry>, k: nat, after: seq<Entry>)
    requires k < |before| && |after| == |before| - 1
    requires forall i :: 0 <= i < |after| ==> after[i] == before[Skip(k, i)]
    ensures after == before[..k] + before[k + 1..]
  {
  }

  class PacketTracker {
    var head: TimerNode?
    ghost var nodes: seq<TimerNode>
    ghost var repr: set<TimerNode>

    /** The list consists of `nodes`, all different; no head is no list at all. */
    ghost predicate Valid()
      reads this, nodes
    {
      && Different(nodes) && (forall i :: 0 <= i < |nodes| ==> nodes[i] in repr)
      && head == At(nodes, 0)
      && forall i {:trigger nodes[i].next} :: 0 <= i < |nodes| ==> nodes[i].next == At(nodes, i + 1)
    }

    ghost function View(): (r: seq<Entry>)
      reads this, nodes
      ensures |r| == |nodes| && forall i :: 0 <= i < |r| ==> r[i] == nodes[i].entry
    {
      seq(|nodes|, i requires 0 <= i < |nodes| reads this, nodes => nodes[i].entry)
    }

    /** A list starts with the dummy. */
    ghost predicate Ready()
      reads this, nodes
    {
      Valid() && (View() != [] ==> View()[0].seqNum == DUMMY_SEQ)
    }

    constructor ()
      ensures Valid() && View() == [] && nodes == []
    {
      head := null;
      nodes, repr := [], {};
    }

    /** The last node and whether the number is new; nothing changes. */
    method LastNode(seqNum: int) returns (last: TimerNode, known: bool)
      requires Valid() && nodes != []
      ensures known == HasSeq(View(), seqNum)
      ensures !known ==> last == nodes[|nodes| - 1]
    {
      ghost var before := View();
      var itr: TimerNode? := head;
      last := head;
      ghost var k := 0;
      while itr != null
        invariant 0 <= k <= |nodes|
        invariant itr == At(nodes, k)
        invariant k > 0 ==> last == nodes[k - 1]
        invariant forall j :: 0 <= j < k ==> before[j].seqNum != seqNum
        decreases |nodes| - k
      {
        assert before[k] == itr.entry;
        if itr.entry.seqNum == seqNum {
          return last, true;
        }
        last := itr;
        itr := itr.next;
        k := k + 1;
      }
      known := false;
    }

    method Append(last: TimerNode, entry: Entry)
      requires Valid() && nodes != [] && last == nodes[|nodes| - 1]
      modifies this`nodes, this`repr, last
      ensures Valid() && View() == old(View()) + [entry]
      ensures fresh(repr - old(repr))
    {
      ghost var before, ns := View(), nodes;
      var itr := new TimerNode(entry, null);
      last.next := itr;
      nodes, repr := ns + [itr], repr + {itr};
      AppendDiffers(ns, itr);
      forall i | 0 <= i < |nodes| ensures nodes[i].next == At(nodes, i + 1) {
        AppendAt(ns, itr, i + 1);
      }
      assert forall i :: 0 <= i < |ns| ==> nodes[i] == ns[i];
      EntriesAppend(before, entry, View());
    }

    /** Start timing a packet: at the end of the list, and behind a dummy head if there was none. */
    method CreateTimer(packet: Packet, sock: int)
      requires Valid()
      modifies this, repr
      ensures Valid() && View() == Track(old(View()), packet, sock) && fresh(repr - old(repr))
    {
      var entry := Entry(sock, packet.seqNum, packet);
      if head == null {
        var first := new TimerNode(entry, null);
        head := new TimerNode(DUMMY, first);
        nodes, repr := [head, first], repr + {head, first};
        return;
      }
      var last, known := LastNode(packet.seqNum);
      if !known {
        Append(last, entry);
      }
    }

    /** The node before the first match behind the head, if there is a match. */
    method BeforeMatch(sock: int, i: int) returns (prev: TimerNode?, ghost k: nat)
      requires Valid() && nodes != [] && !Matches(nodes[0].entry, sock, i)
      ensures 1 <= k <= |nodes| && forall j :: 0 <= j < k ==> !Matches(View()[j], sock, i)
      ensures prev == null ==> k == |nodes|
      ensures prev != null ==> k < |nodes| && prev == nodes[k - 1] && Matches(View()[k], sock, i)
    {
      ghost var before := View();
      prev := head;
      var p := head.next;
      k := 1;
      assert before[0] == head.entry;
      while p != null
        invariant 1 <= k <= |nodes| && prev == nodes[k - 1]
        invariant p == At(nodes, k)
        invariant forall j :: 0 <= j < k ==> !Matches(before[j], sock, i)
        decreases |nodes| - k
      {
        assert before[k] == p.entry;
        if Matches(p.entry, sock, i) {
          return;
        }
        assert p == nodes[k - 1].next;
        p := p.next;
        prev := prev.next;
        k := k + 1;
      }
      prev := null;
    }

    /** Bypass the node behind `prev`. */
    method Unlink(prev: TimerNode, ghost k: nat)
      requires Valid() && 1 <= k < |nodes| && prev == nodes[k - 1]
      modifies this`nodes, prev`next
      ensures Valid() && View() == old(View()[..k] + View()[k + 1..]) && nodes == old(Without(nodes, k))
    {
      ghost var before, ns := View(), nodes;
      assert prev.next == nodes[k];
      prev.next := prev.next.next;
      nodes := Without(ns, k);
      WithoutDiffers(ns, k);
      forall i | 0 <= i < |nodes| ensures nodes[i].next == At(nodes, i + 1) && nodes[i].entry == before[Skip(k, i)] {
        WithoutAt(ns, k, i);
        WithoutAt(ns, k, i + 1);
      }
      EntriesWithout(before, k, View());
    }

    /** Copy the second node over the first and bypass it. */
    method CopySecond()
      requires Valid() && 2 <= |nodes|
      modifies this`nodes, head
      ensures Valid() && View() == old(View()[1..]) && nodes == old(Without(nodes, 1))
    {
      ghost var before, ns := View(), nodes;
      assert head == nodes[0] && head.next == nodes[1];
      var second := head.next;
      head.entry, head.next := second.entry, second.next;
      nodes := Without(ns, 1);
      WithoutDiffers(ns, 1);
      forall i | 0 <= i < |nodes| ensures nodes[i].next == At(nodes, i + 1) && nodes[i].entry == before[i + 1] {
        WithoutAt(ns, 1, i);
        WithoutAt(ns, 1, i + 1);
      }
      assert View() == before[1..];
    }

    /** Unlink the node at `k`, or report that there is no match. */
    method Drop(prev: TimerNode?, ghost k: nat) returns (code: int)
      requires Valid() && 1 <= k <= |nodes| && (prev == null ==> k == |nodes|)
      requires prev != null ==> k < |nodes| && prev == nodes[k - 1]
      modifies this`nodes, prev
      ensures Valid() && code == if k < |old(nodes)| then 1 else -1
      ensures View() == if k < |old(nodes)| then old(View()[..k] + View()[k + 1..]) else old(View())
    {
      if prev == null {
        return -1;
      }
      Unlink(prev, k);
      return 1;
    }

    /** Stop timing piece `i`. A list of one matching node could not be handled; the dummy head rules it out. */
    method Remove(sock: int, i: int) returns (code: int)
      requires Valid() && (|nodes| == 1 ==> !Matches(nodes[0].entry, sock, i))
      modifies this`nodes, repr
      ensures Valid() && View() == Untrack(old(View()), sock, i)
      ensures code == if IsTimed(old(View()), sock, i) then 1 else -1
    {
      ghost var before := View();
      if head == null {
        return -1;
      }
      assert head == nodes[0] && before[0] == head.entry;
      if Matches(head.entry, sock, i) {
        assert |nodes| != 1;
        FirstMatch(before, sock, i, 0);
        CopySecond();
        return 1;
      }
      var prev, k := BeforeMatch(sock, i);
      assert View() == before;
      FirstMatch(before, sock, i, k);
      code := Drop(prev, k);
    }
  }
}

/** The circular intrusive lists of include/list.h. A ring of nodes, head first, stands for a
    sequence; every operation is proved to be the matching sequence operation. */
module ListRing {
  ghost predicate Distinct(r: seq<Node>) { forall i, j :: 0 <= i < j < |r| ==> r[i] != r[j] }

  /** The nodes of `r` are distinct and linked both ways in this order, the last to the first. */
  ghost predicate Ring(r: seq<Node>)
    reads r
  {
    && |r| > 0 && Distinct(r)
    && (forall i, j :: 0 <= i < |r| && 0 <= j < |r| && j == i + 1 ==> r[i].next == r[j] && r[j].prev == r[i])
    && r[|r| - 1].next == r[0] && r[0].prev == r[|r| - 1]
  }

  /** `struct list_head`; null stands for the poison values of `list_del`. */
  class Node {
    var next: Node?
    var prev: Node?

    /** `INIT_LIST_HEAD`. */
    constructor ()
      ensures Ring([this])
    {
      next, prev := this, this;
    }
  }

  /** A ring none of whose nodes is written stays a ring. */
  twostate lemma RingKept(r: seq<Node>)
    requires old(Ring(r)) && forall i :: 0 <= i < |r| ==> r[i].next == old(r[i].next) && r[i].prev == old(r[i].prev)
    ensures Ring(r)
  {
  }

  /** `INIT_LIST_HEAD` of a node already there. */
  method InitHead(list: Node)
    modifies list
    ensures Ring([list])
  {
    list.next, list.prev := list, list;
  }

  /** `__list_add` of `node` after entry `k`. */
  method Insert(node: Node, prev: Node, next: Node, ghost r: seq<Node>, ghost k: nat)
    requires Ring(r) && node !in r && k < |r|
    requires prev == r[k] && next == if k + 1 < |r| then r[k + 1] else r[0]
    modifies node, prev, next
    ensures Ring(r[..k + 1] + [node] + r[k + 1..])
  {
    next.prev := node;
    node.next := next;
    node.prev := prev;
    prev.next := node;
  }

  /** `list_add`: a push at the front. */
  method Add(node: Node, head: Node, ghost r: seq<Node>)
    requires Ring(r) && head == r[0] && node !in r
    modifies node, r
    ensures Ring([head, node] + r[1..])
  {
    assert head.next == if |r| > 1 then r[1] else r[0];
    Insert(node, head, head.next, r, 0);
    assert r[..1] + [node] + r[1..] == [head, node] + r[1..];
  }

  /** `list_add_tail`: a push at the back. */
  method AddTail(node: Node, head: Node, ghost r: seq<Node>)
    requires Ring(r) && head == r[0] && node !in r
    modifies node, r
    ensures Ring(r + [node])
  {
    Insert(node, head.prev, head, r, |r| - 1);
    assert r[..|r|] + [node] + r[|r|..] == r + [node];
  }

  ghost function Drop(r: seq<Node>, k: nat): seq<Node>
    requires k < |r|
  {
    r[..k] + r[k + 1..]
  }

  ghost predicate Apart(q: seq<Node>, r: seq<Node>) { forall x :: x in q ==> x !in r }

  lemma {:induction false} DropMembers(r: seq<Node>, k: nat)
    requires 0 < k < |r| && Distinct(r)
    ensures Drop(r, k)[0] == r[0] && r[k] !in Drop(r, k) && forall x :: x in Drop(r, k) ==> x in r
  {
  }

  /** `__list_del_entry`: entry `k` leaves the ring; its own pointers stay. */
  method Unlink(entry: Node, ghost r: seq<Node>, ghost k: nat)
    requires Ring(r) && 0 < k < |r| && entry == r[k]
    modifies r
    ensures Ring(Drop(r, k)) && entry !in Drop(r, k)
    ensures entry.next == old(entry.next) && entry.prev == old(entry.prev)
  {
    var p, n := entry.prev, entry.next;
    assert p == r[k - 1] && n == if k + 1 < |r| then r[k + 1] else r[0];
    n.prev := p;
    p.next := n;
  }

  /** `list_del`. */
  method Delete(entry: Node, ghost r: seq<Node>, ghost k: nat)
    requires Ring(r) && 0 < k < |r| && entry == r[k]
    modifies r
    ensures Ring(Drop(r, k)) && entry !in Drop(r, k) && entry.next == null && entry.prev == null
  {
    Unlink(entry, r, k);
    entry.next := null;
    entry.prev := null;
  }

  /** `list_move`, from one ring to another or within one. */
  method Move(entry: Node, head: Node, ghost r: seq<Node>, ghost k: nat, ghost q: seq<Node>)
    requires Ring(r) && 0 < k < |r| && entry == r[k] && Ring(q) && head == q[0]
    requires q == r || Apart(q, r)
    modifies r, q
    ensures q == r ==> Ring([head, entry] + Drop(r, k)[1..])
    ensures q != r ==> Ring(Drop(r, k)) && Ring([head, entry] + q[1..])
  {
    DropMembers(r, k);
    ghost var d := if q == r then Drop(r, k) else q;
    Unlink(entry, r, k);
    if q != r {
      forall i | 0 <= i < |q| ensures q[i] !in r { assert q[i] in q; }
      RingKept(q);
    }
    label unlinked:
    assert Ring(d) && d[0] == head && entry !in d;
    hide Ring;
    Add(entry, head, d);
    if q != r {
      forall i | 0 <= i < |Drop(r, k)| ensures Drop(r, k)[i] !in q && Drop(r, k)[i] != entry {
        assert Drop(r, k)[i] in Drop(r, k);
      }
      RingKept@unlinked(Drop(r, k));
    }
  }

  /** `list_move_tail`. */
  method MoveTail(entry: Node, head: Node, ghost r: seq<Node>, ghost k: nat, ghost q: seq<Node>)
    requires Ring(r) && 0 < k < |r| && entry == r[k] && Ring(q) && head == q[0]
    requires q == r || Apart(q, r)
    modifies r, q
    ensures q == r ==> Ring(Drop(r, k) + [entry])
    ensures q != r ==> Ring(Drop(r, k)) && Ring(q + [entry])
  {
    DropMembers(r, k);
    ghost var d := if q == r then Drop(r, k) else q;
    Unlink(entry, r, k);
    if q != r {
      forall i | 0 <= i < |q| ensures q[i] !in r { assert q[i] in q; }
      RingKept(q);
    }
    label unlinked:
    assert Ring(d) && d[0] == head && entry !in d;
    hide Ring;
    AddTail(entry, head, d);
    if q != r {
      forall i | 0 <= i < |Drop(r, k)| ensures Drop(r, k)[i] !in q && Drop(r, k)[i] != entry {
        assert Drop(r, k)[i] in Drop(r, k);
      }
      RingKept@unlinked(Drop(r, k));
    }
  }

  /** What `list_cut_position` at entry `k` leaves on `list`, which had ring `q`. */
  ghost function Front(r: seq<Node>, k: nat, q: seq<Node>): seq<Node>
    requires k < |r| && |q| > 0
  {
    if |r| == 1 then q else [q[0]] + r[1..k + 1]
  }

  /** And on the list it was cut from. */
  ghost function Back(r: seq<Node>, k: nat): seq<Node>
    requires k < |r|
  {
    [r[0]] + r[k + 1..]
  }

  /** Entry `i`, the head standing after the last. */
  ghost function Entry(r: seq<Node>, i: nat): Node
    requires |r| > 0
  {
    if i < |r| then r[i] else r[0]
  }

  /** Entries `lo` to `hi - 1` are linked both ways. */
  ghost predicate Linked(r: seq<Node>, lo: nat, hi: nat)
    requires hi <= |r|
    reads r
  {
    forall i, j :: lo <= i && j == i + 1 && j < hi ==> r[i].next == r[j] && r[j].prev == r[i]
  }

  /** The new ring of `list`, from the links of its ends. */
  lemma {:induction false} FrontRing(list: Node, r: seq<Node>, k: nat)
    requires Distinct(r) && 0 < k < |r| && list !in r && Linked(r, 1, k + 1)
    requires list.next == r[1] && r[1].prev == list && list.prev == r[k] && r[k].next == list
    ensures Ring([list] + r[1..k + 1])
  {
    var a := [list] + r[1..k + 1];
    assert forall i :: 1 <= i <= k ==> a[i] == r[i];
  }

  /** The ring left behind. */
  lemma {:induction false} BackRing(r: seq<Node>, k: nat)
    requires Distinct(r) && 0 < k < |r| && Linked(r, k + 1, |r|)
    requires r[0].next == Entry(r, k + 1) && Entry(r, k + 1).prev == r[0]
    requires k + 1 < |r| ==> r[0].prev == r[|r| - 1] && r[|r| - 1].next == r[0]
    ensures Ring([r[0]] + r[k + 1..])
  {
    var b := [r[0]] + r[k + 1..];
    assert forall i :: 1 <= i < |b| ==> b[i] == r[k + i];
    forall i, j | 0 <= i < |b| && 0 <= j < |b| && j == i + 1 ensures b[i].next == b[j] && b[j].prev == b[i] {
      assert i > 0 ==> b[i] == r[k + i] && b[j] == r[k + j];
    }
  }

  /** `__list_cut_position`. */
  method Detach(list: Node, head: Node, entry: Node, ghost r: seq<Node>, ghost k: nat)
    requires Ring(r) && head == r[0] && 0 < k < |r| && entry == r[k] && list !in r
    modifies list, r
    ensures Ring([list] + r[1..k + 1]) && Ring([head] + r[k + 1..])
  {
    var newFirst, first := entry.next, head.next;
    assert first == r[1] && newFirst == Entry(r, k + 1);
    list.next := first;
    first.prev := list;
    list.prev := entry;
    entry.next := list;
    head.next := newFirst;
    newFirst.prev := head;
    assert Linked(r, 1, k + 1) && Linked(r, k + 1, |r|);
    FrontRing(list, r, k);
    BackRing(r, k);
    hide Ring;
  }

  /** `list_cut_position`: the entries up to `entry` go to `list`, whose old entries are dropped. A
      list with no entries is left alone, and so is `list` then. */
  method CutPosition(list: Node, head: Node, entry: Node, ghost r: seq<Node>, ghost k: nat, ghost q: seq<Node>)
    requires Ring(r) && head == r[0] && k < |r| && entry == r[k]
    requires Ring(q) && list == q[0] && Apart(q, r)
    modifies list, r
    ensures Ring(Front(r, k, q)) && Ring(Back(r, k))
  {
    assert list in q;
    assert |r| > 1 ==> head.next == r[1] && head.prev == r[|r| - 1] && r[1] != r[0];
    if head.next == head {
      assert Back(r, k) == r;
      return;
    }
    assert |r| == 2 ==> entry == r[1] || entry == head;
    assert |r| > 2 ==> r[1] != r[|r| - 1];
    if head.next == head.prev && head.next != entry && head != entry { return; }
    if entry == head {
      assert Back(r, k) == r && Front(r, k, q) == [list];
      InitHead(list);
      RingKept(r);
    } else {
      Detach(list, head, entry, r, k);
    }
  }

  lemma {:induction false} SpliceDistinct(q: seq<Node>, r: seq<Node>)
    requires |q| > 0 && |r| > 0 && Apart(q, r) && Distinct(q) && Distinct(r)
    ensures Distinct([r[0]] + q[1..] + r[1..])
  {
    var c := [r[0]] + q[1..] + r[1..];
    assert forall i :: 1 <= i < |q| ==> c[i] == q[i] && q[i] in q;
    assert forall i :: |q| <= i < |c| ==> c[i] == r[i - |q| + 1] && c[i] in r;
    assert c[0] == r[0] && c[0] in r;
  }

  lemma {:induction false} SplicedLinks(q: seq<Node>, r: seq<Node>, c: seq<Node>)
    requires |q| > 1 && |r| > 0 && Linked(q, 1, |q|) && Linked(r, 1, |r|) && |c| == |q| + |r| - 1 && c[0] == r[0]
    requires forall i :: 1 <= i < |q| ==> c[i] == q[i]
    requires forall i :: 1 <= i < |r| ==> c[|q| - 1 + i] == r[i]
    requires r[0].next == q[1] && q[1].prev == r[0]
    requires q[|q| - 1].next == Entry(r, 1) && Entry(r, 1).prev == q[|q| - 1]
    ensures Linked(c, 0, |c|)
  {
    forall i, j | 0 <= i && j == i + 1 && j < |c| ensures c[i].next == c[j] && c[j].prev == c[i] {
      assert 0 < i && j < |q| ==> c[i] == q[i] && c[j] == q[j];
      assert i >= |q| ==> c[|q| - 1 + (i - |q| + 1)] == r[i - |q| + 1] && c[|q| - 1 + (j - |q| + 1)] == r[j - |q| + 1];
      assert j == |q| ==> c[|q| - 1 + 1] == r[1];
    }
  }

  /** The spliced ring, from the links of the ends of its parts. */
  lemma {:induction false} SplicedRing(q: seq<Node>, r: seq<Node>)
    requires |q| > 1 && |r| > 0 && Apart(q, r) && Distinct(q) && Distinct(r)
    requires Linked(q, 1, |q|) && Linked(r, 1, |r|)
    requires r[0].next == q[1] && q[1].prev == r[0]
    requires q[|q| - 1].next == Entry(r, 1) && Entry(r, 1).prev == q[|q| - 1]
    requires |r| > 1 ==> r[0].prev == r[|r| - 1] && r[|r| - 1].next == r[0]
    ensures Ring([r[0]] + q[1..] + r[1..])
  {
    var c := [r[0]] + q[1..] + r[1..];
    SpliceDistinct(q, r);
    assert forall i :: 1 <= i < |q| ==> c[i] == q[i];
    assert forall i :: 1 <= i < |r| ==> c[|q| - 1 + i] == r[i];
    hide Distinct, Apart;
    SplicedLinks(q, r, c);
  }

  /** `__list_splice` of a list with entries, after the head. */
  method Join(list: Node, head: Node, next: Node, ghost q: seq<Node>, ghost r: seq<Node>)
    requires Ring(q) && |q| > 1 && list == q[0] && Ring(r) && head == r[0] && Apart(q, r)
    requires next == Entry(r, 1)
    modifies q, r
    ensures Ring([head] + q[1..] + r[1..])
  {
    assert forall i :: 0 <= i < |q| ==> q[i] in q;
    var first, last := list.next, list.prev;
    assert first == q[1] && last == q[|q| - 1];
    first.prev := head;
    head.next := first;
    last.next := next;
    next.prev := last;
    assert Linked(q, 1, |q|) && Linked(r, 1, |r|);
    SplicedRing(q, r);
    hide Ring;
  }

  /** `list_splice`: the entries of `list` go in front of those of `head`. */
  method Splice(list: Node, head: Node, ghost q: seq<Node>, ghost r: seq<Node>)
    requires Ring(q) && list == q[0] && Ring(r) && head == r[0] && Apart(q, r)
    modifies q, r
    ensures Ring([head] + q[1..] + r[1..])
  {
    ghost var c := [head] + q[1..] + r[1..];
    assert |q| > 1 ==> list.next == q[1] && list.prev == q[|q| - 1];
    if list.next == list {
      assert c == r;
      return;
    }
    assert head.next == Entry(r, 1);
    Join(list, head, head.next, q, r);
  }

  lemma {:induction false} RingDistinct(r: seq<Node>)
    requires Ring(r)
    ensures |r| > 0 && Distinct(r)
  {
  }

  lemma {:induction false} PartsApart(r: seq<Node>, k: nat, q: seq<Node>)
    requires k < |r| && |q| > 0 && Apart(q, r) && Distinct(r)
    ensures Apart(Front(r, k, q), Back(r, k))
  {
    var a, b := Front(r, k, q), Back(r, k);
    assert q[0] in q && r[0] in r;
    assert forall j :: 1 <= j < |b| ==> b[j] == r[k + j];
    forall x | x in a ensures x !in b {
      if |r| > 1 && x != q[0] {
        var i :| 1 <= i < k + 1 && x == r[i];
      }
    }
  }

  lemma {:induction false} PartsReassemble(r: seq<Node>, k: nat, q: seq<Node>)
    requires k < |r| && |q| > 0 && Apart(q, r) && Distinct(r)
    ensures var a, b := Front(r, k, q), Back(r, k);
      && |a| > 0 && |b| > 0 && a[0] == q[0] && b[0] == r[0] && Apart(a, b)
      && [r[0]] + a[1..] + b[1..] == (if |r| > 1 then r else r + q[1..])
      && (forall i :: 0 <= i < |a| ==> a[i] in q || a[i] in r)
      && (forall i :: 0 <= i < |b| ==> b[i] in r)
    ensures |q| == 1 ==> r + q[1..] == r
    ensures |q| > 1 ==> q[1] != r[0]
  {
    var a, b := Front(r, k, q), Back(r, k);
    assert q[0] in q && r[0] in r && (|q| > 1 ==> q[1] in q);
    assert forall j :: 1 <= j < |b| ==> b[j] == r[k + j];
    if |r| > 1 {
      assert a[1..] == r[1..k + 1] && b[1..] == r[k + 1..];
      assert [r[0]] + r[1..k + 1] + r[k + 1..] == r;
    }
    PartsApart(r, k, q);
  }

  /** A head followed by more entries is not a ring by itself. */
  lemma {:induction false} MoreThanHead(r: seq<Node>, q: seq<Node>)
    requires |q| > 0 && (|q| > 1 ==> |r| > 0 && q[1] != r[0])
    requires |r| == 1 ==> Ring(r + q[1..])
    ensures |r| == 1 && |q| > 1 ==> !Ring(r)
  {
    if |r| == 1 && |q| > 1 { assert (r + q[1..])[0] == r[0] && (r + q[1..])[1] == q[1]; }
  }

  /** Cutting at any entry and splicing the part back restores the ring, exactly unless the list
      had no entries while `list` had some: those then end up in it. */
  method CutThenSplice(list: Node, head: Node, entry: Node, ghost r: seq<Node>, ghost k: nat, ghost q: seq<Node>)
    requires Ring(r) && head == r[0] && k < |r| && entry == r[k]
    requires Ring(q) && list == q[0] && Apart(q, r)
    modifies q, r
    ensures Ring(r) <==> |r| > 1 || |q| == 1
    ensures |r| == 1 ==> Ring(r + q[1..])
  {
    hide Ring, Front, Back, Apart, Distinct;
    RingDistinct(r);
    RingDistinct(q);
    assert list in q;
    CutPosition(list, head, entry, r, k, q);
    PartsReassemble(r, k, q);
    Splice(list, head, Front(r, k, q), Back(r, k));
    MoreThanHead(r, q);
  }

  /** The nodes of `r` outside `drop`, in order. */
  ghost function Kept(r: seq<Node>, drop: set<Node>): (k: seq<Node>)
    ensures forall i :: 0 <= i < |k| ==> k[i] in r && k[i] !in drop
  {
    if r == [] then [] else Kept(r[..|r| - 1], drop) + (if r[|r| - 1] in drop then [] else [r[|r| - 1]])
  }

  /** The ring when the sweep has reached entry `i`. */
  ghost function Swept(r: seq<Node>, i: nat, drop: set<Node>): seq<Node>
    requires i <= |r|
  {
    Kept(r[..i], drop) + r[i..]
  }

  lemma {:induction false} SweptStarts(r: seq<Node>, drop: set<Node>)
    requires |r| > 0 && r[0] !in drop
    ensures Swept(r, 1, drop) == r && Swept(r, |r|, drop) == Kept(r, drop)
  {
    assert r[..1][..0] == [] && Kept(r[..1], drop) == [r[0]] && r[..|r|] == r;
  }

  lemma {:induction false} HeadKept(r: seq<Node>, i: nat, drop: set<Node>)
    requires 0 < i <= |r| && r[0] !in drop
    ensures |Kept(r[..i], drop)| > 0 && Kept(r[..i], drop)[0] == r[0]
  {
    assert r[..i][..i - 1] == r[..i - 1];
    if i > 1 { HeadKept(r, i - 1, drop); }
  }

  /** Entry `i` is at index `k` of the ring, its successor follows, and it is dropped or passed. */
  lemma {:induction false} SweptStep(r: seq<Node>, i: nat, drop: set<Node>) returns (k: nat)
    requires 0 < i < |r| && r[0] !in drop
    ensures var s := Swept(r, i, drop);
      && 0 < k < |s| && s[0] == r[0] && s[k] == r[i] && k + 1 + |r| == |s| + i + 1
      && (i + 1 < |r| ==> k + 1 < |s| && s[k + 1] == r[i + 1])
      && Swept(r, i + 1, drop) == if r[i] in drop then Drop(s, k) else s
  {
    HeadKept(r, i, drop);
    var kept, rest := Kept(r[..i], drop), r[i + 1..];
    k := |kept|;
    assert r[..i + 1][..i] == r[..i] && r[i..] == [r[i]] + rest;
    var next := Kept(r[..i + 1], drop);
    assert next == kept + (if r[i] in drop then [] else [r[i]]);
    hide Kept;
    var s := kept + ([r[i]] + rest);
    assert s[..k] == kept && s[k + 1..] == rest;
    assert kept + [r[i]] + rest == s && kept + [] == kept;
  }

  lemma {:induction false} NextInRing(s: seq<Node>, k: nat)
    requires Ring(s) && k < |s|
    ensures s[k].next == if k + 1 < |s| then s[k + 1] else s[0]
  {
  }

  lemma {:induction false} SweptSubset(r: seq<Node>, i: nat, drop: set<Node>)
    requires i <= |r|
    ensures forall j :: 0 <= j < |Swept(r, i, drop)| ==> Swept(r, i, drop)[j] in r
  {
  }

  /** The body of the sweep on entry `i`, and where its successor then leads. */
  method SweepOne(pos: Node, drop: set<Node>, ghost r: seq<Node>, ghost i: nat)
    requires 0 < i < |r| && r[0] !in drop && pos == r[i] && Ring(Swept(r, i, drop))
    modifies r
    ensures Ring(Swept(r, i + 1, drop))
  {
    ghost var k := SweptStep(r, i, drop);
    SweptSubset(r, i, drop);
    hide Ring, Swept, Drop;
    if pos in drop {
      Delete(pos, Swept(r, i, drop), k);
    }
  }

  /** In the ring of the sweep, entry `i` is followed by entry `i + 1`. */
  lemma {:induction false} SweptNext(r: seq<Node>, i: nat, drop: set<Node>)
    requires 0 < i <= |r| && r[0] !in drop && Ring(Swept(r, i, drop))
    ensures i < |r| ==> Entry(r, i).next == Entry(r, i + 1)
    ensures Entry(r, i).next != null
  {
    HeadKept(r, i, drop);
    NextInRing(Swept(r, i, drop), 0);
    if i < |r| {
      var k := SweptStep(r, i, drop);
      NextInRing(Swept(r, i, drop), k);
    }
  }

  ghost function Visited(r: seq<Node>, i: nat): seq<Node>
    requires 1 <= i <= |r|
  {
    r[1..i]
  }

  lemma {:induction false} VisitedGrows(r: seq<Node>, i: nat)
    requires 1 <= i < |r|
    ensures Visited(r, i + 1) == Visited(r, i) + [r[i]] && Entry(r, i) == r[i]
  {
  }

  lemma {:induction false} HeadOnce(r: seq<Node>)
    requires Ring(r)
    ensures forall i: nat :: i < |r| && i != 0 ==> Entry(r, i) != r[0]
    ensures Visited(r, 1) == [] && Visited(r, |r|) == r[1..]
    ensures Entry(r, |r|) == r[0]
  {
  }

  /** `list_for_each_entry_safe` with a body that deletes the current node or not: every entry is
      visited once, in order, and the others are left. */
  method SafeSweep(head: Node, drop: set<Node>, ghost r: seq<Node>) returns (visited: seq<Node>)
    requires Ring(r) && head == r[0] && head !in drop
    modifies r
    ensures visited == r[1..] && Ring(Kept(r, drop))
  {
    visited := [];
    ghost var i := 1;
    SweptStarts(r, drop);
    SweptNext(r, 1, drop);
    NextInRing(r, 0);
    assert head.next == Entry(r, 1);
    HeadOnce(r);
    hide Ring, Swept, Kept, Visited, Entry;
    var pos := head.next;
    var n := pos.next;
    while pos != head
      invariant 1 <= i <= |r| && visited == Visited(r, i) && Ring(Swept(r, i, drop))
      invariant pos == Entry(r, i) && (i < |r| ==> n == Entry(r, i + 1))
      decreases |r| - i
    {
      VisitedGrows(r, i);
      visited := visited + [pos];
      SweepOne(pos, drop, r, i);
      i := i + 1;
      SweptNext(r, i, drop);
      pos := n;
      n := n.next;
    }
  }
}

/** Lists of distinct numbers (threads, buffers, headers) as sequences, head first. */
module Queues {
  ghost predicate NoDup(q: seq<nat>) {
    forall i, j :: 0 <= i < j < |q| ==> q[i] != q[j]
  }

  lemma {:induction false} PushNoDup(q: seq<nat>, t: nat)
    requires NoDup(q) && t !in q
    ensures NoDup([t] + q) && NoDup(q + [t])
  {
  }

  /** `list_del` of the entry `t`. */
  function Without(q: seq<nat>, t: nat): seq<nat> {
    if q == [] then [] else if q[0] == t then q[1..] else [q[0]] + Without(q[1..], t)
  }

  lemma {:induction false} WithoutMembers(q: seq<nat>, t: nat)
    requires NoDup(q)
    ensures NoDup(Without(q, t))
    ensures forall u :: u in Without(q, t) <==> u in q && u != t
  {
    if q != [] {
      WithoutMembers(q[1..], t);
      assert q == [q[0]] + q[1..];
      if q[0] == t {
        assert t !in q[1..];
      } else {
        var w := Without(q[1..], t);
        assert q[0] !in q[1..];
        assert forall u :: u in [q[0]] + w <==> u == q[0] || u in w;
      }
    }
  }

  /** A wait queue with `t` at its tail; an entry already queued is left where it is. */
  function Enqueue(q: seq<nat>, t: nat): seq<nat> { if t in q then q else q + [t] }

  lemma {:induction false} WithoutAbsent(q: seq<nat>, t: nat)
    requires t !in q
    ensures Without(q, t) == q
  {
    if q != [] { WithoutAbsent(q[1..], t); }
  }

  lemma {:induction false} EmptyFirst(x: seq<nat>)
    ensures [] + x == x
  {
  }

  lemma {:induction false} Regroup(x: seq<nat>, y: seq<nat>, z: seq<nat>)
    ensures (x + y) + z == x + (y + z)
  {
  }
}

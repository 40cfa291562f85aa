// Nodes that are in a pool or on one of several lists (aes/gemwrect.c, aes/gemasync.c, aes/gemdisp.c).
module Pools {
  // How often a node is on the lists.
  ghost function Held(lists: seq<seq<nat>>, x: nat): nat {
    if lists == [] then 0 else multiset(lists[0])[x] + Held(lists[1..], x)
  }

  // Each of the n nodes is in the pool or on one list, once.
  ghost predicate Conserved(rul: seq<nat>, lists: seq<seq<nat>>, n: nat) {
    forall x: nat {:trigger Held(lists, x)} :: multiset(rul)[x] + Held(lists, x) == if x < n then 1 else 0
  }

  lemma {:induction false} HeldSet(lists: seq<seq<nat>>, w: nat, l: seq<nat>, x: nat)
    requires w < |lists|
    ensures Held(lists[w := l], x) + multiset(lists[w])[x] == Held(lists, x) + multiset(l)[x]
  {
    if w == 0 {
      assert lists[w := l][1..] == lists[1..];
    } else {
      assert lists[w := l][1..] == lists[1..][w - 1 := l];
      HeldSet(lists[1..], w - 1, l, x);
    }
  }

  lemma {:induction false} HeldHas(lists: seq<seq<nat>>, w: nat, x: nat)
    requires w < |lists|
    ensures Held(lists, x) >= multiset(lists[w])[x]
  {
    if w > 0 {
      HeldHas(lists[1..], w - 1, x);
    }
  }

  // Nodes moved between the pool and one list are conserved.
  lemma MoveNodes(rul: seq<nat>, lists: seq<seq<nat>>, n: nat, w: nat, rul': seq<nat>, l: seq<nat>)
    requires Conserved(rul, lists, n) && w < |lists|
    requires multiset(rul') + multiset(l) == multiset(rul) + multiset(lists[w])
    ensures Conserved(rul', lists[w := l], n)
  {
    forall x: nat ensures multiset(rul')[x] + Held(lists[w := l], x) == if x < n then 1 else 0 {
      HeldSet(lists, w, l, x);
      assert (multiset(rul') + multiset(l))[x] == (multiset(rul) + multiset(lists[w]))[x];
    }
  }

  lemma Twice(s: seq<nat>, i: nat, j: nat)
    requires i < j < |s| && s[i] == s[j]
    ensures multiset(s)[s[i]] >= 2
  {
    assert s == s[..j] + [s[j]] + s[j + 1..];
    assert s[i] in s[..j];
  }

  // A pool node is in range, is there once, and is on no list.
  lemma PoolFacts(rul: seq<nat>, lists: seq<seq<nat>>, n: nat)
    requires Conserved(rul, lists, n)
    ensures forall i :: 0 <= i < |rul| ==> rul[i] < n
    ensures forall i, j :: 0 <= i < j < |rul| ==> rul[i] != rul[j]
    ensures forall w, i, k :: 0 <= w < |lists| && 0 <= i < |lists[w]| && 0 <= k < |rul| ==> lists[w][i] != rul[k]
    ensures forall w, i :: 0 <= w < |lists| && 0 <= i < |lists[w]| ==> lists[w][i] < n
  {
    forall i | 0 <= i < |rul| ensures rul[i] < n {
      assert Held(lists, rul[i]) >= 0;
    }
    forall i: nat, j: nat | i < j < |rul| ensures rul[i] != rul[j] {
      assert multiset(rul)[rul[i]] + Held(lists, rul[i]) <= 1;
      if rul[i] == rul[j] {
        Twice(rul, i, j);
      }
    }
    forall w: nat, i: nat | w < |lists| && i < |lists[w]|
      ensures lists[w][i] < n && forall k :: 0 <= k < |rul| ==> lists[w][i] != rul[k]
    {
      HeldHas(lists, w, lists[w][i]);
    }
  }

  // No node is on two lists, or twice on one.
  lemma ListsApart(rul: seq<nat>, lists: seq<seq<nat>>, n: nat, w: nat, v: nat, i: nat, j: nat)
    requires Conserved(rul, lists, n) && w < |lists| && v < |lists| && i < |lists[w]| && j < |lists[v]|
    requires w != v || i != j
    ensures lists[w][i] != lists[v][j]
  {
    var x := lists[w][i];
    if w == v {
      if lists[w][j] == x {
        Twice(lists[w], if i < j then i else j, if i < j then j else i);
        HeldHas(lists, w, x);
      }
    } else {
      HeldSet(lists, w, [], x);
      HeldHas(lists[w := []], v, x);
      assert multiset(lists[w])[x] >= 1;
    }
  }

  // Starting with nothing in the lists, and filling the pool.
  lemma {:induction false} NoneHeld(lists: seq<seq<nat>>)
    requires forall w :: 0 <= w < |lists| ==> lists[w] == []
    ensures Conserved([], lists, 0)
  {
    forall x: nat ensures Held(lists, x) == 0 {
      NoneHeldAt(lists, x);
    }
  }

  lemma {:induction false} NoneHeldAt(lists: seq<seq<nat>>, x: nat)
    requires forall w :: 0 <= w < |lists| ==> lists[w] == []
    ensures Held(lists, x) == 0
  {
    if lists != [] {
      assert lists[0] == [];
      NoneHeldAt(lists[1..], x);
    }
  }

  lemma OneMore(rul: seq<nat>, lists: seq<seq<nat>>, n: nat)
    requires Conserved(rul, lists, n)
    ensures Conserved([n] + rul, lists, n + 1)
  {
  }
}

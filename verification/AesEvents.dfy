// Event blocks (aes/gemasync.c): each is free or on its process's event list, and one on an event
// list is on one chain as well - that of the completed ones, the delay list, or a wait list.
module AesEvents {
  import opened Lists
  import opened Pools

  datatype Mask = KEYBD | BUTTON | M1 | M2 | MESAG | TIMER | SDMSG | MUTEX

  datatype Evb = Evb(pd: nat, mask: Mask, parm: int, nocancel: bool, complete: bool, delay: bool, ret: int)

  const EVBS_PER_PD := 6
  const ZLR := 0
  const DLR := 1

  // evb: the blocks; eul: the free ones; evlist: those of each process; chain: the chains, the
  // completed blocks first, then the delay list; evflg: each process's event flags.
  datatype Events = Events(evb: seq<Evb>, eul: seq<nat>, evlist: seq<seq<nat>>, chain: seq<seq<nat>>,
                           evflg: seq<set<Mask>>)

  ghost function Total(lists: seq<seq<nat>>): nat {
    if lists == [] then 0 else |lists[0]| + Total(lists[1..])
  }

  ghost predicate Sizes(s: Events) {
    && |s.evb| == EVBS_PER_PD * |s.evlist| && |s.evflg| == |s.evlist| && |s.chain| > DLR
    && |s.eul| + Total(s.evlist) == |s.evb|
  }

  // Each block is free or on one event list.
  ghost predicate Kept(s: Events) {
    Conserved(s.eul, s.evlist, |s.evb|)
  }

  // Those on the event lists are on one chain each, and the free ones on none.
  ghost predicate Chained(s: Events) {
    forall x: nat {:trigger Held(s.chain, x)} {:trigger Held(s.evlist, x)} :: Held(s.chain, x) == Held(s.evlist, x)
  }

  ghost predicate InRange(s: Events) {
    && (forall p, i :: 0 <= p < |s.evlist| && 0 <= i < |s.evlist[p]| ==> s.evlist[p][i] < |s.evb|)
    && (forall c, i :: 0 <= c < |s.chain| && 0 <= i < |s.chain[c]| ==> s.chain[c][i] < |s.evb|)
  }

  ghost predicate Owned(s: Events)
    requires InRange(s)
  {
    forall p, i :: 0 <= p < |s.evlist| && 0 <= i < |s.evlist[p]| ==>
      s.evb[s.evlist[p][i]].pd == p && !s.evb[s.evlist[p][i]].nocancel
  }

  // The completed blocks are the ones on the first chain, the timed ones, all timers, those on
  // the second.
  ghost predicate Done(s: Events)
    requires InRange(s)
  {
    forall c, i :: 0 <= c < |s.chain| && 0 <= i < |s.chain[c]| ==> FlagsFit(s.evb[s.chain[c][i]], c)
  }

  predicate FlagsFit(b: Evb, c: nat) {
    (b.complete <==> c == ZLR) && (b.delay <==> c == DLR) && (b.delay ==> b.mask == TIMER)
  }

  // A process's flags are the masks of its completed blocks.
  ghost predicate Flagged(s: Events)
    requires InRange(s) && |s.evflg| == |s.evlist|
  {
    && (forall p, i :: 0 <= p < |s.evlist| && 0 <= i < |s.evlist[p]| && s.evb[s.evlist[p][i]].complete ==>
          s.evb[s.evlist[p][i]].mask in s.evflg[p])
    && (forall p, m :: 0 <= p < |s.evlist| && m in s.evflg[p] ==> HasDone(s.evb, s.evlist[p], m))
  }

  ghost predicate HasDone(evb: seq<Evb>, l: seq<nat>, m: Mask)
    requires forall i :: 0 <= i < |l| ==> l[i] < |evb|
  {
    exists i :: 0 <= i < |l| && evb[l[i]].mask == m && evb[l[i]].complete
  }

  // A process does not wait twice for one event.
  ghost predicate OneEach(s: Events)
    requires InRange(s)
  {
    forall p, i, j :: 0 <= p < |s.evlist| && 0 <= i < j < |s.evlist[p]| ==>
      s.evb[s.evlist[p][i]].mask != s.evb[s.evlist[p][j]].mask
  }

  ghost predicate EvOk(s: Events) {
    Sizes(s) && Kept(s) && Chained(s) && InRange(s) && Owned(s) && Done(s) && Flagged(s) && OneEach(s)
  }

  lemma {:induction false} TotalSet(lists: seq<seq<nat>>, w: nat, l: seq<nat>)
    requires w < |lists|
    ensures Total(lists[w := l]) + |lists[w]| == Total(lists) + |l|
  {
    if w == 0 {
      assert lists[w := l][1..] == lists[1..];
    } else {
      assert lists[w := l][1..] == lists[1..][w - 1 := l];
      TotalSet(lists[1..], w - 1, l);
    }
  }

  lemma {:induction false} TotalBound(lists: seq<seq<nat>>, k: nat)
    requires forall w :: 0 <= w < |lists| ==> |lists[w]| <= EVBS_PER_PD
    ensures Total(lists) <= EVBS_PER_PD * |lists|
    ensures k < |lists| && |lists[k]| < EVBS_PER_PD ==> Total(lists) < EVBS_PER_PD * |lists|
  {
    if lists != [] {
      TotalBound(lists[1..], if k > 0 then k - 1 else 0);
    }
  }

  // While no process holds more than its share and one holds less, a block is free.
  lemma BlockFree(s: Events, p: nat)
    requires EvOk(s) && p < |s.evlist| && |s.evlist[p]| < EVBS_PER_PD
    requires forall q :: 0 <= q < |s.evlist| ==> |s.evlist[q]| <= EVBS_PER_PD
    ensures s.eul != []
  {
    TotalBound(s.evlist, p);
  }

  lemma {:induction false} FindHeld(lists: seq<seq<nat>>, x: nat) returns (w: nat, i: nat)
    requires Held(lists, x) > 0
    ensures w < |lists| && i < |lists[w]| && lists[w][i] == x
  {
    if multiset(lists[0])[x] > 0 {
      w := 0;
      i :| 0 <= i < |lists[0]| && lists[0][i] == x;
    } else {
      var v, k := FindHeld(lists[1..], x);
      w, i := v + 1, k;
    }
  }

  lemma {:induction false} HeldIn(lists: seq<seq<nat>>, w: nat, i: nat)
    requires w < |lists| && i < |lists[w]|
    ensures Held(lists, lists[w][i]) > 0
  {
    HeldHas(lists, w, lists[w][i]);
  }

  // A block on an event list is on some chain, and the other way round.
  lemma OnChain(s: Events, p: nat, i: nat) returns (c: nat, k: nat)
    requires EvOk(s) && p < |s.evlist| && i < |s.evlist[p]|
    ensures c < |s.chain| && k < |s.chain[c]| && s.chain[c][k] == s.evlist[p][i]
  {
    HeldIn(s.evlist, p, i);
    assert Held(s.chain, s.evlist[p][i]) > 0;
    c, k := FindHeld(s.chain, s.evlist[p][i]);
  }

  lemma OnList(s: Events, c: nat, k: nat) returns (p: nat, i: nat)
    requires EvOk(s) && c < |s.chain| && k < |s.chain[c]|
    ensures p < |s.evlist| && i < |s.evlist[p]| && s.evlist[p][i] == s.chain[c][k]
    ensures s.evb[s.chain[c][k]].pd == p
  {
    HeldIn(s.chain, c, k);
    assert Held(s.evlist, s.chain[c][k]) > 0;
    p, i := FindHeld(s.evlist, s.chain[c][k]);
  }

  // No block is twice on the chains, or twice on the event lists.
  lemma ChainApart(s: Events, c: nat, k: nat, d: nat, l: nat)
    requires EvOk(s) && c < |s.chain| && k < |s.chain[c]| && d < |s.chain| && l < |s.chain[d]| && (c != d || k != l)
    ensures s.chain[c][k] != s.chain[d][l]
  {
    forall x: nat ensures Held(s.chain, x) <= 1 {
      assert Held(s.evlist, x) <= 1;
    }
    OnceEach(s.chain, c, k, d, l);
  }

  lemma OnceEach(lists: seq<seq<nat>>, c: nat, k: nat, d: nat, l: nat)
    requires forall x: nat {:trigger Held(lists, x)} :: Held(lists, x) <= 1
    requires c < |lists| && k < |lists[c]| && d < |lists| && l < |lists[d]| && (c != d || k != l)
    ensures lists[c][k] != lists[d][l]
  {
    var x := lists[c][k];
    assert Held(lists, x) <= 1;
    if c == d {
      if lists[d][l] == x {
        Twice(lists[c], if k < l then k else l, if k < l then l else k);
        HeldHas(lists, c, x);
      }
    } else {
      HeldSet(lists, c, [], x);
      HeldHas(lists[c := []], d, x);
      assert multiset(lists[c])[x] >= 1;
    }
  }

  // A block moves from one chain to another.
  lemma ChainMoved(s: Events, c: nat, k: nat, d: nat, j: nat, chain: seq<seq<nat>>, x: nat)
    requires c < |s.chain| && k < |s.chain[c]| && d < |s.chain| && d != c && j <= |s.chain[d]|
    requires chain == s.chain[c := Cut(s.chain[c], k)][d := Put(s.chain[d], j, s.chain[c][k])]
    ensures Held(chain, x) == Held(s.chain, x)
  {
    HeldSet(s.chain, c, Cut(s.chain[c], k), x);
    HeldSet(s.chain[c := Cut(s.chain[c], k)], d, Put(s.chain[d], j, s.chain[c][k]), x);
    CutBag(s.chain[c], k);
    PutBag(s.chain[d], j, s.chain[c][k]);
  }

  lemma ChainAdded(chain: seq<seq<nat>>, c: nat, j: nat, e: nat, x: nat)
    requires c < |chain| && j <= |chain[c]|
    ensures Held(chain[c := Put(chain[c], j, e)], x) == Held(chain, x) + if x == e then 1 else 0
  {
    HeldSet(chain, c, Put(chain[c], j, e), x);
    PutBag(chain[c], j, e);
  }

  lemma ChainCut(chain: seq<seq<nat>>, c: nat, j: nat, x: nat)
    requires c < |chain| && j < |chain[c]|
    ensures Held(chain[c := Cut(chain[c], j)], x) + (if x == chain[c][j] then 1 else 0) == Held(chain, x)
  {
    HeldSet(chain, c, Cut(chain[c], j), x);
    CutBag(chain[c], j);
  }

  // iasync(): the head of the free list becomes the block b of process p, at place j of chain c.
  function Issued(s: Events, p: nat, b: Evb, c: nat, j: nat): Events
    requires s.eul != [] && p < |s.evlist| == |s.evflg| && c < |s.chain| && j <= |s.chain[c]| && s.eul[0] < |s.evb|
  {
    var e := s.eul[0];
    Events(s.evb[e := b], s.eul[1..], s.evlist[p := [e] + s.evlist[p]], s.chain[c := Put(s.chain[c], j, e)],
           if b.complete then s.evflg[p := s.evflg[p] + {b.mask}] else s.evflg)
  }

  // azombie(): the k-th block of chain c is completed.
  function Completed(s: Events, c: nat, k: nat, parm: int, ret: int): Events
    requires ZLR < c < |s.chain| && k < |s.chain[c]| && s.chain[c][k] < |s.evb|
    requires s.evb[s.chain[c][k]].pd < |s.evflg|
  {
    var e := s.chain[c][k];
    var b := s.evb[e];
    s.(evb := s.evb[e := Zombie(b, parm, ret)],
       chain := s.chain[c := Cut(s.chain[c], k)][ZLR := [e] + s.chain[ZLR]],
       evflg := s.evflg[b.pd := s.evflg[b.pd] + {b.mask}])
  }

  function Zombie(b: Evb, parm: int, ret: int): Evb {
    b.(parm := parm, ret := ret, complete := true, delay := false, nocancel := false)
  }

  // apret(): the i-th block of process p, the k-th of the completed ones, is free again.
  function Collected(s: Events, p: nat, i: nat, k: nat): Events
    requires p < |s.evlist| == |s.evflg| && i < |s.evlist[p]| && |s.chain| > ZLR && k < |s.chain[ZLR]|
    requires s.evlist[p][i] < |s.evb|
  {
    var e := s.evlist[p][i];
    Events(s.evb, [e] + s.eul, s.evlist[p := Cut(s.evlist[p], i)], s.chain[ZLR := Cut(s.chain[ZLR], k)],
           s.evflg[p := s.evflg[p] - {s.evb[e].mask}])
  }

  // acancel(): the i-th block of process p, the k-th of chain c, is free again.
  function Cancelled(s: Events, p: nat, i: nat, c: nat, k: nat): Events
    requires p < |s.evlist| && i < |s.evlist[p]| && c < |s.chain| && k < |s.chain[c]|
  {
    s.(eul := [s.evlist[p][i]] + s.eul, evlist := s.evlist[p := Cut(s.evlist[p], i)],
       chain := s.chain[c := Cut(s.chain[c], k)])
  }

  // A block's parameter changes nothing here.
  lemma Reparm(s: Events, e: nat, parm: int)
    requires EvOk(s) && e < |s.evb|
    ensures EvOk(s.(evb := s.evb[e := s.evb[e].(parm := parm)]))
  {
    var t := s.(evb := s.evb[e := s.evb[e].(parm := parm)]);
    forall p, m | 0 <= p < |s.evlist| && m in s.evflg[p] ensures HasDone(t.evb, t.evlist[p], m) {
      var i :| 0 <= i < |s.evlist[p]| && s.evb[s.evlist[p][i]].mask == m && s.evb[s.evlist[p][i]].complete;
      assert t.evb[t.evlist[p][i]].mask == m;
    }
  }

  // Nothing that is in use is at the head of the free list.
  lemma HeadFree(s: Events)
    requires EvOk(s) && s.eul != []
    ensures s.eul[0] < |s.evb|
    ensures forall p, i :: 0 <= p < |s.evlist| && 0 <= i < |s.evlist[p]| ==> s.evlist[p][i] != s.eul[0]
    ensures forall c, i :: 0 <= c < |s.chain| && 0 <= i < |s.chain[c]| ==> s.chain[c][i] != s.eul[0]
  {
    PoolFacts(s.eul, s.evlist, |s.evb|);
    forall c, i | 0 <= c < |s.chain| && 0 <= i < |s.chain[c]| ensures s.chain[c][i] != s.eul[0] {
      var p, j := OnList(s, c, i);
    }
  }

  lemma IssuedKept(s: Events, p: nat, b: Evb, c: nat, j: nat)
    requires Sizes(s) && Kept(s) && Chained(s) && s.eul != [] && p < |s.evlist| && c < |s.chain| && j <= |s.chain[c]|
    requires s.eul[0] < |s.evb|
    ensures var t := Issued(s, p, b, c, j); Sizes(t) && Kept(t) && Chained(t)
  {
    var e, t := s.eul[0], Issued(s, p, b, c, j);
    assert s.eul == [e] + s.eul[1..];
    MoveNodes(s.eul, s.evlist, |s.evb|, p, s.eul[1..], [e] + s.evlist[p]);
    TotalSet(s.evlist, p, [e] + s.evlist[p]);
    forall x: nat ensures Held(t.chain, x) == Held(t.evlist, x) {
      ChainAdded(s.chain, c, j, e, x);
      HeldSet(s.evlist, p, [e] + s.evlist[p], x);
      assert Held(s.chain, x) == Held(s.evlist, x);
    }
  }

  lemma IssuedOk(s: Events, p: nat, b: Evb, c: nat, j: nat)
    requires EvOk(s) && s.eul != [] && p < |s.evlist| && c < |s.chain| && j <= |s.chain[c]|
    requires b.pd == p && !b.nocancel && FlagsFit(b, c)
    requires forall i :: 0 <= i < |s.evlist[p]| ==> s.evb[s.evlist[p][i]].mask != b.mask
    ensures s.eul[0] < |s.evb| && EvOk(Issued(s, p, b, c, j))
  {
    HeadFree(s);
    IssuedKept(s, p, b, c, j);
    IssuedFlags(s, p, b, c, j);
  }

  // The block e is in no one's use.
  ghost predicate Unused(s: Events, e: nat) {
    && e < |s.evb|
    && (forall p, i :: 0 <= p < |s.evlist| && 0 <= i < |s.evlist[p]| ==> s.evlist[p][i] != e)
    && (forall c, i :: 0 <= c < |s.chain| && 0 <= i < |s.chain[c]| ==> s.chain[c][i] != e)
  }

  lemma IssuedFlags(s: Events, p: nat, b: Evb, c: nat, j: nat)
    requires EvOk(s) && s.eul != [] && p < |s.evlist| && c < |s.chain| && j <= |s.chain[c]| && s.eul[0] < |s.evb|
    requires b.pd == p && !b.nocancel && FlagsFit(b, c)
    requires forall i :: 0 <= i < |s.evlist[p]| ==> s.evb[s.evlist[p][i]].mask != b.mask
    ensures var t := Issued(s, p, b, c, j); InRange(t) && Owned(t) && Done(t) && Flagged(t) && OneEach(t)
  {
    hide Kept, Chained, Unused, FlagsFit, Owned, Done, Flagged, OneEach, HasDone;
    HeadFree(s);
    assert Unused(s, s.eul[0]) by { UnusedIs(s); }
    IssuedRange(s, p, b, c, j);
    IssuedOwned(s, p, b, c, j);
    IssuedDone(s, p, b, c, j);
    IssuedFlagged(s, p, b, c, j);
  }

  lemma UnusedIs(s: Events)
    requires EvOk(s) && s.eul != []
    ensures Unused(s, s.eul[0])
  {
    HeadFree(s);
  }

  lemma IssuedRange(s: Events, p: nat, b: Evb, c: nat, j: nat)
    requires InRange(s) && s.eul != [] && p < |s.evlist| == |s.evflg| && c < |s.chain| && j <= |s.chain[c]|
    requires s.eul[0] < |s.evb|
    ensures InRange(Issued(s, p, b, c, j))
  {
  }

  lemma IssuedOwned(s: Events, p: nat, b: Evb, c: nat, j: nat)
    requires InRange(s) && s.eul != [] && p < |s.evlist| == |s.evflg| && c < |s.chain| && j <= |s.chain[c]|
    requires Owned(s) && OneEach(s) && Unused(s, s.eul[0]) && b.pd == p && !b.nocancel
    requires forall i :: 0 <= i < |s.evlist[p]| ==> s.evb[s.evlist[p][i]].mask != b.mask
    requires InRange(Issued(s, p, b, c, j))
    ensures Owned(Issued(s, p, b, c, j)) && OneEach(Issued(s, p, b, c, j))
  {
    var t := Issued(s, p, b, c, j);
    assert forall q, i :: 0 <= q < |s.evlist| && 0 <= i < |s.evlist[q]| ==> t.evb[s.evlist[q][i]] == s.evb[s.evlist[q][i]];
  }

  lemma IssuedDone(s: Events, p: nat, b: Evb, c: nat, j: nat)
    requires InRange(s) && s.eul != [] && p < |s.evlist| == |s.evflg| && c < |s.chain| && j <= |s.chain[c]|
    requires Done(s) && Unused(s, s.eul[0]) && FlagsFit(b, c) && InRange(Issued(s, p, b, c, j))
    ensures Done(Issued(s, p, b, c, j))
  {
    hide FlagsFit;
  }

  lemma IssuedFlagged(s: Events, p: nat, b: Evb, c: nat, j: nat)
    requires InRange(s) && s.eul != [] && p < |s.evlist| == |s.evflg| && c < |s.chain| && j <= |s.chain[c]|
    requires Flagged(s) && Unused(s, s.eul[0]) && InRange(Issued(s, p, b, c, j))
    ensures Flagged(Issued(s, p, b, c, j))
  {
    var e, t := s.eul[0], Issued(s, p, b, c, j);
    forall q, m | 0 <= q < |t.evlist| && m in t.evflg[q] ensures HasDone(t.evb, t.evlist[q], m) {
      if q == p && b.complete && m == b.mask {
        assert t.evlist[p][0] == e;
      } else {
        assert HasDone(s.evb, s.evlist[q], m);
        var i :| 0 <= i < |s.evlist[q]| && s.evb[s.evlist[q][i]].mask == m && s.evb[s.evlist[q][i]].complete;
        assert t.evlist[q][if q == p then i + 1 else i] == s.evlist[q][i];
      }
    }
  }

  lemma CompletedOk(s: Events, c: nat, k: nat, parm: int, ret: int)
    requires EvOk(s) && ZLR < c < |s.chain| && k < |s.chain[c]|
    ensures s.chain[c][k] < |s.evb| && s.evb[s.chain[c][k]].pd < |s.evlist| && s.evb[s.chain[c][k]].pd < |s.evflg|
    ensures EvOk(Completed(s, c, k, parm, ret))
  {
    var p, i := OnList(s, c, k);
    CompletedChained(s, c, k, parm, ret);
    CompletedDone(s, c, k, parm, ret);
    CompletedFlagged(s, c, k, parm, ret, p, i);
  }

  lemma CompletedChained(s: Events, c: nat, k: nat, parm: int, ret: int)
    requires Chained(s) && ZLR < c < |s.chain| && k < |s.chain[c]| && s.chain[c][k] < |s.evb|
    requires s.evb[s.chain[c][k]].pd < |s.evflg|
    ensures Chained(Completed(s, c, k, parm, ret))
  {
    var t := Completed(s, c, k, parm, ret);
    assert [s.chain[c][k]] + s.chain[ZLR] == Put(s.chain[ZLR], 0, s.chain[c][k]);
    forall x: nat ensures Held(t.chain, x) == Held(t.evlist, x) {
      ChainMoved(s, c, k, ZLR, 0, t.chain, x);
      assert Held(s.chain, x) == Held(s.evlist, x);
    }
  }

  lemma CompletedDone(s: Events, c: nat, k: nat, parm: int, ret: int)
    requires EvOk(s) && ZLR < c < |s.chain| && k < |s.chain[c]| && s.chain[c][k] < |s.evb|
    requires s.evb[s.chain[c][k]].pd < |s.evflg|
    ensures InRange(Completed(s, c, k, parm, ret)) && Done(Completed(s, c, k, parm, ret))
  {
    hide Kept, Chained, Owned, OneEach, Flagged, Cut;
    var t := Completed(s, c, k, parm, ret);
    CutIn(s.chain[c], k);
    forall d, l | 0 <= d < |t.chain| && 0 <= l < |t.chain[d]|
      ensures t.chain[d][l] < |s.evb| && FlagsFit(t.evb[t.chain[d][l]], d)
    {
      var i := if d == c then (if l < k then l else l + 1) else if d == ZLR then l - 1 else l;
      if d != ZLR || l > 0 {
        assert t.chain[d][l] == s.chain[d][i];
        ChainApart(s, c, k, d, i);
      }
    }
  }

  lemma CompletedFlagged(s: Events, c: nat, k: nat, parm: int, ret: int, p: nat, i: nat)
    requires InRange(s) && |s.evflg| == |s.evlist| && Owned(s) && Flagged(s) && OneEach(s)
    requires ZLR < c < |s.chain| && k < |s.chain[c]| && p < |s.evlist| && i < |s.evlist[p]|
    requires s.evlist[p][i] == s.chain[c][k] && s.evb[s.chain[c][k]].pd == p
    requires InRange(Completed(s, c, k, parm, ret))
    ensures var t := Completed(s, c, k, parm, ret); Owned(t) && Flagged(t) && OneEach(t)
  {
    hide Owned, OneEach;
    CompletedOwned(s, c, k, parm, ret);
    var e, t := s.chain[c][k], Completed(s, c, k, parm, ret);
    assert forall x :: 0 <= x < |s.evb| ==> t.evb[x].mask == s.evb[x].mask && t.evb[x].pd == s.evb[x].pd;
    forall q, m | 0 <= q < |t.evlist| && m in t.evflg[q] ensures HasDone(t.evb, t.evlist[q], m) {
      if q == p && m == s.evb[e].mask {
        assert t.evb[t.evlist[p][i]].complete;
      } else {
        assert HasDone(s.evb, s.evlist[q], m);
        var j :| 0 <= j < |s.evlist[q]| && s.evb[s.evlist[q][j]].mask == m && s.evb[s.evlist[q][j]].complete;
        assert t.evb[t.evlist[q][j]].mask == m;
      }
    }
  }

  lemma CompletedOwned(s: Events, c: nat, k: nat, parm: int, ret: int)
    requires InRange(s) && |s.evflg| == |s.evlist| && Owned(s) && OneEach(s)
    requires ZLR < c < |s.chain| && k < |s.chain[c]| && s.evb[s.chain[c][k]].pd < |s.evflg|
    requires InRange(Completed(s, c, k, parm, ret))
    ensures Owned(Completed(s, c, k, parm, ret)) && OneEach(Completed(s, c, k, parm, ret))
  {
  }

  // A block given back, from place i of its process's list and place k of chain c.
  lemma FreedKept(s: Events, p: nat, i: nat, c: nat, k: nat, t: Events)
    requires Sizes(s) && Kept(s) && Chained(s) && p < |s.evlist| && i < |s.evlist[p]| && c < |s.chain| && k < |s.chain[c]|
    requires s.evlist[p][i] == s.chain[c][k] && |t.evb| == |s.evb| && |t.evflg| == |s.evflg|
    requires t.eul == [s.evlist[p][i]] + s.eul && t.evlist == s.evlist[p := Cut(s.evlist[p], i)]
    requires t.chain == s.chain[c := Cut(s.chain[c], k)]
    ensures Sizes(t) && Kept(t) && Chained(t)
  {
    CutBag(s.evlist[p], i);
    MoveNodes(s.eul, s.evlist, |s.evb|, p, t.eul, Cut(s.evlist[p], i));
    TotalSet(s.evlist, p, Cut(s.evlist[p], i));
    forall x: nat ensures Held(t.chain, x) == Held(t.evlist, x) {
      ChainCut(s.chain, c, k, x);
      ChainCut(s.evlist, p, i, x);
      assert Held(s.chain, x) == Held(s.evlist, x);
    }
  }

  lemma FreedRest(s: Events, p: nat, i: nat, c: nat, k: nat, t: Events)
    requires InRange(s) && Owned(s) && Done(s) && OneEach(s)
    requires p < |s.evlist| && i < |s.evlist[p]| && c < |s.chain| && k < |s.chain[c]| && t.evb == s.evb
    requires t.evlist == s.evlist[p := Cut(s.evlist[p], i)] && t.chain == s.chain[c := Cut(s.chain[c], k)]
    ensures InRange(t) && Owned(t) && Done(t) && OneEach(t)
  {
    hide Cut;
    CutIn(s.chain[c], k);
    CutIn(s.evlist[p], i);
  }

  lemma CollectedOk(s: Events, p: nat, i: nat, k: nat)
    requires EvOk(s) && p < |s.evlist| && i < |s.evlist[p]| && k < |s.chain[ZLR]| && s.evlist[p][i] == s.chain[ZLR][k]
    ensures s.evlist[p][i] < |s.evb| && EvOk(Collected(s, p, i, k))
  {
    hide Kept, Chained, Owned, Done, OneEach, Flagged;
    FreedKept(s, p, i, ZLR, k, Collected(s, p, i, k));
    FreedRest(s, p, i, ZLR, k, Collected(s, p, i, k));
    CollectedFlagged(s, p, i, k);
  }

  lemma CollectedFlagged(s: Events, p: nat, i: nat, k: nat)
    requires InRange(s) && |s.evflg| == |s.evlist| && |s.chain| > ZLR && k < |s.chain[ZLR]| && Flagged(s) && OneEach(s)
    requires p < |s.evlist| && i < |s.evlist[p]| && InRange(Collected(s, p, i, k))
    ensures Flagged(Collected(s, p, i, k))
  {
    hide Cut;
    CutIn(s.evlist[p], i);
    var t := Collected(s, p, i, k);
    forall q, m | 0 <= q < |t.evlist| && m in t.evflg[q] ensures HasDone(t.evb, t.evlist[q], m) {
      assert HasDone(s.evb, s.evlist[q], m);
      var j :| 0 <= j < |s.evlist[q]| && s.evb[s.evlist[q][j]].mask == m && s.evb[s.evlist[q][j]].complete;
      assert t.evlist[q][if q == p && j > i then j - 1 else j] == s.evlist[q][j];
    }
  }

  lemma CancelledOk(s: Events, p: nat, i: nat, c: nat, k: nat)
    requires EvOk(s) && p < |s.evlist| && i < |s.evlist[p]| && ZLR < c < |s.chain| && k < |s.chain[c]|
    requires s.evlist[p][i] == s.chain[c][k]
    ensures EvOk(Cancelled(s, p, i, c, k))
  {
    hide Kept, Chained, Owned, Done, OneEach, Flagged;
    FreedKept(s, p, i, c, k, Cancelled(s, p, i, c, k));
    FreedRest(s, p, i, c, k, Cancelled(s, p, i, c, k));
    NotDone(s, c, k);
    CancelledFlagged(s, p, i, c, k);
  }

  lemma NotDone(s: Events, c: nat, k: nat)
    requires EvOk(s) && c < |s.chain| && k < |s.chain[c]|
    ensures s.chain[c][k] < |s.evb| && FlagsFit(s.evb[s.chain[c][k]], c)
  {
  }

  lemma CancelledFlagged(s: Events, p: nat, i: nat, c: nat, k: nat)
    requires InRange(s) && |s.evflg| == |s.evlist| && c < |s.chain| && k < |s.chain[c]| && Flagged(s)
    requires p < |s.evlist| && i < |s.evlist[p]| && !s.evb[s.evlist[p][i]].complete && InRange(Cancelled(s, p, i, c, k))
    ensures Flagged(Cancelled(s, p, i, c, k))
  {
    hide Cut;
    CutIn(s.evlist[p], i);
    var t := Cancelled(s, p, i, c, k);
    forall q, m | 0 <= q < |t.evlist| && m in t.evflg[q] ensures HasDone(t.evb, t.evlist[q], m) {
      assert HasDone(s.evb, s.evlist[q], m);
      var j :| 0 <= j < |s.evlist[q]| && s.evb[s.evlist[q][j]].mask == m && s.evb[s.evlist[q][j]].complete;
      assert t.evlist[q][if q == p && j > i then j - 1 else j] == s.evlist[q][j];
    }
  }
}

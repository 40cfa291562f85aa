// What asking for an event leaves as it was, and what it sets up (the routines that iasync() in
// aes/gemasync.c goes through).
module AesAsks {
  import opened Lists
  import opened Pools
  import opened AesEvents
  import opened AesProcs
  import opened DelayList
  import opened AesWaits
  import opened AesSystem
  import opened AesSteps

  // New waiters come to the front of a chain; those that were there stay behind them, in order.
  predicate Behind(l: seq<nat>, r: seq<nat>) {
    |l| <= |r| && r[|r| - |l|..] == l
  }

  // Who waited before waits as before: on the same chain, for the same count, until the same time.
  ghost predicate Keeps(y: Sys, z: Sys) {
    && |y.s.chain| > DLR && |z.s.chain| == |y.s.chain| && |z.s.evb| == |y.s.evb|
    && (forall c :: 0 <= c < |y.s.chain| && c != DLR ==> Behind(y.s.chain[c], z.s.chain[c]))
    && (forall e, d {:trigger DueIn(y, e, d)} :: DueIn(y, e, d) ==> DueIn(z, e, d))
    && (forall c, e :: 0 <= c < |y.s.chain| && e in y.s.chain[c] && e < |y.s.evb| ==>
          OfOne(y.s.evb[e], z.s.evb[e]) && (c != DLR ==> z.s.evb[e].parm == y.s.evb[e].parm))
  }

  lemma KeepsSame(y: Sys, z: Sys)
    requires z.s == y.s && |y.s.chain| > DLR
    ensures Keeps(y, z)
  {
  }

  lemma BehindHas(l: seq<nat>, r: seq<nat>, x: nat)
    requires Behind(l, r) && x in l
    ensures x in r
  {
    var k :| 0 <= k < |l| && l[k] == x;
    assert r[|r| - |l|..][k] == r[|r| - |l| + k];
  }

  lemma BehindTwice(l: seq<nat>, r: seq<nat>, q: seq<nat>)
    requires Behind(l, r) && Behind(r, q)
    ensures Behind(l, q)
  {
    assert q[|q| - |l|..] == q[|q| - |r|..][|r| - |l|..];
  }

  lemma KeepsTwice(x: Sys, y: Sys, z: Sys)
    requires Keeps(x, y) && Keeps(y, z) && InRange(x.s)
    ensures Keeps(x, z)
  {
    hide DueIn, Behind;
    forall c | 0 <= c < |x.s.chain| && c != DLR ensures Behind(x.s.chain[c], z.s.chain[c]) {
      BehindTwice(x.s.chain[c], y.s.chain[c], z.s.chain[c]);
    }
    forall c, e | 0 <= c < |x.s.chain| && e in x.s.chain[c] && e < |x.s.evb|
      ensures OfOne(x.s.evb[e], z.s.evb[e]) && (c != DLR ==> z.s.evb[e].parm == x.s.evb[e].parm)
    {
      StillThere(x, y, c, e);
      assert e in y.s.chain[c];
    }
  }

  lemma StillThere(y: Sys, z: Sys, c: nat, e: nat)
    requires Keeps(y, z) && InRange(y.s) && c < |y.s.chain| && e in y.s.chain[c]
    ensures e in z.s.chain[c]
  {
    if c == DLR {
      var i: nat :| i < |y.s.chain[DLR]| && y.s.chain[DLR][i] == e;
      assert DueIn(y, e, Before(Deltas(y.s), i + 1));
      assert DueIn(z, e, Before(Deltas(y.s), i + 1));
    } else {
      BehindHas(y.s.chain[c], z.s.chain[c], e);
    }
  }

  // A block at the front of a chain other than the timers'.
  lemma IssueKeepsOthers(y: Sys, n: nat, p: nat, b: Evb, c: nat, z: Sys)
    requires y.Ok(n, p, 0) && CanIssue(y, p, c, 0) && c != DLR && z == Issue1(y, p, b, c, 0) && InRange(z.s)
    ensures Keeps(y, z) && z.s.chain[c] == [y.s.eul[0]] + y.s.chain[c] && y.s.eul[0] < |z.s.evb| && z.s.evb[y.s.eul[0]] == b
    ensures forall d :: 0 <= d < |y.s.chain| && d != c ==> z.s.chain[d] == y.s.chain[d]
    ensures z == y.(s := z.s) && z.s.evlist == y.s.evlist[p := [y.s.eul[0]] + y.s.evlist[p]]
    ensures z.s.evflg == if b.complete then y.s.evflg[p := y.s.evflg[p] + {b.mask}] else y.s.evflg
  {
    hide ProcOk, TasksOk, Side, Kept, Chained, Owned, Done, Flagged, OneEach, DueIn;
    SysSizes(y, n, p, 0);
    HeadFree(y.s);
    assert z.s.chain[c] == [y.s.eul[0]] + y.s.chain[c];
    forall x, d | 0 <= d < |y.s.chain| && x in y.s.chain[d] ensures z.s.evb[x] == y.s.evb[x] {
    }
    forall e, d | DueIn(y, e, d) ensures DueIn(z, e, d) {
      DueSame(y, z, e, d);
    }
  }

  lemma DueSame(y: Sys, z: Sys, e: nat, d: int)
    requires DueIn(y, e, d) && InRange(z.s) && |z.s.chain| > DLR && z.s.chain[DLR] == y.s.chain[DLR] && |z.s.evb| == |y.s.evb|
    requires forall x :: x in y.s.chain[DLR] && x < |y.s.evb| ==> z.s.evb[x] == y.s.evb[x]
    ensures DueIn(z, e, d)
  {
    assert Deltas(z.s) == Deltas(y.s);
  }

  // A new timer: it is due in c ticks, and the others when they were.
  lemma TimerKeepsOthers(y: Sys, n: nat, p: nat, j: nat, c: int, z: Sys)
    requires y.Ok(n, p, 0) && DelayAsked(y, z, p, j) && TicksPut(y, z, j, c) && c >= 0
    ensures Keeps(y, z) && DueIn(z, y.s.eul[0], c) && y.s.eul[0] < |z.s.evb| == |y.s.evb|
    ensures forall d :: DLR < d < |y.s.chain| ==> z.s.chain[d] == y.s.chain[d]
  {
    hide ProcOk, TasksOk, SemOk, QueuesOk, Kept, Chained, Owned, Done, Flagged, OneEach, DueIn, Inserted, PlaceFor, Deltas;
    SysSizes(y, n, p, 0);
    HeadFree(y.s);
    PutIn(y.s.chain[DLR], j, y.s.eul[0]);
    InsertedDue(Deltas(y.s), j, c, j);
    assert z.s.chain[DLR] == Put(y.s.chain[DLR], j, y.s.eul[0]);
    assert z.s.chain[DLR][j] == y.s.eul[0];
    NowDue(z, j, y.s.eul[0], c);
    forall e, d | DueIn(y, e, d) ensures DueIn(z, e, d) {
      var i: nat := DuePlace(y, e, d);
      InsertedDue(Deltas(y.s), j, c, i + 1);
      var k := if i < j then i else i + 1;
      assert z.s.chain[DLR][k] == e;
      NowDue(z, k, e, d);
    }
    forall d, e | 0 <= d < |y.s.chain| && e in y.s.chain[d] && e < |y.s.evb|
      ensures e != y.s.eul[0] && (d != DLR ==> e !in y.s.chain[DLR])
    {
      NotOnTwo(y, n, p, d, e);
    }
  }

  lemma NotOnTwo(y: Sys, n: nat, p: nat, d: nat, e: nat)
    requires y.Ok(n, p, 0) && d < |y.s.chain| && e in y.s.chain[d] && |y.s.chain| > DLR
    ensures d != DLR ==> e !in y.s.chain[DLR]
    ensures y.s.eul != [] ==> e != y.s.eul[0]
  {
    hide ProcOk, TasksOk, Side, Kept, Owned, Done, Flagged, OneEach;
    var k: nat :| k < |y.s.chain[d]| && y.s.chain[d][k] == e;
    if d != DLR && e in y.s.chain[DLR] {
      var l: nat :| l < |y.s.chain[DLR]| && y.s.chain[DLR][l] == e;
      ChainApart(y.s, d, k, DLR, l);
    }
    if y.s.eul != [] {
      HeadFree(y.s);
    }
  }

  lemma DuePlace(y: Sys, e: nat, d: int) returns (i: nat)
    requires DueIn(y, e, d)
    ensures InRange(y.s) && |y.s.chain| > DLR && i < |y.s.chain[DLR]| && y.s.chain[DLR][i] == e && Before(Deltas(y.s), i + 1) == d
  {
    i :| 0 <= i < |y.s.chain[DLR]| && y.s.chain[DLR][i] == e && Before(Deltas(y.s), i + 1) == d;
  }

  lemma NowDue(z: Sys, i: nat, e: nat, d: int)
    requires InRange(z.s) && |z.s.chain| > DLR && i < |z.s.chain[DLR]| && z.s.chain[DLR][i] == e && Before(Deltas(z.s), i + 1) == d
    ensures DueIn(z, e, d)
  {
  }
}

// What the wait lists of the AES hold (aes/geminput.c, aes/gemflag.c, aes/gemqueue.c): timers in
// order, no waiter beside a key that is there, and none for a free semaphore.
module AesWaits {
  import opened Lists
  import opened Pools
  import opened AesEvents
  import opened AesProcs
  import opened DelayList
  import opened PipeLine

  // The chains of a system of n processes: each one's waits for a key, a button, the mouse, a
  // message to read and room to write one; and the wait for the semaphore.
  function Kb(p: nat): nat { 2 + p }
  function Bt(n: nat, p: nat): nat { 2 + n + p }
  function Mo(n: nat, p: nat): nat { 2 + 2 * n + p }
  function Qd(n: nat, p: nat): nat { 2 + 3 * n + p }
  function Qn(n: nat, p: nat): nat { 2 + 4 * n + p }
  function Sy(n: nat): nat { 2 + 5 * n }

  // The ticks in the delay list.
  ghost function Deltas(s: Events): (d: seq<int>)
    requires InRange(s) && |s.chain| > DLR
    ensures |d| == |s.chain[DLR]|
  {
    seq(|s.chain[DLR]|, i requires 0 <= i < |s.chain[DLR]| => s.evb[s.chain[DLR][i]].parm)
  }

  // tas: how often the owner holds the semaphore; owner: -1 when it is free.
  ghost predicate SemOk(s: Events, tas: int, owner: int)
    requires InRange(s)
  {
    && |s.chain| == 3 + 5 * |s.evlist| && tas >= 0 && -1 <= owner < |s.evlist|
    && (tas == 0 <==> owner == -1) && (s.chain[Sy(|s.evlist|)] != [] ==> tas > 0)
    && forall i :: 0 <= i < |s.chain[Sy(|s.evlist|)]| ==>
         s.evb[s.chain[Sy(|s.evlist|)][i]].pd != owner && s.evb[s.chain[Sy(|s.evlist|)][i]].mask == MUTEX
  }

  // No process waits for a key that is there, and the bytes queued in each message pipe fit it.
  ghost predicate QueuesOk(s: Events, keys: seq<seq<int>>, qindex: seq<int>) {
    && |s.chain| == 3 + 5 * |s.evlist| && |keys| == |qindex| == |s.evlist|
    && (forall p {:trigger keys[p]} :: 0 <= p < |keys| && s.chain[Kb(p)] != [] ==> keys[p] == [])
    && (forall p {:trigger qindex[p]} :: 0 <= p < |qindex| ==> InBuffer(qindex[p]))
  }

  ghost predicate Side(s: Events, tas: int, owner: int, keys: seq<seq<int>>, qindex: seq<int>)
    requires InRange(s) && |s.chain| > DLR
  {
    Ticks(Deltas(s)) && SemOk(s, tas, owner) && QueuesOk(s, keys, qindex)
  }

  function Masks(evb: seq<Evb>, l: seq<nat>): set<Mask>
    requires forall i :: 0 <= i < |l| ==> l[i] < |evb|
  {
    set i | 0 <= i < |l| :: evb[l[i]].mask
  }

  // A process that runs its program has no event pending; one in mwait() has the blocks for just
  // what it waits for.
  ghost predicate TaskOk(s: Events, evwait: seq<set<Mask>>, task: seq<Task>, p: nat)
    requires InRange(s) && p < |s.evlist| == |evwait| == |task|
  {
    match task[p]
    case Free => s.evlist[p] == []
    case Blocked(m) => evwait[p] == m && Masks(s.evb, s.evlist[p]) == m && |m| <= EVBS_PER_PD
  }

  // But for the process ex, which is busy issuing or collecting.
  ghost predicate TasksOk(s: Events, evwait: seq<set<Mask>>, task: seq<Task>, ex: int)
    requires InRange(s)
  {
    |s.evlist| == |evwait| == |task| && forall p :: 0 <= p < |task| && p != ex ==> TaskOk(s, evwait, task, p)
  }

  lemma MasksMore(evb: seq<Evb>, l: seq<nat>, i: nat)
    requires (forall k :: 0 <= k < |l| ==> l[k] < |evb|) && i < |l|
    ensures Masks(evb, l[..i + 1]) == Masks(evb, l[..i]) + {evb[l[i]].mask}
  {
    assert l[..i + 1] == l[..i] + [l[i]];
    forall m ensures m in Masks(evb, l[..i + 1]) <==> m in Masks(evb, l[..i]) + {evb[l[i]].mask} {
      if m in Masks(evb, l[..i]) {
        var k :| 0 <= k < i && evb[l[..i][k]].mask == m;
        assert evb[l[..i + 1][k]].mask == m;
      }
      if m == evb[l[i]].mask {
        assert evb[l[..i + 1][i]].mask == m;
      }
    }
  }

  // A list with one block for each of its masks is no longer than the masks are many.
  lemma {:induction false} MasksSize(evb: seq<Evb>, l: seq<nat>)
    requires forall i :: 0 <= i < |l| ==> l[i] < |evb|
    requires forall i, j :: 0 <= i < j < |l| ==> evb[l[i]].mask != evb[l[j]].mask
    ensures |Masks(evb, l)| == |l|
  {
    if l == [] {
      assert Masks(evb, l) == {};
    } else {
      var n := |l| - 1;
      MasksSize(evb, l[..n]);
      MasksMore(evb, l, n);
      assert l[..n + 1] == l;
      NewMask(evb, l, n);
    }
  }

  lemma NewMask(evb: seq<Evb>, l: seq<nat>, n: nat)
    requires n < |l| && forall i :: 0 <= i < |l| ==> l[i] < |evb|
    requires forall i, j :: 0 <= i < j < |l| ==> evb[l[i]].mask != evb[l[j]].mask
    ensures evb[l[n]].mask !in Masks(evb, l[..n])
  {
  }

  lemma ShareHeld(s: Events, evwait: seq<set<Mask>>, task: seq<Task>, ex: int, p: nat)
    requires EvOk(s) && TasksOk(s, evwait, task, ex) && p < |task| && p != ex
    ensures |s.evlist[p]| <= EVBS_PER_PD
  {
    MasksSize(s.evb, s.evlist[p]);
    assert TaskOk(s, evwait, task, p);
  }

  // The panic of iasync() is out of reach: a process that asks for another event block holds less
  // than its share, and the others no more than theirs.
  lemma NoPanic(s: Events, evwait: seq<set<Mask>>, task: seq<Task>, p: nat)
    requires EvOk(s) && TasksOk(s, evwait, task, p) && p < |task|
    requires |Masks(s.evb, s.evlist[p])| < EVBS_PER_PD
    ensures s.eul != []
  {
    MasksSize(s.evb, s.evlist[p]);
    forall q | 0 <= q < |s.evlist| ensures |s.evlist[q]| <= EVBS_PER_PD {
      if q != p {
        ShareHeld(s, evwait, task, p, q);
      }
    }
    BlockFree(s, p);
  }

  // The blocks of the chains other than c and the first are as they were.
  ghost predicate Beside(s: Events, t: Events, c: nat) {
    && |t.evb| == |s.evb| && |t.chain| == |s.chain| && |t.evlist| == |s.evlist|
    && (forall d :: ZLR < d < |s.chain| && d != c ==> t.chain[d] == s.chain[d])
    && (forall d, i :: ZLR < d < |s.chain| && 0 <= i < |s.chain[d]| && s.chain[d][i] < |s.evb| && d != c ==>
          t.evb[s.chain[d][i]] == s.evb[s.chain[d][i]])
  }

  lemma IssuedBeside(s: Events, p: nat, b: Evb, c: nat, j: nat)
    requires EvOk(s) && s.eul != [] && p < |s.evlist| && c < |s.chain| && j <= |s.chain[c]| && s.eul[0] < |s.evb|
    ensures Beside(s, Issued(s, p, b, c, j), c)
  {
    HeadFree(s);
  }

  lemma CompletedBeside(s: Events, c: nat, k: nat, parm: int, ret: int)
    requires EvOk(s) && ZLR < c < |s.chain| && k < |s.chain[c]| && s.chain[c][k] < |s.evb|
    requires s.evb[s.chain[c][k]].pd < |s.evflg|
    ensures Beside(s, Completed(s, c, k, parm, ret), c)
  {
    forall d, i | ZLR < d < |s.chain| && 0 <= i < |s.chain[d]| && d != c ensures s.chain[d][i] != s.chain[c][k] {
      ChainApart(s, d, i, c, k);
    }
  }

  // What is off a chain leaves the rest of it as it was.
  lemma DeltasBeside(s: Events, t: Events, c: nat)
    requires InRange(s) && InRange(t) && |s.chain| > DLR && Beside(s, t, c) && c != DLR
    ensures Deltas(t) == Deltas(s)
  {
  }

  lemma SemBeside(s: Events, t: Events, c: nat, tas: int, owner: int)
    requires InRange(s) && InRange(t) && SemOk(s, tas, owner) && Beside(s, t, c) && c != Sy(|s.evlist|)
    ensures SemOk(t, tas, owner)
  {
  }

  lemma QueuesBeside(s: Events, t: Events, c: nat, keys: seq<seq<int>>, qindex: seq<int>)
    requires QueuesOk(s, keys, qindex) && Beside(s, t, c)
    requires forall p :: 0 <= p < |s.evlist| ==> c != Kb(p)
    ensures QueuesOk(t, keys, qindex)
  {
  }

  // One block left the chain c, and the others on it are as they were.
  ghost predicate Left(s: Events, t: Events, c: nat, k: nat) {
    && Beside(s, t, c) && c < |s.chain| && k < |s.chain[c]| && t.chain[c] == Cut(s.chain[c], k)
    && forall i :: 0 <= i < |s.chain[c]| && i != k && s.chain[c][i] < |s.evb| ==> t.evb[s.chain[c][i]] == s.evb[s.chain[c][i]]
  }

  lemma CompletedLeft(s: Events, c: nat, k: nat, parm: int, ret: int)
    requires EvOk(s) && ZLR < c < |s.chain| && k < |s.chain[c]| && s.chain[c][k] < |s.evb|
    requires s.evb[s.chain[c][k]].pd < |s.evflg|
    ensures Left(s, Completed(s, c, k, parm, ret), c, k)
  {
    CompletedBeside(s, c, k, parm, ret);
    forall i | 0 <= i < |s.chain[c]| && i != k ensures s.chain[c][i] != s.chain[c][k] {
      ChainApart(s, c, i, c, k);
    }
  }

  lemma SemLeft(s: Events, t: Events, c: nat, k: nat, tas: int, owner: int)
    requires InRange(s) && InRange(t) && SemOk(s, tas, owner) && Left(s, t, c, k)
    ensures SemOk(t, tas, owner)
  {
    hide Cut;
    CutIn(s.chain[c], k);
  }

  lemma QueuesLeft(s: Events, t: Events, c: nat, k: nat, keys: seq<seq<int>>, qindex: seq<int>)
    requires QueuesOk(s, keys, qindex) && Left(s, t, c, k)
    ensures QueuesOk(t, keys, qindex)
  {
  }

  lemma SideLeft(s: Events, t: Events, c: nat, k: nat, tas: int, owner: int, keys: seq<seq<int>>, qindex: seq<int>)
    requires InRange(s) && InRange(t) && |s.chain| > DLR && Side(s, tas, owner, keys, qindex) && Left(s, t, c, k)
    ensures |t.chain| > DLR && Side(t, tas, owner, keys, qindex)
    ensures Deltas(t) == if c == DLR then Cut(Deltas(s), k) else Deltas(s)
  {
    hide SemOk, QueuesOk;
    if c == DLR {
      LeftDeltas(s, t, k);
    } else {
      DeltasBeside(s, t, c);
    }
    SemLeft(s, t, c, k, tas, owner);
    QueuesLeft(s, t, c, k, keys, qindex);
  }

  // An event that is over at once joins none of the wait lists.
  lemma SideAtOnce(s: Events, t: Events, tas: int, owner: int, keys: seq<seq<int>>, qindex: seq<int>)
    requires InRange(s) && InRange(t) && |s.chain| > DLR && Side(s, tas, owner, keys, qindex) && Beside(s, t, ZLR)
    ensures |t.chain| > DLR && Side(t, tas, owner, keys, qindex) && Deltas(t) == Deltas(s)
  {
    hide SemOk, QueuesOk;
    DeltasBeside(s, t, ZLR);
    SemBeside(s, t, ZLR, tas, owner);
    QueuesBeside(s, t, ZLR, keys, qindex);
  }

  // A process may be put on a wait list only when what it waits for is not there.
  ghost predicate MayWait(n: nat, p: nat, c: nat, mask: Mask, tas: int, owner: int, keys: seq<seq<int>>, qindex: seq<int>) {
    && n == |keys| == |qindex| && DLR <= c < 3 + 5 * n
    && (forall q :: 0 <= q < n && c == Kb(q) ==> keys[q] == [])
    && (c == Sy(n) ==> tas > 0 && owner != p && mask == MUTEX)
  }

  lemma SideIssued(s: Events, p: nat, b: Evb, c: nat, j: nat, tas: int, owner: int, keys: seq<seq<int>>, qindex: seq<int>)
    requires EvOk(s) && Side(s, tas, owner, keys, qindex) && s.eul != [] && p < |s.evlist|
    requires c < |s.chain| && j <= |s.chain[c]| && b.pd == p && (c == DLR ==> b.parm >= 0)
    requires MayWait(|s.evlist|, p, c, b.mask, tas, owner, keys, qindex)
    requires s.eul[0] < |s.evb| && InRange(Issued(s, p, b, c, j))
    ensures Side(Issued(s, p, b, c, j), tas, owner, keys, qindex)
  {
    hide Kept, Chained, Owned, Done, Flagged, OneEach;
    var t := Issued(s, p, b, c, j);
    IssuedBeside(s, p, b, c, j);
    HeadFree(s);
    if c == DLR {
      IssuedDeltas(s, p, b, j);
    } else {
      DeltasBeside(s, t, c);
    }
    IssuedSem(s, p, b, c, j, tas, owner);
    IssuedQueues(s, t, c, keys, qindex, p, b.mask, tas, owner);
  }

  // A block put on the delay list adds its ticks there.
  lemma IssuedDeltas(s: Events, p: nat, b: Evb, j: nat)
    requires InRange(s) && |s.evflg| == |s.evlist| && s.eul != [] && p < |s.evlist| && s.eul[0] < |s.evb|
    requires |s.chain| > DLR && j <= |s.chain[DLR]| && InRange(Issued(s, p, b, DLR, j))
    requires forall d, i :: 0 <= d < |s.chain| && 0 <= i < |s.chain[d]| ==> s.chain[d][i] != s.eul[0]
    ensures Deltas(Issued(s, p, b, DLR, j)) == Put(Deltas(s), j, b.parm)
  {
    hide Put;
    var t, d, e := Issued(s, p, b, DLR, j), Deltas(s), Deltas(Issued(s, p, b, DLR, j));
    PutIn(s.chain[DLR], j, s.eul[0]);
    PutIn(d, j, b.parm);
    assert e[j] == b.parm && (forall i :: 0 <= i < j ==> e[i] == d[i]) && (forall i :: j < i < |e| ==> e[i] == d[i - 1]);
  }

  // A block that leaves the delay list takes its ticks away.
  lemma LeftDeltas(s: Events, t: Events, k: nat)
    requires InRange(s) && InRange(t) && Left(s, t, DLR, k)
    ensures |t.chain| > DLR && Deltas(t) == Cut(Deltas(s), k)
  {
    CutIn(s.chain[DLR], k);
    CutIn(Deltas(s), k);
  }

  lemma IssuedSem(s: Events, p: nat, b: Evb, c: nat, j: nat, tas: int, owner: int)
    requires InRange(s) && |s.evflg| == |s.evlist| && SemOk(s, tas, owner) && s.eul != [] && p < |s.evlist|
    requires c < |s.chain| && j <= |s.chain[c]| && b.pd == p && s.eul[0] < |s.evb|
    requires forall d, i :: 0 <= d < |s.chain| && 0 <= i < |s.chain[d]| ==> s.chain[d][i] != s.eul[0]
    requires c == Sy(|s.evlist|) ==> tas > 0 && owner != p && b.mask == MUTEX
    requires InRange(Issued(s, p, b, c, j))
    ensures SemOk(Issued(s, p, b, c, j), tas, owner)
  {
  }

  lemma IssuedQueues(s: Events, t: Events, c: nat, keys: seq<seq<int>>, qindex: seq<int>, p: nat, mask: Mask, tas: int, owner: int)
    requires QueuesOk(s, keys, qindex) && Beside(s, t, c)
    requires MayWait(|s.evlist|, p, c, mask, tas, owner, keys, qindex)
    ensures QueuesOk(t, keys, qindex)
  {
  }

  lemma TasksCompleted(s: Events, c: nat, k: nat, parm: int, ret: int, evwait: seq<set<Mask>>, task: seq<Task>, ex: int)
    requires EvOk(s) && TasksOk(s, evwait, task, ex) && ZLR < c < |s.chain| && k < |s.chain[c]| && s.chain[c][k] < |s.evb|
    requires s.evb[s.chain[c][k]].pd < |s.evflg| && InRange(Completed(s, c, k, parm, ret))
    ensures TasksOk(Completed(s, c, k, parm, ret), evwait, task, ex)
    ensures forall p :: 0 <= p < |s.evlist| ==>
      Masks(Completed(s, c, k, parm, ret).evb, s.evlist[p]) == Masks(s.evb, s.evlist[p])
  {
    var t := Completed(s, c, k, parm, ret);
    assert forall x :: 0 <= x < |s.evb| ==> t.evb[x].mask == s.evb[x].mask;
    forall p | 0 <= p < |s.evlist| ensures Masks(t.evb, s.evlist[p]) == Masks(s.evb, s.evlist[p]) {
    }
    forall p | 0 <= p < |task| && p != ex ensures TaskOk(t, evwait, task, p) {
      assert TaskOk(s, evwait, task, p);
    }
  }

  // What happens to the blocks of the process ex leaves the other processes' tasks alone.
  lemma TasksOther(s: Events, t: Events, evwait: seq<set<Mask>>, evwait': seq<set<Mask>>, task: seq<Task>, task': seq<Task>, ex: nat)
    requires InRange(s) && InRange(t) && TasksOk(s, evwait, task, ex) && |t.evlist| == |s.evlist|
    requires |evwait'| == |evwait| && |task'| == |task|
    requires forall p :: 0 <= p < |task| && p != ex ==> t.evlist[p] == s.evlist[p] && evwait'[p] == evwait[p] && task'[p] == task[p]
    requires forall p, i :: 0 <= p < |s.evlist| && p != ex && 0 <= i < |s.evlist[p]| ==>
      s.evlist[p][i] < |t.evb| && t.evb[s.evlist[p][i]].mask == s.evb[s.evlist[p][i]].mask
    ensures TasksOk(t, evwait', task', ex)
  {
    forall p | 0 <= p < |task| && p != ex ensures TaskOk(t, evwait', task', p) {
      assert TaskOk(s, evwait, task, p);
      assert Masks(t.evb, t.evlist[p]) == Masks(s.evb, s.evlist[p]);
    }
  }

  lemma TasksIssued(s: Events, p: nat, b: Evb, c: nat, j: nat, evwait: seq<set<Mask>>, task: seq<Task>)
    requires EvOk(s) && TasksOk(s, evwait, task, p) && s.eul != [] && p < |s.evlist| && c < |s.chain| && j <= |s.chain[c]|
    requires s.eul[0] < |s.evb| && InRange(Issued(s, p, b, c, j))
    ensures var t := Issued(s, p, b, c, j);
            TasksOk(t, evwait, task, p) && Masks(t.evb, t.evlist[p]) == Masks(s.evb, s.evlist[p]) + {b.mask}
  {
    hide Put, Kept, Chained, Owned, Done, Flagged, OneEach;
    HeadFree(s);
    var t := Issued(s, p, b, c, j);
    TasksOther(s, t, evwait, evwait, task, task, p);
    assert t.evlist[p] == [s.eul[0]] + s.evlist[p];
    forall m ensures m in Masks(t.evb, t.evlist[p]) <==> m in Masks(s.evb, s.evlist[p]) + {b.mask} {
      if m in Masks(s.evb, s.evlist[p]) {
        var i :| 0 <= i < |s.evlist[p]| && s.evb[s.evlist[p][i]].mask == m;
        assert t.evb[t.evlist[p][i + 1]].mask == m;
      }
      if m == b.mask {
        assert t.evb[t.evlist[p][0]].mask == m;
      }
    }
  }
}

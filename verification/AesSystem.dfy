// The state of the AES kernel as a whole, and what each of its steps keeps.
module AesSystem {
  import opened Lists
  import opened Pools
  import opened AesEvents
  import opened AesProcs
  import opened DelayList
  import opened AesWaits
  import opened PipeLine

  // Everything a step must keep: the event blocks, the processes, what each process waits for, and
  // the wait lists.  ex is a process busy issuing or collecting its events, -1 for none; skip is 1
  // while the head of the ready list is on its way into disp().
  datatype Sys = Sys(s: Events, pr: Procs, task: seq<Task>, curpid: nat,
                     tas: int, owner: int, keys: seq<seq<int>>, qindex: seq<int>)
  {
    ghost predicate Ok(n: nat, ex: int, skip: nat) {
      && EvOk(s) && |s.evlist| == n && |s.chain| == 3 + 5 * n && curpid <= n
      && ProcOk(pr, s.evflg, task, curpid, skip)
      && TasksOk(s, pr.evwait, task, ex)
      && Side(s, tas, owner, keys, qindex)
      && (forall p :: curpid <= p < n ==> task[p] == Free)
    }

    // p is the running process, in its own program.
    ghost predicate Runs(p: int) {
      pr.rlr != [] && p == pr.rlr[0] && 0 <= p < |task| && task[p] == Free
    }
  }

  // There is such a waiting block.
  ghost predicate CanFire(y: Sys, c: nat, k: nat) {
    && ZLR < c < |y.s.chain| && k < |y.s.chain[c]| && y.s.chain[c][k] < |y.s.evb|
    && y.s.evb[y.s.chain[c][k]].pd < |y.s.evflg| == |y.pr.waitin| == |y.pr.evwait|
  }

  // azombie() on a waiting block: it joins the completed ones and its process is woken.
  ghost function Fired(y: Sys, c: nat, k: nat, parm: int, ret: int): Sys
    requires CanFire(y, c, k)
  {
    var t := Completed(y.s, c, k, parm, ret);
    y.(s := t, pr := Woken(y.pr, t.evflg, y.s.evb[y.s.chain[c][k]].pd))
  }

  lemma FiredOk(y: Sys, n: nat, ex: int, skip: nat, c: nat, k: nat, parm: int, ret: int)
    requires y.Ok(n, ex, skip) && ZLR < c < |y.s.chain| && k < |y.s.chain[c]|
    ensures CanFire(y, c, k) && |y.s.evflg| == n && Fired(y, c, k, parm, ret).Ok(n, ex, skip)
    ensures InRange(y.s) && InRange(Fired(y, c, k, parm, ret).s) && Fired(y, c, k, parm, ret).s.evlist == y.s.evlist
    ensures |y.s.chain| > DLR && |Fired(y, c, k, parm, ret).s.chain| > DLR
    ensures Deltas(Fired(y, c, k, parm, ret).s) == if c == DLR then Cut(Deltas(y.s), k) else Deltas(y.s)
    ensures forall p :: 0 <= p < |y.s.evlist| ==> Masks(Fired(y, c, k, parm, ret).s.evb, y.s.evlist[p]) == Masks(y.s.evb, y.s.evlist[p])
  {
    hide EvOk, ProcOk, TasksOk, Side, Woken;
    FiredWho(y, n, ex, skip, c, k);
    CompletedOk(y.s, c, k, parm, ret);
    var t, p := Completed(y.s, c, k, parm, ret), y.s.evb[y.s.chain[c][k]].pd;
    CompletedRange(y.s, t);
    TasksCompleted(y.s, c, k, parm, ret, y.pr.evwait, y.task, ex);
    CompletedLeft(y.s, c, k, parm, ret);
    SideLeft(y.s, t, c, k, y.tas, y.owner, y.keys, y.qindex);
    WokenOk(y.pr, y.s.evflg, t.evflg, y.task, y.curpid, skip, p);
    WokenSame(y.pr, t.evflg, p);
  }

  // The state after a wait was ended, field by field.
  lemma FiredIs(y: Sys, c: nat, k: nat, parm: int, ret: int, z: Sys)
    requires CanFire(y, c, k)
    requires var e, p := y.s.chain[c][k], y.s.evb[y.s.chain[c][k]].pd;
             && z.s.evb == y.s.evb[e := Zombie(y.s.evb[e], parm, ret)] && z.s.eul == y.s.eul && z.s.evlist == y.s.evlist
             && z.s.chain == y.s.chain[c := Cut(y.s.chain[c], k)][ZLR := [e] + y.s.chain[ZLR]]
             && z.s.evflg == y.s.evflg[p := y.s.evflg[p] + {y.s.evb[e].mask}]
             && z.pr == Woken(y.pr, z.s.evflg, p)
             && z == y.(s := z.s, pr := z.pr)
    ensures z == Fired(y, c, k, parm, ret)
  {
  }

  // The other chains stay.
  lemma FiredChain(y: Sys, c: nat, k: nat, parm: int, ret: int)
    requires CanFire(y, c, k)
    ensures var z := Fired(y, c, k, parm, ret);
            && |z.s.chain| == |y.s.chain| && z.s.chain[c] == Cut(y.s.chain[c], k) && z.pr.rlr == y.pr.rlr && z.task == y.task
            && (forall d :: ZLR < d < |y.s.chain| && d != c ==> z.s.chain[d] == y.s.chain[d])
            && z.s.evlist == y.s.evlist && z.pr.evwait == y.pr.evwait
  {
    WokenSame(y.pr, Completed(y.s, c, k, parm, ret).evflg, y.s.evb[y.s.chain[c][k]].pd);
  }

  lemma FiredWho(y: Sys, n: nat, ex: int, skip: nat, c: nat, k: nat)
    requires y.Ok(n, ex, skip) && ZLR < c < |y.s.chain| && k < |y.s.chain[c]|
    ensures y.s.chain[c][k] < |y.s.evb| && y.s.evb[y.s.chain[c][k]].pd < n
    ensures |y.s.evflg| == |y.pr.waitin| == |y.pr.evwait| == n == |y.task| == |y.keys| == |y.qindex| && InRange(y.s)
  {
    var p, i := OnList(y.s, c, k);
  }

  lemma CompletedRange(s: Events, t: Events)
    requires EvOk(s) && EvOk(t)
    ensures InRange(s) && InRange(t) && |s.chain| > DLR && |t.chain| > DLR
    ensures |s.evlist| == |s.evflg| && |t.evlist| == |t.evflg|
  {
  }

  lemma WokenSame(pr: Procs, evflg: seq<set<Mask>>, p: nat)
    requires p < |pr.waitin| == |pr.evwait| == |evflg|
    ensures Woken(pr, evflg, p).evwait == pr.evwait && Woken(pr, evflg, p).rlr == pr.rlr
    ensures |Woken(pr, evflg, p).waitin| == |pr.waitin|
    ensures p !in pr.nrl ==> Woken(pr, evflg, p) == pr
  {
  }

  ghost predicate CanIssue(y: Sys, p: nat, c: nat, j: nat) {
    && y.s.eul != [] && p < |y.s.evlist| == |y.s.evflg| && c < |y.s.chain| && j <= |y.s.chain[c]| && y.s.eul[0] < |y.s.evb|
  }

  ghost function Issue1(y: Sys, p: nat, b: Evb, c: nat, j: nat): Sys
    requires CanIssue(y, p, c, j)
  {
    y.(s := Issued(y.s, p, b, c, j))
  }

  lemma IssueIs(y: Sys, p: nat, b: Evb, c: nat, j: nat, z: Sys)
    requires CanIssue(y, p, c, j)
    requires var e := y.s.eul[0];
             && z.s.evb == y.s.evb[e := b] && z.s.eul == y.s.eul[1..] && z.s.evlist == y.s.evlist[p := [e] + y.s.evlist[p]]
             && z.s.chain == y.s.chain[c := Put(y.s.chain[c], j, e)]
             && z.s.evflg == (if b.complete then y.s.evflg[p := y.s.evflg[p] + {b.mask}] else y.s.evflg)
             && z == y.(s := z.s)
    ensures z == Issue1(y, p, b, c, j)
  {
  }

  lemma IssueChain(y: Sys, p: nat, b: Evb, c: nat, j: nat)
    requires CanIssue(y, p, c, j)
    ensures var z := Issue1(y, p, b, c, j);
            |z.s.chain| == |y.s.chain| && forall d :: 0 <= d < |z.s.chain| && d != c ==> z.s.chain[d] == y.s.chain[d]
  {
  }

  // iasync(): the running process p gets a block, on a wait list or completed at once.
  lemma IssueOk(y: Sys, n: nat, p: nat, b: Evb, c: nat, j: nat)
    requires y.Ok(n, p, 0) && y.Runs(p) && c < |y.s.chain| && j <= |y.s.chain[c]|
    requires b.pd == p && !b.nocancel && FlagsFit(b, c) && (c == DLR ==> b.parm >= 0)
    requires b.mask !in MasksOf(y, p) && |MasksOf(y, p)| < EVBS_PER_PD
    requires c != ZLR ==> MayWait(n, p, c, b.mask, y.tas, y.owner, y.keys, y.qindex)
    ensures CanIssue(y, p, c, j) && Issue1(y, p, b, c, j).Ok(n, p, 0)
    ensures Asked(y, Issue1(y, p, b, c, j), p, b.mask)
  {
    hide EvOk, ProcOk, TasksOk, Side, MayWait, Masks;
    SysSizes(y, n, p, 0);
    NoPanic(y.s, y.pr.evwait, y.task, p);
    NotIn(y.s, p, b.mask);
    IssuedOk(y.s, p, b, c, j);
    CompletedRange(y.s, y.s);
    var t := Issued(y.s, p, b, c, j);
    CompletedRange(y.s, t);
    TasksIssued(y.s, p, b, c, j, y.pr.evwait, y.task);
    if c == ZLR {
      IssuedBeside(y.s, p, b, c, j);
      SideAtOnce(y.s, t, y.tas, y.owner, y.keys, y.qindex);
    } else {
      SideIssued(y.s, p, b, c, j, y.tas, y.owner, y.keys, y.qindex);
    }
    SelfFlags(y.pr, y.s.evflg, t.evflg, y.task, y.curpid, p);
  }

  lemma NotIn(s: Events, p: nat, m: Mask)
    requires InRange(s) && p < |s.evlist| && m !in Masks(s.evb, s.evlist[p])
    ensures forall i :: 0 <= i < |s.evlist[p]| ==> s.evb[s.evlist[p][i]].mask != m
  {
    forall i | 0 <= i < |s.evlist[p]| ensures s.evb[s.evlist[p][i]].mask != m {
      assert s.evb[s.evlist[p][i]].mask in Masks(s.evb, s.evlist[p]);
    }
  }

  // The running process's own flags are no one else's business.
  lemma SelfFlags(pr: Procs, evflg: seq<set<Mask>>, evflg': seq<set<Mask>>, task: seq<Task>, started: nat, p: nat)
    requires ProcOk(pr, evflg, task, started, 0) && pr.rlr != [] && pr.rlr[0] == p && p < |task| && task[p] == Free
    requires |evflg'| == |evflg| && forall q :: 0 <= q < |evflg| && q != p ==> evflg'[q] == evflg[q]
    ensures ProcOk(pr, evflg', task, started, 0)
  {
    OnOne(pr, started);
  }

  // So are its own waits.
  lemma SelfWaits(pr: Procs, evflg: seq<set<Mask>>, task: seq<Task>, started: nat, p: nat, w: set<Mask>)
    requires ProcOk(pr, evflg, task, started, 0) && pr.rlr != [] && pr.rlr[0] == p && p < |task| && task[p] == Free
    ensures p < |pr.evwait| && ProcOk(pr.(evwait := pr.evwait[p := w]), evflg, task, started, 0)
  {
    OnOne(pr, started);
  }

  ghost predicate CanTake(y: Sys, p: nat, i: nat, k: nat) {
    && p < |y.s.evlist| == |y.s.evflg| == |y.pr.evwait| && i < |y.s.evlist[p]|
    && |y.s.chain| > ZLR && k < |y.s.chain[ZLR]| && y.s.evlist[p][i] < |y.s.evb|
  }

  lemma TakenIs(y: Sys, p: nat, i: nat, k: nat, z: Sys)
    requires CanTake(y, p, i, k)
    requires var e, m := y.s.evlist[p][i], y.s.evb[y.s.evlist[p][i]].mask;
             && z.s == Events(y.s.evb, [e] + y.s.eul, y.s.evlist[p := Cut(y.s.evlist[p], i)], y.s.chain[ZLR := Cut(y.s.chain[ZLR], k)],
                              y.s.evflg[p := y.s.evflg[p] - {m}])
             && z == y.(s := z.s, pr := y.pr.(evwait := y.pr.evwait[p := y.pr.evwait[p] - {m}]))
    ensures z == Taken(y, p, i, k)
  {
  }

  // apret(): the i-th block of the running process, completed, is given back.
  ghost function Taken(y: Sys, p: nat, i: nat, k: nat): Sys
    requires CanTake(y, p, i, k)
  {
    y.(s := Collected(y.s, p, i, k), pr := y.pr.(evwait := y.pr.evwait[p := y.pr.evwait[p] - {y.s.evb[y.s.evlist[p][i]].mask}]))
  }

  lemma TakenOk(y: Sys, n: nat, p: nat, i: nat, k: nat)
    requires y.Ok(n, p, 0) && y.Runs(p) && p < |y.s.evlist| && i < |y.s.evlist[p]|
    requires |y.s.chain| > ZLR && k < |y.s.chain[ZLR]| && y.s.evlist[p][i] == y.s.chain[ZLR][k]
    ensures CanTake(y, p, i, k) && Taken(y, p, i, k).Ok(n, p, 0) && Taken(y, p, i, k).Runs(p)
    ensures MasksOf(Taken(y, p, i, k), p) == MasksOf(y, p) - {y.s.evb[y.s.evlist[p][i]].mask}
  {
    hide EvOk, ProcOk, TasksOk, Side;
    CompletedRange(y.s, y.s);
    CollectedOk(y.s, p, i, k);
    var t, m := Collected(y.s, p, i, k), y.s.evb[y.s.evlist[p][i]].mask;
    CompletedRange(y.s, t);
    TasksSizes(y.s, y.pr.evwait, y.task, p);
    SelfWaits(y.pr, y.s.evflg, y.task, y.curpid, p, y.pr.evwait[p] - {m});
    var pr := y.pr.(evwait := y.pr.evwait[p := y.pr.evwait[p] - {m}]);
    SelfFlags(pr, y.s.evflg, t.evflg, y.task, y.curpid, p);
    TasksOther(y.s, t, y.pr.evwait, pr.evwait, y.task, y.task, p);
    SideAtOnce(y.s, t, y.tas, y.owner, y.keys, y.qindex);
    CutMasksOf(y.s, t, p, i);
  }

  lemma TasksSizes(s: Events, evwait: seq<set<Mask>>, task: seq<Task>, ex: int)
    requires InRange(s) && TasksOk(s, evwait, task, ex)
    ensures |s.evlist| == |evwait| == |task|
  {
  }

  ghost predicate CanDrop(y: Sys, p: nat, i: nat, c: nat, k: nat) {
    && p < |y.s.evlist| == |y.pr.evwait| && i < |y.s.evlist[p]|
    && c < |y.s.chain| && k < |y.s.chain[c]| && y.s.evlist[p][i] < |y.s.evb|
  }

  lemma DroppedIs(y: Sys, p: nat, i: nat, c: nat, k: nat, m: Mask, z: Sys)
    requires CanDrop(y, p, i, c, k) && m == y.s.evb[y.s.evlist[p][i]].mask
    requires z.s.eul == [y.s.evlist[p][i]] + y.s.eul && z.s.evlist == y.s.evlist[p := Cut(y.s.evlist[p], i)]
    requires z.s.chain == y.s.chain[c := Cut(y.s.chain[c], k)] && z.s.evb == y.s.evb && z.s.evflg == y.s.evflg
    requires z == y.(s := z.s, pr := y.pr.(evwait := y.pr.evwait[p := y.pr.evwait[p] - {m}]))
    ensures z == Dropped(y, p, i, c, k)
  {
  }

  // acancel(): the i-th block of the running process, still waiting, is given back.
  ghost function Dropped(y: Sys, p: nat, i: nat, c: nat, k: nat): Sys
    requires CanDrop(y, p, i, c, k)
  {
    y.(s := Cancelled(y.s, p, i, c, k),
       pr := y.pr.(evwait := y.pr.evwait[p := y.pr.evwait[p] - {y.s.evb[y.s.evlist[p][i]].mask}]))
  }

  lemma DroppedOk(y: Sys, n: nat, p: nat, i: nat, c: nat, k: nat)
    requires y.Ok(n, p, 0) && y.Runs(p) && p < |y.s.evlist| && i < |y.s.evlist[p]|
    requires ZLR < c < |y.s.chain| && k < |y.s.chain[c]| && y.s.evlist[p][i] == y.s.chain[c][k]
    ensures CanDrop(y, p, i, c, k) && Dropped(y, p, i, c, k).Ok(n, p, 0) && Dropped(y, p, i, c, k).Runs(p)
    ensures Lost(y, Dropped(y, p, i, c, k), p, i)
    ensures InRange(y.s) && InRange(Dropped(y, p, i, c, k).s) && |y.s.chain| > DLR
    ensures Deltas(Dropped(y, p, i, c, k).s) == if c == DLR then Cut(Deltas(y.s), k) else Deltas(y.s)
  {
    hide EvOk, ProcOk, TasksOk, Side;
    CompletedRange(y.s, y.s);
    CancelledOk(y.s, p, i, c, k);
    var t, m := Cancelled(y.s, p, i, c, k), y.s.evb[y.s.evlist[p][i]].mask;
    CompletedRange(y.s, t);
    TasksSizes(y.s, y.pr.evwait, y.task, p);
    SelfWaits(y.pr, y.s.evflg, y.task, y.curpid, p, y.pr.evwait[p] - {m});
    var pr := y.pr.(evwait := y.pr.evwait[p := y.pr.evwait[p] - {m}]);
    TasksOther(y.s, t, y.pr.evwait, pr.evwait, y.task, y.task, p);
    SideLeft(y.s, t, c, k, y.tas, y.owner, y.keys, y.qindex);
    CutMasksOf(y.s, t, p, i);
  }

  // The i-th event of a process is gone from its list and its waits; its flags are as they were.
  ghost predicate Lost(y: Sys, z: Sys, p: nat, i: nat) {
    && p < |y.s.evlist| == |z.s.evlist| && i < |y.s.evlist[p]| && y.s.evlist[p][i] < |y.s.evb| && |z.s.evb| == |y.s.evb|
    && p < |y.pr.evwait| == |z.pr.evwait| && z.s.evflg == y.s.evflg
    && var m := y.s.evb[y.s.evlist[p][i]].mask;
       && MasksOf(z, p) == MasksOf(y, p) - {m} && z.pr.evwait[p] == y.pr.evwait[p] - {m}
       && z.s.evlist[p] == Cut(y.s.evlist[p], i)
       && (forall x :: 0 <= x < |y.s.evb| ==> z.s.evb[x].mask == y.s.evb[x].mask && z.s.evb[x].complete == y.s.evb[x].complete)
  }

  // A timer's ticks are changed in place.
  ghost function Reticked(y: Sys, k: nat, v: int): Sys
    requires |y.s.chain| > DLR && k < |y.s.chain[DLR]| && y.s.chain[DLR][k] < |y.s.evb|
  {
    var e := y.s.chain[DLR][k];
    y.(s := y.s.(evb := y.s.evb[e := y.s.evb[e].(parm := v)]))
  }

  lemma RetickedOk(y: Sys, n: nat, ex: int, skip: nat, k: nat, v: int)
    requires y.Ok(n, ex, skip) && |y.s.chain| > DLR && k < |y.s.chain[DLR]| && v >= 0
    ensures y.s.chain[DLR][k] < |y.s.evb| && Reticked(y, k, v).Ok(n, ex, skip)
    ensures InRange(y.s) && InRange(Reticked(y, k, v).s) && Deltas(Reticked(y, k, v).s) == Deltas(y.s)[k := v]
    ensures Reticked(y, k, v).s.evlist == y.s.evlist
    ensures forall p :: 0 <= p < |y.s.evlist| ==> Masks(Reticked(y, k, v).s.evb, y.s.evlist[p]) == Masks(y.s.evb, y.s.evlist[p])
  {
    hide ProcOk, TasksOk, Kept, Chained, Owned, Done, Flagged, OneEach;
    var e := y.s.chain[DLR][k];
    CompletedRange(y.s, y.s);
    Reparm(y.s, e, v);
    var t := y.s.(evb := y.s.evb[e := y.s.evb[e].(parm := v)]);
    CompletedRange(y.s, t);
    RetickedTasks(y.s, t, e, v, y.pr.evwait, y.task, ex);
    forall i | 0 <= i < |y.s.chain[DLR]| && i != k ensures y.s.chain[DLR][i] != e {
      ChainApart(y.s, DLR, i, DLR, k);
    }
    assert Deltas(t) == Deltas(y.s)[k := v];
    RetickedSem(y.s, t, e, v, y.tas, y.owner);
  }

  lemma RetickedTasks(s: Events, t: Events, e: nat, v: int, evwait: seq<set<Mask>>, task: seq<Task>, ex: int)
    requires InRange(s) && InRange(t) && TasksOk(s, evwait, task, ex) && e < |s.evb|
    requires t == s.(evb := s.evb[e := s.evb[e].(parm := v)])
    ensures TasksOk(t, evwait, task, ex)
    ensures forall p :: 0 <= p < |s.evlist| ==> Masks(t.evb, s.evlist[p]) == Masks(s.evb, s.evlist[p])
  {
    assert forall x :: 0 <= x < |s.evb| ==> t.evb[x].mask == s.evb[x].mask;
    forall p | 0 <= p < |s.evlist| ensures Masks(t.evb, s.evlist[p]) == Masks(s.evb, s.evlist[p]) {
    }
    forall p | 0 <= p < |task| && p != ex ensures TaskOk(t, evwait, task, p) {
      assert TaskOk(s, evwait, task, p);
    }
  }

  lemma RetickedSem(s: Events, t: Events, e: nat, v: int, tas: int, owner: int)
    requires InRange(s) && InRange(t) && SemOk(s, tas, owner) && e < |s.evb|
    requires t == s.(evb := s.evb[e := s.evb[e].(parm := v)])
    ensures SemOk(t, tas, owner)
  {
  }

  // A process in its own program has no event pending, so it may be the busy one.
  lemma Busy(y: Sys, n: nat, p: nat)
    requires y.Ok(n, -1, 0) && y.Runs(p)
    ensures y.Ok(n, p, 0) && p < n == |y.s.evlist| && InRange(y.s) && y.s.evlist[p] == [] && Masks(y.s.evb, y.s.evlist[p]) == {}
  {
    assert TaskOk(y.s, y.pr.evwait, y.task, p);
  }

  lemma Idle(y: Sys, n: nat, p: nat)
    requires y.Ok(n, p, 0) && y.Runs(p) && p < |y.s.evlist| && y.s.evlist[p] == []
    ensures y.Ok(n, -1, 0)
  {
    forall q | 0 <= q < |y.task| ensures TaskOk(y.s, y.pr.evwait, y.task, q) {
    }
  }

  // mwait(): the running process has the blocks for m, and none of them is completed; it is marked
  // as waiting and left for disp().
  ghost function Waits(y: Sys, p: nat, m: set<Mask>): Sys
    requires p < |y.task| && p < |y.pr.waitin| && p < |y.pr.evwait|
  {
    y.(task := y.task[p := Blocked(m)], pr := y.pr.(waitin := y.pr.waitin[p := true], evwait := y.pr.evwait[p := m]))
  }

  lemma WaitsOk(y: Sys, n: nat, p: nat, m: set<Mask>)
    requires y.Ok(n, p, 0) && y.Runs(p) && p < |y.s.evlist| && InRange(y.s) && Masks(y.s.evb, y.s.evlist[p]) == m
    requires |m| <= EVBS_PER_PD && p < |y.s.evflg| && m * y.s.evflg[p] == {}
    ensures p < |y.pr.waitin| && p < |y.pr.evwait|
    ensures Waits(y, p, m).Ok(n, -1, 1) && Asleep(Waits(y, p, m).pr, y.s.evflg, Waits(y, p, m).task, p)
  {
    hide EvOk, Side, Conserved;
    OnOne(y.pr, y.curpid);
    var z := Waits(y, p, m);
    TasksSizes(y.s, y.pr.evwait, y.task, p);
    forall q | 0 <= q < |z.task| ensures TaskOk(z.s, z.pr.evwait, z.task, q) {
      assert q != p ==> TaskOk(y.s, y.pr.evwait, y.task, q);
    }
    assert Asleep(z.pr, z.s.evflg, z.task, p);
  }

  // Back in mwait(): the process that is run has an event it waited for, and its blocks are just
  // those it asked for.
  ghost function Resumed(y: Sys, p: nat): Sys
    requires p < |y.task|
  {
    y.(task := y.task[p := Free])
  }

  lemma ResumedOk(y: Sys, n: nat, p: nat)
    requires y.Ok(n, -1, 0) && y.pr.rlr != [] && y.pr.rlr[0] == p
    ensures p < |y.task| == |y.s.evlist| == |y.s.evflg| == |y.pr.evwait| == n && InRange(y.s)
    ensures y.task[p].Blocked? ==>
      (Resumed(y, p).Ok(n, p, 0) && Resumed(y, p).Runs(p) && y.pr.evwait[p] == y.task[p].m &&
       Masks(y.s.evb, y.s.evlist[p]) == y.task[p].m && y.task[p].m * y.s.evflg[p] != {})
  {
    hide EvOk, Side, Conserved;
    CompletedRange(y.s, y.s);
    OnOne(y.pr, y.curpid);
    TasksSizes(y.s, y.pr.evwait, y.task, -1);
    assert TaskOk(y.s, y.pr.evwait, y.task, p);
    var z := Resumed(y, p);
    forall q | 0 <= q < |z.task| && q != p ensures TaskOk(z.s, z.pr.evwait, z.task, q) {
      assert TaskOk(y.s, y.pr.evwait, y.task, q);
    }
    assert Runnable(y.pr, y.s.evflg, y.task, y.pr.rlr[0]);
  }

  // The queues and the semaphore change hands.
  lemma KeysOk(y: Sys, n: nat, ex: int, skip: nat, p: nat, l: seq<int>)
    requires y.Ok(n, ex, skip) && p < n && (y.s.chain[Kb(p)] != [] ==> l == [])
    ensures p < |y.keys| && y.(keys := y.keys[p := l]).Ok(n, ex, skip)
  {
    hide EvOk, ProcOk, TasksOk, SemOk;
    CompletedRange(y.s, y.s);
  }

  lemma RoomOk(y: Sys, n: nat, ex: int, skip: nat, p: nat, v: int)
    requires y.Ok(n, ex, skip) && p < n && InBuffer(v)
    ensures p < |y.qindex| && y.(qindex := y.qindex[p := v]).Ok(n, ex, skip)
  {
    hide EvOk, ProcOk, TasksOk, SemOk;
    CompletedRange(y.s, y.s);
  }

  lemma HeldOk(y: Sys, n: nat, ex: int, skip: nat, tas: int, owner: int)
    requires y.Ok(n, ex, skip)
    requires InRange(y.s) && SemOk(y.s, tas, owner)
    ensures y.(tas := tas, owner := owner).Ok(n, ex, skip)
  {
  }

  // The events a process has asked for.
  ghost function MasksOf(y: Sys, p: int): set<Mask> {
    if InRange(y.s) && 0 <= p < |y.s.evlist| then Masks(y.s.evb, y.s.evlist[p]) else {}
  }

  lemma SysSizes(y: Sys, n: nat, ex: int, skip: nat)
    requires y.Ok(n, ex, skip)
    ensures |y.s.evlist| == |y.s.evflg| == |y.pr.waitin| == |y.pr.evwait| == |y.task| == |y.keys| == |y.qindex| == n
    ensures |y.s.chain| == 3 + 5 * n && InRange(y.s)
    ensures forall i :: 0 <= i < |y.pr.rlr| ==> y.pr.rlr[i] < n
  {
    OnOne(y.pr, y.curpid);
  }

  // One more event was asked for by the running process; nothing else of its own changed.
  ghost predicate Asked(y: Sys, z: Sys, p: nat, m: Mask) {
    && z.task == y.task && z.pr.rlr == y.pr.rlr && z.pr.evwait == y.pr.evwait && z.curpid == y.curpid
    && MasksOf(z, p) == MasksOf(y, p) + {m}
  }

  // Another process's wait is over.
  lemma FiredAsked(y: Sys, z: Sys, n: nat, ex: int, skip: nat, c: nat, k: nat, parm: int, ret: int, p: nat, m: Mask)
    requires z.Ok(n, ex, skip) && ZLR < c < |z.s.chain| && k < |z.s.chain[c]| && Asked(y, z, p, m)
    ensures CanFire(z, c, k) && Asked(y, Fired(z, c, k, parm, ret), p, m)
  {
    FiredOk(z, n, ex, skip, c, k, parm, ret);
  }

  lemma CutMasksOf(s: Events, t: Events, p: nat, i: nat)
    requires EvOk(s) && InRange(t) && p < |s.evlist| && i < |s.evlist[p]| && t.evb == s.evb
    requires t.evlist == s.evlist[p := Cut(s.evlist[p], i)]
    ensures Masks(t.evb, t.evlist[p]) == Masks(s.evb, s.evlist[p]) - {s.evb[s.evlist[p][i]].mask}
  {
    CutMasks(s.evb, s.evlist[p], i);
  }

  lemma CutMasks(evb: seq<Evb>, l: seq<nat>, i: nat)
    requires (forall k :: 0 <= k < |l| ==> l[k] < |evb|) && i < |l|
    requires forall j, k :: 0 <= j < k < |l| ==> evb[l[j]].mask != evb[l[k]].mask
    ensures (forall k :: 0 <= k < |l| - 1 ==> Cut(l, i)[k] < |evb|)
    ensures Masks(evb, Cut(l, i)) == Masks(evb, l) - {evb[l[i]].mask}
  {
    CutIn(l, i);
    forall m ensures m in Masks(evb, Cut(l, i)) <==> m in Masks(evb, l) - {evb[l[i]].mask} {
      if m in Masks(evb, l) - {evb[l[i]].mask} {
        var k :| 0 <= k < |l| && evb[l[k]].mask == m;
        assert Cut(l, i)[if k < i then k else k - 1] == l[k];
      }
    }
  }

  // When all of a process's events are completed its flags are just their masks.
  lemma AllDone(y: Sys, n: nat, ex: int, skip: nat, p: nat)
    requires y.Ok(n, ex, skip) && p < |y.s.evlist| && InRange(y.s)
    requires forall i :: 0 <= i < |y.s.evlist[p]| ==> y.s.evb[y.s.evlist[p][i]].complete
    ensures p < |y.s.evflg| && MasksOf(y, p) == y.s.evflg[p]
  {
    forall m ensures m in MasksOf(y, p) <==> m in y.s.evflg[p] {
      if m in y.s.evflg[p] {
        assert HasDone(y.s.evb, y.s.evlist[p], m);
      }
    }
  }

  lemma LostAgain(y: Sys, z: Sys, w: Sys, p: nat, i: nat)
    requires Lost(z, w, p, i) && z.s.evlist == y.s.evlist && z.s.evflg == y.s.evflg && z.pr == y.pr && MasksOf(z, p) == MasksOf(y, p)
    requires |z.s.evb| == |y.s.evb| && forall x :: 0 <= x < |y.s.evb| ==>
      z.s.evb[x].mask == y.s.evb[x].mask && z.s.evb[x].complete == y.s.evb[x].complete
    ensures Lost(y, w, p, i)
  {
  }

  lemma NoMasks(y: Sys, p: nat)
    requires InRange(y.s) && p < |y.s.evlist| && MasksOf(y, p) == {}
    ensures y.s.evlist[p] == []
  {
    SomeMask(y.s.evb, y.s.evlist[p]);
  }

  lemma SomeMask(evb: seq<Evb>, l: seq<nat>)
    requires forall i :: 0 <= i < |l| ==> l[i] < |evb|
    ensures l != [] ==> Masks(evb, l) != {}
  {
    if l != [] {
      assert evb[l[0]].mask in Masks(evb, l);
    }
  }

  // A block completed at once sets its flag, and no wait that ends takes a flag away.
  lemma IssueFlag(y: Sys, p: nat, b: Evb, c: nat, j: nat)
    requires CanIssue(y, p, c, j) && b.complete
    ensures p < |Issue1(y, p, b, c, j).s.evflg| && b.mask in Issue1(y, p, b, c, j).s.evflg[p]
  {
  }

  lemma FiredFlags(y: Sys, c: nat, k: nat, parm: int, ret: int, p: nat)
    requires CanFire(y, c, k) && p < |y.s.evflg|
    ensures |Fired(y, c, k, parm, ret).s.evflg| == |y.s.evflg| && y.s.evflg[p] <= Fired(y, c, k, parm, ret).s.evflg[p]
  {
  }

  // What the invariant of the system comes to.  Each started process is on exactly one of the three
  // lists; one on the nrl has no flag it waits for, and one that is ready inside mwait() has such a
  // flag.  Each event block is free or on one event list, and then on one chain as well.  A process
  // in its own program has none.  The semaphore is free exactly at count 0, and only those that do
  // not own it wait for it.
  lemma SystemFacts(y: Sys, n: nat)
    requires y.Ok(n, -1, 0)
    ensures forall p: nat :: p < y.curpid ==> multiset(y.pr.rlr)[p] + multiset(y.pr.drl)[p] + multiset(y.pr.nrl)[p] == 1
    ensures forall p :: p in y.pr.nrl ==> p < n && y.pr.evwait[p] * y.s.evflg[p] == {} && y.pr.waitin[p]
    ensures forall p :: p in y.pr.rlr && y.task[p].Blocked? ==> y.pr.evwait[p] * y.s.evflg[p] != {}
    ensures forall e: nat {:trigger Held(y.s.evlist, e)} :: e < |y.s.evb| ==>
      multiset(y.s.eul)[e] + Held(y.s.evlist, e) == 1 && Held(y.s.chain, e) == Held(y.s.evlist, e)
    ensures forall p :: 0 <= p < n && y.task[p] == Free ==> y.s.evlist[p] == []
    ensures y.tas == 0 <==> y.owner == -1
    ensures forall i :: 0 <= i < |y.s.chain[Sy(n)]| ==>
      y.tas > 0 && y.s.evb[y.s.chain[Sy(n)][i]].pd != y.owner && y.s.evb[y.s.chain[Sy(n)][i]].mask == MUTEX
  {
    SysSizes(y, n, -1, 0);
    OnOne(y.pr, y.curpid);
    forall p: nat | p < y.curpid
      ensures multiset(y.pr.rlr)[p] + multiset(y.pr.drl)[p] + multiset(y.pr.nrl)[p] == 1
    {
      TwoLists(y.pr.drl, y.pr.nrl, p);
      assert Held([y.pr.drl, y.pr.nrl], p) >= 0;
    }
    forall p | 0 <= p < n && y.task[p] == Free ensures y.s.evlist[p] == [] {
      assert TaskOk(y.s, y.pr.evwait, y.task, p);
    }
  }
}

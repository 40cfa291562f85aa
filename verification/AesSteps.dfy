// What single calls of the AES kernel do to its state: an event that is over at once or waits, a
// message passed on, timers and waits that end.
module AesSteps {
  import opened Lists
  import opened Pools
  import opened AesEvents
  import opened AesProcs
  import opened DelayList
  import opened AesWaits
  import opened AesPipes
  import opened AesSystem
  import opened PipeLine
  import opened PipeBytes

  // The process has the flag of an event.
  ghost predicate Flag(y: Sys, p: nat, m: Mask) {
    p < |y.s.evflg| && m in y.s.evflg[p]
  }

  // The process p asked for the event m, which is over at once with the value ret.
  ghost predicate Over(y: Sys, z: Sys, p: nat, m: Mask, parm: int, ret: int) {
    CanIssue(y, p, ZLR, 0) && z == Issue1(y, p, Evb(p, m, parm, false, true, false, ret), ZLR, 0)
  }

  // It asked for the event and waits for it, the first one of the chain c.
  ghost predicate Pending(y: Sys, z: Sys, p: nat, m: Mask, parm: int, c: nat) {
    CanIssue(y, p, c, 0) && z == Issue1(y, p, Evb(p, m, parm, false, false, false, 0), c, 0)
  }

  // akbin(): the key that came first leaves the buffer and is the value of the event.
  ghost predicate KeyAsked(y: Sys, z: Sys, p: nat, parm: int) {
    p < |y.keys| &&
    if y.keys[p] != [] then z.keys == y.keys[p := y.keys[p][1..]] && Over(y, z.(keys := y.keys), p, KEYBD, parm, y.keys[p][0])
    else Pending(y, z, p, KEYBD, 0, Kb(p))
  }

  // amutex().
  ghost predicate MutexAsked(y: Sys, z: Sys, n: nat, p: nat, parm: int) {
    if y.owner == -1 || y.owner == p then z.tas == y.tas + 1 && z.owner == p && Over(y, z.(tas := y.tas, owner := y.owner), p, MUTEX, parm, 0)
    else Pending(y, z, p, MUTEX, 0, Sy(n))
  }

  // A waiter of the chain c, if there is one, is served.
  ghost predicate Served(y: Sys, z: Sys, c: nat, parm: int) {
    c < |y.s.chain| && if y.s.chain[c] == [] then z == y else CanFire(y, c, 0) && z == Fired(y, c, 0, parm, 1)
  }

  // aqueue(): with room, or something to read, the event is over at once and the process
  // that asked last for the opposite is served; otherwise it waits with its count.
  ghost predicate Queued(y: Sys, z: Sys, n: nat, p: nat, m: Mask, t: nat, isqwrite: bool, cnt: int, found: bool, parm: int) {
    Lines(y.s, y.qindex) && t < |y.qindex| == n &&
    var l := LineOf(y.s, y.qindex, t);
    if !Ready(l.q, isqwrite, cnt) then Pending(y, z, p, m, cnt, if isqwrite then Qn(n, t) else Qd(n, t))
    else
      && z.qindex == y.qindex[t := Passed(l, isqwrite, cnt, found).q]
      && exists y1: Sys :: Over(y, y1, p, m, parm, 1) && Served(y1, z.(qindex := y.qindex), if isqwrite then Qd(n, t) else Qn(n, t), parm)
  }

  // The pipe goes through the step of PipeLine.
  lemma QueuedLine(y: Sys, z: Sys, n: nat, p: nat, m: Mask, t: nat, isqwrite: bool, cnt: int, found: bool, parm: int)
    requires y.Ok(n, p, 0) && y.Runs(p) && m !in MasksOf(y, p) && |MasksOf(y, p)| < EVBS_PER_PD
    requires Queued(y, z, n, p, m, t, isqwrite, cnt, found, parm) && z.Ok(n, p, 0)
    ensures t < |y.qindex| && Lines(y.s, y.qindex) && Lines(z.s, z.qindex) && |z.qindex| == |y.qindex|
    ensures LineOf(z.s, z.qindex, t) == Passed(LineOf(y.s, y.qindex, t), isqwrite, cnt, found)
  {
    hide Sys.Ok, Issue1, Fired, Pending, Over, Counts, Served;
    SysSizes(y, n, p, 0);
    SysSizes(z, n, p, 0);
    var l := LineOf(y.s, y.qindex, t);
    var mine, other := if isqwrite then Qn(n, t) else Qd(n, t), if isqwrite then Qd(n, t) else Qn(n, t);
    if !Ready(l.q, isqwrite, cnt) {
      PendingCounts(y, z, n, p, m, cnt, mine, mine);
      PendingCounts(y, z, n, p, m, cnt, mine, other);
    } else {
      var y1: Sys :| Over(y, y1, p, m, parm, 1) && Served(y1, z.(qindex := y.qindex), other, parm);
      OverCounts(y, y1, n, p, m, parm, 1, mine);
      OverCounts(y, y1, n, p, m, parm, 1, other);
      ServedCounts(y1, z.(qindex := y.qindex), n, p, other, parm, mine);
      ServedCounts(y1, z.(qindex := y.qindex), n, p, other, parm, other);
    }
  }

  lemma PendingCounts(y: Sys, z: Sys, n: nat, p: nat, m: Mask, parm: int, c: nat, d: nat)
    requires y.Ok(n, p, 0) && z.Ok(n, p, 0) && Pending(y, z, p, m, parm, c)
    requires DLR < c < |y.s.chain| && ZLR < d < |y.s.chain|
    ensures InRange(y.s) && InRange(z.s) && |z.s.chain| == |y.s.chain|
    ensures Counts(z.s, d) == if d == c then [parm] + Counts(y.s, d) else Counts(y.s, d)
    ensures z.qindex == y.qindex
  {
    hide EvOk, ProcOk, TasksOk, Side;
    CompletedRange(y.s, y.s);
    CompletedRange(z.s, z.s);
    CountsIssued(y.s, p, Evb(p, m, parm, false, false, false, 0), c, 0, d);
  }

  lemma OverCounts(y: Sys, z: Sys, n: nat, p: nat, m: Mask, parm: int, ret: int, d: nat)
    requires y.Ok(n, p, 0) && y.Runs(p) && m !in MasksOf(y, p) && |MasksOf(y, p)| < EVBS_PER_PD
    requires Over(y, z, p, m, parm, ret) && ZLR < d < |y.s.chain|
    ensures InRange(y.s) && InRange(z.s) && |z.s.chain| == |y.s.chain| && z.Ok(n, p, 0)
    ensures Counts(z.s, d) == Counts(y.s, d)
  {
    hide EvOk, ProcOk, TasksOk, Side, MasksOf;
    CompletedRange(y.s, y.s);
    IssueOk(y, n, p, Evb(p, m, parm, false, true, false, ret), ZLR, 0);
    CompletedRange(z.s, z.s);
    CountsIssued(y.s, p, Evb(p, m, parm, false, true, false, ret), ZLR, 0, d);
  }

  lemma ServedCounts(y: Sys, z: Sys, n: nat, p: nat, c: nat, parm: int, d: nat)
    requires y.Ok(n, p, 0) && Served(y, z, c, parm) && ZLR < c && ZLR < d < |y.s.chain|
    ensures InRange(y.s) && InRange(z.s) && |z.s.chain| == |y.s.chain|
    ensures Counts(z.s, d) == if d == c && y.s.chain[c] != [] then Counts(y.s, d)[1..] else Counts(y.s, d)
  {
    hide EvOk, ProcOk, TasksOk, Side, Woken, Counts, Left;
    CompletedRange(y.s, y.s);
    if y.s.chain[c] != [] {
      FiredOk(y, n, p, 0, c, 0, parm, 1);
      FiredCounts(y.s, z.s, c, 0, parm, 1, d);
    }
  }

  lemma FiredCounts(s: Events, t: Events, c: nat, k: nat, parm: int, ret: int, d: nat)
    requires EvOk(s) && ZLR < c < |s.chain| && k < |s.chain[c]| && s.chain[c][k] < |s.evb| && s.evb[s.chain[c][k]].pd < |s.evflg|
    requires t == Completed(s, c, k, parm, ret) && InRange(t) && ZLR < d < |s.chain|
    ensures |t.chain| == |s.chain| && Counts(t, d) == if d == c then Cut(Counts(s, d), k) else Counts(s, d)
  {
    hide Counts, Left, Beside, Cut;
    CompletedLeft(s, c, k, parm, ret);
    LeftSizes(s, t, c, k);
    if d == c {
      CountsLeft(s, t, c, k);
    } else {
      CompletedBeside(s, c, k, parm, ret);
      CountsBeside(s, t, c, d);
    }
  }

  // With messages of 16 bytes the lines stay as they should be.
  lemma FiredStd(y: Sys, n: nat, ex: int, skip: nat, c: nat, k: nat, parm: int, ret: int)
    requires y.Ok(n, ex, skip) && ZLR < c < |y.s.chain| && k < |y.s.chain[c]| && Std(y.s, y.qindex)
    ensures CanFire(y, c, k) && Std(Fired(y, c, k, parm, ret).s, y.qindex)
  {
    hide EvOk, ProcOk, TasksOk, Side, Woken, Std, Left;
    CompletedRange(y.s, y.s);
    FiredOk(y, n, ex, skip, c, k, parm, ret);
    CompletedLeft(y.s, c, k, parm, ret);
    StdLeft(y.s, Fired(y, c, k, parm, ret).s, c, k, y.qindex);
  }

  lemma FiredKeeps(y: Sys, n: nat, ex: int, skip: nat, c: nat, k: nat, parm: int, ret: int, std: bool)
    requires y.Ok(n, ex, skip) && ZLR < c < |y.s.chain| && k < |y.s.chain[c]| && (std ==> Std(y.s, y.qindex))
    ensures CanFire(y, c, k) && Fired(y, c, k, parm, ret).Ok(n, ex, skip) && (std ==> Std(Fired(y, c, k, parm, ret).s, y.qindex))
    ensures y.s.chain[c][k] < |y.s.evb| && y.s.evb[y.s.chain[c][k]].pd < |y.s.evflg| == |y.pr.waitin| == |y.pr.evwait|
  {
    hide Sys.Ok, Fired, Std;
    FiredOk(y, n, ex, skip, c, k, parm, ret);
    if std {
      FiredStd(y, n, ex, skip, c, k, parm, ret);
    }
  }

  lemma IssueStd(y: Sys, n: nat, p: nat, b: Evb, c: nat, j: nat)
    requires y.Ok(n, p, 0) && CanIssue(y, p, c, j) && Issue1(y, p, b, c, j).Ok(n, p, 0) && Std(y.s, y.qindex)
    requires PipeFit(y.qindex, c, b.parm)
    ensures Std(Issue1(y, p, b, c, j).s, y.qindex)
  {
    hide EvOk, ProcOk, TasksOk, Side, Std, PipeFit;
    CompletedRange(Issue1(y, p, b, c, j).s, y.s);
    StdIssued(y.s, p, b, c, j, y.qindex);
  }

  lemma IssueKeeps(y: Sys, n: nat, p: nat, b: Evb, c: nat, j: nat, std: bool)
    requires y.Ok(n, p, 0) && y.Runs(p) && c < |y.s.chain| && j <= |y.s.chain[c]|
    requires b.pd == p && !b.nocancel && FlagsFit(b, c) && (c == DLR ==> b.parm >= 0)
    requires b.mask !in MasksOf(y, p) && |MasksOf(y, p)| < EVBS_PER_PD
    requires c != ZLR ==> MayWait(n, p, c, b.mask, y.tas, y.owner, y.keys, y.qindex)
    requires std ==> Std(y.s, y.qindex) && PipeFit(y.qindex, c, b.parm)
    ensures CanIssue(y, p, c, j) && Issue1(y, p, b, c, j).Ok(n, p, 0) && Asked(y, Issue1(y, p, b, c, j), p, b.mask)
    ensures std ==> Std(Issue1(y, p, b, c, j).s, y.qindex)
  {
    hide Sys.Ok, Issue1, Std, PipeFit, MasksOf, MayWait, Asked;
    IssueOk(y, n, p, b, c, j);
    if std {
      IssueStd(y, n, p, b, c, j);
    }
  }

  lemma TakenStd(y: Sys, n: nat, p: nat, i: nat, k: nat)
    requires y.Ok(n, p, 0) && CanTake(y, p, i, k) && Taken(y, p, i, k).Ok(n, p, 0) && Std(y.s, y.qindex)
    ensures Std(Taken(y, p, i, k).s, y.qindex)
  {
    hide EvOk, ProcOk, TasksOk, Side, Std;
    CompletedRange(Taken(y, p, i, k).s, y.s);
    StdReparm(y.s, Taken(y, p, i, k).s, ZLR, y.qindex);
  }

  lemma DroppedStd(y: Sys, n: nat, p: nat, i: nat, c: nat, k: nat)
    requires y.Ok(n, p, 0) && CanDrop(y, p, i, c, k) && Dropped(y, p, i, c, k).Ok(n, p, 0) && Std(y.s, y.qindex) && ZLR < c
    ensures Std(Dropped(y, p, i, c, k).s, y.qindex)
  {
    hide EvOk, ProcOk, TasksOk, Side, Std;
    CompletedRange(Dropped(y, p, i, c, k).s, y.s);
    StdLeft(y.s, Dropped(y, p, i, c, k).s, c, k, y.qindex);
  }

  lemma RetickedStd(y: Sys, n: nat, ex: int, skip: nat, k: nat, v: int)
    requires y.Ok(n, ex, skip) && |y.s.chain| > DLR && k < |y.s.chain[DLR]| && v >= 0 && Std(y.s, y.qindex)
    ensures y.s.chain[DLR][k] < |y.s.evb| && Std(Reticked(y, k, v).s, y.qindex)
  {
    hide ProcOk, TasksOk, Side, Std, Kept, Chained, Owned, Done, Flagged, OneEach;
    RetickedOk(y, n, ex, skip, k, v);
    forall d, i | DLR < d < |y.s.chain| && 0 <= i < |y.s.chain[d]| ensures y.s.chain[d][i] != y.s.chain[DLR][k] {
      ChainApart(y.s, d, i, DLR, k);
    }
    CompletedRange(Reticked(y, k, v).s, y.s);
    StdReparm(y.s, Reticked(y, k, v).s, DLR, y.qindex);
  }

  lemma OtherChain(qindex: seq<int>, c: nat, parm: int)
    ensures c < 2 + 3 * |qindex| || c == Sy(|qindex|) ==> PipeFit(qindex, c, parm)
  {
  }

  lemma PipeChain(qindex: seq<int>, t: nat, parm: int)
    requires t < |qindex| && parm == MSG
    ensures PipeFit(qindex, Qn(|qindex|, t), parm) && (qindex[t] == 0 ==> PipeFit(qindex, Qd(|qindex|, t), parm))
  {
  }

  // Blocks on event lists and processes are as they were but for the waits that ended.
  ghost predicate OnlyEnds(y: Sys, z: Sys) {
    && z == y.(s := z.s, pr := z.pr) && z.s.eul == y.s.eul && z.s.evlist == y.s.evlist
    && z.pr.rlr == y.pr.rlr && z.pr.evwait == y.pr.evwait && |z.s.chain| == |y.s.chain| && |z.s.evb| == |y.s.evb|
  }

  // The block is that of a timer that is over, and its process is flagged.
  ghost predicate TimedOut(y: Sys, e: nat) {
    e < |y.s.evb| && y.s.evb[e].complete && y.s.evb[e].mask == TIMER && Flag(y, y.s.evb[e].pd, TIMER)
  }

  // No block's process or mask changed.
  ghost predicate SameWho(evb: seq<Evb>, evb': seq<Evb>) {
    |evb'| == |evb| && forall x :: 0 <= x < |evb| ==> evb'[x].mask == evb[x].mask && evb'[x].pd == evb[x].pd
  }

  // And only timers' blocks did.
  ghost predicate OnlyTimers(y: Sys, z: Sys) {
    && SameWho(y.s.evb, z.s.evb) && |y.s.chain| > DLR
    && forall x :: 0 <= x < |y.s.evb| && x !in y.s.chain[DLR] ==> z.s.evb[x] == y.s.evb[x]
  }

  // tchange(): just the timers due within c ticks are over, in order, and the rest are nearer.
  ghost predicate TimersFired(y: Sys, z: Sys, fired: nat, c: int) {
    && OnlyEnds(y, z) && InRange(y.s) && InRange(z.s) && |y.s.chain| > DLR && fired <= |y.s.chain[DLR]|
    && Expired(Deltas(y.s), fired, c) && Deltas(z.s) == Lowered(Deltas(y.s), fired, c)
    && z.s.chain[DLR] == y.s.chain[DLR][fired..] && z.s.chain[ZLR] == Rev(y.s.chain[DLR][..fired]) + y.s.chain[ZLR]
    && (forall c :: DLR < c < |y.s.chain| ==> z.s.chain[c] == y.s.chain[c])
    && OnlyTimers(y, z)
    && (forall i :: 0 <= i < fired ==> TimedOut(z, y.s.chain[DLR][i]))
  }

  // post_keybd(): the key is the value of the wait that it ends, or joins the buffer if it may.
  ghost predicate KeyPosted(y: Sys, z: Sys, p: nat, ch: int, parm: int, size: nat) {
    Kb(p) < |y.s.chain| && p < |y.keys| &&
    if y.s.chain[Kb(p)] != [] then CanFire(y, Kb(p), 0) && z == Fired(y, Kb(p), 0, parm, ch)
    else z == y.(keys := z.keys) && z.keys == if |y.keys[p]| < size then y.keys[p := y.keys[p] + [ch]] else y.keys
  }

  // post_button() and post_mouse(): the waits that are satisfied are over, each with its own value,
  // and the others stay in order.
  ghost predicate AllPosted(y: Sys, z: Sys, c: nat, rets: map<nat, int>, parm: int) {
    && OnlyEnds(y, z) && DLR < c < |y.s.chain|
    && z.s.chain[c] == Others(y.s.chain[c], rets.Keys) && z.s.chain[ZLR] == Rev(Those(y.s.chain[c], rets.Keys)) + y.s.chain[ZLR]
    && (forall d :: ZLR < d < |y.s.chain| && d != c ==> z.s.chain[d] == y.s.chain[d])
    && EndedWith(y.s.evb, z.s.evb, Those(y.s.chain[c], rets.Keys), parm, rets)
  }

  // These blocks are completed with their values, and the others are as they were.
  ghost predicate EndedWith(evb: seq<Evb>, evb': seq<Evb>, l: seq<nat>, parm: int, rets: map<nat, int>) {
    |evb'| == |evb| && forall x :: 0 <= x < |evb| ==> evb'[x] == if x in l then Zombie(evb[x], parm, ValueOf(rets, x)) else evb[x]
  }

  function ValueOf(rets: map<nat, int>, e: nat): int {
    if e in rets then rets[e] else 0
  }

  // What is on the zombie list is completed, and its process has the flag.
  lemma ZombieFlag(y: Sys, n: nat, ex: int, skip: nat, k: nat)
    requires y.Ok(n, ex, skip) && |y.s.chain| > ZLR && k < |y.s.chain[ZLR]|
    ensures y.s.chain[ZLR][k] < |y.s.evb| && y.s.evb[y.s.chain[ZLR][k]].complete
    ensures Flag(y, y.s.evb[y.s.chain[ZLR][k]].pd, y.s.evb[y.s.chain[ZLR][k]].mask)
  {
    hide ProcOk, TasksOk, Side;
    var p, i := OnList(y.s, ZLR, k);
    assert FlagsFit(y.s.evb[y.s.chain[ZLR][k]], ZLR);
  }

  lemma OnlyEndsTwice(y: Sys, z: Sys, w: Sys)
    requires OnlyEnds(y, z) && OnlyEnds(z, w)
    ensures OnlyEnds(y, w)
  {
  }

  lemma FiredOnlyEnds(y: Sys, c: nat, k: nat, parm: int, ret: int)
    requires CanFire(y, c, k)
    ensures var z := Fired(y, c, k, parm, ret);
            OnlyEnds(y, z) && z.s.chain[ZLR] == [y.s.chain[c][k]] + y.s.chain[ZLR]
            && z.s.evb == y.s.evb[y.s.chain[c][k] := Zombie(y.s.evb[y.s.chain[c][k]], parm, ret)]
  {
    WokenSame(y.pr, Completed(y.s, c, k, parm, ret).evflg, y.s.evb[y.s.chain[c][k]].pd);
  }

  // aqueue() goes ahead: what it tests, and what it does not.
  ghost predicate CanPass(y: Sys, n: nat, p: nat, m: Mask, t: nat, isqwrite: bool, cnt: int, found: bool) {
    && y.Ok(n, p, 0) && y.Runs(p) && m !in MasksOf(y, p) && |MasksOf(y, p)| < EVBS_PER_PD
    && Lines(y.s, y.qindex) && t < |y.qindex| == n
    && PassSafe(LineOf(y.s, y.qindex, t), isqwrite, cnt, found) && Ready(y.qindex[t], isqwrite, cnt)
  }

  lemma NotServed(y: Sys, c: nat, parm: int)
    requires c < |y.s.chain| && y.s.chain[c] == []
    ensures Served(y, y, c, parm)
  {
  }

  lemma CanPassRoom(y: Sys, z: Sys, n: nat, p: nat, m: Mask, t: nat, isqwrite: bool, cnt: int, found: bool)
    requires CanPass(y, n, p, m, t, isqwrite, cnt, found) && z.Ok(n, p, 0)
    ensures y.Ok(n, p, 0) && y.Runs(p) && m !in MasksOf(y, p) && |MasksOf(y, p)| < EVBS_PER_PD && Lines(y.s, y.qindex)
    ensures t < |y.qindex| == |z.qindex| == n && InBuffer(Passed(LineOf(y.s, y.qindex, t), isqwrite, cnt, found).q)
  {
    hide EvOk, ProcOk, TasksOk, SemOk, Counts, MasksOf;
    CompletedRange(y.s, y.s);
    CompletedRange(z.s, z.s);
    assert InBuffer(y.qindex[t]);
    SafeKeeps(LineOf(y.s, y.qindex, t), if isqwrite then Write(cnt, found) else Read(cnt, found));
  }

  lemma QueuedIs(y: Sys, y1: Sys, z: Sys, w: Sys, n: nat, p: nat, m: Mask, t: nat, isqwrite: bool, cnt: int, found: bool, parm: int)
    requires CanPass(y, n, p, m, t, isqwrite, cnt, found) && Over(y, y1, p, m, parm, 1)
    requires Served(y1, z, if isqwrite then Qd(n, t) else Qn(n, t), parm) && z.qindex == y.qindex && t < |y.qindex|
    requires w == z.(qindex := z.qindex[t := Passed(LineOf(y.s, y.qindex, t), isqwrite, cnt, found).q])
    ensures Queued(y, w, n, p, m, t, isqwrite, cnt, found, parm)
  {
    hide Sys.Ok, Over, Served, MasksOf, Passed, Counts;
    assert w.(qindex := y.qindex) == z;
  }

  lemma PendingQueued(y: Sys, z: Sys, n: nat, p: nat, m: Mask, t: nat, isqwrite: bool, cnt: int, found: bool, parm: int)
    requires Lines(y.s, y.qindex) && t < |y.qindex| == n && !Ready(y.qindex[t], isqwrite, cnt)
    requires Pending(y, z, p, m, cnt, if isqwrite then Qn(n, t) else Qd(n, t))
    ensures Queued(y, z, n, p, m, t, isqwrite, cnt, found, parm)
  {
    hide Pending, Counts;
  }

  // With messages of 16 bytes the pipe stays as it should be.
  lemma StdPassed(y: Sys, z: Sys, w: Sys, n: nat, p: nat, m: Mask, t: nat, isqwrite: bool, cnt: int, found: bool, parm: int)
    requires CanPass(y, n, p, m, t, isqwrite, cnt, found) && Queued(y, w, n, p, m, t, isqwrite, cnt, found, parm)
    requires w.Ok(n, p, 0) && Std(y.s, y.qindex) && Std(z.s, z.qindex) && z.qindex == y.qindex
    requires t < |y.qindex| && UsualCount(y.qindex[t], isqwrite, cnt) && w.s == z.s && w.qindex == z.qindex[t := w.qindex[t]]
    ensures Std(w.s, w.qindex)
  {
    hide Sys.Ok, Queued, MasksOf, Counts;
    QueuedLine(y, w, n, p, m, t, isqwrite, cnt, found, parm);
    assert Standard(LineOf(y.s, y.qindex, t));
    StandardStep(LineOf(y.s, y.qindex, t), if isqwrite then Write(cnt, found) else Read(cnt, found));
    StdRoom(z.s, z.qindex, t, w.qindex[t]);
  }

  lemma LinesAre(y: Sys, n: nat, ex: int, skip: nat)
    requires y.Ok(n, ex, skip)
    ensures Lines(y.s, y.qindex) && |y.qindex| == n
  {
    SysSizes(y, n, ex, skip);
  }

  // adelay(): the new block is at the front of the process's list, and at place j of the delay list.
  ghost predicate DelayAsked(y: Sys, z: Sys, p: nat, j: nat) {
    && y.s.eul != [] && p < |y.s.evlist| && DLR < |y.s.chain| && j <= |y.s.chain[DLR]|
    && var e := y.s.eul[0];
       && z.s.evlist == y.s.evlist[p := [e] + y.s.evlist[p]] && z.s.chain == y.s.chain[DLR := Put(y.s.chain[DLR], j, e)]
       && z.s.eul == y.s.eul[1..] && e < |z.s.evb| && z.s.evb[e].pd == p && z.s.evb[e].mask == TIMER
       && z == y.(s := z.s) && z.s.evflg == y.s.evflg && !z.s.evb[e].complete
       && OthersAsThey(y, z, e)
  }

  // No other block changed, but for the ticks of the timers.
  ghost predicate OthersAsThey(y: Sys, z: Sys, e: nat) {
    && |z.s.evb| == |y.s.evb| && |y.s.chain| > DLR
    && (forall x :: 0 <= x < |y.s.evb| && x != e ==> OfOne(y.s.evb[x], z.s.evb[x]))
    && (forall x :: 0 <= x < |y.s.evb| && x != e && x !in y.s.chain[DLR] ==> z.s.evb[x] == y.s.evb[x])
  }

  // The same process's block for the same event, with the same value if it is over.
  predicate OfOne(b: Evb, b': Evb) {
    b'.mask == b.mask && b'.pd == b.pd && b'.complete == b.complete && b'.ret == b.ret
  }

  // The timer of c ticks goes to its place j in the delay list.
  ghost predicate TicksPut(y: Sys, z: Sys, j: nat, c: int) {
    && InRange(y.s) && InRange(z.s) && |y.s.chain| > DLR && |z.s.chain| > DLR
    && PlaceFor(Deltas(y.s), j, c) && Deltas(z.s) == Inserted(Deltas(y.s), j, c)
  }

  // The timer is due in d ticks.
  ghost predicate DueIn(y: Sys, e: nat, d: int) {
    InRange(y.s) && |y.s.chain| > DLR &&
    exists i :: 0 <= i < |y.s.chain[DLR]| && y.s.chain[DLR][i] == e && Before(Deltas(y.s), i + 1) == d
  }

  lemma IssuedDelay(y: Sys, n: nat, p: nat, b: Evb, j: nat, z: Sys)
    requires CanIssue(y, p, DLR, j) && z == Issue1(y, p, b, DLR, j) && b.pd == p && b.mask == TIMER && !b.complete
    ensures DelayAsked(y, z, p, j) && z.s.evflg == y.s.evflg
  {
  }

  lemma DelayAgain(y: Sys, z: Sys, w: Sys, p: nat, j: nat)
    requires DelayAsked(y, z, p, j) && w.s.evlist == z.s.evlist && w.s.chain == z.s.chain && w.s.eul == z.s.eul
    requires |w.s.evb| == |z.s.evb| && forall x :: 0 <= x < |z.s.evb| ==> OfOne(z.s.evb[x], w.s.evb[x])
    requires w == z.(s := w.s) && w.s.evflg == z.s.evflg && |z.s.chain| > DLR && j + 1 < |z.s.chain[DLR]|
    requires forall x :: 0 <= x < |z.s.evb| && x != z.s.chain[DLR][j + 1] ==> w.s.evb[x] == z.s.evb[x]
    ensures DelayAsked(y, w, p, j)
  {
    PutIn(y.s.chain[DLR], j, y.s.eul[0]);
  }

  lemma FlagSame(y: Sys, z: Sys, p: nat, m: Mask)
    requires z.s == y.s
    ensures Flag(z, p, m) <==> Flag(y, p, m)
  {
  }

  lemma AskedSame(y: Sys, z: Sys, w: Sys, p: nat, m: Mask)
    requires Asked(y, z, p, m) && w.task == z.task && w.pr == z.pr && w.curpid == z.curpid && w.s == z.s
    ensures Asked(y, w, p, m)
  {
  }

  lemma OverHeld(y: Sys, z: Sys, w: Sys, p: nat, parm: int, ret: int)
    requires z == y.(tas := z.tas, owner := z.owner) && Over(z, w, p, MUTEX, parm, ret)
    ensures Over(y, w.(tas := y.tas, owner := y.owner), p, MUTEX, parm, ret)
  {
  }

  // Who waits for what, and with what value if it is over, is as it was.
  ghost predicate SameBlocks(evb: seq<Evb>, evb': seq<Evb>) {
    && |evb'| == |evb| && forall x :: 0 <= x < |evb| ==>
         evb'[x].mask == evb[x].mask && evb'[x].pd == evb[x].pd && evb'[x].complete == evb[x].complete && evb'[x].ret == evb[x].ret
  }

  // Each timer that is left is due when it was.
  ghost predicate DueKept(y: Sys, z: Sys) {
    && InRange(y.s) && InRange(z.s) && |y.s.chain| > DLR && |z.s.chain| > DLR
    && forall i {:trigger z.s.chain[DLR][i]} :: 0 <= i < |z.s.chain[DLR]| ==> DueAt(y, z, i)
  }

  ghost predicate DueAt(y: Sys, z: Sys, i: nat)
    requires InRange(y.s) && InRange(z.s) && |y.s.chain| > DLR && |z.s.chain| > DLR && i < |z.s.chain[DLR]|
  {
    exists j :: 0 <= j < |y.s.chain[DLR]| && y.s.chain[DLR][j] == z.s.chain[DLR][i] &&
      Before(Deltas(y.s), j + 1) == Before(Deltas(z.s), i + 1)
  }

  // Some blocks of a process are given up: they leave its list and their chains, and all others
  // keep their places and their deadlines.
  ghost predicate GivenUp(y: Sys, z: Sys, p: nat, gone: set<nat>) {
    && p < |y.s.evlist| && z.s.evlist == y.s.evlist[p := Others(y.s.evlist[p], gone)]
    && |z.s.chain| == |y.s.chain| && (forall c :: 0 <= c < |y.s.chain| ==> z.s.chain[c] == Others(y.s.chain[c], gone))
    && SameBlocks(y.s.evb, z.s.evb) && DueKept(y, z)
  }

  // The events of a process that acancel() gives up.
  ghost function GoneOf(s: Events, p: nat, m: set<Mask>): set<nat>
    requires p < |s.evlist|
  {
    set e | e in s.evlist[p] && e < |s.evb| && !s.evb[e].complete && s.evb[e].mask in m
  }

  lemma NoneGivenUp(y: Sys, p: nat)
    requires InRange(y.s) && p < |y.s.evlist| && |y.s.chain| > DLR
    ensures GivenUp(y, y, p, {})
  {
    OthersNone(y.s.evlist[p], {});
    forall c | 0 <= c < |y.s.chain| ensures Others(y.s.chain[c], {}) == y.s.chain[c] {
      OthersNone(y.s.chain[c], {});
    }
    forall i | 0 <= i < |y.s.chain[DLR]| ensures DueAt(y, y, i) {
    }
  }

  lemma DueTwice(y: Sys, z: Sys, w: Sys)
    requires DueKept(y, z) && DueKept(z, w)
    ensures DueKept(y, w)
  {
    hide Before, Deltas;
    forall i | 0 <= i < |w.s.chain[DLR]| ensures DueAt(y, w, i) {
      var j :| 0 <= j < |z.s.chain[DLR]| && z.s.chain[DLR][j] == w.s.chain[DLR][i] &&
        Before(Deltas(z.s), j + 1) == Before(Deltas(w.s), i + 1);
      assert DueAt(y, z, j);
    }
  }

  lemma DueOne(y: Sys, z: Sys, c: nat, k: nat)
    requires InRange(y.s) && InRange(z.s) && |y.s.chain| > DLR && Ticks(Deltas(y.s)) && ZLR < c < |y.s.chain| && k < |y.s.chain[c]|
    requires z.s.chain == y.s.chain[c := Cut(y.s.chain[c], k)]
    requires Deltas(z.s) == if c == DLR then Removed(Deltas(y.s), k) else Deltas(y.s)
    ensures DueKept(y, z)
  {
    hide Before, Deltas, Removed, Cut;
    CutIn(y.s.chain[c], k);
    forall i | 0 <= i < |z.s.chain[DLR]| ensures DueAt(y, z, i) {
      var j := if c == DLR && i >= k then i + 1 else i;
      assert y.s.chain[DLR][j] == z.s.chain[DLR][i];
      if c == DLR {
        RemovedDue(Deltas(y.s), k, i + 1);
      }
    }
  }

  // One more block is given up.
  lemma OneGivenUp(y: Sys, z: Sys, w: Sys, n: nat, p: nat, gone: set<nat>, i: nat, c: nat, k: nat)
    requires GivenUp(y, z, p, gone) && z.Ok(n, p, 0) && i < |z.s.evlist[p]| && ZLR < c < |z.s.chain| && k < |z.s.chain[c]|
    requires z.s.chain[c][k] == z.s.evlist[p][i] && SameBlocks(z.s.evb, w.s.evb)
    requires w.s.evlist == z.s.evlist[p := Cut(z.s.evlist[p], i)] && w.s.chain == z.s.chain[c := Cut(z.s.chain[c], k)]
    requires InRange(w.s) && |z.s.chain| > DLR && Deltas(w.s) == if c == DLR then Removed(Deltas(z.s), k) else Deltas(z.s)
    ensures GivenUp(y, w, p, gone + {z.s.evlist[p][i]})
  {
    hide ProcOk, TasksOk, Cut, Others, Deltas, Removed, DueKept, Kept, Chained, Owned, Done, Flagged, SemOk, QueuesOk;
    var e := z.s.evlist[p][i];
    OneInList(z.s, p, i);
    OthersCut(z.s.evlist[p], i);
    OthersTwice(y.s.evlist[p], gone, {e});
    forall d | 0 <= d < |y.s.chain| ensures w.s.chain[d] == Others(y.s.chain[d], gone + {e}) {
      OthersTwice(y.s.chain[d], gone, {e});
      forall j | 0 <= j < |z.s.chain[d]| && (d != c || j != k) ensures z.s.chain[d][j] != e {
        ChainApart(z.s, d, j, c, k);
      }
      if d == c {
        OthersCut(z.s.chain[c], k);
      } else {
        OthersNone(z.s.chain[d], {e});
      }
    }
    DueOne(z, w, c, k);
    DueTwice(y, z, w);
  }

  lemma OneInList(s: Events, p: nat, i: nat)
    requires EvOk(s) && p < |s.evlist| && i < |s.evlist[p]|
    ensures forall j :: 0 <= j < |s.evlist[p]| && j != i ==> s.evlist[p][j] != s.evlist[p][i]
  {
  }

  // When none is left to be given up, all have been.
  lemma AllGivenUp(y: Sys, z: Sys, p: nat, m: set<Mask>, gone: set<nat>)
    requires GivenUp(y, z, p, gone) && gone <= GoneOf(y.s, p, m) && InRange(z.s)
    requires forall i :: 0 <= i < |z.s.evlist[p]| ==> z.s.evb[z.s.evlist[p][i]].complete || z.s.evb[z.s.evlist[p][i]].mask !in m
    ensures gone == GoneOf(y.s, p, m)
  {
    hide Others, DueKept;
    forall e | e in GoneOf(y.s, p, m) ensures e in gone {
      OthersHas(y.s.evlist[p], gone, e);
      assert forall i :: 0 <= i < |z.s.evlist[p]| ==> z.s.evlist[p][i] != e;
    }
  }
}

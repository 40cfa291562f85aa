// Process lists (aes/gemdisp.c, aes/gempd.c): ready, about to be ready, and waiting.
module AesProcs {
  import opened Lists
  import opened Pools
  import opened AesEvents

  // What a process is doing: running its program, or inside mwait() for some events.
  datatype Task = Free | Blocked(m: set<Mask>)

  // rlr: ready, the running one first; drl: to become ready; nrl: waiting.
  datatype Procs = Procs(rlr: seq<nat>, drl: seq<nat>, nrl: seq<nat>, waitin: seq<bool>, evwait: seq<set<Mask>>)

  // A process that may run: one inside mwait() has an event it waits for.
  ghost predicate Runnable(pr: Procs, evflg: seq<set<Mask>>, task: seq<Task>, p: nat) {
    && p < |pr.waitin| == |pr.evwait| == |evflg| == |task| && !pr.waitin[p]
    && (task[p].Blocked? ==> pr.evwait[p] * evflg[p] != {})
  }

  ghost predicate Asleep(pr: Procs, evflg: seq<set<Mask>>, task: seq<Task>, p: nat) {
    && p < |pr.waitin| == |pr.evwait| == |evflg| == |task| && pr.waitin[p]
    && task[p].Blocked? && pr.evwait[p] * evflg[p] == {}
  }

  // Each started process is on exactly one list; no process sleeps that could run, and the first
  // `skip` of the ready ones, about to be dispatched, may be in any state.
  ghost predicate ProcOk(pr: Procs, evflg: seq<set<Mask>>, task: seq<Task>, started: nat, skip: nat) {
    && |pr.waitin| == |pr.evwait| == |evflg| == |task| && started <= |task|
    && Conserved(pr.rlr, [pr.drl, pr.nrl], started)
    && (forall i :: skip <= i < |pr.rlr| ==> Runnable(pr, evflg, task, pr.rlr[i]))
    && (forall i :: 0 <= i < |pr.drl| ==> Runnable(pr, evflg, task, pr.drl[i]))
    && (forall i :: 0 <= i < |pr.nrl| ==> Asleep(pr, evflg, task, pr.nrl[i]))
  }

  lemma TwoLists(a: seq<nat>, b: seq<nat>, x: nat)
    ensures Held([a, b], x) == multiset(a)[x] + multiset(b)[x]
  {
    assert [a, b][1..] == [b] && [b][1..] == [];
    assert Held([b], x) == multiset(b)[x] + Held([], x);
  }

  // The same processes on three lists.
  lemma Rearranged(r: seq<nat>, d: seq<nat>, w: seq<nat>, n: nat, r': seq<nat>, d': seq<nat>, w': seq<nat>)
    requires Conserved(r, [d, w], n)
    requires multiset(r') + multiset(d') + multiset(w') == multiset(r) + multiset(d) + multiset(w)
    ensures Conserved(r', [d', w'], n)
  {
    forall x: nat ensures multiset(r')[x] + Held([d', w'], x) == if x < n then 1 else 0 {
      TwoLists(d, w, x);
      TwoLists(d', w', x);
      assert (multiset(r') + multiset(d') + multiset(w'))[x] == (multiset(r) + multiset(d) + multiset(w))[x];
    }
  }

  // No process is on two lists.
  lemma OnOne(pr: Procs, started: nat)
    requires Conserved(pr.rlr, [pr.drl, pr.nrl], started)
    ensures forall i :: 0 <= i < |pr.rlr| ==> pr.rlr[i] < started && pr.rlr[i] !in pr.drl && pr.rlr[i] !in pr.nrl
    ensures forall i :: 0 <= i < |pr.drl| ==> pr.drl[i] < started && pr.drl[i] !in pr.nrl
    ensures forall i :: 0 <= i < |pr.nrl| ==> pr.nrl[i] < started
    ensures forall i, j :: 0 <= i < j < |pr.rlr| ==> pr.rlr[i] != pr.rlr[j]
    ensures forall i, j :: 0 <= i < j < |pr.nrl| ==> pr.nrl[i] != pr.nrl[j]
    ensures forall i, j :: 0 <= i < j < |pr.drl| ==> pr.drl[i] != pr.drl[j]
  {
    var l := [pr.drl, pr.nrl];
    PoolFacts(pr.rlr, l, started);
    assert l[0] == pr.drl && l[1] == pr.nrl;
    forall i: nat, j: nat | i < |pr.drl| && j < |pr.nrl| ensures pr.drl[i] != pr.nrl[j] {
      ListsApart(pr.rlr, l, started, 0, 1, i, j);
    }
    forall i: nat, j: nat | i < j < |pr.drl| ensures pr.drl[i] != pr.drl[j] {
      ListsApart(pr.rlr, l, started, 0, 0, i, j);
    }
    forall i: nat, j: nat | i < j < |pr.nrl| ensures pr.nrl[i] != pr.nrl[j] {
      ListsApart(pr.rlr, l, started, 1, 1, i, j);
    }
  }

  // Where a process is on a list, its length when it is not there.
  function Find(l: seq<nat>, p: nat): (i: nat)
    ensures i <= |l| && (i < |l| ==> l[i] == p) && forall k :: 0 <= k < i ==> l[k] != p
  {
    if l == [] || l[0] == p then 0 else Find(l[1..], p) + 1
  }

  // signal(): a sleeping process that gets an event it waits for goes to the drl.
  function Woken(pr: Procs, evflg: seq<set<Mask>>, p: nat): Procs
    requires p < |pr.waitin| == |pr.evwait| == |evflg|
  {
    var i := Find(pr.nrl, p);
    if i < |pr.nrl| && pr.evwait[p] * evflg[p] != {} then
      pr.(waitin := pr.waitin[p := false], nrl := Cut(pr.nrl, i), drl := [p] + pr.drl)
    else pr
  }

  // A process's flag is set and it is woken if it waits for it.
  lemma WokenOk(pr: Procs, evflg: seq<set<Mask>>, evflg': seq<set<Mask>>, task: seq<Task>, started: nat, skip: nat, p: nat)
    requires ProcOk(pr, evflg, task, started, skip) && p < |evflg| == |evflg'|
    requires evflg[p] <= evflg'[p] && forall q :: 0 <= q < |evflg| && q != p ==> evflg'[q] == evflg[q]
    ensures ProcOk(Woken(pr, evflg', p), evflg', task, started, skip)
  {
    hide Conserved, Runnable, Asleep, Woken, Cut;
    var t := Woken(pr, evflg', p);
    WokenLists(pr, evflg', started, p);
    forall q | q in pr.rlr || q in pr.drl ensures Runnable(pr, evflg, task, q) ==> Runnable(t, evflg', task, q) {
      RunsOn(pr, evflg, evflg', task, p, q);
    }
    forall k | 0 <= k < |pr.nrl| ensures if pr.nrl[k] in t.nrl then Asleep(t, evflg', task, pr.nrl[k]) else Runnable(t, evflg', task, pr.nrl[k]) {
      SleepsOn(pr, evflg, evflg', task, p, pr.nrl[k], started);
    }
  }

  lemma WokenLists(pr: Procs, evflg: seq<set<Mask>>, started: nat, p: nat)
    requires p < |pr.waitin| == |pr.evwait| == |evflg| && Conserved(pr.rlr, [pr.drl, pr.nrl], started)
    ensures var t := Woken(pr, evflg, p);
            && Conserved(t.rlr, [t.drl, t.nrl], started) && t.rlr == pr.rlr && t.evwait == pr.evwait && |t.waitin| == |pr.waitin|
            && (forall k :: 0 <= k < |t.drl| ==> t.drl[k] in pr.drl || (t.drl[k] in pr.nrl && t.drl[k] !in t.nrl))
            && (forall k :: 0 <= k < |t.nrl| ==> t.nrl[k] in pr.nrl)
  {
    hide Cut;
    OnOne(pr, started);
    var i, t := Find(pr.nrl, p), Woken(pr, evflg, p);
    if t != pr {
      CutBag(pr.nrl, i);
      Rearranged(pr.rlr, pr.drl, pr.nrl, started, t.rlr, t.drl, t.nrl);
      CutIn(pr.nrl, i);
    }
  }

  lemma RunsOn(pr: Procs, evflg: seq<set<Mask>>, evflg': seq<set<Mask>>, task: seq<Task>, p: nat, q: nat)
    requires p < |pr.waitin| == |pr.evwait| == |evflg| == |evflg'|
    requires evflg[p] <= evflg'[p] && forall r :: 0 <= r < |evflg| && r != p ==> evflg'[r] == evflg[r]
    ensures Runnable(pr, evflg, task, q) ==> Runnable(Woken(pr, evflg', p), evflg', task, q)
  {
    if Runnable(pr, evflg, task, q) && task[q].Blocked? {
      var m :| m in pr.evwait[q] * evflg[q];
      assert m in pr.evwait[q] * evflg'[q];
    }
  }

  lemma SleepsOn(pr: Procs, evflg: seq<set<Mask>>, evflg': seq<set<Mask>>, task: seq<Task>, p: nat, q: nat, started: nat)
    requires p < |pr.waitin| == |pr.evwait| == |evflg| == |evflg'|
    requires evflg[p] <= evflg'[p] && forall r :: 0 <= r < |evflg| && r != p ==> evflg'[r] == evflg[r]
    requires q in pr.nrl && Asleep(pr, evflg, task, q) && Conserved(pr.rlr, [pr.drl, pr.nrl], started)
    ensures var t := Woken(pr, evflg', p);
            if q in t.nrl then Asleep(t, evflg', task, q) else Runnable(t, evflg', task, q)
  {
    OnOne(pr, started);
    var i, t := Find(pr.nrl, p), Woken(pr, evflg', p);
    if t != pr {
      CutIn(pr.nrl, i);
      var k :| 0 <= k < |pr.nrl| && pr.nrl[k] == q;
      if k != i {
        assert t.nrl[if k < i then k else k - 1] == q;
      }
    }
  }

  // disp(): the process at the head goes to sleep, or to the end of the ready list.
  function Slept(pr: Procs): Procs
    requires pr.rlr != []
  {
    pr.(rlr := pr.rlr[1..], nrl := [pr.rlr[0]] + pr.nrl)
  }

  function Requeued(pr: Procs): Procs
    requires pr.rlr != [] && pr.rlr[0] < |pr.waitin|
  {
    pr.(rlr := pr.rlr[1..] + [pr.rlr[0]], waitin := pr.waitin[pr.rlr[0] := false])
  }

  lemma SleptOk(pr: Procs, evflg: seq<set<Mask>>, task: seq<Task>, started: nat)
    requires ProcOk(pr, evflg, task, started, 1) && pr.rlr != [] && Asleep(pr, evflg, task, pr.rlr[0])
    ensures ProcOk(Slept(pr), evflg, task, started, 0)
  {
    var t := Slept(pr);
    assert pr.rlr == [pr.rlr[0]] + pr.rlr[1..];
    Rearranged(pr.rlr, pr.drl, pr.nrl, started, t.rlr, t.drl, t.nrl);
    assert forall i :: 0 <= i < |t.rlr| ==> t.rlr[i] == pr.rlr[i + 1];
  }

  lemma RequeuedOk(pr: Procs, evflg: seq<set<Mask>>, task: seq<Task>, started: nat)
    requires ProcOk(pr, evflg, task, started, 1) && pr.rlr != []
    requires pr.rlr[0] < |pr.waitin| ==> Runnable(Requeued(pr), evflg, task, pr.rlr[0])
    ensures pr.rlr[0] < |pr.waitin| && ProcOk(Requeued(pr), evflg, task, started, 0)
  {
    OnOne(pr, started);
    var t := Requeued(pr);
    assert pr.rlr == [pr.rlr[0]] + pr.rlr[1..];
    Rearranged(pr.rlr, pr.drl, pr.nrl, started, t.rlr, t.drl, t.nrl);
    forall i | 0 <= i < |t.rlr| ensures Runnable(t, evflg, task, t.rlr[i]) {
      if i + 1 < |pr.rlr| {
        assert t.rlr[i] == pr.rlr[i + 1] && Runnable(pr, evflg, task, pr.rlr[i + 1]);
      }
    }
  }

  // schedule(): the head of the drl becomes ready.
  function Readied(pr: Procs): Procs
    requires pr.drl != [] && pr.drl[0] < |pr.waitin|
  {
    pr.(drl := pr.drl[1..], rlr := pr.rlr + [pr.drl[0]], waitin := pr.waitin[pr.drl[0] := false])
  }

  lemma ReadiedOk(pr: Procs, evflg: seq<set<Mask>>, task: seq<Task>, started: nat)
    requires ProcOk(pr, evflg, task, started, 0) && pr.drl != []
    ensures pr.drl[0] < |pr.waitin| && ProcOk(Readied(pr), evflg, task, started, 0)
  {
    OnOne(pr, started);
    var t := Readied(pr);
    assert pr.drl == [pr.drl[0]] + pr.drl[1..];
    Rearranged(pr.rlr, pr.drl, pr.nrl, started, t.rlr, t.drl, t.nrl);
    assert t.waitin == pr.waitin;
    assert forall i :: 0 <= i < |t.drl| ==> t.drl[i] == pr.drl[i + 1];
  }

  // pstart(): a new process goes on the drl.
  lemma StartedOk(pr: Procs, evflg: seq<set<Mask>>, task: seq<Task>, started: nat)
    requires ProcOk(pr, evflg, task, started, 0) && started < |task| && task[started] == Free
    ensures ProcOk(pr.(drl := [started] + pr.drl, waitin := pr.waitin[started := false]), evflg, task, started + 1, 0)
  {
    hide Conserved;
    var d, t := [started] + pr.drl, pr.(drl := [started] + pr.drl, waitin := pr.waitin[started := false]);
    OnOne(pr, started);
    StartedList(pr, started);
    assert forall i :: 0 < i < |d| ==> d[i] == pr.drl[i - 1];
  }

  lemma StartedList(pr: Procs, started: nat)
    requires Conserved(pr.rlr, [pr.drl, pr.nrl], started)
    ensures Conserved(pr.rlr, [[started] + pr.drl, pr.nrl], started + 1)
  {
    var d := [started] + pr.drl;
    forall x: nat ensures multiset(pr.rlr)[x] + Held([d, pr.nrl], x) == if x < started + 1 then 1 else 0 {
      TwoLists(pr.drl, pr.nrl, x);
      TwoLists(d, pr.nrl, x);
      assert Held([pr.drl, pr.nrl], x) >= 0;
    }
  }
}

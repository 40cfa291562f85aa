// The fork ring (aes/gemdisp.c, aes/geminput.c): what interrupts bring is kept there until the
// dispatcher or ev_multi() carries it out; and what it comes to for the processes that wait.
module AesForks {
  import opened Lists
  import opened Pools
  import opened AesEvents
  import opened AesProcs
  import opened DelayList
  import opened AesWaits
  import opened AesSystem
  import opened AesSteps
  import opened Rings

  // What interrupts put in the fork ring: ticks gone by, a key for a process, or a change that
  // satisfies some of the waits on a chain, with the values these return and where the mouse is now.
  datatype Fork = Tick(ticks: int) | Key(pd: nat, ch: int) | Post(c: nat, rets: map<nat, int>, at: int)

  predicate ForkOk(f: Fork, n: nat) {
    match f
    case Tick(c) => c >= 0
    case Key(p, _) => p < n
    case Post(c, _, _) => DLR < c < 3 + 5 * n
  }

  // What one entry of the fork ring does, and what all of them do, in order.
  ghost predicate Carried(f: Fork, y: Sys, z: Sys, parm: int) {
    match f
    case Tick(c) => exists fired: nat :: TimersFired(y, z, fired, c)
    case Key(p, ch) => KeyPosted(y, z, p, ch, parm, KBD_SIZE)
    case Post(c, rets, at) => AllPosted(y, z, c, rets, at)
  }

  ghost predicate AllCarried(l: seq<Fork>, y: Sys, z: Sys, parm: int, n: nat) {
    if l == [] then z == y
    else exists w: Sys :: Carried(l[0], y, w, parm) && w.Ok(n, -1, 0) && AllCarried(l[1..], w, z, MouseAt(l[0], parm), n)
  }

  function MouseAt(f: Fork, parm: int): int {
    if f.Post? then f.at else parm
  }

  // Where the mouse is in the end.
  function MouseAfter(l: seq<Fork>, parm: int): int {
    if l == [] then parm else MouseAfter(l[1..], MouseAt(l[0], parm))
  }

  lemma TickCarried(y: Sys, z: Sys, c: int, fired: nat, parm: int)
    requires TimersFired(y, z, fired, c)
    ensures Carried(Tick(c), y, z, parm)
  {
  }

  // What is left to carry out leads to where all of it leads.
  ghost predicate LeadsOn(l: seq<Fork>, y: Sys, parm: int, l0: seq<Fork>, y0: Sys, parm0: int, n: nat) {
    MouseAfter(l, parm) == MouseAfter(l0, parm0) && forall z :: AllCarried(l, y, z, parm, n) ==> AllCarried(l0, y0, z, parm0, n)
  }

  lemma LeadsSame(l: seq<Fork>, y: Sys, parm: int, n: nat)
    ensures LeadsOn(l, y, parm, l, y, parm, n)
  {
  }

  lemma CarriedNext(g: Fork, l: seq<Fork>, l0: seq<Fork>, y0: Sys, parm0: int, y: Sys, w: Sys, parm: int, n: nat)
    requires LeadsOn([g] + l, y, parm, l0, y0, parm0, n) && Carried(g, y, w, parm) && w.Ok(n, -1, 0)
    ensures LeadsOn(l, w, MouseAt(g, parm), l0, y0, parm0, n)
  {
    hide Carried, Sys.Ok;
    assert ([g] + l)[1..] == l;
    forall z | AllCarried(l, w, z, MouseAt(g, parm), n) ensures AllCarried(l0, y0, z, parm0, n) {
      assert Carried(([g] + l)[0], y, w, parm) && AllCarried(([g] + l)[1..], w, z, MouseAt(([g] + l)[0], parm), n);
      assert AllCarried([g] + l, y, z, parm, n);
    }
  }

  lemma AllDoneNow(l0: seq<Fork>, y0: Sys, parm0: int, y: Sys, parm: int, n: nat)
    requires LeadsOn([], y, parm, l0, y0, parm0, n)
    ensures AllCarried(l0, y0, y, parm0, n) && parm == MouseAfter(l0, parm0)
  {
    assert AllCarried([], y, y, parm, n);
  }

  // disp() at the head of its loop: what is in the ring, where the mouse is, and how often the
  // keyboard has been polled.
  datatype Stage = Stage(y: Sys, forks: seq<Fork>, mouse: int, at: nat)

  // schedule() moves the processes on the drl to the end of the ready list.
  function Drained(pr: Procs): Procs {
    pr.(rlr := pr.rlr + pr.drl, drl := [])
  }

  // schedule(): polls came in one after the other, up to the first that brings something, unless a
  // process is ready; what the ring cannot take is lost.
  ghost predicate Looked(w: Sys, b: Stage, at: nat, polls: seq<seq<Fork>>) {
    && at <= b.at <= |polls| && (b.at == at ==> at == |polls|) && b.y == w.(pr := Drained(w.pr))
    && b.forks == FirstOf(if b.at > at then polls[b.at - 1] else [])
    && (b.at > at + 1 ==> Drained(w.pr).rlr == []) && (forall i :: at <= i < b.at - 1 ==> polls[i] == [])
    && (b.forks == [] && Drained(w.pr).rlr == [] ==> b.at == |polls|)
  }

  function FirstOf(l: seq<Fork>): seq<Fork> {
    if |l| <= NFORKS then l else l[..NFORKS]
  }

  // One turn of the loop of disp(): all that is in the ring is carried out, and schedule() is called.
  ghost predicate TurnOf(a: Stage, b: Stage, polls: seq<seq<Fork>>, n: nat) {
    exists w: Sys :: w.Ok(n, -1, 0) && AllCarried(a.forks, a.y, w, a.mouse, n) && b.mouse == MouseAfter(a.forks, a.mouse) &&
      Looked(w, b, a.at, polls)
  }

  // The turns of the loop.
  ghost predicate Loop(t: seq<Stage>, polls: seq<seq<Fork>>, n: nat) {
    && t != [] && t[0].at == 0
    && (forall k :: 0 <= k < |t| ==> t[k].y.Ok(n, -1, 0) && t[k].at <= |polls|)
    && (forall k :: 0 <= k < |t| - 1 ==> TurnOf(t[k], t[k + 1], polls, n))
  }

  lemma LoopStart(a: Stage, polls: seq<seq<Fork>>, n: nat)
    requires a.y.Ok(n, -1, 0) && a.at == 0
    ensures Loop([a], polls, n)
  {
  }

  lemma LoopMore(t: seq<Stage>, w: Sys, b: Stage, polls: seq<seq<Fork>>, n: nat)
    requires Loop(t, polls, n) && w.Ok(n, -1, 0) && b.y.Ok(n, -1, 0)
    requires var a := t[|t| - 1]; AllCarried(a.forks, a.y, w, a.mouse, n) && b.mouse == MouseAfter(a.forks, a.mouse) && Looked(w, b, a.at, polls)
    ensures Loop(t + [b], polls, n)
  {
    hide Sys.Ok, AllCarried, Looked;
    var u := t + [b];
    assert TurnOf(t[|t| - 1], b, polls, n);
    forall k | 0 <= k < |u| - 1 ensures TurnOf(u[k], u[k + 1], polls, n) {
      if k + 1 < |t| {
        assert u[k] == t[k] && u[k + 1] == t[k + 1];
      }
    }
    assert b.at <= |polls| by {
      LookedAt(w, b, t[|t| - 1].at, polls);
    }
  }

  lemma LookedAt(w: Sys, b: Stage, at: nat, polls: seq<seq<Fork>>)
    requires Looked(w, b, at, polls)
    ensures b.at <= |polls|
  {
  }

  lemma NothingIn(y: Sys, mouse: int, n: nat)
    ensures AllCarried([], y, y, mouse, n) && MouseAfter([], mouse) == mouse
  {
  }

  // The entry satisfies the wait e on the chain c, with this value.
  predicate Hits(f: Fork, c: nat, e: nat) {
    (f.Post? && f.c == c && e in f.rets) || (f.Key? && c == Kb(f.pd))
  }

  function Gives(f: Fork, e: nat): int {
    if f.Key? then f.ch else if f.Post? && e in f.rets then f.rets[e] else 0
  }

  // The ticks that go by.
  function TickSum(l: seq<Fork>): int {
    if l == [] then 0 else (if l[0].Tick? then l[0].ticks else 0) + TickSum(l[1..])
  }

  predicate HasTick(l: seq<Fork>) {
    exists i :: 0 <= i < |l| && l[i].Tick?
  }

  // e waits on the chain c, at its front if it is for a key.
  ghost predicate WaitsOn1(y: Sys, n: nat, c: nat, e: nat) {
    DLR < c < |y.s.chain| && e in y.s.chain[c] && (c < 2 + n ==> y.s.chain[c][0] == e)
  }

  ghost predicate Over1(y: Sys, e: nat) {
    |y.s.chain| > ZLR && e in y.s.chain[ZLR] && e < |y.s.evb|
  }

  // The first of the entries that hits the wait gives its value.
  ghost predicate FirstHit(l: seq<Fork>, c: nat, e: nat, i: nat) {
    i < |l| && Hits(l[i], c, e) && forall j :: 0 <= j < i ==> !Hits(l[j], c, e)
  }

  // What a list of entries comes to for a wait.  One that is over stays so, with its value; one on
  // a chain ends with the first entry that hits it, and stays without one; a timer ends when its
  // ticks have gone by, and is nearer by those that have.
  ghost predicate Fate(l: seq<Fork>, y: Sys, z: Sys, n: nat, e: nat) {
    && (Over1(y, e) ==> Over1(z, e) && e < |y.s.evb| && z.s.evb[e] == y.s.evb[e])
    && (forall c {:trigger WaitsOn1(y, n, c, e)} :: WaitsOn1(y, n, c, e) ==> ChainFate(l, y, z, n, c, e))
    && (forall d {:trigger DueIn(y, e, d)} :: DueIn(y, e, d) ==>
          if HasTick(l) && d <= TickSum(l) then Over1(z, e) else DueIn(z, e, d - TickSum(l)))
  }

  ghost predicate ChainFate(l: seq<Fork>, y: Sys, z: Sys, n: nat, c: nat, e: nat) {
    && (forall i: nat {:trigger FirstHit(l, c, e, i)} :: FirstHit(l, c, e, i) ==> Over1(z, e) && z.s.evb[e].ret == Gives(l[i], e))
    && ((forall i {:trigger l[i]} :: 0 <= i < |l| ==> !Hits(l[i], c, e)) ==> WaitsOn1(z, n, c, e))
  }

  // What none of this touches.
  ghost predicate Framed(y: Sys, z: Sys) {
    && z.task == y.task && z.curpid == y.curpid && z.tas == y.tas && z.owner == y.owner && z.qindex == y.qindex
    && z.s.eul == y.s.eul && z.s.evlist == y.s.evlist && z.pr.evwait == y.pr.evwait
    && |z.s.chain| == |y.s.chain| && SameWho(y.s.evb, z.s.evb)
  }

  // One entry.
  ghost predicate Step1(f: Fork, y: Sys, z: Sys, n: nat, e: nat) {
    && (Over1(y, e) ==> Over1(z, e) && e < |y.s.evb| && z.s.evb[e] == y.s.evb[e])
    && (forall c {:trigger WaitsOn1(y, n, c, e)} :: WaitsOn1(y, n, c, e) ==>
          if Hits(f, c, e) then Over1(z, e) && z.s.evb[e].ret == Gives(f, e) else WaitsOn1(z, n, c, e))
    && (forall d {:trigger DueIn(y, e, d)} :: DueIn(y, e, d) ==>
          if f.Tick? then (if d <= f.ticks then Over1(z, e) else DueIn(z, e, d - f.ticks)) else DueIn(z, e, d))
  }

  lemma StepFate(f: Fork, y: Sys, z: Sys, n: nat, e: nat)
    requires Step1(f, y, z, n, e)
    ensures Fate([f], y, z, n, e)
  {
    hide Over1, WaitsOn1, DueIn, Hits;
    var l := [f];
    assert l[0] == f && l[1..] == [];
    assert TickSum(l[1..]) == 0;
    assert TickSum(l) == if f.Tick? then f.ticks else 0;
    assert f.Tick? ==> l[0].Tick?;
  }

  // A block on the zombie list is on no other chain, and one on another chain is not over.
  lemma ZombieApart(y: Sys, n: nat, e: nat, c: nat)
    requires y.Ok(n, -1, 0) && ZLR < c < |y.s.chain|
    ensures e in y.s.chain[c] ==> e !in y.s.chain[ZLR] && e < |y.s.evb|
    ensures e in y.s.chain[ZLR] ==> e !in y.s.chain[c]
  {
    hide ProcOk, TasksOk, Side, Kept, Owned, Done, Flagged, OneEach;
    if e in y.s.chain[c] && e in y.s.chain[ZLR] {
      var k: nat :| k < |y.s.chain[c]| && y.s.chain[c][k] == e;
      var l: nat :| l < |y.s.chain[ZLR]| && y.s.chain[ZLR][l] == e;
      ChainApart(y.s, c, k, ZLR, l);
    }
  }

  lemma ChainsApart(y: Sys, n: nat, e: nat, c: nat, d: nat)
    requires y.Ok(n, -1, 0) && c < |y.s.chain| && d < |y.s.chain| && c != d
    ensures e in y.s.chain[c] ==> e !in y.s.chain[d]
  {
    hide ProcOk, TasksOk, Side, Kept, Owned, Done, Flagged, OneEach;
    if e in y.s.chain[c] && e in y.s.chain[d] {
      var k: nat :| k < |y.s.chain[c]| && y.s.chain[c][k] == e;
      var l: nat :| l < |y.s.chain[d]| && y.s.chain[d][l] == e;
      ChainApart(y.s, c, k, d, l);
    }
  }

  // A timer list that is the same counts the same.
  lemma SameDue(y: Sys, z: Sys, n: nat, e: nat, d: int)
    requires y.Ok(n, -1, 0) && z.Ok(n, -1, 0) && DueIn(y, e, d) && z.s.chain[DLR] == y.s.chain[DLR] && |z.s.evb| == |y.s.evb|
    requires forall x :: x in y.s.chain[DLR] && x < |y.s.evb| ==> z.s.evb[x] == y.s.evb[x]
    ensures DueIn(z, e, d)
  {
    hide ProcOk, TasksOk, SemOk, QueuesOk, Kept, Chained, Owned, Done, Flagged, OneEach;
    SysSizes(z, n, -1, 0);
    assert Deltas(z.s) == Deltas(y.s);
  }

  // tchange().
  lemma TickStep(y: Sys, z: Sys, n: nat, c: int, fired: nat, e: nat)
    requires y.Ok(n, -1, 0) && z.Ok(n, -1, 0) && TimersFired(y, z, fired, c) && c >= 0
    ensures Step1(Tick(c), y, z, n, e)
  {
    hide Sys.Ok, Expired, Lowered, TimedOut, Before, Deltas;
    SysSizes(y, n, -1, 0);
    if e in y.s.chain[ZLR] {
      ZombieApart(y, n, e, DLR);
    }
    forall d | DueIn(y, e, d) ensures if d <= c then Over1(z, e) else DueIn(z, e, d - c) {
      DueAfter(y, z, n, c, fired, e, d);
    }
    forall k {:trigger WaitsOn1(y, n, k, e)} | WaitsOn1(y, n, k, e) ensures WaitsOn1(z, n, k, e) && !Hits(Tick(c), k, e) {
    }
  }

  lemma DueAfter(y: Sys, z: Sys, n: nat, c: int, fired: nat, e: nat, d: int)
    requires y.Ok(n, -1, 0) && z.Ok(n, -1, 0) && TimersFired(y, z, fired, c) && c >= 0 && DueIn(y, e, d)
    ensures if d <= c then Over1(z, e) else DueIn(z, e, d - c)
  {
    hide Sys.Ok, TimedOut, Before, Deltas, Expired, Lowered, Rev;
    var l := y.s.chain[DLR];
    var i: nat :| i < |l| && l[i] == e && Before(Deltas(y.s), i + 1) == d;
    TimerTicks(y, n);
    LoweredDue(Deltas(y.s), fired, c, i);
    if i < fired {
      RevAt(l[..fired], i);
      assert z.s.chain[ZLR][fired - 1 - i] == e;
    } else {
      assert z.s.chain[DLR][i - fired] == e;
    }
  }

  lemma TimerTicks(y: Sys, n: nat)
    requires y.Ok(n, -1, 0)
    ensures InRange(y.s) && |y.s.chain| > DLR && Ticks(Deltas(y.s)) && |Deltas(y.s)| == |y.s.chain[DLR]|
  {
  }

  // post_keybd().
  lemma KeyStep(y: Sys, z: Sys, n: nat, p: nat, ch: int, parm: int, e: nat)
    requires y.Ok(n, -1, 0) && z.Ok(n, -1, 0) && KeyPosted(y, z, p, ch, parm, KBD_SIZE) && p < n
    ensures Step1(Key(p, ch), y, z, n, e)
  {
    hide Sys.Ok, Fired, Deltas, Cut;
    SysSizes(y, n, -1, 0);
    if y.s.chain[Kb(p)] != [] {
      EndStep(y, z, n, Kb(p), 0, parm, ch, e);
      CutHead(y.s.chain[Kb(p)]);
    }
  }

  // The k-th wait of a chain is over.
  lemma EndStep(y: Sys, z: Sys, n: nat, c: nat, k: nat, parm: int, ret: int, e: nat)
    requires y.Ok(n, -1, 0) && z.Ok(n, -1, 0) && CanFire(y, c, k) && z == Fired(y, c, k, parm, ret) && c > DLR
    ensures Over1(y, e) ==> Over1(z, e) && z.s.evb[e] == y.s.evb[e]
    ensures forall d {:trigger DueIn(y, e, d)} :: DueIn(y, e, d) ==> DueIn(z, e, d)
    ensures y.s.chain[c][k] == e ==> Over1(z, e) && z.s.evb[e].ret == ret
    ensures forall d {:trigger y.s.chain[d]} :: ZLR < d < |y.s.chain| && d != c ==> z.s.chain[d] == y.s.chain[d]
    ensures z.s.chain[c] == Cut(y.s.chain[c], k) && |z.s.chain| == |y.s.chain|
  {
    hide Sys.Ok, Fired, Deltas, Before, DueIn;
    var x := y.s.chain[c][k];
    FiredOnlyEnds(y, c, k, parm, ret);
    FiredChain(y, c, k, parm, ret);
    SysSizes(y, n, -1, 0);
    ZombieApart(y, n, x, c);
    forall d {:trigger DueIn(y, e, d)} | DueIn(y, e, d) ensures DueIn(z, e, d) {
      ChainsApart(y, n, x, c, DLR);
      SameDue(y, z, n, e, d);
    }
  }

  // post_button() and post_mouse().
  lemma PostStep(y: Sys, z: Sys, n: nat, c: nat, rets: map<nat, int>, at: int, e: nat)
    requires y.Ok(n, -1, 0) && z.Ok(n, -1, 0) && AllPosted(y, z, c, rets, at)
    ensures Step1(Post(c, rets, at), y, z, n, e)
  {
    hide Sys.Ok, Those, Others, Rev, DueIn;
    SysSizes(y, n, -1, 0);
    var l, s := y.s.chain[c], rets.Keys;
    forall x ensures x in Those(l, s) <==> x in l && x in s {
      ThoseHas(l, s, x);
    }
    if Over1(y, e) {
      ZombieApart(y, n, e, c);
    }
    forall d {:trigger DueIn(y, e, d)} | DueIn(y, e, d) ensures DueIn(z, e, d) {
      forall x | x in y.s.chain[DLR] && x < |y.s.evb| ensures z.s.evb[x] == y.s.evb[x] {
        ChainsApart(y, n, x, DLR, c);
      }
      SameDue(y, z, n, e, d);
    }
    if e in l {
      PostedHere(y, z, n, c, rets, at, e);
    }
    forall k {:trigger WaitsOn1(y, n, k, e)} | WaitsOn1(y, n, k, e)
      ensures if Hits(Post(c, rets, at), k, e) then Over1(z, e) && z.s.evb[e].ret == Gives(Post(c, rets, at), e) else WaitsOn1(z, n, k, e)
    {
    }
  }

  lemma PostedHere(y: Sys, z: Sys, n: nat, c: nat, rets: map<nat, int>, at: int, e: nat)
    requires y.Ok(n, -1, 0) && z.Ok(n, -1, 0) && AllPosted(y, z, c, rets, at) && e in y.s.chain[c]
    ensures e in rets ==> Over1(z, e) && z.s.evb[e].ret == rets[e]
    ensures e !in rets ==> e in z.s.chain[c] && (y.s.chain[c][0] == e ==> z.s.chain[c][0] == e)
  {
    hide Sys.Ok;
    SysSizes(y, n, -1, 0);
    var l, s := y.s.chain[c], rets.Keys;
    ThoseHas(l, s, e);
    OthersHas(l, s, e);
    if e in rets {
      RevHas(Those(l, s), e);
      ZombieApart(y, n, e, c);
    }
  }

  lemma CarriedStep(f: Fork, y: Sys, z: Sys, parm: int, n: nat, e: nat)
    requires y.Ok(n, -1, 0) && z.Ok(n, -1, 0) && ForkOk(f, n) && Carried(f, y, z, parm)
    ensures Fate([f], y, z, n, e) && Framed(y, z)
  {
    hide Sys.Ok, Step1, Fate, AllPosted, KeyPosted, TimersFired;
    CarriedFrame(f, y, z, parm, n);
    match f {
      case Tick(c) =>
        var fired: nat :| TimersFired(y, z, fired, c);
        TickStep(y, z, n, c, fired, e);
      case Key(p, ch) => KeyStep(y, z, n, p, ch, parm, e);
      case Post(c, rets, at) => PostStep(y, z, n, c, rets, at, e);
    }
    StepFate(f, y, z, n, e);
  }

  lemma CarriedFrame(f: Fork, y: Sys, z: Sys, parm: int, n: nat)
    requires y.Ok(n, -1, 0) && z.Ok(n, -1, 0) && ForkOk(f, n) && Carried(f, y, z, parm)
    ensures Framed(y, z)
  {
    hide Sys.Ok, Fired, Those, Others, Rev, TimedOut, Expired, Lowered, Deltas;
    if f.Key? && y.s.chain[Kb(f.pd)] != [] {
      FiredOnlyEnds(y, Kb(f.pd), 0, parm, f.ch);
    }
  }

  // One list of entries after the other.
  lemma FateTwice(l: seq<Fork>, m: seq<Fork>, x: Sys, y: Sys, z: Sys, n: nat, e: nat)
    requires Fate(l, x, y, n, e) && Fate(m, y, z, n, e)
    requires (forall i :: 0 <= i < |l| ==> ForkOk(l[i], n)) && (forall i :: 0 <= i < |m| ==> ForkOk(m[i], n))
    ensures Fate(l + m, x, z, n, e)
  {
    hide Over1, WaitsOn1, DueIn, Hits, ChainFate;
    SumConcat(l, m);
    SumPositive(l, n);
    SumPositive(m, n);
    assert HasTick(l + m) <==> HasTick(l) || HasTick(m) by {
      TickConcat(l, m);
    }
    forall c {:trigger WaitsOn1(x, n, c, e)} | WaitsOn1(x, n, c, e) ensures ChainFate(l + m, x, z, n, c, e) {
      ChainTwice(l, m, x, y, z, n, c, e);
    }
  }

  lemma TickConcat(l: seq<Fork>, m: seq<Fork>)
    ensures HasTick(l + m) <==> HasTick(l) || HasTick(m)
  {
    if i :| 0 <= i < |l| && l[i].Tick? {
      assert (l + m)[i].Tick?;
    }
    if i :| 0 <= i < |m| && m[i].Tick? {
      assert (l + m)[|l| + i].Tick?;
    }
  }

  lemma {:induction false} SumConcat(l: seq<Fork>, m: seq<Fork>)
    ensures TickSum(l + m) == TickSum(l) + TickSum(m)
  {
    if l == [] {
      assert l + m == m;
    } else {
      assert (l + m)[1..] == l[1..] + m;
      SumConcat(l[1..], m);
    }
  }

  lemma {:induction false} SumPositive(l: seq<Fork>, n: nat)
    requires forall i :: 0 <= i < |l| ==> ForkOk(l[i], n)
    ensures TickSum(l) >= 0 && (!HasTick(l) ==> TickSum(l) == 0)
  {
    if l != [] {
      SumPositive(l[1..], n);
      assert HasTick(l[1..]) ==> HasTick(l) by {
        if i :| 0 <= i < |l[1..]| && l[1..][i].Tick? {
          assert l[i + 1].Tick?;
        }
      }
      assert l[0].Tick? ==> HasTick(l);
    }
  }

  lemma ChainTwice(l: seq<Fork>, m: seq<Fork>, x: Sys, y: Sys, z: Sys, n: nat, c: nat, e: nat)
    requires Fate(l, x, y, n, e) && Fate(m, y, z, n, e) && WaitsOn1(x, n, c, e)
    ensures ChainFate(l + m, x, z, n, c, e)
  {
    hide WaitsOn1, DueIn, Hits;
    var r := l + m;
    assert ChainFate(l, x, y, n, c, e);
    forall i: nat | FirstHit(r, c, e, i) ensures Over1(z, e) && z.s.evb[e].ret == Gives(r[i], e) {
      if i < |l| {
        FirstLeft(l, m, c, e, i);
        assert FirstHit(l, c, e, i) && Over1(y, e);
      } else {
        FirstRight(l, m, c, e, i);
        assert WaitsOn1(y, n, c, e) && ChainFate(m, y, z, n, c, e) && FirstHit(m, c, e, i - |l|);
      }
    }
    if forall i {:trigger r[i]} :: 0 <= i < |r| ==> !Hits(r[i], c, e) {
      NoHits(l, m, c, e);
      assert WaitsOn1(y, n, c, e) && ChainFate(m, y, z, n, c, e);
    }
  }

  lemma FirstLeft(l: seq<Fork>, m: seq<Fork>, c: nat, e: nat, i: nat)
    requires FirstHit(l + m, c, e, i) && i < |l|
    ensures FirstHit(l, c, e, i) && (l + m)[i] == l[i]
  {
    assert forall j :: 0 <= j <= i ==> (l + m)[j] == l[j];
  }

  lemma FirstRight(l: seq<Fork>, m: seq<Fork>, c: nat, e: nat, i: nat)
    requires FirstHit(l + m, c, e, i) && i >= |l|
    ensures FirstHit(m, c, e, i - |l|) && (l + m)[i] == m[i - |l|]
    ensures forall j {:trigger l[j]} :: 0 <= j < |l| ==> !Hits(l[j], c, e)
  {
    assert forall j {:trigger m[j]} :: 0 <= j < |m| ==> (l + m)[|l| + j] == m[j];
    assert forall j {:trigger l[j]} :: 0 <= j < |l| ==> (l + m)[j] == l[j];
  }

  lemma NoHits(l: seq<Fork>, m: seq<Fork>, c: nat, e: nat)
    requires forall i {:trigger (l + m)[i]} :: 0 <= i < |l + m| ==> !Hits((l + m)[i], c, e)
    ensures forall j {:trigger l[j]} :: 0 <= j < |l| ==> !Hits(l[j], c, e)
    ensures forall j {:trigger m[j]} :: 0 <= j < |m| ==> !Hits(m[j], c, e)
  {
    assert forall j {:trigger m[j]} :: 0 <= j < |m| ==> (l + m)[|l| + j] == m[j];
    assert forall j {:trigger l[j]} :: 0 <= j < |l| ==> (l + m)[j] == l[j];
  }

  lemma NoFate(y: Sys, z: Sys, n: nat, e: nat)
    requires z.s == y.s
    ensures Fate([], y, z, n, e)
  {
  }

  // All that is in the ring.
  lemma {:induction false} AllFate(l: seq<Fork>, y: Sys, z: Sys, parm: int, n: nat, e: nat)
    requires y.Ok(n, -1, 0) && AllCarried(l, y, z, parm, n) && forall i :: 0 <= i < |l| ==> ForkOk(l[i], n)
    ensures Fate(l, y, z, n, e) && Framed(y, z)
  {
    hide Sys.Ok, Fate, Carried, Framed;
    if l == [] {
      NoFate(y, z, n, e);
      SameFrame(y);
    } else {
      var w: Sys :| Carried(l[0], y, w, parm) && w.Ok(n, -1, 0) && AllCarried(l[1..], w, z, MouseAt(l[0], parm), n);
      CarriedStep(l[0], y, w, parm, n, e);
      AllFate(l[1..], w, z, MouseAt(l[0], parm), n, e);
      FateTwice([l[0]], l[1..], y, w, z, n, e);
      assert [l[0]] + l[1..] == l;
      FrameTwice(y, w, z);
    }
  }

  lemma SameFrame(y: Sys)
    ensures Framed(y, y)
  {
  }

  lemma FrameTwice(x: Sys, y: Sys, z: Sys)
    requires Framed(x, y) && Framed(y, z)
    ensures Framed(x, z)
  {
  }

  // All entries carried out in the turns of the dispatcher, in order.
  function RingsOf(t: seq<Stage>): seq<Fork> {
    if t == [] then [] else t[0].forks + RingsOf(t[1..])
  }


  // What the polls before at brought, each up to what the ring takes.
  function Polled(polls: seq<seq<Fork>>, at: nat): seq<Fork>
    requires at <= |polls|
  {
    if at == 0 then [] else Polled(polls, at - 1) + FirstOf(polls[at - 1])
  }

  lemma {:induction false} PolledNone(polls: seq<seq<Fork>>, at: nat, next: nat)
    requires at <= next <= |polls| && forall i :: at <= i < next ==> polls[i] == []
    ensures Polled(polls, next) == Polled(polls, at)
  {
    if at < next {
      PolledNone(polls, at, next - 1);
    }
  }

  lemma {:induction false} RingsConcat(t: seq<Stage>, b: Stage)
    ensures RingsOf(t + [b]) == RingsOf(t) + b.forks
  {
    if t == [] {
      assert [b][1..] == [] && [] + [b] == [b];
    } else {
      assert (t + [b])[1..] == t[1..] + [b];
      RingsConcat(t[1..], b);
    }
  }

  lemma TurnForks(a: Stage, b: Stage, polls: seq<seq<Fork>>, n: nat)
    requires TurnOf(a, b, polls, n) && a.at <= |polls|
    ensures a.at <= b.at <= |polls| && Polled(polls, b.at) == Polled(polls, a.at) + b.forks
  {
    hide AllCarried, Sys.Ok;
    if b.at > a.at {
      PolledNone(polls, a.at, b.at - 1);
    }
  }

  // What is carried out is what was in the ring and what the polls brought.
  lemma {:induction false} RingsAre(t: seq<Stage>, polls: seq<seq<Fork>>, n: nat)
    requires Loop(t, polls, n)
    ensures RingsOf(t) == t[0].forks + Polled(polls, t[|t| - 1].at)
  {
    hide Loop, TurnOf, Sys.Ok, RingsOf, Polled;
    LoopEnds(t, polls, n);
    if |t| == 1 {
      assert t == [] + [t[0]];
      RingsConcat([], t[0]);
      NoRings(polls);
    } else {
      var m := |t| - 1;
      RingsAre(t[..m], polls, n);
      TurnForks(t[m - 1], t[m], polls, n);
      RingsConcat(t[..m], t[m]);
      assert t == t[..m] + [t[m]];
    }
  }

  lemma NoRings(polls: seq<seq<Fork>>)
    ensures RingsOf([]) == [] && Polled(polls, 0) == []
  {
  }

  lemma LoopEnds(t: seq<Stage>, polls: seq<seq<Fork>>, n: nat)
    requires Loop(t, polls, n)
    ensures t != [] && t[0].at == 0 && t[|t| - 1].at <= |polls|
    ensures |t| > 1 ==> Loop(t[..|t| - 1], polls, n) && TurnOf(t[|t| - 2], t[|t| - 1], polls, n) && t[|t| - 2].at <= |polls|
  {
    hide TurnOf, Sys.Ok;
    if |t| > 1 {
      var m := |t| - 2;
      assert TurnOf(t[m], t[m + 1], polls, n);
      assert forall k :: 0 <= k < |t| - 1 ==> t[..|t| - 1][k] == t[k];
    }
  }

  lemma {:induction false} RingsOk(t: seq<Stage>, n: nat)
    requires forall k, j :: 0 <= k < |t| && 0 <= j < |t[k].forks| ==> ForkOk(t[k].forks[j], n)
    ensures forall i :: 0 <= i < |RingsOf(t)| ==> ForkOk(RingsOf(t)[i], n)
  {
    if t != [] {
      assert forall k, j :: 0 <= k < |t[1..]| && 0 <= j < |t[1..][k].forks| ==> t[1..][k].forks[j] == t[k + 1].forks[j];
      RingsOk(t[1..], n);
    }
  }

  // What was in the ring is valid, and so are the polls.
  ghost predicate Sound(t: seq<Stage>, n: nat) {
    forall k, j :: 0 <= k < |t| && 0 <= j < |t[k].forks| ==> ForkOk(t[k].forks[j], n)
  }

  lemma TurnFate(a: Stage, b: Stage, polls: seq<seq<Fork>>, n: nat, e: nat)
    requires TurnOf(a, b, polls, n) && a.y.Ok(n, -1, 0) && forall i :: 0 <= i < |a.forks| ==> ForkOk(a.forks[i], n)
    ensures Fate(a.forks, a.y, b.y, n, e) && Framed(a.y, b.y)
  {
    hide AllCarried, Sys.Ok, Fate;
    var w: Sys :| w.Ok(n, -1, 0) && AllCarried(a.forks, a.y, w, a.mouse, n) && Looked(w, b, a.at, polls);
    AllFate(a.forks, a.y, w, a.mouse, n, e);
    NoFate(w, b.y, n, e);
    FateTwice(a.forks, [], a.y, w, b.y, n, e);
    assert a.forks + [] == a.forks;
  }

  // The dispatcher as a whole, when it has come to an empty ring.
  lemma {:induction false} LoopFate(t: seq<Stage>, polls: seq<seq<Fork>>, n: nat, e: nat)
    requires Loop(t, polls, n) && Sound(t, n) && t[|t| - 1].forks == []
    ensures Fate(RingsOf(t), t[0].y, t[|t| - 1].y, n, e) && Framed(t[0].y, t[|t| - 1].y)
  {
    PartFate(t, 0, polls, n, e);
    assert t[0..] == t;
  }

  lemma {:induction false} PartFate(t: seq<Stage>, k: nat, polls: seq<seq<Fork>>, n: nat, e: nat)
    requires Loop(t, polls, n) && Sound(t, n) && t[|t| - 1].forks == [] && k < |t|
    ensures Fate(RingsOf(t[k..]), t[k].y, t[|t| - 1].y, n, e) && Framed(t[k].y, t[|t| - 1].y)
    decreases |t| - k
  {
    hide TurnOf, Sys.Ok, Fate, Framed;
    assert t[k..][0] == t[k] && t[k..][1..] == t[k + 1..];
    if k == |t| - 1 {
      assert t[k..][1..] == [] && RingsOf(t[k..][1..]) == [];
      assert RingsOf(t[k..]) == [];
      NoFate(t[k].y, t[k].y, n, e);
      SameFrame(t[k].y);
    } else {
      assert TurnOf(t[k], t[k + 1], polls, n);
      TurnFate(t[k], t[k + 1], polls, n, e);
      PartFate(t, k + 1, polls, n, e);
      SoundFrom(t, k + 1, n);
      RingsOk(t[k + 1..], n);
      FateTwice(t[k].forks, RingsOf(t[k + 1..]), t[k].y, t[k + 1].y, t[|t| - 1].y, n, e);
      FrameTwice(t[k].y, t[k + 1].y, t[|t| - 1].y);
    }
  }

  lemma SoundFrom(t: seq<Stage>, k: nat, n: nat)
    requires Sound(t, n) && k <= |t|
    ensures Sound(t[k..], n)
  {
  }

  // What is carried out is valid.
  lemma LoopSound(t: seq<Stage>, polls: seq<seq<Fork>>, n: nat)
    requires Loop(t, polls, n) && forall i :: 0 <= i < |t[0].forks| ==> ForkOk(t[0].forks[i], n)
    requires forall i, j :: 0 <= i < |polls| && 0 <= j < |polls[i]| ==> ForkOk(polls[i][j], n)
    ensures Sound(t, n)
  {
    hide Sys.Ok, AllCarried;
    forall k, j | 0 <= k < |t| && 0 <= j < |t[k].forks| ensures ForkOk(t[k].forks[j], n) {
      if k > 0 {
        var i := k - 1;
        assert TurnOf(t[i], t[i + 1], polls, n);
      }
    }
  }

  // The dispatcher has come to its end: the ring is empty, and no process is about to be ready.
  ghost predicate Finished(t: seq<Stage>, polls: seq<seq<Fork>>, n: nat) {
    && Loop(t, polls, n) && t[|t| - 1].forks == [] && t[|t| - 1].y.pr.drl == []
    && (forall i :: 0 <= i < |t[0].forks| ==> ForkOk(t[0].forks[i], n))
    && (forall i, j :: 0 <= i < |polls| && 0 <= j < |polls[i]| ==> ForkOk(polls[i][j], n))
  }

  lemma FinishedIs(t: seq<Stage>, polls: seq<seq<Fork>>, n: nat)
    requires Loop(t, polls, n) && t[|t| - 1].forks == [] && t[|t| - 1].y.pr.drl == []
    requires forall i :: 0 <= i < |t[0].forks| ==> ForkOk(t[0].forks[i], n)
    requires forall i, j :: 0 <= i < |polls| && 0 <= j < |polls[i]| ==> ForkOk(polls[i][j], n)
    ensures Finished(t, polls, n)
  {
  }

  // All entries there were: those in the ring, and those the polls brought.
  ghost function Entries(t: seq<Stage>, polls: seq<seq<Fork>>): seq<Fork>
    requires t != [] && t[|t| - 1].at <= |polls|
  {
    t[0].forks + Polled(polls, t[|t| - 1].at)
  }

  // Nothing that was in the ring is lost, and nothing that came in while it had room.
  lemma {:induction false} EntriesHave(t: seq<Stage>, polls: seq<seq<Fork>>, n: nat, i: nat, j: nat)
    requires Finished(t, polls, n)
    ensures t[|t| - 1].at <= |polls|
    ensures t[0].forks <= Entries(t, polls)
    ensures i < t[|t| - 1].at && j < |polls[i]| && j < 32 ==> polls[i][j] in Entries(t, polls)
  {
    hide TurnOf, Sys.Ok;
    LoopEnds(t, polls, n);
    if i < t[|t| - 1].at && j < |polls[i]| && j < 32 {
      assert FirstOf(polls[i])[j] == polls[i][j];
      PolledHas(polls, t[|t| - 1].at, i, polls[i][j]);
      assert polls[i][j] in Polled(polls, t[|t| - 1].at);
    }
  }

  lemma {:induction false} PolledHas(polls: seq<seq<Fork>>, at: nat, i: nat, f: Fork)
    requires i < at <= |polls| && f in FirstOf(polls[i])
    ensures f in Polled(polls, at)
  {
    if i < at - 1 {
      PolledHas(polls, at - 1, i, f);
    }
  }

  lemma DispatchFate(t: seq<Stage>, polls: seq<seq<Fork>>, n: nat, e: nat)
    requires Finished(t, polls, n)
    ensures t != [] && t[|t| - 1].at <= |polls| && t[0].y.Ok(n, -1, 0) && t[|t| - 1].y.Ok(n, -1, 0)
    ensures Fate(Entries(t, polls), t[0].y, t[|t| - 1].y, n, e) && Framed(t[0].y, t[|t| - 1].y)
    ensures forall i :: 0 <= i < |Entries(t, polls)| ==> ForkOk(Entries(t, polls)[i], n)
  {
    hide TurnOf, Sys.Ok, Fate, Framed;
    LoopSound(t, polls, n);
    LoopFate(t, polls, n, e);
    RingsAre(t, polls, n);
    RingsOk(t, n);
  }

  lemma {:induction false} SomeFirst(l: seq<Fork>, c: nat, e: nat, k: nat) returns (i: nat)
    requires k < |l| && Hits(l[k], c, e)
    ensures FirstHit(l, c, e, i)
  {
    i := 0;
    while !Hits(l[i], c, e)
      invariant i <= k && forall j :: 0 <= j < i ==> !Hits(l[j], c, e)
      decreases k - i
    {
      i := i + 1;
    }
  }

  // A completed block's process is flagged, and is ready if it waits for that event.
  lemma OverMeans(z: Sys, n: nat, e: nat)
    requires z.Ok(n, -1, 0) && Over1(z, e)
    ensures z.s.evb[e].complete && z.s.evb[e].pd < n == |z.s.evflg| == |z.pr.evwait| && z.s.evb[e].mask in z.s.evflg[z.s.evb[e].pd]
    ensures z.pr.drl == [] && z.s.evb[e].mask in z.pr.evwait[z.s.evb[e].pd] && z.s.evb[e].pd < z.curpid ==> z.s.evb[e].pd in z.pr.rlr
  {
    hide EvOk, TasksOk, Side, ProcOk;
    var k: nat :| k < |z.s.chain[ZLR]| && z.s.chain[ZLR][k] == e;
    ZombieFlag(z, n, -1, 0, k);
    SysSizes(z, n, -1, 0);
    var p := z.s.evb[e].pd;
    if z.pr.drl == [] && z.s.evb[e].mask in z.pr.evwait[p] && p < z.curpid {
      assert z.s.evb[e].mask in z.pr.evwait[p] * z.s.evflg[p];
      OnSomeList(z, n, p);
    }
  }

  lemma OnSomeList(z: Sys, n: nat, p: nat)
    requires z.Ok(n, -1, 0) && p < z.curpid && p < |z.pr.evwait| && p < |z.s.evflg|
    ensures p in z.pr.rlr || p in z.pr.drl || p in z.pr.nrl
    ensures z.pr.evwait[p] * z.s.evflg[p] != {} ==> p !in z.pr.nrl
  {
    SystemFacts(z, n);
    assert multiset(z.pr.rlr)[p] + multiset(z.pr.drl)[p] + multiset(z.pr.nrl)[p] == 1;
  }

  // A process not yet started has no events.
  lemma NotStarted(z: Sys, n: nat)
    requires z.Ok(n, -1, 0)
    ensures |z.s.evlist| == n && forall p :: z.curpid <= p < n ==> z.s.evlist[p] == []
  {
    hide Side, ProcOk, EvOk;
    SysSizes(z, n, -1, 0);
    forall p | z.curpid <= p < n ensures z.s.evlist[p] == [] {
      assert TaskOk(z.s, z.pr.evwait, z.task, p);
    }
  }

  lemma OnChainMeans(z: Sys, n: nat, c: nat, e: nat)
    requires z.Ok(n, -1, 0) && ZLR < c < |z.s.chain| && e in z.s.chain[c]
    ensures e < |z.s.evb| && !z.s.evb[e].complete && z.s.evb[e].pd < z.curpid <= n && !Over1(z, e)
  {
    hide Side, ProcOk, Kept, Chained, Owned, Flagged, OneEach;
    var k: nat :| k < |z.s.chain[c]| && z.s.chain[c][k] == e;
    NotDone(z.s, c, k);
    var p, i := OnList(z.s, c, k);
    NotStarted(z, n);
    ZombieApart(z, n, e, c);
  }

  // What the dispatcher does for a wait on a chain: it ends exactly when an entry that was in the
  // ring, or came in meanwhile, is for it, with the value of the first of these, and then its
  // process is ready if it sleeps for that event; otherwise it goes on.
  lemma WaitEnds(t: seq<Stage>, polls: seq<seq<Fork>>, n: nat, c: nat, e: nat)
    requires Finished(t, polls, n) && DLR < c < |t[0].y.s.chain| && e in t[0].y.s.chain[c]
    requires c < 2 + n ==> t[0].y.s.chain[c][0] == e
    ensures t[|t| - 1].at <= |polls|
    ensures var y, z, r := t[0].y, t[|t| - 1].y, Entries(t, polls);
            && e < |y.s.evb| == |z.s.evb| && |z.s.chain| == |y.s.chain|
            && z.s.evb[e].pd == y.s.evb[e].pd < |z.s.evflg| == |y.pr.evwait| && z.s.evb[e].mask == y.s.evb[e].mask
            && (z.s.evb[e].complete <==>
                 exists k :: 0 <= k < |r| && ((r[k].Post? && r[k].c == c && e in r[k].rets) || (r[k].Key? && c == 2 + r[k].pd)))
            && (z.s.evb[e].complete ==>
                 (y.s.evb[e].mask in z.s.evflg[y.s.evb[e].pd] &&
                  (y.s.evb[e].mask in y.pr.evwait[y.s.evb[e].pd] ==> y.s.evb[e].pd in z.pr.rlr) &&
                  exists k :: 0 <= k < |r| && z.s.evb[e].ret == (if r[k].Key? && c == 2 + r[k].pd then r[k].ch
                                                              else if r[k].Post? && e in r[k].rets then r[k].rets[e] else 0) &&
                    forall j :: 0 <= j < k ==>
                      !(r[j].Post? && r[j].c == c && e in r[j].rets) && !(r[j].Key? && c == 2 + r[j].pd)))
            && (!z.s.evb[e].complete ==> e in z.s.chain[c])
  {
    hide Loop, Sys.Ok, Polled, Over1, Before, Deltas;
    DispatchFate(t, polls, n, e);
    var y, z, r := t[0].y, t[|t| - 1].y, Entries(t, polls);
    SysSizes(y, n, -1, 0);
    OnChainMeans(y, n, c, e);
    assert WaitsOn1(y, n, c, e) && ChainFate(r, y, z, n, c, e);
    SysSizes(z, n, -1, 0);
    if k: nat :| k < |r| && Hits(r[k], c, e) {
      var i := SomeFirst(r, c, e, k);
      OverMeans(z, n, e);
      assert Hits(r[i], c, e);
    } else {
      assert WaitsOn1(z, n, c, e);
      OnChainMeans(z, n, c, e);
    }
  }

  // And for a timer: it ends exactly when the ticks that came are at least those it had to go;
  // otherwise it is nearer by just these.
  lemma TimerEnds(t: seq<Stage>, polls: seq<seq<Fork>>, n: nat, i: nat)
    requires Finished(t, polls, n) && InRange(t[0].y.s) && |t[0].y.s.chain| > DLR && i < |t[0].y.s.chain[DLR]|
    ensures t[|t| - 1].at <= |polls|
    ensures var y, z, r := t[0].y, t[|t| - 1].y, Entries(t, polls);
            var e, d := y.s.chain[DLR][i], Before(Deltas(y.s), i + 1);
            && e < |y.s.evb| == |z.s.evb| && InRange(z.s) && |z.s.chain| > DLR
            && z.s.evb[e].pd == y.s.evb[e].pd < |z.s.evflg| == |y.pr.evwait| && z.s.evb[e].mask == y.s.evb[e].mask == TIMER
            && (z.s.evb[e].complete <==> d <= TickSum(r) && exists k :: 0 <= k < |r| && r[k].Tick?)
            && (z.s.evb[e].complete ==>
                 (TIMER in z.s.evflg[y.s.evb[e].pd] && (TIMER in y.pr.evwait[y.s.evb[e].pd] ==> y.s.evb[e].pd in z.pr.rlr)))
            && (!z.s.evb[e].complete ==>
                 exists j :: 0 <= j < |z.s.chain[DLR]| && z.s.chain[DLR][j] == e && Before(Deltas(z.s), j + 1) == d - TickSum(r))
  {
    hide Loop, Sys.Ok, Polled, Before, Deltas, TickSum, Fate, Framed;
    LoopEnds(t, polls, n);
    var y, z, r := t[0].y, t[|t| - 1].y, Entries(t, polls);
    var e, d := y.s.chain[DLR][i], Before(Deltas(y.s), i + 1);
    DispatchFate(t, polls, n, e);
    TimerMaskOf(y, n, i);
    assert DueIn(y, e, d);
    TimerCase(y, z, r, n, e, d);
  }

  lemma TimerCase(y: Sys, z: Sys, r: seq<Fork>, n: nat, e: nat, d: int)
    requires y.Ok(n, -1, 0) && z.Ok(n, -1, 0) && Framed(y, z) && Fate(r, y, z, n, e) && DueIn(y, e, d) && z.pr.drl == []
    ensures e < |y.s.evb| == |z.s.evb| && InRange(z.s) && |z.s.chain| > DLR
    ensures z.s.evb[e].pd == y.s.evb[e].pd < |z.s.evflg| == |y.pr.evwait| && z.s.evb[e].mask == y.s.evb[e].mask
    ensures z.s.evb[e].complete <==> HasTick(r) && d <= TickSum(r)
    ensures z.s.evb[e].complete ==>
      (z.s.evb[e].mask in z.s.evflg[y.s.evb[e].pd] &&
       (z.s.evb[e].mask in y.pr.evwait[y.s.evb[e].pd] ==> y.s.evb[e].pd in z.pr.rlr))
    ensures !z.s.evb[e].complete ==> DueIn(z, e, d - TickSum(r))
  {
    hide Sys.Ok, Before, Deltas, TickSum, HasTick, DueIn, Over1;
    SysSizes(y, n, -1, 0);
    SysSizes(z, n, -1, 0);
    DueThere(y, e, d);
    OnChainMeans(y, n, DLR, e);
    if HasTick(r) && d <= TickSum(r) {
      OverMeans(z, n, e);
    } else {
      DueThere(z, e, d - TickSum(r));
      OnChainMeans(z, n, DLR, e);
    }
  }

  lemma DueThere(y: Sys, e: nat, d: int)
    requires DueIn(y, e, d)
    ensures InRange(y.s) && |y.s.chain| > DLR && e in y.s.chain[DLR]
  {
  }

  lemma TimerMaskOf(y: Sys, n: nat, i: nat)
    requires y.Ok(n, -1, 0) && |y.s.chain| > DLR && i < |y.s.chain[DLR]|
    ensures y.s.chain[DLR][i] < |y.s.evb| && y.s.evb[y.s.chain[DLR][i]].mask == TIMER
  {
    NotDone(y.s, DLR, i);
  }

  // A process that sleeps when the dispatcher starts is ready in the end exactly when one of its
  // waits has ended.
  lemma Wakes(t: seq<Stage>, polls: seq<seq<Fork>>, n: nat, q: nat)
    requires Finished(t, polls, n) && q in t[0].y.pr.nrl
    ensures var y, z := t[0].y, t[|t| - 1].y;
            && q < |y.s.evlist| && (forall k :: 0 <= k < |y.s.evlist[q]| ==> y.s.evlist[q][k] < |z.s.evb|)
            && (q in z.pr.rlr <==> exists k :: 0 <= k < |y.s.evlist[q]| && z.s.evb[y.s.evlist[q][k]].complete)
            && (q in z.pr.rlr <==> q !in z.pr.nrl)
  {
    hide Loop, Sys.Ok, Polled, Over1, Before, Deltas, Fate;
    DispatchFate(t, polls, n, 0);
    var y, z := t[0].y, t[|t| - 1].y;
    SysSizes(y, n, -1, 0);
    SysSizes(z, n, -1, 0);
    SleeperStarted(y, n, q);
    ReadyIff(z, n, q);
  }

  lemma SleeperStarted(y: Sys, n: nat, q: nat)
    requires y.Ok(n, -1, 0) && q in y.pr.nrl
    ensures q < y.curpid <= n && q < |y.task| && y.task[q].Blocked?
  {
    hide EvOk, Side, TasksOk;
    OnOne(y.pr, y.curpid);
  }

  // A process in mwait() is ready exactly when one of its events is completed.
  lemma ReadyIff(z: Sys, n: nat, q: nat)
    requires z.Ok(n, -1, 0) && q < z.curpid && z.pr.drl == [] && q < |z.task| && z.task[q].Blocked? && q < |z.s.evlist| && InRange(z.s)
    ensures q in z.pr.rlr <==> exists k :: 0 <= k < |z.s.evlist[q]| && z.s.evb[z.s.evlist[q][k]].complete
    ensures q in z.pr.rlr <==> q !in z.pr.nrl
  {
    hide EvOk, Side, ProcOk, Masks;
    SysSizes(z, n, -1, 0);
    SystemFacts(z, n);
    assert multiset(z.pr.rlr)[q] + multiset(z.pr.drl)[q] + multiset(z.pr.nrl)[q] == 1;
    WantsAll(z, n, q);
    assert q in z.pr.rlr ==> z.pr.evwait[q] * z.s.evflg[q] != {};
    assert q in z.pr.nrl ==> z.pr.evwait[q] * z.s.evflg[q] == {};
  }

  // What a process in mwait() waits for are just its events, and it has the flags of those that are
  // completed.
  lemma WantsAll(z: Sys, n: nat, q: nat)
    requires z.Ok(n, -1, 0) && q < |z.task| && z.task[q].Blocked? && q < |z.s.evlist| && InRange(z.s)
    ensures q < |z.pr.evwait| && q < |z.s.evflg|
    ensures z.pr.evwait[q] * z.s.evflg[q] != {} <==> exists k :: 0 <= k < |z.s.evlist[q]| && z.s.evb[z.s.evlist[q][k]].complete
  {
    hide Side, ProcOk, Kept, Chained, Owned, Done, OneEach;
    SysSizes(z, n, -1, 0);
    assert TaskOk(z.s, z.pr.evwait, z.task, q);
    if k :| 0 <= k < |z.s.evlist[q]| && z.s.evb[z.s.evlist[q][k]].complete {
      assert z.s.evb[z.s.evlist[q][k]].mask in z.pr.evwait[q] * z.s.evflg[q];
    }
    if z.pr.evwait[q] * z.s.evflg[q] != {} {
      var m :| m in z.pr.evwait[q] * z.s.evflg[q];
      assert HasDone(z.s.evb, z.s.evlist[q], m);
    }
  }

  // A process's keyboard buffer when nobody waits for its keys.
  function Buffered(b: seq<int>, l: seq<Fork>, q: nat): (r: seq<int>)
    ensures b <= r && |r| <= |b| + |l| && (|r| <= KBD_SIZE || r == b)
    ensures forall i :: 0 <= i < |l| && l[i].Key? && l[i].pd == q ==> l[i].ch in r || |r| >= KBD_SIZE
    decreases |l|
  {
    if l == [] then b
    else
      var m, c := l[1..], if l[0].Key? && l[0].pd == q && |b| < KBD_SIZE then b + [l[0].ch] else b;
      assert forall i :: 0 < i < |l| ==> l[i] == m[i - 1];
      assert l[0].Key? && l[0].pd == q && |b| < KBD_SIZE ==> c[|b|] == l[0].ch;
      Buffered(c, m, q)
  }

  lemma {:induction false} BufferedConcat(b: seq<int>, l: seq<Fork>, m: seq<Fork>, q: nat)
    ensures Buffered(b, l + m, q) == Buffered(Buffered(b, l, q), m, q)
    decreases |l|
  {
    if l == [] {
      assert l + m == m;
    } else {
      assert (l + m)[1..] == l[1..] + m && (l + m)[0] == l[0];
      var c := if l[0].Key? && l[0].pd == q && |b| < KBD_SIZE then b + [l[0].ch] else b;
      BufferedConcat(c, l[1..], m, q);
      assert Buffered(b, l, q) == Buffered(c, l[1..], q);
    }
  }

  ghost predicate KeyFate(l: seq<Fork>, y: Sys, z: Sys, q: nat) {
    Kb(q) < |y.s.chain| && y.s.chain[Kb(q)] == [] && q < |y.keys| ==>
      Kb(q) < |z.s.chain| && z.s.chain[Kb(q)] == [] && q < |z.keys| && z.keys[q] == Buffered(y.keys[q], l, q)
  }

  lemma KeyFateOne(f: Fork, y: Sys, z: Sys, parm: int, n: nat, q: nat)
    requires y.Ok(n, -1, 0) && z.Ok(n, -1, 0) && ForkOk(f, n) && Carried(f, y, z, parm)
    ensures KeyFate([f], y, z, q)
  {
    hide Sys.Ok, Fired, Rev, Those, Expired, Lowered, TimedOut, Deltas;
    assert [f][1..] == [];
    if Kb(q) < |y.s.chain| && y.s.chain[Kb(q)] == [] && f.Post? && f.c == Kb(q) {
      assert Others(y.s.chain[Kb(q)], f.rets.Keys) == [];
    }
    if f.Key? && y.s.chain[Kb(f.pd)] != [] {
      FiredOnlyEnds(y, Kb(f.pd), 0, parm, f.ch);
      FiredChain(y, Kb(f.pd), 0, parm, f.ch);
    }
    assert Buffered([], [], q) == [];
  }

  lemma KeyFateTwice(l: seq<Fork>, m: seq<Fork>, x: Sys, y: Sys, z: Sys, q: nat)
    requires KeyFate(l, x, y, q) && KeyFate(m, y, z, q)
    ensures KeyFate(l + m, x, z, q)
  {
    hide Buffered;
    if q < |x.keys| {
      BufferedConcat(x.keys[q], l, m, q);
    }
  }

  lemma KeyFateNone(y: Sys, z: Sys, q: nat)
    requires z.s == y.s && z.keys == y.keys
    ensures KeyFate([], y, z, q)
  {
  }

  lemma {:induction false} AllKeys(l: seq<Fork>, y: Sys, z: Sys, parm: int, n: nat, q: nat)
    requires y.Ok(n, -1, 0) && AllCarried(l, y, z, parm, n) && forall i :: 0 <= i < |l| ==> ForkOk(l[i], n)
    ensures KeyFate(l, y, z, q)
  {
    hide Sys.Ok, KeyFate, Carried;
    if l == [] {
      KeyFateNone(y, z, q);
    } else {
      var w: Sys :| Carried(l[0], y, w, parm) && w.Ok(n, -1, 0) && AllCarried(l[1..], w, z, MouseAt(l[0], parm), n);
      KeyFateOne(l[0], y, w, parm, n, q);
      AllKeys(l[1..], w, z, MouseAt(l[0], parm), n, q);
      KeyFateTwice([l[0]], l[1..], y, w, z, q);
      assert [l[0]] + l[1..] == l;
    }
  }

  lemma TurnKeys(a: Stage, b: Stage, polls: seq<seq<Fork>>, n: nat, q: nat)
    requires TurnOf(a, b, polls, n) && a.y.Ok(n, -1, 0) && forall i :: 0 <= i < |a.forks| ==> ForkOk(a.forks[i], n)
    ensures KeyFate(a.forks, a.y, b.y, q)
  {
    hide AllCarried, Sys.Ok, KeyFate;
    var w: Sys :| w.Ok(n, -1, 0) && AllCarried(a.forks, a.y, w, a.mouse, n) && Looked(w, b, a.at, polls);
    AllKeys(a.forks, a.y, w, a.mouse, n, q);
    KeyFateNone(w, b.y, q);
    KeyFateTwice(a.forks, [], a.y, w, b.y, q);
    assert a.forks + [] == a.forks;
  }

  lemma {:induction false} PartKeys(t: seq<Stage>, k: nat, polls: seq<seq<Fork>>, n: nat, q: nat)
    requires Loop(t, polls, n) && Sound(t, n) && t[|t| - 1].forks == [] && k < |t|
    ensures KeyFate(RingsOf(t[k..]), t[k].y, t[|t| - 1].y, q)
    decreases |t| - k
  {
    hide TurnOf, Sys.Ok, KeyFate;
    assert t[k..][0] == t[k] && t[k..][1..] == t[k + 1..];
    if k == |t| - 1 {
      assert t[k..][1..] == [] && RingsOf(t[k..][1..]) == [];
      assert RingsOf(t[k..]) == [];
      KeyFateNone(t[k].y, t[k].y, q);
    } else {
      assert TurnOf(t[k], t[k + 1], polls, n);
      TurnKeys(t[k], t[k + 1], polls, n, q);
      PartKeys(t, k + 1, polls, n, q);
      KeyFateTwice(t[k].forks, RingsOf(t[k + 1..]), t[k].y, t[k + 1].y, t[|t| - 1].y, q);
    }
  }

  // The keys that come for a process that does not wait for one join its buffer in order, while
  // there is room for them.
  lemma KeysArrive(t: seq<Stage>, polls: seq<seq<Fork>>, n: nat, q: nat)
    requires Finished(t, polls, n) && q < n && 2 + q < |t[0].y.s.chain| && t[0].y.s.chain[2 + q] == []
    ensures t[|t| - 1].at <= |polls|
    ensures var y, z, r := t[0].y, t[|t| - 1].y, Entries(t, polls);
            && q < |y.keys| == |z.keys| && y.keys[q] <= z.keys[q] && z.keys[q] == Buffered(y.keys[q], r, q)
            && (forall i :: 0 <= i < |r| && r[i].Key? && r[i].pd == q ==> r[i].ch in z.keys[q] || |z.keys[q]| >= 8)
  {
    hide TurnOf, Sys.Ok;
    LoopEnds(t, polls, n);
    LoopSound(t, polls, n);
    SysSizes(t[0].y, n, -1, 0);
    SysSizes(t[|t| - 1].y, n, -1, 0);
    PartKeys(t, 0, polls, n, q);
    assert t[0..] == t;
    RingsAre(t, polls, n);
  }

  // The flag of an event says that the block for it is completed.
  lemma FlagIsDone(y: Sys, z: Sys, n: nat, c: nat, e: nat)
    requires y.Ok(n, -1, 0) && z.Ok(n, -1, 0) && c < |y.s.chain| && e in y.s.chain[c] && Framed(y, z)
    ensures e < |z.s.evb| && z.s.evb[e].pd < |z.s.evflg|
    ensures z.s.evb[e].mask in z.s.evflg[z.s.evb[e].pd] <==> z.s.evb[e].complete
  {
    hide ProcOk, TasksOk, Side, Kept, Chained, Done;
    SysSizes(y, n, -1, 0);
    SysSizes(z, n, -1, 0);
    var k: nat :| k < |y.s.chain[c]| && y.s.chain[c][k] == e;
    var p, i := OnList(y.s, c, k);
    var m := z.s.evb[e].mask;
    assert z.s.evlist[p][i] == e;
    if m in z.s.evflg[p] {
      assert HasDone(z.s.evb, z.s.evlist[p], m);
      var j :| 0 <= j < |z.s.evlist[p]| && z.s.evb[z.s.evlist[p][j]].mask == m && z.s.evb[z.s.evlist[p][j]].complete;
      assert j == i;
    }
  }

  // A process that went to sleep is ready in the end exactly when it has a flag.
  lemma SleeperWakes(y: Sys, p: nat, m: set<Mask>, forks: seq<Fork>, mouse: int, t: seq<Stage>, z: Sys, mouse': int,
                     switched: bool, polls: seq<seq<Fork>>, n: nat)
    requires WentToSleep(y, p, m, forks, mouse, t, z, mouse', switched, polls, n)
    ensures p < |z.s.evflg| && (p in z.pr.rlr <==> z.s.evflg[p] != {}) && (p in z.pr.rlr <==> p !in z.pr.nrl)
  {
    hide Sys.Ok, TurnOf, Finished, Fate;
    DispatchFate(t, polls, n, 0);
    SysSizes(z, n, -1, 0);
    var x := t[0].y;
    assert p in x.pr.nrl;
    SleeperStarted(x, n, p);
    Wakes(t, polls, n, p);
    FlagsHeld(z, n, p);
  }

  lemma FlagsHeld(z: Sys, n: nat, p: nat)
    requires z.Ok(n, -1, 0) && p < |z.s.evlist| && InRange(z.s)
    ensures p < |z.s.evflg| && (z.s.evflg[p] != {} <==> exists k :: 0 <= k < |z.s.evlist[p]| && z.s.evb[z.s.evlist[p][k]].complete)
  {
    hide ProcOk, TasksOk, Side, Kept, Chained, Done, Owned, OneEach;
    if z.s.evflg[p] != {} {
      var m :| m in z.s.evflg[p];
      assert HasDone(z.s.evb, z.s.evlist[p], m);
    }
  }

  // mwait() put the running process p to sleep for the events m, and the dispatcher went through
  // these turns, from the ring and the mouse as they were to the state z.
  ghost predicate WentToSleep(y: Sys, p: nat, m: set<Mask>, forks: seq<Fork>, mouse: int, t: seq<Stage>, z: Sys, mouse': int,
                              switched: bool, polls: seq<seq<Fork>>, n: nat)
  {
    && p < |y.task| && p < |y.pr.waitin| && p < |y.pr.evwait| && y.pr.rlr != [] && y.pr.rlr[0] == p
    && Finished(t, polls, n) && t[|t| - 1] == Stage(z, [], mouse', t[|t| - 1].at)
    && t[0] == Stage(y.(task := y.task[p := Blocked(m)],
                        pr := y.pr.(rlr := y.pr.rlr[1..], nrl := [p] + y.pr.nrl,
                                    waitin := y.pr.waitin[p := true], evwait := y.pr.evwait[p := m])), forks, mouse, 0)
    && (switched <==> z.pr.rlr != []) && (!switched ==> t[|t| - 1].at == |polls|)
  }

  lemma SleptSo(y: Sys, p: nat, m: set<Mask>, forks: seq<Fork>, mouse: int, t: seq<Stage>, z: Sys, mouse': int,
                switched: bool, polls: seq<seq<Fork>>, n: nat)
    requires p < |y.task| && p < |y.pr.waitin| && p < |y.pr.evwait| && y.pr.rlr != [] && y.pr.rlr[0] == p
    requires Finished(t, polls, n) && t[|t| - 1] == Stage(z, [], mouse', t[|t| - 1].at)
    requires t[0] == Stage(y.(task := y.task[p := Blocked(m)],
                              pr := y.pr.(rlr := y.pr.rlr[1..], nrl := [p] + y.pr.nrl,
                                          waitin := y.pr.waitin[p := true], evwait := y.pr.evwait[p := m])), forks, mouse, 0)
    requires (switched <==> z.pr.rlr != []) && (!switched ==> t[|t| - 1].at == |polls|)
    ensures WentToSleep(y, p, m, forks, mouse, t, z, mouse', switched, polls, n)
  {
    hide Finished;
  }
}

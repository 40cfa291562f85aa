// The AES kernel (aes/gemasync.c, aes/gemdisp.c, aes/geminput.c, aes/gemflag.c, aes/gemevlib.c,
// aes/gemqueue.c, aes/gempd.c): processes that wait for events and the dispatcher between them.
module AesKernel {
  import opened Lists
  import opened Pools
  import opened AesEvents
  import opened AesProcs
  import opened DelayList
  import opened AesWaits
  import opened AesPipes
  import opened AesSystem
  import opened AesSteps
  import opened AesStore
  import opened AesForks
  import opened AesAsks
  import opened Bytes
  import opened PipeLine
  import opened PipeBytes
  import opened Rings

  // What a process asks for.  sat says that the button or the mouse is there already; cnt is the
  // number of bytes to read or write, and data what lies at the address they are written from.
  datatype Ask = AskKey | AskButton(sat: bool) | AskMouse(m: Mask, sat: bool)
               | AskMesag(from: nat, cnt: int) | AskTimer(c: int)
               | AskSend(to: nat, cnt: int, data: nat -> Byte) | AskMutex
  {
    function Code(): Mask {
      match this
      case AskKey => KEYBD
      case AskButton(_) => BUTTON
      case AskMouse(m, _) => m
      case AskMesag(_, _) => MESAG
      case AskTimer(_) => TIMER
      case AskSend(_, _, _) => SDMSG
      case AskMutex => MUTEX
    }

    // The pipe that is read or written, and how.
    function At(): nat {
      match this
      case AskMesag(from, _) => from
      case AskSend(to, _, _) => to
      case _ => 0
    }

    function Data(): nat -> Byte {
      if AskSend? then data else Nothing
    }

    function PipeOp(found: bool): Op {
      match this
      case AskMesag(_, cnt) => Recv(cnt, found)
      case AskSend(_, cnt, _) => Write(cnt, found)
      case _ => Recv(0, false)
    }

    predicate ForPipe() {
      AskMesag? || AskSend?
    }

    // The button or the mouse is there.
    predicate Sat() {
      (AskButton? || AskMouse?) && sat
    }
  }

  class Kernel {
    const n: nat
    ghost const std: bool                              // all messages have 16 bytes, and say so
    var evb: seq<Evb>
    var eul: seq<nat>
    var evlist: seq<seq<nat>>
    var chain: seq<seq<nat>>
    var evflg: seq<set<Mask>>
    var rlr: seq<nat>
    var drl: seq<nat>
    var nrl: seq<nat>
    var waitin: seq<bool>
    var evwait: seq<set<Mask>>
    var curpid: nat
    var tas: int
    var owner: int
    var keys: seq<seq<int>>
    var qindex: seq<int>
    var forks: seq<Fork>
    var cmptick: int
    var numtick: int
    var mouse: int
    var queues: seq<seq<Byte>>                         // p_queue of each process
    var mail: seq<nat -> Byte>                         // what an event block's process has to write
    var inbox: seq<seq<Byte>>                          // what each process was given when it read last
    var task: seq<Task>                                // where each process is: its saved context

    ghost function Y(): Sys
      reads this
    {
      Sys(Events(evb, eul, evlist, chain, evflg), Procs(rlr, drl, nrl, waitin, evwait), task, curpid,
          tas, owner, keys, qindex)
    }

    ghost predicate Valid(ex: int, skip: nat)
      reads this
    {
      Y().Ok(n, ex, skip) && ForksOk() && ContentsOk() && (std ==> Std(Y().s, qindex))
    }

    ghost function St(): Store
      reads this`queues, this`mail, this`inbox
    {
      Store(queues, mail, inbox)
    }

    ghost predicate ContentsOk()
      reads this`queues, this`mail, this`inbox, this`qindex
    {
      StoreOk(St(), n, qindex) && (std ==> PlainStore(St(), qindex))
    }

    // What may be in the fork ring.
    ghost predicate ForksOk()
      reads this`forks
    {
      |forks| <= NFORKS && forall i :: 0 <= i < |forks| ==> ForkOk(forks[i], n)
    }

    // The AES at its start: all event blocks free, six for each process to be, and the first process
    // is the running one.
    constructor (n: nat, ghost std: bool)
      requires n > 0
      ensures Valid(-1, 0) && this.n == n && this.std == std
      ensures curpid == 1 && rlr == [0] && drl == [] && nrl == [] && forks == [] && tas == 0 && Y().Runs(0)
    {
      hide Sys.Ok, Conserved, Std;
      this.n, this.std := n, std;
      evb := seq(EVBS_PER_PD * n, i => Evb(0, KEYBD, 0, false, false, false, 0));
      eul, forks, rlr, drl, nrl := [], [], [0], [], [];
      evlist, chain := seq(n, _ => []), seq(3 + 5 * n, _ => []);
      evflg, evwait := seq(n, _ => {}), seq(n, _ => {});
      waitin, keys, qindex := seq(n, _ => false), seq(n, _ => []), seq(n, _ => 0);
      queues, mail := seq(n, _ => seq(QUEUE_SIZE, _ => 0)), NoMail(EVBS_PER_PD * n);
      inbox, task := seq(n, _ => []), seq(n, _ => Free);
      curpid, tas, owner, cmptick, numtick, mouse := 1, 0, -1, 0, 0, 0;
      new;
      var i: nat := 0;
      NoneHeld(evlist);
      while i < EVBS_PER_PD * n
        invariant i <= EVBS_PER_PD * n && |eul| == i && Conserved(eul, evlist, i)
        modifies this`eul
      {
        OneMore(eul, evlist, i);
        eul := [i] + eul;
        i := i + 1;
      }
      AtFirst(Y(), n);
      NoLines(Y(), n);
      NoBytes(St(), n, qindex);
    }

    // signal(): the event's process gets its flag, and is moved to the drl when it waits for it and
    // is not the running one.
    method Signal(e: nat, cur: int)
      requires e < |evb| && evb[e].pd < |evflg| == |waitin| == |evwait|
      requires cur == evb[e].pd ==> cur !in nrl
      modifies this`evflg, this`nrl, this`drl, this`waitin
      ensures evflg == old(evflg)[evb[e].pd := old(evflg)[evb[e].pd] + {evb[e].mask}]
      ensures Procs(rlr, drl, nrl, waitin, evwait) == Woken(old(Procs(rlr, drl, nrl, waitin, evwait)), evflg, evb[e].pd)
    {
      var p := evb[e].pd;
      evflg := evflg[p := evflg[p] + {evb[e].mask}];
      var i := 0;
      while i < |nrl| && nrl[i] != p
        invariant 0 <= i <= |nrl| && forall k :: 0 <= k < i ==> nrl[k] != p
      {
        i := i + 1;
      }
      FindIs(nrl, p, i);
      if p != cur {
        if evflg[p] * evwait[p] != {} {
          if i < |nrl| {
            waitin := waitin[p := false];
            nrl := Cut(nrl, i);
            drl := [p] + drl;
          }
        }
      }
    }

    // azombie() on a block that leaves its chain, without its signal().
    method Azombie(c: nat, k: nat, ret: int)
      requires ZLR < c < |chain| && k < |chain[c]| && chain[c][k] < |evb|
      modifies this`evb, this`chain
      ensures evb == old(evb)[old(chain[c][k]) := Zombie(old(evb)[old(chain[c][k])], mouse, ret)]
      ensures chain == old(chain)[c := Cut(old(chain[c]), k)][ZLR := [old(chain[c][k])] + old(chain[ZLR])]
      ensures evb[old(chain[c][k])].pd == old(evb)[old(chain[c][k])].pd && evb[old(chain[c][k])].mask == old(evb)[old(chain[c][k])].mask
    {
      var e := chain[c][k];
      chain, evb := chain[c := Cut(chain[c], k)][ZLR := [e] + chain[ZLR]], evb[e := Zombie(evb[e], mouse, ret)];
    }

    // evremove(): the k-th wait of a chain is over.
    method Evremove(c: nat, k: nat, ret: int, cur: int, ghost ex: int, ghost skip: nat)
      requires Valid(ex, skip) && ZLR < c < |chain| && k < |chain[c]| && (cur >= 0 ==> cur in rlr)
      modifies this`evb, this`chain, this`evflg, this`nrl, this`drl, this`waitin
      ensures Valid(ex, skip) && CanFire(old(Y()), c, k) && Y() == Fired(old(Y()), c, k, mouse, ret)
    {
      hide Sys.Ok, Woken, Cut, Fired, Zombie, Std, ForksOk, ContentsOk, CanFire;
      ghost var y := Y();
      FiredKeeps(y, n, ex, skip, c, k, mouse, ret, std);
      NotAsleep(y, n, ex, skip, cur);
      EndWait(c, k, ret, cur);
    }

    // azombie() with its signal().
    method EndWait(c: nat, k: nat, ret: int, cur: int)
      requires CanFire(Y(), c, k) && (cur == evb[chain[c][k]].pd ==> cur !in nrl)
      modifies this`evb, this`chain, this`evflg, this`nrl, this`drl, this`waitin
      ensures CanFire(old(Y()), c, k) && Y() == Fired(old(Y()), c, k, mouse, ret)
    {
      hide Woken, Cut, Fired, Zombie;
      ghost var y := Y();
      var e := chain[c][k];
      Azombie(c, k, ret);
      Signal(e, cur);
      FiredIs(y, c, k, mouse, ret, Y());
    }

    // The start of iasync() with the end of the event's own routine: the head of the free list is
    // set up, put on the process's list, and on a chain.
    method Issue(b: Evb, c: nat, j: nat, ghost p: nat)
      requires Asking(p, b.mask) && c < |chain| && j <= |chain[c]|
      requires b.pd == p && !b.nocancel && FlagsFit(b, c) && (c == DLR ==> b.parm >= 0)
      requires c != ZLR ==> MayWait(n, p, c, b.mask, tas, owner, keys, qindex)
      requires std ==> PipeFit(qindex, c, b.parm)
      modifies this`evb, this`eul, this`evlist, this`chain, this`evflg
      ensures Valid(p, 0) && CanIssue(old(Y()), p, c, j) && Y() == Issue1(old(Y()), p, b, c, j)
      ensures Asked(old(Y()), Y(), p, b.mask)
    {
      hide Sys.Ok, Put, MasksOf, MayWait, Issue1, Asked, Std, PipeFit, ForksOk, ContentsOk;
      ghost var y := Y();
      IssueKeeps(y, n, p, b, c, j, std);
      TakeBlock(rlr[0], b, c, j);
      IssueIs(y, p, b, c, j, Y());
    }

    // The block at the head of the free list is set up and put on its lists.
    method TakeBlock(q: nat, b: Evb, c: nat, j: nat)
      requires eul != [] && q < |evlist| == |evflg| && c < |chain| && j <= |chain[c]| && eul[0] < |evb|
      modifies this`evb, this`eul, this`evlist, this`chain, this`evflg
      ensures evb == old(evb)[old(eul[0]) := b] && eul == old(eul)[1..] && evlist == old(evlist)[q := [old(eul[0])] + old(evlist[q])]
      ensures chain == old(chain)[c := Put(old(chain[c]), j, old(eul[0]))]
      ensures evflg == if b.complete then old(evflg)[q := old(evflg)[q] + {b.mask}] else old(evflg)
    {
      var e := eul[0];
      if b.complete {
        evflg := evflg[q := evflg[q] + {b.mask}];
      }
      eul, evb := eul[1..], evb[e := b];
      evlist, chain := evlist[q := [e] + evlist[q]], chain[c := Put(chain[c], j, e)];
    }

    // The running process p may ask for one more event, m.
    ghost predicate Asking(p: nat, m: Mask)
      reads this
    {
      Valid(p, 0) && Y().Runs(p) && m !in MasksOf(Y(), p) && |MasksOf(Y(), p)| < EVBS_PER_PD
    }

    // azombie() on an event that is over at once.
    method AtOnce(m: Mask, ret: int, ghost p: nat)
      requires Asking(p, m)
      modifies this`evb, this`eul, this`evlist, this`chain, this`evflg
      ensures Valid(p, 0) && Asked(old(Y()), Y(), p, m) && Flag(Y(), p, m) && Over(old(Y()), Y(), p, m, mouse, ret)
      ensures |chain| == |old(chain)| && forall c :: ZLR < c < |chain| ==> chain[c] == old(chain[c])
    {
      hide Sys.Ok, MasksOf, Issue1, Asked, Std, PipeFit, ForksOk, ContentsOk;
      ghost var y := Y();
      SysSizes(y, n, p, 0);
      OtherChain(qindex, ZLR, mouse);
      var b := Evb(rlr[0], m, mouse, false, true, false, ret);
      Issue(b, ZLR, 0, p);
      IssueChain(y, p, b, ZLR, 0);
      IssueFlag(y, p, b, ZLR, 0);
    }

    // evinsert(): the event waits at the front of a chain.
    method WaitOn(m: Mask, parm: int, c: nat, ghost p: nat)
      requires Asking(p, m) && DLR < c && MayWait(n, p, c, m, tas, owner, keys, qindex)
      requires std ==> PipeFit(qindex, c, parm)
      modifies this`evb, this`eul, this`evlist, this`chain, this`evflg
      ensures Valid(p, 0) && Asked(old(Y()), Y(), p, m) && Pending(old(Y()), Y(), p, m, parm, c) && evflg == old(evflg)
    {
      hide Sys.Ok, MasksOf, Issue1, Asked, Std, PipeFit, ForksOk, ContentsOk;
      SysSizes(Y(), n, p, 0);
      WaitChain(n, p, c, m, tas, owner, keys, qindex);
      ghost var y, b := Y(), Evb(rlr[0], m, parm, false, false, false, 0);
      Issue(Evb(rlr[0], m, parm, false, false, false, 0), c, 0, p);
      PendingFlags(y, p, b, c, 0);
    }

    // akbin(): a queued key is taken, or the process waits for one.
    method Akbin(ghost p: nat)
      requires Asking(p, KEYBD)
      modifies this`evb, this`eul, this`evlist, this`chain, this`evflg, this`keys
      ensures Valid(p, 0) && Asked(old(Y()), Y(), p, KEYBD) && KeyAsked(old(Y()), Y(), p, mouse)
      ensures p < |old(keys)| && if old(keys)[p] != [] then Flag(Y(), p, KEYBD) else evflg == old(evflg)
    {
      hide Sys.Ok, Masks, Flag, Over, Pending, Std, PipeFit, ForksOk, ContentsOk;
      SysSizes(Y(), n, p, 0);
      var q := rlr[0];
      if keys[q] != [] {
        var ch := keys[q][0];
        NoKeyWait(Y(), n, p, 0, q);
        AtOnce(KEYBD, ch, p);
        KeysOk(Y(), n, p, 0, q, keys[q][1..]);
        ghost var z := Y();
        keys := keys[q := keys[q][1..]];
        FlagSame(z, Y(), p, KEYBD);
        assert Y().(keys := z.keys) == z;
      } else {
        OtherChain(qindex, Kb(q), 0);
        WaitOn(KEYBD, 0, Kb(q), p);
      }
    }

    // abutton() and amouse(): over at once when the button or the mouse is there.
    method Abutton(sat: bool, parm: int, ghost p: nat)
      requires Asking(p, BUTTON)
      modifies this`evb, this`eul, this`evlist, this`chain, this`evflg
      ensures Valid(p, 0) && Asked(old(Y()), Y(), p, BUTTON) && if sat then Flag(Y(), p, BUTTON) else evflg == old(evflg)
      ensures if sat then Over(old(Y()), Y(), p, BUTTON, mouse, 1) else Pending(old(Y()), Y(), p, BUTTON, parm, Bt(n, p))
    {
      hide Sys.Ok, Masks, Over, Pending, Std, PipeFit, ForksOk, ContentsOk;
      SysSizes(Y(), n, p, 0);
      if sat {
        AtOnce(BUTTON, 1, p);
      } else {
        OtherChain(qindex, Bt(n, rlr[0]), parm);
        WaitOn(BUTTON, parm, Bt(n, rlr[0]), p);
      }
    }

    method Amouse(m: Mask, sat: bool, parm: int, ghost p: nat)
      requires Asking(p, m)
      modifies this`evb, this`eul, this`evlist, this`chain, this`evflg
      ensures Valid(p, 0) && Asked(old(Y()), Y(), p, m) && if sat then Flag(Y(), p, m) else evflg == old(evflg)
      ensures if sat then Over(old(Y()), Y(), p, m, mouse, 0) else Pending(old(Y()), Y(), p, m, parm, Mo(n, p))
    {
      hide Sys.Ok, Masks, Over, Pending, Std, PipeFit, ForksOk, ContentsOk;
      SysSizes(Y(), n, p, 0);
      if sat {
        AtOnce(m, 0, p);
      } else {
        OtherChain(qindex, Mo(n, rlr[0]), parm);
        WaitOn(m, parm, Mo(n, rlr[0]), p);
      }
    }

    // adelay(): the process waits c ticks, its block put into the delay list at its place; the
    // deadlines of the others stay.
    method Adelay(c0: int, ghost p: nat) returns (ghost j: nat)
      requires Asking(p, TIMER) && c0 >= 0
      modifies this`evb, this`eul, this`evlist, this`chain, this`evflg, this`cmptick, this`numtick
      ensures Valid(p, 0) && Asked(old(Y()), Y(), p, TIMER)
      ensures DelayAsked(old(Y()), Y(), p, j) && TicksPut(old(Y()), Y(), j, if c0 == 0 then 1 else c0) && old(evflg) == evflg
    {
      hide Sys.Ok, Masks, Put, Deltas, Inserted, InRange, PlaceFor, Asked, Before, MasksOf, Std, DelayAsked, ForksOk, ContentsOk;
      SysSizes(Y(), n, p, 0);
      var c := if c0 == 0 then 1 else c0;
      StartTicks(c);
      var i, r := DelayPlace(c);
      j := i;
      LinkTimer(i, r, p, c);
    }

    // The insertion of adelay(): the new timer, and what is left to the next one.
    method LinkTimer(i: nat, r: int, ghost p: nat, ghost c: int)
      requires Asking(p, TIMER) && InRange(Y().s) && |chain| > DLR && i <= |chain[DLR]| && r >= 0
      requires PlaceFor(Deltas(Y().s), i, c) && r == c - Before(Deltas(Y().s), i)
      modifies this`evb, this`eul, this`evlist, this`chain, this`evflg
      ensures Valid(p, 0) && Asked(old(Y()), Y(), p, TIMER)
      ensures InRange(Y().s) && |chain| > DLR && Deltas(Y().s) == Inserted(old(Deltas(Y().s)), i, c)
      ensures DelayAsked(old(Y()), Y(), p, i) && old(evflg) == evflg
    {
      hide Sys.Ok, Masks, Put, Deltas, Inserted, InRange, PlaceFor, Asked, Before, MasksOf, Std, DelayAsked, ForksOk, ContentsOk;
      ghost var y, d := Y(), Deltas(Y().s);
      IssueTimer(i, r, p);
      InsertedIs(d, i, r, c);
      if i + 1 < |chain[DLR]| {
        ghost var z := Y();
        Reticks(i + 1, r, p, 0, p);
        ReticksAsked(y, z, Y(), p);
        DelayAgain(y, z, Y(), p, i);
      }
    }

    // The tick counters of adelay(): count down for the earliest.
    method StartTicks(c: int)
      modifies this`cmptick, this`numtick
      ensures cmptick == if old(cmptick) == 0 || c <= old(cmptick) then c else old(cmptick)
      ensures numtick == if old(cmptick) == 0 then 0 else old(numtick)
    {
      if cmptick != 0 {
        if c <= cmptick {
          cmptick := c;
        }
      } else {
        cmptick, numtick := c, 0;
      }
    }

    // The new timer is linked in, before the one after it is adjusted.
    method IssueTimer(i: nat, r: int, ghost p: nat)
      requires Asking(p, TIMER) && InRange(Y().s) && |chain| > DLR && i <= |chain[DLR]| && r >= 0
      modifies this`evb, this`eul, this`evlist, this`chain, this`evflg
      ensures Valid(p, 0) && Asked(old(Y()), Y(), p, TIMER)
      ensures InRange(Y().s) && |chain| > DLR && |chain[DLR]| == |old(chain[DLR])| + 1
      ensures Deltas(Y().s) == Put(old(Deltas(Y().s)), i, r) && DelayAsked(old(Y()), Y(), p, i) && old(evflg) == evflg
    {
      hide Sys.Ok, Put, Masks, Std, PipeFit, ForksOk, ContentsOk;
      SysSizes(Y(), n, p, 0);
      ghost var y := Y();
      var b := Evb(rlr[0], TIMER, r, false, false, true, 0);
      OtherChain(qindex, DLR, r);
      Issue(b, DLR, i, p);
      SysSizes(Y(), n, p, 0);
      IssuedTicks(y, n, p, b, i, Y());
      IssuedDelay(y, n, p, b, i, Y());
    }

    // The search in adelay(): the new waiter goes before the first that is not due earlier, r ticks
    // after the one ahead of it.
    method DelayPlace(c: int) returns (i: nat, r: int)
      requires InRange(Y().s) && |chain| > DLR && c > 0
      ensures PlaceFor(Deltas(Y().s), i, c) && r == c - Before(Deltas(Y().s), i) && r > 0
    {
      ghost var d := Deltas(Y().s);
      i, r := 0, c;
      while i < |chain[DLR]| && r > evb[chain[DLR][i]].parm
        invariant i <= |chain[DLR]| && r == c - Before(d, i) && r > 0
      {
        assert evb[chain[DLR][i]].parm == d[i];
        r := r - evb[chain[DLR][i]].parm;
        i := i + 1;
      }
      assert i < |d| ==> d[i] == evb[chain[DLR][i]].parm;
    }

    // The k-th timer counts r ticks less from the one before it.
    method Reticks(k: nat, r: int, ghost ex: int, ghost skip: nat, ghost p: nat)
      requires Valid(ex, skip) && |chain| > DLR && k < |chain[DLR]| && InRange(Y().s) && r <= Deltas(Y().s)[k]
      modifies this`evb
      ensures Valid(ex, skip) && InRange(Y().s) && Deltas(Y().s) == old(Deltas(Y().s))[k := old(Deltas(Y().s))[k] - r]
      ensures MasksOf(Y(), p) == old(MasksOf(Y(), p)) && SameEvents(old(evb), evb)
      ensures forall x :: 0 <= x < |evb| && x != chain[DLR][k] ==> evb[x] == old(evb)[x]
    {
      hide Sys.Ok, Masks, Std, ForksOk, ContentsOk;
      ghost var y, v := Y(), Deltas(Y().s)[k] - r;
      RetickedOk(y, n, ex, skip, k, v);
      if std {
        RetickedStd(y, n, ex, skip, k, v);
      }
      var e := chain[DLR][k];
      evb := evb[e := evb[e].(parm := evb[e].parm - r)];
      assert Y() == Reticked(y, k, v);
    }

    // What is in the message pipe of a process, and who waits at it.
    ghost function PipeOf(t: nat): Line
      reads this
      requires Lines(Y().s, qindex) && t < |qindex|
    {
      LineOf(Y().s, qindex, t)
    }

    // aqueue(): a message is written or read at once when there is room or one is queued, and the
    // process that asked last for the opposite is served as well; otherwise the process waits.  Only
    // the count of a write is tested, and only against the room there is: safe says that doq() stays
    // inside the pipe and comes to an end; if not, nothing is done here.
    method Aqueue(isqwrite: bool, m: Mask, t: nat, cnt: int, data: nat -> Byte, ghost p: nat) returns (safe: bool)
      requires Asking(p, m) && CanBytes(Y().s, qindex, St(), n, t)
      requires std ==> UsualCount(qindex[t], isqwrite, cnt) && (isqwrite ==> PlainMessage(data))
      modifies this`evb, this`eul, this`evlist, this`chain, this`evflg, this`nrl, this`drl, this`waitin, this`qindex,
        this`queues, this`mail, this`inbox
      ensures safe <==> Harmless(old(Y().s), old(qindex), old(St()), n, t, isqwrite, cnt, data)
      ensures std ==> safe
      ensures Valid(p, 0) && (!safe ==> Y() == old(Y()) && St() == old(St()))
      ensures safe ==> Asked(old(Y()), Y(), p, m)
      ensures safe ==> StorePassed(old(Y()), old(St()), Y(), St(), n, p, t, isqwrite, cnt, data)
      ensures var found := Merging(old(Y().s), old(qindex), old(St()), n, t, isqwrite, cnt, data);
              safe ==> (Queued(old(Y()), Y(), n, p, m, t, isqwrite, cnt, found, mouse) &&
                Lines(Y().s, qindex) && |qindex| == n && PipeOf(t) == Passed(old(PipeOf(t)), isqwrite, cnt, found))
      ensures safe ==> if Ready(old(qindex)[t], isqwrite, cnt) then Flag(Y(), p, m) else evflg == old(evflg)
    {
      hide Sys.Ok, Masks, MasksOf, Asked, Queued, Flag, Std, Passed, LineOf, ForksOk, PlainStore, PassBytes, Handed, Lines,
        PlainMessage, Plain, StoreOk, UsualCount;
      ghost var y, st := Y(), St();
      safe := true;
      if Ready(qindex[t], isqwrite, cnt) {
        var r := PassAll(isqwrite, t, cnt, data);
        if std {
          PlainPasses(y.s, qindex, st, n, t, isqwrite, cnt, data);
        }
        if !r.Did? {
          return false;
        }
        PassMessage(isqwrite, m, t, cnt, data, r, p);
      } else {
        WaitMessage(isqwrite, m, t, cnt, data, p);
      }
      LinesAre(Y(), n, p, 0);
      QueuedLine(y, Y(), n, p, m, t, isqwrite, cnt, Merging(y.s, y.qindex, st, n, t, isqwrite, cnt, data), mouse);
    }

    // The other half of aqueue(): the process waits.
    method WaitMessage(isqwrite: bool, m: Mask, t: nat, cnt: int, data: nat -> Byte, ghost p: nat)
      requires Asking(p, m) && CanBytes(Y().s, qindex, St(), n, t) && !Ready(qindex[t], isqwrite, cnt)
      requires std ==> UsualCount(qindex[t], isqwrite, cnt) && (isqwrite ==> PlainMessage(data))
      modifies this`evb, this`eul, this`evlist, this`chain, this`evflg, this`mail
      ensures Valid(p, 0) && Asked(old(Y()), Y(), p, m) && evflg == old(evflg)
      ensures StorePassed(old(Y()), old(St()), Y(), St(), n, p, t, isqwrite, cnt, data)
      ensures Queued(old(Y()), Y(), n, p, m, t, isqwrite, cnt, false, mouse)
    {
      hide Sys.Ok, Masks, MasksOf, Asked, Queued, MayWait, Std, LineOf, Pending, ForksOk, ContentsOk, Lines, PlainMessage, PipeFit,
        UsualCount, Handed;
      ghost var y := Y();
      SysSizes(y, n, p, 0);
      WaitQueue(y, n, p, m, t, isqwrite, cnt);
      WaitOn(m, cnt, if isqwrite then Qn(n, t) else Qd(n, t), p);
      PendingQueued(y, Y(), n, p, m, t, isqwrite, cnt, false, mouse);
      KeepMail(isqwrite, m, cnt, data, if isqwrite then Qn(n, t) else Qd(n, t), p, y);
    }

    // A message that has to wait stays where it is.
    method KeepMail(isqwrite: bool, m: Mask, cnt: int, data: nat -> Byte, ghost c: nat, ghost p: nat, ghost y: Sys)
      requires Valid(p, 0) && y.Ok(n, p, 0) && Pending(y, Y(), p, m, cnt, c) && (std && isqwrite ==> PlainMessage(data))
      requires rlr != [] && rlr[0] == p
      modifies this`mail
      ensures Valid(p, 0) && MailKept(old(St()), St(), evlist, p, isqwrite, data)
    {
      hide Sys.Ok, Std, ForksOk, Issue1, PlainMessage, Plain;
      PendingHead(y, Y(), n, p, m, cnt, c);
      if isqwrite {
        mail := mail[evlist[rlr[0]][0] := data];
      }
    }

    // What doq() does for the caller, and for the process it serves.
    method PassAll(isqwrite: bool, t: nat, cnt: int, data: nat -> Byte) returns (r: Doing)
      requires CanBytes(Y().s, qindex, St(), n, t)
      ensures r == PassBytes(Y().s, qindex, St(), n, t, isqwrite, cnt, data)
    {
      hide DoqDoes;
      var ppe := if isqwrite then Qd(n, t) else Qn(n, t);
      r := Doq(Box(queues[t], qindex[t]), isqwrite, cnt, data);
      if r.Did? && chain[ppe] != [] {
        DoqCounts(Box(queues[t], qindex[t]), isqwrite, cnt, data);
        var e := chain[ppe][0];
        var r2 := Doq(r.x, !isqwrite, evb[e].parm, mail[e]);
        if r2.Did? {
          r := Did(r2.x, r.found || r2.found, r.got + r2.got);
        } else {
          r := r2;
        }
      }
    }

    // The first half of aqueue(): doq() for the caller, and for the process that it serves.
    method PassMessage(isqwrite: bool, m: Mask, t: nat, cnt: int, data: nat -> Byte, r: Doing, ghost p: nat)
      requires Asking(p, m) && CanBytes(Y().s, qindex, St(), n, t) && Ready(qindex[t], isqwrite, cnt)
      requires r == PassBytes(Y().s, qindex, St(), n, t, isqwrite, cnt, data) && r.Did?
      requires std ==> UsualCount(qindex[t], isqwrite, cnt) && Plain(r.x)
      modifies this`evb, this`eul, this`evlist, this`chain, this`evflg, this`nrl, this`drl, this`waitin, this`qindex,
        this`queues, this`inbox
      ensures Valid(p, 0) && Asked(old(Y()), Y(), p, m) && Flag(Y(), p, m)
      ensures Queued(old(Y()), Y(), n, p, m, t, isqwrite, cnt, r.found, mouse)
      ensures Handed(old(Y().s), old(qindex), old(St()), qindex, St(), n, p, t, isqwrite, cnt, data)
    {
      hide Sys.Ok, Masks, MasksOf, Asked, Queued, Flag, Std, Passed, PassSafe, Lines, LineOf, ForksOk, PassBytes, Plain, PlainMessage,
        UsualCount, Sys.Runs, Whole;
      ghost var y, st := Y(), St();
      BytesLine(y.s, qindex, st, n, t, isqwrite, cnt, data);
      SysSizes(y, n, p, 0);
      var who := Receiver(isqwrite, if isqwrite then Qd(n, t) else Qn(n, t), p);
      PassCounts(isqwrite, m, t, cnt, r, p);
      if who >= 0 {
        inbox := inbox[who := r.got];
      }
    }

    // The events of both, and what is queued.
    method PassCounts(isqwrite: bool, m: Mask, t: nat, cnt: int, r: Doing, ghost p: nat)
      requires Asking(p, m) && Lines(Y().s, qindex) && t < |qindex| == n && r.Did? && Whole(r.x)
      requires Ready(qindex[t], isqwrite, cnt) && PassSafe(PipeOf(t), isqwrite, cnt, r.found)
      requires r.x.q == Passed(PipeOf(t), isqwrite, cnt, r.found).q
      requires std ==> UsualCount(qindex[t], isqwrite, cnt) && Plain(r.x)
      modifies this`evb, this`eul, this`evlist, this`chain, this`evflg, this`nrl, this`drl, this`waitin, this`qindex, this`queues
      ensures Valid(p, 0) && Asked(old(Y()), Y(), p, m) && Flag(Y(), p, m)
      ensures Queued(old(Y()), Y(), n, p, m, t, isqwrite, cnt, r.found, mouse)
      ensures t < |old(queues)| && qindex == old(qindex)[t := r.x.q] && queues == old(queues)[t := r.x.b]
    {
      hide Sys.Ok, Masks, MasksOf, Asked, Queued, Flag, Std, Passed, PassSafe, Lines, Counts, Over, Served, ForksOk, ContentsOk,
        Plain, UsualCount, Whole;
      ghost var y := Y();
      SysSizes(y, n, p, 0);
      var ppe := if isqwrite then Qd(n, t) else Qn(n, t);
      AtOnce(m, 1, p);
      ghost var y1 := Y();
      if chain[ppe] != [] {
        ServeNext(ppe, m, p, y);
      } else {
        NotServed(y1, ppe, mouse);
      }
      SetRoom(t, r.x, m, isqwrite, cnt, r.found, p, y, y1);
    }

    // Whose buffer is filled: the caller's when it reads, else that of the reader it serves.
    method Receiver(isqwrite: bool, ppe: nat, ghost p: nat) returns (who: int)
      requires Valid(p, 0) && Y().Runs(p) && ZLR < ppe < |chain|
      ensures -1 <= who < n && (chain[ppe] != [] ==> chain[ppe][0] < |evb|)
      ensures who == if !isqwrite then p else if chain[ppe] == [] then -1 else evb[chain[ppe][0]].pd
    {
      hide Sys.Ok, Std, ForksOk, ContentsOk;
      SysSizes(Y(), n, p, 0);
      if chain[ppe] != [] {
        FiredWho(Y(), n, p, 0, ppe, 0);
      }
      who := if !isqwrite then rlr[0] else if chain[ppe] == [] then -1 else evb[chain[ppe][0]].pd;
    }

    // The bytes queued after all that was copied.
    method SetRoom(t: nat, x: Box, m: Mask, isqwrite: bool, cnt: int, found: bool, ghost p: nat, ghost y: Sys, ghost y1: Sys)
      requires Valid(p, 0) && Asked(y, Y(), p, m) && Flag(Y(), p, m) && CanPass(y, n, p, m, t, isqwrite, cnt, found)
      requires Over(y, y1, p, m, mouse, 1) && Served(y1, Y(), if isqwrite then Qd(n, t) else Qn(n, t), mouse) && Y().qindex == y.qindex
      requires x.q == Passed(LineOf(y.s, y.qindex, t), isqwrite, cnt, found).q && Whole(x)
      requires std ==> Std(y.s, y.qindex) && UsualCount(y.qindex[t], isqwrite, cnt) && Plain(x)
      modifies this`qindex, this`queues
      ensures Valid(p, 0) && Asked(y, Y(), p, m) && Flag(Y(), p, m) && Queued(y, Y(), n, p, m, t, isqwrite, cnt, found, mouse)
      ensures t < |old(qindex)| == |old(queues)| && qindex == old(qindex)[t := x.q] && queues == old(queues)[t := x.b]
    {
      hide Sys.Ok, Masks, MasksOf, Asked, Queued, Flag, Std, Over, Served, LineOf, Lines, Passed, PassSafe, CanPass, ForksOk,
        PlainStore, Plain;
      ghost var z := Y();
      CanPassRoom(y, z, n, p, m, t, isqwrite, cnt, found);
      RoomOk(z, n, p, 0, t, x.q);
      if std {
        PlainNext(St(), qindex, t, x);
      }
      qindex, queues := qindex[t := x.q], queues[t := x.b];
      QueuedIs(y, y1, z, Y(), n, p, m, t, isqwrite, cnt, found, mouse);
      if std {
        StdPassed(y, z, Y(), n, p, m, t, isqwrite, cnt, found, mouse);
      }
      AskedSame(y, z, Y(), p, m);
      FlagSame(z, Y(), p, m);
    }

    // The process at the front of the chain, the last to ask for the opposite, is served.
    method ServeNext(ppe: nat, m: Mask, ghost p: nat, ghost y: Sys)
      requires Valid(p, 0) && Y().Runs(p) && Asked(y, Y(), p, m) && Flag(Y(), p, m) && DLR < ppe < |chain| && chain[ppe] != []
      modifies this`evb, this`chain, this`evflg, this`nrl, this`drl, this`waitin
      ensures Valid(p, 0) && Asked(y, Y(), p, m) && Flag(Y(), p, m) && Served(old(Y()), Y(), ppe, mouse)
    {
      hide Sys.Ok, Masks, Asked, Cut, Woken, Fired, Std, ForksOk, ContentsOk;
      ghost var z := Y();
      SysSizes(z, n, p, 0);
      FiredAsked(y, z, n, p, 0, ppe, 0, mouse, 1, p, m);
      Evremove(ppe, 0, 1, rlr[0], p, 0);
      FiredFlags(z, ppe, 0, mouse, 1, p);
    }

    // tak_flag(): the running process takes the semaphore if it is free or its own.
    method TakFlag() returns (taken: bool)
      requires rlr != [] && tas >= 0 && (tas == 0 <==> owner == -1)
      modifies this`tas, this`owner
      ensures taken == (old(owner) == -1 || old(owner) == rlr[0])
      ensures if taken then tas == old(tas) + 1 && owner == rlr[0] else tas == old(tas) && owner == old(owner)
    {
      tas := tas + 1;
      if owner != rlr[0] && tas != 1 {
        tas := tas - 1;
      } else {
        owner := rlr[0];
      }
      taken := owner == rlr[0];
    }

    // amutex(): over at once when the semaphore could be taken.
    method Amutex(ghost p: nat)
      requires Asking(p, MUTEX)
      modifies this`evb, this`eul, this`evlist, this`chain, this`evflg, this`tas, this`owner
      ensures Valid(p, 0) && Asked(old(Y()), Y(), p, MUTEX)
      ensures if old(owner) == -1 || old(owner) == p then Flag(Y(), p, MUTEX) else evflg == old(evflg)
      ensures if old(owner) == -1 || old(owner) == p then tas == old(tas) + 1 && owner == p else tas == old(tas) && owner == old(owner)
      ensures MutexAsked(old(Y()), Y(), n, p, mouse)
    {
      hide Sys.Ok, Masks, SemOk, Flag, Over, Pending, Std, PipeFit, ForksOk, ContentsOk;
      ghost var y := Y();
      SysSizes(y, n, p, 0);
      SemFacts(y, n, p, 0);
      var taken := TakFlag();
      ghost var z := Y();
      if taken {
        SemTaken(y, n, p, tas);
        HeldOk(y, n, p, 0, tas, owner);
        AtOnce(MUTEX, 0, p);
        OverHeld(y, z, Y(), p, mouse, 0);
      } else {
        OtherChain(qindex, Sy(n), 0);
        WaitOn(MUTEX, 0, Sy(n), p);
      }
    }

    // What the caller of iasync() hands over fits the event.
    predicate AskOk(a: Ask)
    {
      && (a.AskMouse? ==> a.m == M1 || a.m == M2) && (a.AskTimer? ==> a.c >= 0)
      && (a.AskMesag? ==> a.from < n) && (a.AskSend? ==> a.to < n)
    }

    // A message has 16 bytes and says so, or all that is queued is read.
    predicate Regular(a: Ask)
      reads this`qindex
    {
      && (a.ForPipe() ==> a.At() < |qindex| && UsualCount(qindex[a.At()], a.AskSend?, a.cnt))
      && (a.AskSend? ==> PlainMessage(a.data))
    }

    // What the process asks for is there already.
    predicate AtHand(a: Ask, p: nat)
      reads this`keys, this`qindex, this`owner
    {
      match a
      case AskKey => p < |keys| && keys[p] != []
      case AskButton(sat) => sat
      case AskMouse(_, sat) => sat
      case AskMesag(from, cnt) => from < |qindex| && Ready(qindex[from], false, cnt)
      case AskTimer(_) => false
      case AskSend(to, cnt, _) => to < |qindex| && Ready(qindex[to], true, cnt)
      case AskMutex => owner == -1 || owner == p
    }

    lemma BytesHere(ex: int, skip: nat, t: nat)
      requires Valid(ex, skip)
      ensures t < n ==> CanBytes(Y().s, qindex, St(), n, t)
    {
      if t < n {
        LinesAre(Y(), n, ex, skip);
        LinesIn(Y(), n, ex, skip, t);
      }
    }

    // iasync(): an event block is set up for what the process asks.
    method Iasync(a: Ask, ghost p: nat) returns (safe: bool)
      requires Asking(p, a.Code()) && AskOk(a) && (std ==> Regular(a))
      modifies this`evb, this`eul, this`evlist, this`chain, this`evflg, this`nrl, this`drl, this`waitin, this`keys,
        this`qindex, this`tas, this`owner, this`cmptick, this`numtick, this`queues, this`mail, this`inbox
      ensures safe == AskSafe(a, old(Y()), old(St()), n) && (std ==> safe)
      ensures Valid(p, 0) && (!safe ==> Y() == old(Y()) && St() == old(St()))
      ensures safe ==> Asked(old(Y()), Y(), p, a.Code())
      ensures safe ==> Answered(a, AskMerges(a, old(Y()), old(St()), n), old(Y()), Y(), n, p, mouse)
      ensures safe ==> StoreAfter(a, old(Y()), old(St()), Y(), St(), n, p)
      ensures safe ==> if old(AtHand(a, p)) then Flag(Y(), p, a.Code()) else evflg == old(evflg)
      ensures !a.AskMesag? && !a.AskSend? ==> qindex == old(qindex)
    {
      hide Sys.Ok, Masks, Asked, Flag, Std, ForksOk, ContentsOk, StorePassed, Answered, AskSafe, AskMerges;
      safe := true;
      if a.ForPipe() {
        safe := IasyncPipe(a, p);
      } else {
        IasyncOther(a, p);
        NoPipe(a, old(Y()), old(St()), n);
      }
    }

    // For a message.
    method IasyncPipe(a: Ask, ghost p: nat) returns (safe: bool)
      requires Asking(p, a.Code()) && AskOk(a) && (std ==> Regular(a)) && a.ForPipe()
      modifies this`evb, this`eul, this`evlist, this`chain, this`evflg, this`nrl, this`drl, this`waitin, this`qindex, this`queues,
        this`mail, this`inbox
      ensures safe == AskSafe(a, old(Y()), old(St()), n) && (std ==> safe)
      ensures Valid(p, 0) && (!safe ==> Y() == old(Y()) && St() == old(St()))
      ensures safe ==> Asked(old(Y()), Y(), p, a.Code())
      ensures safe ==> Answered(a, AskMerges(a, old(Y()), old(St()), n), old(Y()), Y(), n, p, mouse)
      ensures safe ==> StorePassed(old(Y()), old(St()), Y(), St(), n, p, a.At(), a.AskSend?, a.cnt, a.Data())
      ensures safe ==> if old(AtHand(a, p)) then Flag(Y(), p, a.Code()) else evflg == old(evflg)
    {
      hide Sys.Ok, Masks, Asked, Flag, Std, Queued, Lines, LineOf, Passed, ForksOk, ContentsOk, StorePassed, Harmless, Merging,
        PlainMessage;
      SysSizes(Y(), n, p, 0);
      BytesHere(p, 0, a.At());
      match a
      case AskMesag(from, cnt) => safe := Aqueue(false, MESAG, from, cnt, Nothing, p);
      case AskSend(to, cnt, data) => safe := Aqueue(true, SDMSG, to, cnt, data, p);
    }

    // For another event.
    method IasyncOther(a: Ask, ghost p: nat)
      requires Asking(p, a.Code()) && AskOk(a) && !a.ForPipe()
      modifies this`evb, this`eul, this`evlist, this`chain, this`evflg, this`keys, this`tas, this`owner, this`cmptick, this`numtick
      ensures Valid(p, 0) && Asked(old(Y()), Y(), p, a.Code()) && Answered(a, false, old(Y()), Y(), n, p, mouse)
      ensures if old(AtHand(a, p)) then Flag(Y(), p, a.Code()) else evflg == old(evflg)
    {
      hide Sys.Ok, Masks, Asked, Flag, Std, KeyAsked, MutexAsked, Over, Pending, DelayAsked, TicksPut, ForksOk, ContentsOk;
      SysSizes(Y(), n, p, 0);
      match a
      case AskKey => Akbin(p);
      case AskButton(sat) => Abutton(sat, 0, p);
      case AskMouse(m, sat) => Amouse(m, sat, 0, p);
      case AskTimer(c) => ghost var j := Adelay(c, p); DelayAnswer(old(Y()), Y(), p, j, c);
      case AskMutex => Amutex(p);
    }

    // Where a block is chained, as its e_pred says.
    method Where(e: nat) returns (c: nat, k: nat)
      requires exists d, l :: 0 <= d < |chain| && 0 <= l < |chain[d]| && chain[d][l] == e
      ensures c < |chain| && k < |chain[c]| && chain[c][k] == e
    {
      c := 0;
      while true
        invariant c <= |chain| && forall d, l :: 0 <= d < c && 0 <= l < |chain[d]| ==> chain[d][l] != e
        decreases |chain| - c
      {
        k := 0;
        while k < |chain[c]|
          invariant k <= |chain[c]| && forall l :: 0 <= l < k ==> chain[c][l] != e
        {
          if chain[c][k] == e {
            return;
          }
          k := k + 1;
        }
        c := c + 1;
      }
    }

    // The search of an event list for a mask.
    method FindMask(q: nat, mask: Mask) returns (i: nat)
      requires InRange(Y().s) && q < |evlist|
      ensures i <= |evlist[q]| && (i < |evlist[q]| ==> evb[evlist[q][i]].mask == mask)
      ensures mask in MasksOf(Y(), q) <==> i < |evlist[q]|
    {
      i := 0;
      while i < |evlist[q]| && evb[evlist[q][i]].mask != mask
        invariant i <= |evlist[q]| && forall k :: 0 <= k < i ==> evb[evlist[q][k]].mask != mask
      {
        i := i + 1;
      }
    }

    // apret(): a completed event is collected and its block freed; 0 when there is no such event.
    method Apret(mask: Mask, ghost p: nat) returns (erret: int)
      requires Valid(p, 0) && Y().Runs(p) && p < |evflg| && (mask in evflg[p] || mask !in MasksOf(Y(), p))
      modifies this`eul, this`evlist, this`chain, this`evflg, this`evwait
      ensures Valid(p, 0) && Collected1(old(Y()), Y(), p, mask, erret) && SameWaits(old(chain), chain)
      ensures Fewer(old(evlist), evlist, p)
    {
      hide Sys.Ok, Std, Masks, MasksOf, Collected1, InRange, ForksOk, ContentsOk;
      SysSizes(Y(), n, p, 0);
      var i := FindMask(rlr[0], mask);
      if i == |evlist[rlr[0]]| {
        NoneCollected(Y(), p, mask);
        return 0;
      }
      CompletedAt(Y(), n, p, mask, i);
      erret := Collect(i, mask, p);
    }

    // The i-th block of a process leaves the process's list and its chain for the free list, and is
    // waited for no more.
    method FreeEvb(q: nat, i: nat, c: nat, k: nat, mask: Mask)
      requires q < |evlist| && i < |evlist[q]| && c < |chain| && k < |chain[c]| && q < |evwait|
      modifies this`eul, this`evlist, this`chain, this`evwait
      ensures eul == [old(evlist[q][i])] + old(eul) && evlist == old(evlist)[q := Cut(old(evlist[q]), i)]
      ensures chain == old(chain)[c := Cut(old(chain[c]), k)] && evwait == old(evwait)[q := old(evwait[q]) - {mask}]
    {
      eul, evlist, chain := [evlist[q][i]] + eul, evlist[q := Cut(evlist[q], i)], chain[c := Cut(chain[c], k)];
      evwait := evwait[q := evwait[q] - {mask}];
    }

    // The end of apret(): the block leaves its chain and its list for the free list.
    method Collect(i: nat, mask: Mask, ghost p: nat) returns (erret: int)
      requires Valid(p, 0) && Y().Runs(p) && InRange(Y().s) && p < |evlist| && i < |evlist[p]|
      requires evb[evlist[p][i]].mask == mask && evb[evlist[p][i]].complete
      requires exists d, l :: 0 <= d < |chain| && 0 <= l < |chain[d]| && chain[d][l] == evlist[p][i]
      modifies this`eul, this`evlist, this`chain, this`evflg, this`evwait
      ensures Valid(p, 0) && Collected1(old(Y()), Y(), p, mask, erret) && SameWaits(old(chain), chain)
      ensures Fewer(old(evlist), evlist, p)
    {
      hide Sys.Ok, Masks, Cut, MasksOf, Taken, Collected1, InRange, Returned, Std, ForksOk, ContentsOk;
      ghost var y := Y();
      var q := rlr[0];
      var e := evlist[q][i];
      var c, k := Where(e);
      OnFirst(y, n, p, i, c, k);
      TakenKeeps(y, n, p, i, k, mask, std);
      CutFewer(evlist, q, i);
      erret := evb[e].ret;
      evflg := evflg[q := evflg[q] - {mask}];
      FreeEvb(q, i, c, k, mask);
      TakenIs(y, p, i, k, Y());
    }

    // takeoff(): a waiting event is given up; what a timer still had to go is added to the next.
    method Takeoff(i: nat, c: nat, k: nat, ghost p: nat)
      requires Valid(p, 0) && Y().Runs(p) && InRange(Y().s) && p < |evlist| && i < |evlist[p]|
      requires ZLR < c < |chain| && DLR < |chain| && k < |chain[c]| && chain[c][k] == evlist[p][i]
      requires evb[evlist[p][i]].delay <==> c == DLR
      modifies this`evb, this`eul, this`evlist, this`chain, this`evwait
      ensures Valid(p, 0) && Y().Runs(p) && Lost(old(Y()), Y(), p, i)
      ensures InRange(Y().s) && |chain| > DLR
      ensures Deltas(Y().s) == if c == DLR then Removed(old(Deltas(Y().s)), k) else old(Deltas(Y().s))
      ensures chain == old(chain)[c := Cut(old(chain[c]), k)] && eul == [old(evlist[p][i])] + old(eul)
      ensures evlist == old(evlist)[p := Cut(old(evlist[p]), i)] && SameBlocks(old(evb), evb)
    {
      hide Sys.Ok, Masks, Cut, MasksOf, Lost, Dropped, Deltas, Removed, Std, ForksOk, ContentsOk;
      var e := evlist[rlr[0]][i];
      ghost var y := Y();
      if evb[e].delay {
        TicksHere(y, n, p, 0, k);
        if k + 1 < |chain[DLR]| {
          Reticks(k + 1, -evb[e].parm, p, 0, p);
        }
      }
      ghost var z := Y();
      DropEvb(i, c, k, p);
      LostAgain(y, z, Y(), p, i);
      if c == DLR {
        RemovedIs(Deltas(y.s), k, Deltas(z.s));
      }
    }

    // The waiting event leaves its lists for the free list.
    method DropEvb(i: nat, c: nat, k: nat, ghost p: nat)
      requires Valid(p, 0) && Y().Runs(p) && InRange(Y().s) && p < |evlist| && i < |evlist[p]|
      requires ZLR < c < |chain| && DLR < |chain| && k < |chain[c]| && chain[c][k] == evlist[p][i]
      modifies this`eul, this`evlist, this`chain, this`evwait
      ensures Valid(p, 0) && Y().Runs(p) && Lost(old(Y()), Y(), p, i)
      ensures InRange(Y().s) && |chain| > DLR
      ensures Deltas(Y().s) == if c == DLR then Cut(old(Deltas(Y().s)), k) else old(Deltas(Y().s))
      ensures chain == old(chain)[c := Cut(old(chain[c]), k)] && eul == [old(evlist[p][i])] + old(eul)
      ensures evlist == old(evlist)[p := Cut(old(evlist[p]), i)]
    {
      hide Sys.Ok, Masks, Cut, MasksOf, Lost, Dropped, Deltas, Std, ForksOk, ContentsOk;
      var e, q := evlist[rlr[0]][i], rlr[0];
      ghost var z := Y();
      DroppedOk(z, n, p, i, c, k);
      if std {
        DroppedStd(z, n, p, i, c, k);
      }
      FreeEvb(q, i, c, k, evb[e].mask);
      DroppedIs(z, p, i, c, k, z.s.evb[e].mask, Y());
    }

    // acancel(): every event of those in m that is not completed is given up; the masks of the
    // completed ones among them are returned.
    method Acancel(m: set<Mask>, ghost p: nat) returns (m1: set<Mask>)
      requires Valid(p, 0) && Y().Runs(p) && p < |evflg| == |evwait|
      modifies this`evb, this`eul, this`evlist, this`chain, this`evwait
      ensures Valid(p, 0) && Y().Runs(p) && p < |evwait| && m1 == evflg[p] * m
      ensures MasksOf(Y(), p) == old(MasksOf(Y(), p)) - (m - evflg[p])
      ensures evwait[p] == old(evwait[p]) - (old(MasksOf(Y(), p)) * m - evflg[p])
      ensures p < |old(evlist)| && GivenUp(old(Y()), Y(), p, GoneOf(old(Y()).s, p, m))
    {
      hide Sys.Ok, Masks, Cut, MasksOf, Lost, Deltas, Removed, Cancelling, Std, ForksOk, ContentsOk, GivenUp, GoneOf;
      ghost var y := Y();
      SysSizes(y, n, p, 0);
      var q := rlr[0];
      m1 := {};
      var i := 0;
      ghost var gone: set<nat> := {};
      CancelStart(y, p, m);
      NoneGivenUp(y, p);
      while i < |evlist[q]|
        invariant Valid(p, 0) && Y().Runs(p) && p < |evlist| && 0 <= i <= |evlist[q]|
        invariant Cancelling(y, Y(), p, i, m, m1) && GivenUp(y, Y(), p, gone) && gone <= GoneOf(y.s, p, m)
        decreases |evlist[q]| - i
      {
        CancelHere(y, Y(), n, p, i, m, m1);
        var e := evlist[q][i];
        if evb[e].mask in m {
          if evb[e].nocancel || evb[e].complete {
            CancelSkip(y, Y(), p, i, m, m1);
            m1 := m1 + {evb[e].mask};
            i := i + 1;
          } else {
            MoreGone(y, Y(), p, gone, i, m);
            gone := CancelOne(i, m, m1, gone, p, y);
          }
        } else {
          CancelSkip(y, Y(), p, i, m, m1);
          i := i + 1;
        }
      }
      CancelEnd(y, Y(), n, p, i, m, m1);
      CancelAll(y, Y(), p, i, m, m1, gone);
    }

    // A waiting event found by acancel() is taken off.
    method CancelOne(i: nat, ghost m: set<Mask>, ghost m1: set<Mask>, ghost gone: set<nat>, ghost p: nat, ghost y: Sys)
      returns (ghost gone': set<nat>)
      requires Valid(p, 0) && Y().Runs(p) && p < |evlist| && i < |evlist[p]| && InRange(Y().s)
      requires Cancelling(y, Y(), p, i, m, m1) && !evb[evlist[p][i]].complete && evb[evlist[p][i]].mask in m
      requires GivenUp(y, Y(), p, gone)
      modifies this`evb, this`eul, this`evlist, this`chain, this`evwait
      ensures Valid(p, 0) && Y().Runs(p) && p < |evlist| && i <= |evlist[p]|
      ensures |evlist[p]| == |old(evlist[p])| - 1 && Cancelling(y, Y(), p, i, m, m1)
      ensures gone' == gone + {old(evlist[p][i])} && GivenUp(y, Y(), p, gone')
    {
      hide Sys.Ok, Masks, MasksOf, Lost, Deltas, Removed, Cancelling, Std, ForksOk, ContentsOk, GivenUp;
      ghost var z := Y();
      ChainedAt(z, n, p, i);
      var c, k := Where(evlist[rlr[0]][i]);
      WaitsThere(z, n, p, i, c, k);
      Takeoff(i, c, k, p);
      CancelLost(y, z, Y(), n, p, i, m, m1);
      OneGivenUp(y, z, Y(), n, p, gone, i, c, k);
      gone' := gone + {z.s.evlist[p][i]};
    }

    // unsync(): the semaphore is given up once, by whatever process calls; the last time it is handed
    // to the process that asked last, which is woken.  gave says that the dispatcher is to be called.
    method Unsync(ghost p: nat) returns (gave: bool)
      requires Valid(-1, 0) && Y().Runs(p)
      modifies this`evb, this`chain, this`evflg, this`nrl, this`drl, this`waitin, this`tas, this`owner
      ensures Valid(-1, 0) && Y().Runs(p)
      ensures |chain| == |old(chain)| == 3 + 5 * n
      ensures if old(tas) <= 0 then tas == 0 && owner == old(owner) && !gave
              else if old(tas) > 1 then tas == old(tas) - 1 && owner == old(owner) && !gave
              else if old(chain[Sy(n)]) == [] then tas == 0 && owner == -1 && !gave
              else gave && tas == 1 && HandedTo(old(evb), old(chain[Sy(n)]), owner, evflg) && chain[Sy(n)] == old(chain[Sy(n)])[1..]
    {
      hide Sys.Ok, Std, Masks, SemOk, Fired, Cut, ForksOk, ContentsOk;
      ghost var y := Y();
      SysSizes(y, n, -1, 0);
      SemFacts(y, n, -1, 0);
      gave := false;
      if tas <= 0 {
        tas := 0;
        return;
      }
      if tas > 1 {
        SemLess(y, n, -1, 0);
        HeldOk(y, n, -1, 0, tas - 1, owner);
        tas := tas - 1;
      } else if chain[Sy(n)] != [] {
        var e := chain[Sy(n)][0];
        var next := evb[e].pd;
        Evremove(Sy(n), 0, 0, rlr[0], -1, 0);
        FiredChain(y, Sy(n), 0, mouse, 0);
        CutHead(y.s.chain[Sy(n)]);
        HandOver(y, n, -1, 0, Y(), mouse);
        HeldOk(Y(), n, -1, 0, 1, next);
        tas, owner := 1, next;
        gave := true;
      } else {
        SemFree(y, n, -1, 0);
        HeldOk(y, n, -1, 0, 0, -1);
        tas, owner := 0, -1;
      }
    }

    // tchange(): c0 ticks have gone by; the timers due by then fire in order, and the others are
    // that much nearer.
    method Tchange(c0: int, cur: int, ghost ex: int, ghost skip: nat) returns (ghost fired: nat)
      requires Valid(ex, skip) && c0 >= 0 && (cur >= 0 ==> cur in rlr) && InRange(Y().s) && |chain| > DLR
      modifies this`evb, this`chain, this`evflg, this`nrl, this`drl, this`waitin, this`cmptick, this`numtick
      ensures Valid(ex, skip) && TimersFired(old(Y()), Y(), fired, c0)
    {
      hide Sys.Ok, Std, Masks, Deltas, InRange, Before, Ticks, Ticking, Lowered, Expired, SameEvents, OnlyFired, TimedOut,
        TimersFired, Flag, ForksOk, ContentsOk;
      ghost var y, d := Y(), Deltas(Y().s);
      var c;
      c, fired := FireDue(c0, cur, ex, skip);
      ghost var z := Y();
      if chain[DLR] != [] {
        TickingStop(d, Deltas(Y().s), fired, c0, c);
        Nearer(c, ex, skip);
        OnlyFiredAgain(y, z, Y(), fired);
      } else {
        TickingEnd(d, Deltas(Y().s), fired, c0, c);
      }
      TimersFiredIs(y, Y(), n, ex, skip, fired, c0);
    }

    // The ticks left over are taken from the next timer.
    method Nearer(c: int, ghost ex: int, ghost skip: nat)
      requires Valid(ex, skip) && InRange(Y().s) && |chain| > DLR && chain[DLR] != [] && c <= Deltas(Y().s)[0]
      requires TicksAt(Y())
      modifies this`evb, this`cmptick, this`numtick
      ensures Valid(ex, skip) && InRange(Y().s) && Deltas(Y().s) == old(Deltas(Y().s))[0 := old(Deltas(Y().s))[0] - c]
      ensures SameEvents(old(evb), evb) && OnlyTimers(old(Y()), Y())
    {
      hide Sys.Ok, Std, Masks, Deltas, InRange, ForksOk, ContentsOk;
      cmptick, numtick := evb[chain[DLR][0]].parm - c, 0;
      Reticks(0, c, ex, skip, 0);
    }

    // The loop of tchange(): the first timer fires while it is due; c ticks are left over.
    method FireDue(c0: int, cur: int, ghost ex: int, ghost skip: nat) returns (c: int, ghost fired: nat)
      requires Valid(ex, skip) && c0 >= 0 && (cur >= 0 ==> cur in rlr) && InRange(Y().s) && |chain| > DLR
      modifies this`evb, this`chain, this`evflg, this`nrl, this`drl, this`waitin
      ensures Valid(ex, skip) && InRange(Y().s) && |chain| > DLR
      ensures OnlyFired(old(Y()), Y(), fired) && TicksAt(Y())
      ensures Ticking(old(Deltas(Y().s)), Deltas(Y().s), fired, c0, c)
      ensures chain[DLR] != [] ==> Deltas(Y().s)[0] > c
    {
      hide Sys.Ok, Std, Masks, Deltas, InRange, Before, Ticks, Ticking, OnlyFired, ForksOk, ContentsOk;
      ghost var y, d := Y(), Deltas(Y().s);
      fired := 0;
      c := c0;
      TickingStart(d, c);
      TicksHere(Y(), n, ex, skip, 0);
      NoneFired(y);
      while chain[DLR] != [] && evb[chain[DLR][0]].parm - c <= 0
        invariant Valid(ex, skip) && InRange(Y().s) && |chain| > DLR && OnlyFired(y, Y(), fired)
        invariant Ticking(d, Deltas(Y().s), fired, c0, c) && TicksAt(Y()) && (cur >= 0 ==> cur in rlr)
        decreases |chain[DLR]|
      {
        ghost var z := Y();
        TickingFire(d, Deltas(Y().s), fired, c0, c);
        c := c - evb[chain[DLR][0]].parm;
        FireFirst(cur, ex, skip);
        OneFired(y, z, Y(), fired);
        TicksHere(Y(), n, ex, skip, 0);
        fired := fired + 1;
      }
    }

    // The first timer is over.
    method FireFirst(cur: int, ghost ex: int, ghost skip: nat)
      requires Valid(ex, skip) && (cur >= 0 ==> cur in rlr) && InRange(Y().s) && |chain| > DLR && chain[DLR] != []
      modifies this`evb, this`chain, this`evflg, this`nrl, this`drl, this`waitin
      ensures Valid(ex, skip) && InRange(Y().s) && |chain| > DLR
      ensures Deltas(Y().s) == old(Deltas(Y().s))[1..]
      ensures chain == old(chain)[DLR := old(chain[DLR])[1..]][ZLR := [old(chain[DLR][0])] + old(chain[ZLR])]
      ensures OnlyTimers(old(Y()), Y())
    {
      hide Sys.Ok, Std, Masks, Deltas, InRange, Fired, Cut, Zombie, ForksOk, ContentsOk;
      ghost var y := Y();
      TicksHere(y, n, ex, skip, 0);
      Reticks(0, evb[chain[DLR][0]].parm, ex, skip, 0);
      ghost var z := Y();
      FiredOk(z, n, ex, skip, DLR, 0, mouse, 0);
      FiredChain(z, DLR, 0, mouse, 0);
      FiredOnlyEnds(z, DLR, 0, mouse, 0);
      ZombieSame(z.s.evb[chain[DLR][0]], mouse, 0);
      Evremove(DLR, 0, 0, cur, ex, skip);
      CutHead(y.s.chain[DLR]);
      CutHead(Deltas(z.s));
    }

    // post_keybd(): a key goes to the process that waits for one, else to the process's buffer
    // while there is room.
    method PostKeybd(p: nat, ch: int, cur: int, ghost ex: int, ghost skip: nat)
      requires Valid(ex, skip) && p < n && (cur >= 0 ==> cur in rlr) && |chain| == 3 + 5 * n && |keys| == n
      modifies this`evb, this`chain, this`evflg, this`nrl, this`drl, this`waitin, this`keys
      ensures Valid(ex, skip) && KeyPosted(old(Y()), Y(), p, ch, mouse, KBD_SIZE)
    {
      hide Sys.Ok, Std, Fired, ForksOk, ContentsOk;
      if chain[Kb(p)] != [] {
        Evremove(Kb(p), 0, ch, cur, ex, skip);
      } else if |keys[p]| < KBD_SIZE {
        KeysOk(Y(), n, ex, skip, p, keys[p] + [ch]);
        keys := keys[p := keys[p] + [ch]];
      }
    }

    // post_button() and post_mouse(): the waits of a chain that are satisfied are over.
    method PostAll(c: nat, rets: map<nat, int>, cur: int, ghost ex: int, ghost skip: nat)
      requires Valid(ex, skip) && DLR < c < |chain| && (cur >= 0 ==> cur in rlr)
      modifies this`evb, this`chain, this`evflg, this`nrl, this`drl, this`waitin
      ensures Valid(ex, skip) && AllPosted(old(Y()), Y(), c, rets, mouse)
    {
      hide Sys.Ok, Std, Fired, Cut, Posting, EndedWith, ForksOk, ContentsOk;
      ghost var y, d := Y(), 0;
      var i := 0;
      NonePosted(y, c, rets, mouse);
      while i < |chain[c]|
        invariant Valid(ex, skip) && c < |chain| && Posting(y, Y(), c, rets, mouse, d, i) && (cur >= 0 ==> cur in rlr)
        decreases |chain[c]| - i
      {
        ghost var z := Y();
        PostingHere(y, z, c, rets, mouse, d, i);
        if chain[c][i] in rets {
          Evremove(c, i, rets[chain[c][i]], cur, ex, skip);
          OnePosted(y, z, n, ex, skip, c, rets, mouse, d, i);
        } else {
          OneStays(y, z, c, rets, mouse, d, i);
          i := i + 1;
        }
        d := d + 1;
      }
      Posted(y, Y(), c, rets, mouse, d, i);
    }

    // One entry of the fork ring is carried out, outside any process.
    method Carry(f: Fork, ghost ex: int, ghost skip: nat)
      requires Valid(ex, skip) && ForkOk(f, n)
      modifies this`evb, this`chain, this`evflg, this`nrl, this`drl, this`waitin, this`keys, this`cmptick, this`numtick,
        this`mouse
      ensures Valid(ex, skip) && Carried(f, old(Y()), Y(), old(mouse)) && mouse == MouseAt(f, old(mouse))
    {
      hide Sys.Ok, Std, TimersFired, KeyPosted, AllPosted, ForksOk, ContentsOk;
      SysSizes(Y(), n, ex, skip);
      match f
      case Tick(c) => ghost var fired := Tchange(c, -1, ex, skip); TickCarried(old(Y()), Y(), c, fired, mouse);
      case Key(p, ch) => PostKeybd(p, ch, -1, ex, skip);
      case Post(c, rets, at) => mouse := at; PostAll(c, rets, -1, ex, skip);
    }

    // forkq(): -1 when the ring is full.
    method Forkq(f: Fork, ghost ex: int, ghost skip: nat) returns (r: int)
      requires Valid(ex, skip) && ForkOk(f, n)
      modifies this`forks
      ensures Valid(ex, skip)
      ensures if |old(forks)| < NFORKS then r == 0 && forks == old(forks) + [f] else r == -1 && forks == old(forks)
    {
      hide Sys.Ok, Std;
      if |forks| < NFORKS {
        forks := forks + [f];
        return 0;
      }
      r := -1;
    }

    // forker(): the ring is emptied, its entries carried out in the order they came in.
    method Forker()
      requires Valid(-1, 0)
      modifies this`evb, this`chain, this`evflg, this`nrl, this`drl, this`waitin, this`keys, this`cmptick, this`numtick,
        this`forks, this`mouse
      ensures Valid(-1, 0) && forks == [] && AllCarried(old(forks), old(Y()), Y(), old(mouse), n)
      ensures mouse == MouseAfter(old(forks), old(mouse))
    {
      hide Sys.Ok, Std, Carried, AllCarried, LeadsOn, ForksOk, ContentsOk, MouseAt, MouseAfter;
      LeadsSame(forks, Y(), mouse, n);
      ghost var l, y := forks, Y();
      while forks != []
        invariant Valid(-1, 0)
        invariant |forks| <= |l| && forks == l[|l| - |forks|..] && LeadsOn(forks, Y(), mouse, l, y, old(mouse), n)
        decreases |forks|
      {
        ghost var z, at := Y(), mouse;
        var g := TakeFork();
        assert [g] + forks == l[|l| - |forks| - 1..];
        Carry(g, -1, 0);
        CarriedNext(g, forks, l, y, old(mouse), z, Y(), at, n);
      }
      AllDoneNow(l, y, old(mouse), Y(), mouse, n);
    }

    // The first entry leaves the ring.
    method TakeFork() returns (g: Fork)
      requires Valid(-1, 0) && forks != []
      modifies this`forks
      ensures Valid(-1, 0) && ForkOk(g, n) && old(forks) == [g] + forks
    {
      hide Sys.Ok, Std, ContentsOk;
      g := forks[0];
      forks := forks[1..];
    }

    // The processes on the drl become ready, in order.
    method DrainDrl()
      requires Valid(-1, 0)
      modifies this`drl, this`rlr, this`waitin
      ensures Valid(-1, 0) && Y() == old(Y()).(pr := old(Y()).pr.(rlr := old(rlr) + old(drl), drl := []))
    {
      hide Sys.Ok, Std, Readied, ForksOk, ContentsOk;
      ghost var r, d := rlr, drl;
      while drl != []
        invariant Valid(-1, 0) && rlr + drl == r + d && Y() == old(Y()).(pr := old(Y()).pr.(rlr := rlr, drl := drl))
        decreases |drl|
      {
        ghost var y := Y();
        var p := drl[0];
        ReadyOk(y, n);
        AwakeThere(y, n);
        assert drl == [p] + drl[1..];
        drl := drl[1..];
        waitin := waitin[p := false];
        rlr := rlr + [p];
        ReadyIs(y, Y());
      }
    }

    // schedule(): what interrupts bring is taken in until a process is ready or the ring has
    // something; polls are the entries that come in before each look, after them none.  awake says
    // that there is something to run or to carry out; if not, it would wait for an interrupt.
    method Schedule(polls: seq<seq<Fork>>, at: nat) returns (next: nat, awake: bool)
      requires Valid(-1, 0) && at <= |polls|
      requires forall i, j :: 0 <= i < |polls| && 0 <= j < |polls[i]| ==> ForkOk(polls[i][j], n)
      modifies this`drl, this`rlr, this`waitin, this`forks
      ensures Valid(-1, 0) && at <= next <= |polls| && (next == at ==> at == |polls|)
      ensures Y() == old(Y()).(pr := old(Y()).pr.(rlr := old(rlr) + old(drl), drl := []))
      ensures var l := old(forks) + if next > at then polls[next - 1] else [];
              forks == if |l| <= NFORKS then l else l[..NFORKS]
      ensures next > at + 1 ==> old(forks) == [] && rlr == []
      ensures forall i :: at <= i < next - 1 ==> polls[i] == []
      ensures awake <==> rlr != [] || forks != []
      ensures !awake ==> next == |polls|
    {
      hide Sys.Ok, Std, ContentsOk;
      next := at;
      while true
        invariant Valid(-1, 0) && at <= next <= |polls|
        invariant next == at ==> Y() == old(Y()) && forks == old(forks)
        invariant next > at ==>
          (Y() == old(Y()).(pr := old(Y()).pr.(rlr := old(rlr) + old(drl), drl := [])) && rlr == [] && forks == [] == old(forks))
        invariant forall i :: at <= i < next ==> polls[i] == []
        decreases |polls| - next
      {
        var poll := if next < |polls| then polls[next] else [];
        TakeIn(poll);
        DrainDrl();
        if next < |polls| {
          next := next + 1;
        }
        if rlr != [] || forks != [] {
          return next, true;
        }
        if next == |polls| {
          return next, false;
        }
      }
    }

    // What comes in is put in the ring while there is room.
    method TakeIn(l: seq<Fork>)
      requires Valid(-1, 0) && forall j :: 0 <= j < |l| ==> ForkOk(l[j], n)
      modifies this`forks
      ensures Valid(-1, 0)
      ensures var r := old(forks) + l; forks == if |r| <= NFORKS then r else r[..NFORKS]
    {
      hide Sys.Ok, Std, ContentsOk;
      ghost var f, r := forks, forks + l;
      var j := 0;
      while j < |l|
        invariant Valid(-1, 0) && 0 <= j <= |l| && forks == if |f| + j <= NFORKS then r[..|f| + j] else r[..NFORKS]
      {
        var q := Forkq(l[j], -1, 0);
        j := j + 1;
      }
    }

    // disp() takes the process at the head off the ready list: disp_act() puts it at the end,
    // mwait_act() too when an event it waits for has come, else it goes to sleep.
    method Leave()
      requires Valid(-1, 1) && Leaving(Y())
      modifies this`rlr, this`nrl, this`waitin
      ensures Valid(-1, 0)
      ensures Y() == Left1(old(Y())) && old(rlr) != [] && old(rlr[0]) < |old(waitin)| == |old(evwait)| == |old(evflg)|
      ensures var p := old(rlr[0]);
              if old(waitin)[p] && old(evwait)[p] * old(evflg)[p] == {}
              then Y() == old(Y()).(pr := old(Y()).pr.(rlr := old(rlr)[1..], nrl := [p] + old(nrl)))
              else Y() == old(Y()).(pr := old(Y()).pr.(rlr := old(rlr)[1..] + [p], waitin := old(waitin)[p := false]))
    {
      hide Sys.Ok, Std, Slept, Requeued, ForksOk, ContentsOk;
      ghost var y := Y();
      LeaveOk(y, n);
      var p := rlr[0];
      rlr := rlr[1..];
      if waitin[p] && evwait[p] * evflg[p] == {} {
        nrl := [p] + nrl;
        SleptIs(y, Y());
      } else {
        waitin := waitin[p := false];
        rlr := rlr + [p];
        RequeuedIs(y, Y());
      }
    }

    // disp(): the dispatcher.  t are the turns of its loop: first the process at the head leaves; at
    // the end the ring is empty, and there is a process to run unless all of them sleep and the
    // polls have run out.
    method Disp(polls: seq<seq<Fork>>) returns (switched: bool, ghost t: seq<Stage>)
      requires Valid(-1, 1) && Leaving(Y())
      requires forall i, j :: 0 <= i < |polls| && 0 <= j < |polls[i]| ==> ForkOk(polls[i][j], n)
      modifies this`evb, this`chain, this`evflg, this`rlr, this`nrl, this`drl, this`waitin, this`keys, this`cmptick,
        this`numtick, this`forks, this`mouse
      ensures Valid(-1, 0) && forks == [] && (switched <==> rlr != [])
      ensures Finished(t, polls, n) && t[0] == Stage(Left1(old(Y())), old(forks), old(mouse), 0)
      ensures t[|t| - 1] == Stage(Y(), [], mouse, t[|t| - 1].at) && (!switched ==> t[|t| - 1].at == |polls|)
    {
      hide Sys.Ok, Std, ForksOk, ContentsOk, Finished, Left1;
      Leave();
      switched, t := DispLoop(polls);
    }

    // The loop of disp().
    method DispLoop(polls: seq<seq<Fork>>) returns (switched: bool, ghost t: seq<Stage>)
      requires Valid(-1, 0)
      requires forall i, j :: 0 <= i < |polls| && 0 <= j < |polls[i]| ==> ForkOk(polls[i][j], n)
      modifies this`evb, this`chain, this`evflg, this`rlr, this`nrl, this`drl, this`waitin, this`keys, this`cmptick,
        this`numtick, this`forks, this`mouse
      ensures Valid(-1, 0) && forks == [] && (switched <==> rlr != [])
      ensures Finished(t, polls, n) && t[0] == Stage(old(Y()), old(forks), old(mouse), 0)
      ensures t[|t| - 1] == Stage(Y(), [], mouse, t[|t| - 1].at) && (!switched ==> t[|t| - 1].at == |polls|)
    {
      hide Sys.Ok, Std, ForksOk, ContentsOk, Loop, Finished;
      RingOk(-1, 0);
      var at: nat, again := 0, true;
      t := [Stage(Y(), forks, mouse, 0)];
      ghost var first := t[0];
      LoopStart(first, polls, n);
      switched := true;
      while again
        invariant Valid(-1, 0) && at <= |polls| && t != [] && t[|t| - 1] == Stage(Y(), forks, mouse, at)
        invariant Loop(t, polls, n) && t[0] == first
        invariant !again ==> forks == [] && drl == [] && (switched <==> rlr != []) && (!switched ==> at == |polls|)
        decreases |polls| - at, again
      {
        at, switched, t := OneTurn(polls, at, t);
        again := forks != [];
      }
      FinishedIs(t, polls, n);
    }

    // One turn of that loop: the ring is emptied, and schedule() called.
    method OneTurn(polls: seq<seq<Fork>>, at: nat, ghost t: seq<Stage>) returns (next: nat, awake: bool, ghost t': seq<Stage>)
      requires Valid(-1, 0) && at <= |polls| && t != [] && t[|t| - 1] == Stage(Y(), forks, mouse, at) && Loop(t, polls, n)
      requires forall i, j :: 0 <= i < |polls| && 0 <= j < |polls[i]| ==> ForkOk(polls[i][j], n)
      modifies this`evb, this`chain, this`evflg, this`rlr, this`nrl, this`drl, this`waitin, this`keys, this`cmptick,
        this`numtick, this`forks, this`mouse
      ensures Valid(-1, 0) && Loop(t', polls, n) && t' == t + [Stage(Y(), forks, mouse, next)]
      ensures drl == [] && at <= next <= |polls| && (forks != [] ==> at < next)
      ensures (awake <==> rlr != [] || forks != []) && (!awake ==> next == |polls|)
    {
      hide Sys.Ok, Std, ForksOk, ContentsOk, Loop, AllCarried, Looked, MouseAfter;
      NothingIn(Y(), mouse, n);
      if forks != [] {
        Forker();
      }
      ghost var w := Y();
      next, awake := Schedule(polls, at);
      LookedIs(w, Y(), forks, mouse, at, next, awake, polls);
      t' := t + [Stage(Y(), forks, mouse, next)];
      LoopMore(t, w, Stage(Y(), forks, mouse, next), polls, n);
    }

    lemma RingOk(ex: int, skip: nat)
      requires Valid(ex, skip)
      ensures forall i :: 0 <= i < |forks| ==> ForkOk(forks[i], n)
    {
    }

    // mwait() in the running process p, which has the blocks for m: it goes on at once when one of
    // them is completed, else it waits and the dispatcher is called.
    method Mwait(m: set<Mask>, polls: seq<seq<Fork>>, ghost p: nat) returns (blocked: bool, switched: bool, ghost t: seq<Stage>)
      requires Valid(p, 0) && Y().Runs(p) && MasksOf(Y(), p) == m && |m| <= EVBS_PER_PD
      requires forall i, j :: 0 <= i < |polls| && 0 <= j < |polls[i]| ==> ForkOk(polls[i][j], n)
      modifies this`evb, this`chain, this`evflg, this`rlr, this`nrl, this`drl, this`waitin, this`keys, this`cmptick,
        this`numtick, this`forks, this`mouse, this`evwait, this`task
      ensures !blocked ==>
        (Valid(p, 0) && Y().Runs(p) && MasksOf(Y(), p) == m && p < |evflg| == |evwait| && m * evflg[p] != {} && evwait[p] == m)
      ensures p < |old(evflg)| && (blocked <==> m * old(evflg)[p] == {})
      ensures !blocked ==> Events(evb, eul, evlist, chain, evflg) == old(Events(evb, eul, evlist, chain, evflg)) && keys == old(keys)
      ensures blocked ==> Valid(-1, 0) && p < |task| && task[p] == Blocked(m) && forks == []
      ensures blocked ==> WentToSleep(old(Y()), p, m, old(forks), old(mouse), t, Y(), mouse, switched, polls, n)
    {
      hide Sys.Ok, Std, Masks, MasksOf, Waits, Leaving, ForksOk, ContentsOk, Left1, Finished, WentToSleep;
      ghost var y := Y();
      SysSizes(y, n, p, 0);
      var q := rlr[0];
      if m * evflg[q] != {} {
        WaitsOn(y, n, p, m);
        evwait := evwait[q := m];
        return false, false, [];
      }
      MustWait(y, n, p, m);
      evwait := evwait[q := m];
      waitin := waitin[q := true];
      task := task[q := Blocked(m)];
      WaitsIs(y, p, m, Y());
      WaitsLeave(y, p, m);
      blocked := true;
      switched, t := Disp(polls);
      SleptSo(y, p, m, old(forks), old(mouse), t, Y(), mouse, switched, polls, n);
    }

    // ev_block(): the running process waits for one event.  done says that it is over already;
    // else the process is asleep, and goes on with EvBlockEnd() when it is run again.
    method EvBlock(a: Ask, polls: seq<seq<Fork>>, ghost p: nat)
      returns (safe: bool, done: bool, ret: int, switched: bool, ghost asked: Sys, ghost t: seq<Stage>)
      requires Valid(-1, 0) && Y().Runs(p) && AskOk(a) && (std ==> Regular(a))
      requires forall i, j :: 0 <= i < |polls| && 0 <= j < |polls[i]| ==> ForkOk(polls[i][j], n)
      modifies this
      ensures safe == AskSafe(a, old(Y()), old(St()), n) && (std ==> safe)
      ensures Valid(-1, 0) && (!safe ==> Y() == old(Y()) && St() == old(St()) && !done)
      ensures safe ==> (done <==> old(AtHand(a, p)))
      ensures done ==> Rested(Y(), p) && Given(a, AskMerges(a, old(Y()), old(St()), n), old(Y()), Y(), n, p, ret)
      ensures done && a.AskKey? ==>
        (p < |old(keys)| && old(keys)[p] != [] && ret == old(keys)[p][0] && keys == old(keys)[p := old(keys)[p][1..]])
      ensures done && !a.AskKey? ==> keys == old(keys) && !a.AskTimer? && ret == if a.AskMouse? || a.AskMutex? then 0 else 1
      ensures done ==> StoreAfter(a, old(Y()), old(St()), Y(), St(), n, p)
      ensures safe && !done ==> p < |task| && task[p] == Blocked({a.Code()}) && forks == []
      ensures safe && !done ==> Answered(a, AskMerges(a, old(Y()), old(St()), n), old(Y()), asked, n, p, old(mouse))
      ensures safe && !done ==> StoreAfter(a, old(Y()), old(St()), asked, St(), n, p)
      ensures safe && !done ==> Keeps(old(Y()), asked) && asked == old(Y()).(s := asked.s) && AskedFor(a, asked, n, p)
      ensures safe && !done && a.AskTimer? ==>
        exists e: nat :: HasBlock(asked, e, p, TIMER) && DueIn(asked, e, if a.c == 0 then 1 else a.c)
      ensures safe && !done ==> MailWaits(a, asked, St(), p)
      ensures safe && !done ==> WentToSleep(asked, p, {a.Code()}, old(forks), old(mouse), t, Y(), mouse, switched, polls, n)
    {
      hide Sys.Ok, Std, Masks, MasksOf, Rested, Answered, Given, Lines, AskSafe, Asked, CanAnswer, ForksOk, ContentsOk, StoreAfter,
        AskMerges, WentToSleep, Keeps, MailWaits;
      ghost var y, st := Y(), St();
      Busy1(y, n, p);
      NoFlag(y, n, p);
      safe := Iasync(a, p);
      asked := Y();
      if !safe {
        return false, false, 0, false, asked, [];
      }
      ghost var z, found := Y(), AskMerges(a, y, st, n);
      NowAsked(a, found, y, Y(), n, p, mouse);
      done, ret, switched, t := EvWait(a, polls, p, y, found);
      if done {
        StoreSame(a, y, st, z, Y(), St(), n, p);
        GivenIs(a, found, y, Y(), n, p, ret);
      } else {
        SysSizes(y, n, p, 0);
        BlockAsked(a, found, y, st, z, St(), n, p, old(mouse));
      }
    }

    // The rest of ev_block(), mwait() and apret(), once the event is asked for.
    method EvWait(a: Ask, polls: seq<seq<Fork>>, ghost p: nat, ghost y: Sys, ghost found: bool)
      returns (done: bool, ret: int, switched: bool, ghost t: seq<Stage>)
      requires Valid(p, 0) && Y().Runs(p) && MasksOf(Y(), p) == {a.Code()} && CanAnswer(a, found, y, Y(), n, p, mouse)
      requires forall i, j :: 0 <= i < |polls| && 0 <= j < |polls[i]| ==> ForkOk(polls[i][j], n)
      modifies this
      ensures Valid(-1, 0) && (done <==> old(Flag(Y(), p, a.Code())))
      ensures done ==> Rested(Y(), p) && Given(a, found, y, Y(), n, p, ret)
      ensures St() == old(St()) && qindex == old(qindex)
      ensures !done ==> p < |task| && task[p] == Blocked({a.Code()}) && forks == []
      ensures !done ==> WentToSleep(old(Y()), p, {a.Code()}, old(forks), old(mouse), t, Y(), mouse, switched, polls, n)
    {
      hide Sys.Ok, Std, Masks, MasksOf, Collected1, Rested, CanAnswer, Given, Lines, Returned, ForksOk, ContentsOk, WentToSleep;
      ghost var z := Y();
      FlagMeets(z, p, a.Code());
      var blocked;
      blocked, switched, t := Mwait({a.Code()}, polls, p);
      done, ret := !blocked, 0;
      if done {
        ghost var v := Y();
        ret := Apret(a.Code(), p);
        RestedOk(v, Y(), n, p, a.Code(), ret);
        AnswerGiven(a, found, y, z, v, Y(), n, p, old(mouse), ret);
      }
    }

    // ap_rdwr(): a message of 16 bytes that is the only one is taken by itself, past any writer that
    // waits; else the process blocks for it.
    method ApRdwr(a: Ask, polls: seq<seq<Fork>>, ghost p: nat)
      returns (safe: bool, done: bool, ret: int, switched: bool, ghost asked: Sys, ghost t: seq<Stage>)
      requires Valid(-1, 0) && Y().Runs(p) && a.ForPipe() && AskOk(a) && (std ==> Regular(a))
      requires forall i, j :: 0 <= i < |polls| && 0 <= j < |polls[i]| ==> ForkOk(polls[i][j], n)
      modifies this
      ensures safe == RecvSafe(a, old(Y()), old(St()), n) && (std ==> safe)
      ensures Valid(-1, 0) && (!safe ==> Y() == old(Y()) && St() == old(St()) && !done)
      ensures safe ==> (done <==> old(AtHand(a, p)))
      ensures done ==> Y().Runs(p) && ret == 1 && keys == old(keys)
      ensures done ==> PipeStep(a, AskMerges(a, old(Y()), old(St()), n), old(Y()), Y()) && ReadGot(a, old(St()), St(), p)
      ensures safe && !done ==> p < |task| && task[p] == Blocked({a.Code()}) && forks == []
      ensures safe && !done ==> Answered(a, AskMerges(a, old(Y()), old(St()), n), old(Y()), asked, n, p, old(mouse))
      ensures safe && !done ==> StoreAfter(a, old(Y()), old(St()), asked, St(), n, p)
      ensures safe && !done ==> Keeps(old(Y()), asked) && asked == old(Y()).(s := asked.s) && AskedFor(a, asked, n, p)
      ensures safe && !done ==> MailWaits(a, asked, St(), p)
      ensures safe && !done ==> WentToSleep(asked, p, {a.Code()}, old(forks), old(mouse), t, Y(), mouse, switched, polls, n)
    {
      hide Sys.Ok, Std, MasksOf, Rested, Lines, Counts, ForksOk, PlainStore, AskMerges, Handed, AskSafe, WentToSleep, Answered,
        Keeps, AskedFor, HasBlock, DueIn, MailWaits;
      SysSizes(Y(), n, -1, 0);
      LinesAre(Y(), n, -1, 0);
      BytesHere(-1, 0, a.At());
      ghost var y, st := Y(), St();
      if a.AskMesag? && Quick(qindex[a.from], a.cnt) {
        TakeQuick(a.from, p);
        return true, true, 1, false, y, [];
      }
      safe, done, ret, switched, asked, t := EvBlock(a, polls, p);
      if done {
        RestedRuns(Y(), p);
        LinesAre(Y(), n, -1, 0);
        GotIt(a, y, st, Y(), St(), n, p);
      }
    }

    // The short cut of ap_rdwr().
    method TakeQuick(t: nat, ghost p: nat)
      requires Valid(-1, 0) && Y().Runs(p) && CanBytes(Y().s, qindex, St(), n, t) && Quick(qindex[t], MSG)
      modifies this`qindex, this`inbox
      ensures Valid(-1, 0) && Y() == old(Y()).(qindex := qindex) && qindex == old(qindex)[t := 0]
      ensures Lines(Y().s, qindex) && |qindex| == n && PipeOf(t) == old(PipeOf(t)).(q := 0)
      ensures p < |old(inbox)| && |old(queues)[t]| == QUEUE_SIZE && inbox == old(inbox)[p := old(queues)[t][..MSG]]
    {
      hide Sys.Ok, Std, LineOf, Lines, ForksOk, PlainMessage;
      ghost var y, st := Y(), St();
      SysSizes(y, n, -1, 0);
      RoomOk(y, n, -1, 0, t, 0);
      inbox := inbox[rlr[0] := queues[t][..MSG]];
      qindex := qindex[t := 0];
      StdQuick(y, Y(), n, t);
    }

    // The rest of ev_block(), run when the process is dispatched: the event it waited for has come,
    // and is collected.
    method EvBlockEnd(code: Mask, ghost p: nat) returns (ret: int)
      requires Valid(-1, 0) && rlr != [] && rlr[0] == p && p < |task| && task[p] == Blocked({code})
      modifies this`eul, this`evlist, this`chain, this`evflg, this`evwait, this`task
      ensures Valid(-1, 0) && Rested(Y(), p) && Returned(old(evb), old(evlist), p, code, ret)
    {
      hide Sys.Ok, Std, Masks, MasksOf, Collected1, Rested, Returned, ForksOk, ContentsOk;
      ghost var y := Y();
      BackOk(y, n, p);
      task := task[rlr[0] := Free];
      ghost var z := Y();
      Meets(code, z, p);
      ret := Apret(code, p);
      RestedOk(z, Y(), n, p, code, ret);
    }

    // The running process p has asked for those of its wanted events that are in `before`.
    ghost predicate Wanting(p: nat, flags: set<Mask>, before: set<Mask>)
      reads this
    {
      Valid(p, 0) && Y().Runs(p) && MasksOf(Y(), p) == flags * before
    }

    // One iasync() of ev_multi(), for an event that is among those wanted; l are those before it.
    method IssueIf(flags: set<Mask>, a: Ask, ghost p: nat, ghost before: set<Mask>, ghost l: seq<Ask>, ghost y: Sys)
      requires Wanting(p, flags, before) && before <= AllEvents() && a.Code() !in before && !a.AskSend? && !a.AskMutex?
      requires a.AskMesag? && a.Code() in flags ==> a.from < n && a.from < |qindex| && qindex[a.from] == 0 && a.cnt == MSG
      requires a.AskKey? && a.Code() in flags ==> p < |keys| && keys[p] == []
      requires (a.AskMouse? ==> a.m == M1 || a.m == M2) && (a.AskTimer? ==> a.c >= 0) && (a.AskKey? ==> l == [])
      requires Begun(flags, l, y, Y(), n, p)
      modifies this`evb, this`eul, this`evlist, this`chain, this`evflg, this`nrl, this`drl, this`waitin, this`keys,
        this`qindex, this`tas, this`owner, this`cmptick, this`numtick, this`queues, this`mail, this`inbox
      ensures Wanting(p, flags, before + {a.Code()}) && Begun(flags, l + [a], y, Y(), n, p)
      ensures qindex == old(qindex) && keys == old(keys)
    {
      hide Sys.Ok, Std, Masks, MasksOf, Answered, Lines, ForksOk, ContentsOk, StoreAfter, Begun, AskMerges;
      FiveBefore(before, a.Code());
      WantMore(flags, before, a.Code());
      ghost var z := Y();
      SysSizes(z, n, p, 0);
      if a.Code() in flags {
        LinesAre(Y(), n, p, 0);
        BytesHere(p, 0, a.At());
        var safe := Iasync(a, p);
        AnsweredKeeps(a, AskMerges(a, z, old(St()), n), z, Y(), n, p, mouse);
        BegunMore(flags, l, a, y, z, Y(), n, p);
      } else {
        BegunSame(flags, l, a, y, z, n, p);
      }
    }

    // The events wanted are asked for, in this order; no key and no message is there by now.
    method IssueAll(flags: set<Mask>, satb: bool, sat1: bool, sat2: bool, ticks: int, q: nat, ghost p: nat)
      requires Wanting(p, flags, {}) && ticks >= 0 && q < n && q < |qindex| && (MESAG in flags ==> qindex[q] == 0)
      requires p < |keys| && (KEYBD in flags ==> keys[p] == [])
      modifies this`evb, this`eul, this`evlist, this`chain, this`evflg, this`nrl, this`drl, this`waitin, this`keys,
        this`qindex, this`tas, this`owner, this`cmptick, this`numtick, this`queues, this`mail, this`inbox
      ensures Wanting(p, flags, AllEvents())
      ensures Begun(flags, Asks(satb, sat1, sat2, ticks, q), old(Y()), Y(), n, p)
    {
      hide Wanting, Begun, Asks, AllEvents;
      ghost var y, l := Y(), FourAsks(satb, sat1, sat2);
      AsksAre(satb, sat1, sat2, ticks, q);
      IssueInput(flags, satb, sat1, sat2, p);
      IssueIf(flags, AskMesag(q, MSG), p, {KEYBD, BUTTON, M1, M2}, l, y);
      IssueIf(flags, AskTimer(ticks), p, {KEYBD, BUTTON, M1, M2} + {MESAG}, l + [AskMesag(q, MSG)], y);
    }

    // Those for the keyboard, the button and the mouse.
    method IssueInput(flags: set<Mask>, satb: bool, sat1: bool, sat2: bool, ghost p: nat)
      requires Wanting(p, flags, {}) && p < |keys| && (KEYBD in flags ==> keys[p] == [])
      modifies this`evb, this`eul, this`evlist, this`chain, this`evflg, this`nrl, this`drl, this`waitin, this`keys,
        this`qindex, this`tas, this`owner, this`cmptick, this`numtick, this`queues, this`mail, this`inbox
      ensures Wanting(p, flags, {KEYBD, BUTTON, M1, M2}) && qindex == old(qindex)
      ensures Begun(flags, FourAsks(satb, sat1, sat2), old(Y()), Y(), n, p)
    {
      hide Wanting, Begun, FourAsks;
      ghost var y := Y();
      FourAre(satb, sat1, sat2);
      IssueTwo(flags, satb, p);
      IssueIf(flags, AskMouse(M1, sat1), p, {KEYBD, BUTTON}, [AskKey, AskButton(satb)], y);
      IssueIf(flags, AskMouse(M2, sat2), p, {KEYBD, BUTTON, M1}, [AskKey, AskButton(satb), AskMouse(M1, sat1)], y);
    }

    method IssueTwo(flags: set<Mask>, satb: bool, ghost p: nat)
      requires Wanting(p, flags, {}) && p < |keys| && (KEYBD in flags ==> keys[p] == [])
      modifies this`evb, this`eul, this`evlist, this`chain, this`evflg, this`nrl, this`drl, this`waitin, this`keys,
        this`qindex, this`tas, this`owner, this`cmptick, this`numtick, this`queues, this`mail, this`inbox
      ensures Wanting(p, flags, {KEYBD, BUTTON}) && qindex == old(qindex)
      ensures Begun(flags, [AskKey, AskButton(satb)], old(Y()), Y(), n, p)
    {
      hide Wanting, Begun;
      ghost var y := Y();
      TwoAre(satb);
      BeginAsking(flags, p);
      IssueIf(flags, AskKey, p, {}, [], y);
      IssueIf(flags, AskButton(satb), p, {KEYBD}, [AskKey], y);
    }

    lemma BeginAsking(flags: set<Mask>, p: nat)
      requires Wanting(p, flags, {})
      ensures Begun(flags, [], Y(), Y(), n, p)
    {
      SysSizes(Y(), n, p, 0);
      NoneBegun(flags, Y(), n, p);
    }

    // ev_multi() when nothing has happened yet: the events are asked for, and waited for.  asked is
    // the state in between.
    method EvMultiWait(flags: set<Mask>, satb: bool, sat1: bool, sat2: bool, ticks: int, polls: seq<seq<Fork>>,
                       ghost p: nat)
      returns (blocked: bool, switched: bool, ghost asked: Sys, ghost t: seq<Stage>)
      requires Valid(-1, 0) && Y().Runs(p) && flags <= AllEvents() && ticks >= 0
      requires p < |qindex| && p < |keys| && (MESAG in flags ==> qindex[p] == 0) && (KEYBD in flags ==> keys[p] == [])
      requires forall i, j :: 0 <= i < |polls| && 0 <= j < |polls[i]| ==> ForkOk(polls[i][j], n)
      modifies this
      ensures Begun(flags, Asks(satb, sat1, sat2, ticks, p), old(Y()), asked, n, p)
      ensures blocked <==> Satisfied(flags, satb, sat1, sat2) == {}
      ensures blocked ==> Valid(-1, 0) && p < |task| && task[p] == Blocked(flags) && forks == []
      ensures blocked ==> WentToSleep(asked, p, flags, old(forks), old(mouse), t, Y(), mouse, switched, polls, n)
      ensures !blocked ==> Valid(p, 0) && Came(Y(), p, flags) && Y().s == asked.s
      ensures p < |asked.s.evflg| && asked.s.evflg[p] == Satisfied(flags, satb, sat1, sat2)
    {
      hide Sys.Ok, Std, Masks, MasksOf, Came, AllEvents, ForksOk, ContentsOk, WentToSleep, Begun, Satisfied;
      Busy1(Y(), n, p);
      SysSizes(Y(), n, p, 0);
      NoFlag(Y(), n, p);
      SixEvents(flags);
      ghost var y := Y();
      IssueAll(flags, satb, sat1, sat2, ticks, rlr[0], p);
      asked := Y();
      SatisfiedWanted(flags, satb, sat1, sat2);
      BegunFlags(flags, satb, sat1, sat2, ticks, y, asked, n, p);
      blocked, switched, t := Mwait(flags, polls, p);
      CameIs(Y(), p, flags);
    }

    // The rest of ev_multi(), at once or when the process is run again: what did not happen is
    // cancelled, and what did is collected.
    method EvMultiCollect(flags: set<Mask>, ghost p: nat) returns (which: set<Mask>, key: int, clicks: int)
      requires Valid(p, 0) && Came(Y(), p, flags) && flags <= AllEvents()
      modifies this`evb, this`eul, this`evlist, this`chain, this`evflg, this`evwait
      ensures Valid(-1, 0) && Rested(Y(), p)
      ensures which != {} && which <= flags && p < |old(evflg)| && which == old(evflg)[p]
      ensures KEYBD in which ==> Returned(old(evb), old(evlist), p, KEYBD, key)
      ensures BUTTON in which ==> Returned(old(evb), old(evlist), p, BUTTON, clicks)
    {
      hide Sys.Ok, Std, Masks, MasksOf, Rested, HoldsJust, Came, Sys.Runs, ForksOk, ContentsOk, Returned, SameBlocks, Fewer;
      which := CancelRest(flags, p);
      ghost var held, l := which, evlist;
      SysSizes(Y(), n, p, 0);
      FewerSelf(evlist, p);
      held, key := CollectIf(which, KEYBD, p, held, l);
      held, clicks := CollectIf(which, BUTTON, p, held, l);
      CollectOthers(which, p, held, l);
      if KEYBD in which {
        ReturnedBefore(old(evb), old(evlist), evb, l, p, KEYBD, key);
      }
      if BUTTON in which {
        ReturnedBefore(old(evb), old(evlist), evb, l, p, BUTTON, clicks);
      }
    }

    // The events of ev_multi() that did not happen are cancelled.
    method CancelRest(flags: set<Mask>, ghost p: nat) returns (which: set<Mask>)
      requires Valid(p, 0) && Came(Y(), p, flags)
      modifies this`evb, this`eul, this`evlist, this`chain, this`evwait
      ensures Valid(p, 0) && HoldsJust(Y(), p, which)
      ensures which != {} && which <= flags && p < |evflg| && which == evflg[p]
      ensures Fewer(old(evlist), evlist, p) && SameBlocks(old(evb), evb)
    {
      hide Sys.Ok, Std, Masks, MasksOf, HoldsJust, ForksOk, ContentsOk, GivenUp, GoneOf;
      SysSizes(Y(), n, p, 0);
      ghost var y := Y();
      which := evflg[rlr[0]];
      var m1 := Acancel(flags, p);
      SysSizes(Y(), n, p, 0);
      JustThose(y, Y(), n, p, flags, m1);
      GivenUpFewer(y, Y(), p, GoneOf(y.s, p, flags));
      which := which + m1;
    }

    // The events that have no value.
    method CollectOthers(which: set<Mask>, ghost p: nat, ghost held: set<Mask>, ghost l: seq<seq<nat>>)
      requires Valid(p, 0) && HoldsJust(Y(), p, held) && which <= AllEvents() && held == which - {KEYBD} - {BUTTON} && Fewer(l, evlist, p)
      modifies this`eul, this`evlist, this`chain, this`evflg, this`evwait
      ensures Valid(-1, 0) && Rested(Y(), p)
    {
      hide Sys.Ok, Std, Masks, MasksOf, Rested, HoldsJust, Sys.Runs, ForksOk, ContentsOk, Returned, Fewer;
      ghost var left;
      var r;
      left, r := CollectIf(which, M1, p, held, l);
      left, r := CollectIf(which, M2, p, left, l);
      left, r := CollectIf(which, MESAG, p, left, l);
      left, r := CollectIf(which, TIMER, p, left, l);
      AtRest(Y(), n, p, left);
    }

    // One apret() of ev_multi().
    method CollectIf(which: set<Mask>, m: Mask, ghost p: nat, ghost held: set<Mask>, ghost l: seq<seq<nat>>)
      returns (ghost left: set<Mask>, r: int)
      requires Valid(p, 0) && HoldsJust(Y(), p, held) && (m in which <==> m in held) && Fewer(l, evlist, p)
      modifies this`eul, this`evlist, this`chain, this`evflg, this`evwait
      ensures Valid(p, 0) && HoldsJust(Y(), p, left) && left == held - {m} && Fewer(l, evlist, p)
      ensures m in which ==> Returned(evb, l, p, m, r)
    {
      hide Sys.Ok, Std, Masks, MasksOf, ForksOk, ContentsOk, Returned;
      left, r := held - {m}, 0;
      if m in which {
        ghost var y := Y();
        r := Apret(m, p);
        HoldsLess(y, Y(), p, m, r, held);
        ReturnedBefore(evb, l, evb, y.s.evlist, p, m, r);
      }
    }

    // ev_multi() when the process is run again after EvMultiWait() put it to sleep.
    method EvMultiEnd(flags: set<Mask>, ghost p: nat) returns (which: set<Mask>, key: int, clicks: int)
      requires Valid(-1, 0) && rlr != [] && rlr[0] == p && p < |task| && task[p] == Blocked(flags) && flags <= AllEvents()
      modifies this`evb, this`eul, this`evlist, this`chain, this`evflg, this`evwait, this`task
      ensures Valid(-1, 0) && Rested(Y(), p)
      ensures p < |old(evflg)| && which != {} && which <= flags && which == old(evflg)[p]
      ensures KEYBD in which ==> Returned(old(evb), old(evlist), p, KEYBD, key)
      ensures BUTTON in which ==> Returned(old(evb), old(evlist), p, BUTTON, clicks)
    {
      hide Sys.Ok, Std, Masks, MasksOf, Rested, Came, ForksOk, ContentsOk, Returned;
      ghost var y := Y();
      BackOk(y, n, p);
      task := task[rlr[0] := Free];
      CameIs(Y(), p, flags);
      which, key, clicks := EvMultiCollect(flags, p);
    }

    // ev_multi(): what has happened already is returned at once, else the process waits.  typed is
    // what chkkbd() finds, quick what the checks of the button and the mouse say; mid is the state
    // after forker().
    method EvMulti(flags: set<Mask>, typed: seq<Fork>, quick: set<Mask>, satb: bool, sat1: bool, sat2: bool,
                   tmcount: int, ticktime: int, polls: seq<seq<Fork>>, ghost p: nat)
      returns (safe: bool, done: bool, what: set<Mask>, key: int, clicks: int, switched: bool, ghost mid: Sys, ghost asked: Sys, ghost t: seq<Stage>)
      requires Valid(-1, 0) && Y().Runs(p) && flags <= AllEvents() && quick <= flags * {BUTTON, M1, M2}
      requires tmcount >= 0 && ticktime > 0
      requires forall i :: 0 <= i < |typed| ==> ForkOk(typed[i], n)
      requires forall i, j :: 0 <= i < |polls| && 0 <= j < |polls[i]| ==> ForkOk(polls[i][j], n)
      modifies this
      ensures Valid(-1, 0) && (std ==> safe)
      ensures AllCarried(if typed != [] && |old(forks)| < 32 then old(forks) + [typed[0]] else old(forks), old(Y()), mid, old(mouse), n)
      ensures Lines(mid.s, mid.qindex) && p < |mid.qindex| == |mid.keys|
      ensures safe <==> MESAG in flags ==> RecvSafe(AskMesag(p, MSG), mid, old(St()), n)
      ensures safe && Already(flags, quick, tmcount, mid, p) != {} ==>
        done && what == Already(flags, quick, tmcount, mid, p) && TookThem(flags, mid, old(St()), Y(), St(), n, p, key)
      ensures safe ==> (Already(flags, quick, tmcount, mid, p) == {} <==>
        quick == {} && (KEYBD in flags ==> mid.keys[p] == []) && (TIMER in flags ==> tmcount != 0) && (MESAG in flags ==> mid.qindex[p] == 0))
      ensures safe && Already(flags, quick, tmcount, mid, p) != {} ==>
        forall m :: m in what <==>
          (m in quick || (m == KEYBD && KEYBD in flags && mid.keys[p] != []) ||
           (m == TIMER && TIMER in flags && tmcount == 0) || (m == MESAG && MESAG in flags && mid.qindex[p] > 0))
      ensures safe && KEYBD in flags && mid.keys[p] != [] ==> key == mid.keys[p][0] && keys == mid.keys[p := mid.keys[p][1..]]
      ensures safe && Already(flags, quick, tmcount, mid, p) == {} ==>
        (Keeps(mid, asked) && asked == mid.(s := asked.s) && InRange(asked.s) && |asked.s.chain| == 3 + 5 * n &&
         Begun(flags, Asks(satb, sat1, sat2, tmcount / ticktime, p), mid, asked, n, p))
      ensures safe && Already(flags, quick, tmcount, mid, p) == {} && TIMER in flags ==>
        exists e: nat :: HasBlock(asked, e, p, TIMER) && DueIn(asked, e, if tmcount < ticktime then 1 else tmcount / ticktime)
      ensures safe && Already(flags, quick, tmcount, mid, p) == {} ==>
        (done <==> ((BUTTON in flags && satb) || (M1 in flags && sat1) || (M2 in flags && sat2)))
      ensures safe && Already(flags, quick, tmcount, mid, p) == {} && done ==>
        (Rested(Y(), p) && (BUTTON in what ==> clicks == 1) &&
         forall m :: m in what <==> m in flags && ((m == BUTTON && satb) || (m == M1 && sat1) || (m == M2 && sat2)))
      ensures done ==> Y().Runs(p)
      ensures safe && !done ==> p < |task| && task[p] == Blocked(flags) && forks == []
      ensures safe && !done ==>
        WentToSleep(asked, p, flags, [], MouseAfter(Typed(old(forks), typed), old(mouse)), t, Y(), mouse, switched, polls, n)
    {
      hide Sys.Ok, Std, Came, AllEvents, Rested, TookThem, AllCarried, WentToSleep, MouseAfter, LineOf, Lines, ForksOk, ContentsOk,
        RecvSafe, Begun, Asks, Keeps, Already, DueIn, HasBlock, Satisfied;
      ClearRing(typed);
      mid, switched, clicks, asked, t := Y(), false, 0, Y(), [];
      LinesAre(mid, n, -1, 0);
      SysSizes(mid, n, -1, 0);
      NothingThere(flags, quick, tmcount, mid, n, p);
      safe, what, key := QuickChecks(flags, quick, tmcount, polls, p);
      TookKey(flags, mid, old(St()), Y(), St(), n, p, key);
      done := safe && what != {};
      if safe && !done {
        what, key, clicks, done, switched, asked, t := EvMultiSleep(flags, satb, sat1, sat2, tmcount / ticktime, polls, p);
        BegunFacts(flags, satb, sat1, sat2, tmcount / ticktime, mid, asked, n, p);
        SatisfiedIs(flags, satb, sat1, sat2);
      }
    }

    // chkkbd() and forker() at the start of ev_multi().
    method ClearRing(typed: seq<Fork>)
      requires Valid(-1, 0) && forall i :: 0 <= i < |typed| ==> ForkOk(typed[i], n)
      modifies this`evb, this`chain, this`evflg, this`nrl, this`drl, this`waitin, this`keys, this`cmptick, this`numtick,
        this`forks, this`mouse
      ensures Valid(-1, 0) && forks == [] && AllCarried(Typed(old(forks), typed), old(Y()), Y(), old(mouse), n)
      ensures mouse == MouseAfter(Typed(old(forks), typed), old(mouse))
    {
      hide Sys.Ok, Std, AllCarried, MouseAfter, ForksOk, ContentsOk;
      if typed != [] {
        var r := Forkq(typed[0], -1, 0);
      }
      Forker();
    }

    // The wait of ev_multi(), and what it returns when it need not wait after all.
    method EvMultiSleep(flags: set<Mask>, satb: bool, sat1: bool, sat2: bool, ticks: int, polls: seq<seq<Fork>>, ghost p: nat)
      returns (what: set<Mask>, key: int, clicks: int, done: bool, switched: bool, ghost asked: Sys, ghost t: seq<Stage>)
      requires Valid(-1, 0) && Y().Runs(p) && flags <= AllEvents() && ticks >= 0
      requires p < |qindex| && p < |keys| && (MESAG in flags ==> qindex[p] == 0) && (KEYBD in flags ==> keys[p] == [])
      requires forall i, j :: 0 <= i < |polls| && 0 <= j < |polls[i]| ==> ForkOk(polls[i][j], n)
      modifies this
      ensures Valid(-1, 0) && Begun(flags, Asks(satb, sat1, sat2, ticks, p), old(Y()), asked, n, p)
      ensures done <==> Satisfied(flags, satb, sat1, sat2) != {}
      ensures done ==> what == Satisfied(flags, satb, sat1, sat2) && Rested(Y(), p) && Y().Runs(p) && (BUTTON in what ==> clicks == 1)
      ensures !done ==> p < |task| && task[p] == Blocked(flags) && forks == []
      ensures !done ==> WentToSleep(asked, p, flags, old(forks), old(mouse), t, Y(), mouse, switched, polls, n)
    {
      hide Sys.Ok, Std, Came, AllEvents, Rested, WentToSleep, ForksOk, ContentsOk, Begun, Satisfied, Returned;
      var blocked;
      what, key, clicks := {}, 0, 0;
      blocked, switched, asked, t := EvMultiWait(flags, satb, sat1, sat2, ticks, polls, p);
      done := !blocked;
      if !blocked {
        ghost var v := Y();
        what, key, clicks := EvMultiCollect(flags, p);
        RestedRuns(Y(), p);
        if BUTTON in what {
          OneClick(flags, satb, sat1, sat2, ticks, old(Y()), asked, v, n, p, clicks);
        }
      }
    }

    // The checks at the start of ev_multi(): a queued key or message is taken.
    method QuickChecks(flags: set<Mask>, quick: set<Mask>, tmcount: int, polls: seq<seq<Fork>>, ghost p: nat)
      returns (safe: bool, what: set<Mask>, key: int)
      requires Valid(-1, 0) && Y().Runs(p) && Lines(Y().s, qindex) && p < |qindex| == |keys| == n
      requires forall i, j :: 0 <= i < |polls| && 0 <= j < |polls[i]| ==> ForkOk(polls[i][j], n)
      modifies this
      ensures Valid(-1, 0) && (std ==> safe)
      ensures safe <==> MESAG in flags ==> RecvSafe(AskMesag(p, MSG), old(Y()), old(St()), n)
      ensures safe ==> Y().Runs(p) && what == Already(flags, quick, tmcount, old(Y()), p)
      ensures safe ==> TookThem(flags, old(Y()), old(St()), Y(), St(), n, p, key)
      ensures Already(flags, quick, tmcount, old(Y()), p) == {} ==>
        Y() == old(Y()) && St() == old(St()) && mouse == old(mouse) && forks == old(forks)
    {
      hide Sys.Ok, Std, Rested, Counts, WentToSleep, Answered, ForksOk, ContentsOk, Passage, PassSafe, Handed;
      ghost var y := Y();
      BytesHere(-1, 0, p);
      what, key, safe := quick, 0, true;
      var q := rlr[0];
      if KEYBD in flags && keys[q] != [] {
        NoKeyWait(Y(), n, -1, 0, q);
        KeysOk(Y(), n, -1, 0, q, keys[q][1..]);
        key := keys[q][0];
        keys := keys[q := keys[q][1..]];
        what := what + {KEYBD};
      }
      if TIMER in flags && tmcount == 0 {
        what := what + {TIMER};
      }
      if MESAG in flags && qindex[q] > 0 {
        var done, ret, switched;
        ghost var asked, t;
        safe, done, ret, switched, asked, t := ApRdwr(AskMesag(q, MSG), polls, p);
        what := what + {MESAG};
      }
    }

    // pstart(): a new process goes to the head of the drl.
    method Pstart() returns (px: nat)
      requires Valid(-1, 0) && curpid < n
      modifies this`curpid, this`waitin, this`drl
      ensures Valid(-1, 0) && px == old(curpid) && curpid == px + 1 && drl == [px] + old(drl)
    {
      hide Sys.Ok, Std, ForksOk, ContentsOk;
      ghost var y := Y();
      StartOk(y, n);
      px := curpid;
      curpid := curpid + 1;
      waitin := waitin[px := false];
      drl := [px] + drl;
    }

    // dsptch(): the running process lets the others run.
    method Dsptch(polls: seq<seq<Fork>>, ghost p: nat) returns (switched: bool, ghost t: seq<Stage>)
      requires Valid(-1, 0) && Y().Runs(p)
      requires forall i, j :: 0 <= i < |polls| && 0 <= j < |polls[i]| ==> ForkOk(polls[i][j], n)
      modifies this`evb, this`chain, this`evflg, this`rlr, this`nrl, this`drl, this`waitin, this`keys, this`cmptick,
        this`numtick, this`forks, this`mouse
      ensures Valid(-1, 0) && forks == [] && (switched <==> rlr != []) && p < |old(waitin)|
      ensures Finished(t, polls, n) && t[|t| - 1] == Stage(Y(), [], mouse, t[|t| - 1].at) && (!switched ==> t[|t| - 1].at == |polls|)
      ensures t[0] == Stage(old(Y()).(pr := old(Y()).pr.(rlr := old(rlr)[1..] + [p], waitin := old(waitin)[p := false])),
                            old(forks), old(mouse), 0)
    {
      hide Sys.Ok, Std, Leaving, ForksOk, ContentsOk, Left1, Finished;
      YieldOk(Y(), n, p);
      switched, t := Disp(polls);
    }

    // A process back in mwait() goes through the rest of the call it made.
    method Finish(ghost p: nat)
      requires Valid(-1, 0) && rlr != [] && rlr[0] == p && p < |task| && task[p].Blocked?
      modifies this`evb, this`eul, this`evlist, this`chain, this`evflg, this`evwait, this`task
      ensures Valid(-1, 0)
      ensures |old(task[p].m)| == 1 || old(task[p].m) <= AllEvents() ==> Rested(Y(), p)
    {
      hide Sys.Ok, Std, Rested, Returned, AllEvents, ForksOk, ContentsOk;
      BackOk(Y(), n, p);
      var m := task[rlr[0]].m;
      var code :| code in m;
      OnlyOne(m, code);
      if m == {code} {
        var ret := EvBlockEnd(code, p);
      } else if m <= AllEvents() {
        var which, key, clicks := EvMultiEnd(m, p);
      }
    }

    // The running process does something.
    method Act(a: Action, polls: seq<seq<Fork>>, ghost p: nat) returns (safe: bool)
      requires Valid(-1, 0) && Y().Runs(p) && (std && a.Wait? ==> AllRegular(a.ask))
      requires a.Multi? ==> forall i :: 0 <= i < |a.typed| ==> ForkOk(a.typed[i], n)
      requires forall i, j :: 0 <= i < |polls| && 0 <= j < |polls[i]| ==> ForkOk(polls[i][j], n)
      modifies this
      ensures Valid(-1, 0) && (std ==> safe)
      ensures safe ==> Acted(a, Stage(old(Y()), old(forks), old(mouse), 0), Stage(Y(), forks, mouse, 0), polls, n, p)
    {
      hide Sys.Ok, Std, ForksOk, ContentsOk, Released, Sleeping, Yielded;
      safe := true;
      ghost var y := Stage(Y(), forks, mouse, 0);
      SysSizes(Y(), n, -1, 0);
      LinesIn(Y(), n, -1, 0, p);
      match a
      case Wait(ask) =>
        safe := ActWait(ask, polls, p);
      case Multi(flags, typed, quick, satb, sat1, sat2, tmcount, ticktime) =>
        safe := ActMulti(a, polls, p);
      case Empty =>
        if qindex[rlr[0]] != 0 {
          safe := ActWait(AskMesag(rlr[0], qindex[rlr[0]]), polls, p);
        }
      case Release =>
        ActRelease(polls, p);
      case Launch =>
        if curpid < n {
          StartOk(Y(), n);
          var px := Pstart();
        }
      case Yield =>
        var switched, t := Dsptch(polls, p);
        YieldedIs(y, t, Stage(Y(), forks, mouse, 0), polls, n, p);
    }

    // A call of ev_block(), or ap_rdwr() for a message.
    method ActWait(ask: Ask, polls: seq<seq<Fork>>, ghost p: nat) returns (safe: bool)
      requires Valid(-1, 0) && Y().Runs(p) && (std && AskOk(ask) ==> Regular(ask))
      requires forall i, j :: 0 <= i < |polls| && 0 <= j < |polls[i]| ==> ForkOk(polls[i][j], n)
      modifies this
      ensures Valid(-1, 0) && (std ==> safe)
      ensures safe ==> Y().Runs(p) || Sleeping({ask.Code()}, Stage(old(Y()), old(forks), old(mouse), 0), Stage(Y(), forks, mouse, 0), polls, n, p)
    {
      hide Sys.Ok, Std, Rested, Given, WentToSleep, Answered, Lines, ForksOk, ContentsOk, RecvSafe, PipeStep, ReadGot, AskedFor, MailWaits, Keeps,
        AskSafe, AskMerges, StoreAfter, HasBlock, DueIn, Regular;
      safe := true;
      if AskOk(ask) {
        var done, ret, switched;
        ghost var asked, t;
        if ask.ForPipe() {
          safe, done, ret, switched, asked, t := ApRdwr(ask, polls, p);
        } else {
          safe, done, ret, switched, asked, t := EvBlock(ask, polls, p);
          RestedRuns(Y(), p);
        }
      }
    }

    // A call of ev_multi().
    method ActMulti(a: Action, polls: seq<seq<Fork>>, ghost p: nat) returns (safe: bool)
      requires Valid(-1, 0) && Y().Runs(p) && a.Multi? && forall i :: 0 <= i < |a.typed| ==> ForkOk(a.typed[i], n)
      requires forall i, j :: 0 <= i < |polls| && 0 <= j < |polls[i]| ==> ForkOk(polls[i][j], n)
      modifies this
      ensures Valid(-1, 0) && (std ==> safe)
      ensures safe ==> Y().Runs(p) || exists at: int :: Sleeping(a.flags, Stage(old(Y()), [], at, 0), Stage(Y(), forks, mouse, 0), polls, n, p)
    {
      hide Sys.Ok, Std, Rested, AllCarried, WentToSleep, TookThem, Lines, ForksOk, ContentsOk, RecvSafe, Begun, Asks, Keeps, HasBlock, DueIn,
        Already, AllEvents, Satisfied;
      safe := true;
      if a.flags <= AllEvents() && a.quick <= a.flags * {BUTTON, M1, M2} && a.tmcount >= 0 && a.ticktime > 0 {
        var done, what, key, clicks, switched;
        ghost var mid, asked, t;
        ghost var f := Typed(forks, a.typed);
        ghost var at := MouseAfter(f, mouse);
        safe, done, what, key, clicks, switched, mid, asked, t :=
          EvMulti(a.flags, a.typed, a.quick, a.satb, a.sat1, a.sat2, a.tmcount, a.ticktime, polls, p);
        if safe && !done {
          assert Sleeping(a.flags, Stage(old(Y()), [], at, 0), Stage(Y(), forks, mouse, 0), polls, n, p);
        }
      }
    }

    // unsync(), and a call of the dispatcher when the semaphore was handed over.
    method ActRelease(polls: seq<seq<Fork>>, ghost p: nat)
      requires Valid(-1, 0) && Y().Runs(p)
      requires forall i, j :: 0 <= i < |polls| && 0 <= j < |polls[i]| ==> ForkOk(polls[i][j], n)
      modifies this
      ensures Valid(-1, 0)
      ensures Released(Stage(old(Y()), old(forks), old(mouse), 0), Stage(Y(), forks, mouse, 0), polls, n, p)
    {
      hide Sys.Ok, Std, ForksOk, ContentsOk, Yielded, HandedTo, Finished, Released;
      ghost var y := Stage(Y(), forks, mouse, 0);
      var gave := Unsync(p);
      ghost var mid := Stage(Y(), forks, mouse, 0);
      if gave {
        var switched, t := Dsptch(polls, p);
        YieldedIs(mid, t, Stage(Y(), forks, mouse, 0), polls, n, p);
        ReleasedGave(y, mid, Stage(Y(), forks, mouse, 0), polls, n, p);
      } else {
        ReleasedKept(y, mid, polls, n, p);
      }
    }

    // Any run: whatever the processes do and whatever the interrupts bring, the system's invariant
    // holds after every step; and as long as all messages have 16 bytes, the run never comes to a
    // copy beyond a message pipe, where it ends.  h are the states between the steps.
    method Run(script: seq<Turn>) returns (safe: bool, ghost h: seq<Stage>)
      requires Valid(-1, 0) && forall k :: 0 <= k < |script| ==> TurnOk(script[k], n)
      requires std ==> forall k :: 0 <= k < |script| && script[k].act.Wait? ==> AllRegular(script[k].act.ask)
      modifies this
      ensures Valid(-1, 0) && (std ==> safe)
      ensures 0 < |h| <= |script| + 1 && h[0] == Stage(old(Y()), old(forks), old(mouse), 0) && (safe ==> |h| == |script| + 1)
      ensures forall k :: 0 <= k < |h| ==> h[k].y.Ok(n, -1, 0)
      ensures forall k :: 0 <= k < |h| - 1 ==> Stepped(h[k], script[k], h[k + 1], n)
    {
      hide Sys.Ok, Std, ForksOk, ContentsOk, Stepped;
      safe := true;
      h := [Stage(Y(), forks, mouse, 0)];
      var k := 0;
      while k < |script| && safe
        invariant Valid(-1, 0) && 0 <= k <= |script| && (std ==> safe)
        invariant 0 < |h| <= k + 1 && (safe ==> |h| == k + 1 && h[k] == Stage(Y(), forks, mouse, 0))
        invariant h[0] == Stage(old(Y()), old(forks), old(mouse), 0)
        invariant forall k :: 0 <= k < |h| ==> h[k].y.Ok(n, -1, 0)
        invariant forall k :: 0 <= k < |h| - 1 ==> Stepped(h[k], script[k], h[k + 1], n)
      {
        safe := Step1Of(script[k]);
        if safe {
          h := h + [Stage(Y(), forks, mouse, 0)];
        }
        k := k + 1;
      }
    }

    // One step: interrupts, and what the process does that is the running one; when none is ready the
    // dispatcher goes on looking for one.
    method Step1Of(turn: Turn) returns (safe: bool)
      requires Valid(-1, 0) && TurnOk(turn, n) && (std && turn.act.Wait? ==> AllRegular(turn.act.ask))
      modifies this
      ensures Valid(-1, 0) && (std ==> safe)
      ensures safe ==> Stepped(Stage(old(Y()), old(forks), old(mouse), 0), turn, Stage(Y(), forks, mouse, 0), n)
    {
      hide Sys.Ok, Std, ForksOk, ContentsOk, Acted, Rested, Finished, AllEvents;
      safe := true;
      TakeIn(turn.before);
      SysSizes(Y(), n, -1, 0);
      if rlr == [] {
        var switched, t := DispLoop(turn.polls);
      } else {
        ghost var p := rlr[0];
        if task[rlr[0]].Blocked? {
          Finish(p);
        } else {
          safe := Act(turn.act, turn.polls, p);
        }
      }
    }
  }

  lemma OnlyOne(m: set<Mask>, code: Mask)
    requires code in m
    ensures |m| == 1 <==> m == {code}
  {
    if |m| == 1 {
      assert |m - {code}| == 0;
    }
  }

  // The process called the dispatcher, and went to the end of the ready list.
  ghost predicate Yielded(a: Stage, b: Stage, polls: seq<seq<Fork>>, n: nat, p: nat) {
    && a.y.pr.rlr != [] && p == a.y.pr.rlr[0] < |a.y.pr.waitin| && b.forks == []
    && exists t: seq<Stage> :: Finished(t, polls, n) &&
         t[0] == Stage(a.y.(pr := a.y.pr.(rlr := a.y.pr.rlr[1..] + [p], waitin := a.y.pr.waitin[p := false])), a.forks, a.mouse, 0) &&
         t[|t| - 1].y == b.y && t[|t| - 1].mouse == b.mouse
  }

  lemma YieldedIs(a: Stage, t: seq<Stage>, b: Stage, polls: seq<seq<Fork>>, n: nat, p: nat)
    requires Finished(t, polls, n) && a.y.pr.rlr != [] && p == a.y.pr.rlr[0] < |a.y.pr.waitin| && b.forks == []
    requires t[0] == Stage(a.y.(pr := a.y.pr.(rlr := a.y.pr.rlr[1..] + [p], waitin := a.y.pr.waitin[p := false])), a.forks, a.mouse, 0)
    requires t[|t| - 1].y == b.y && t[|t| - 1].mouse == b.mouse
    ensures Yielded(a, b, polls, n, p)
  {
    hide Finished;
  }

  // The process went to sleep for some events it asked for, and the dispatcher was called.
  ghost predicate Sleeping(m: set<Mask>, a: Stage, b: Stage, polls: seq<seq<Fork>>, n: nat, p: nat) {
    exists asked: Sys, t: seq<Stage>, switched: bool ::
      WentToSleep(asked, p, m, a.forks, a.mouse, t, b.y, b.mouse, switched, polls, n)
  }

  // The semaphore was handed over and the dispatcher called, or the process goes on.
  ghost predicate Released(a: Stage, b: Stage, polls: seq<seq<Fork>>, n: nat, p: nat) {
    if a.y.tas == 1 && |a.y.s.chain| == 3 + 5 * n && a.y.s.chain[Sy(n)] != []
    then exists mid: Stage :: mid.y.tas == 1 && HandedTo(a.y.s.evb, a.y.s.chain[Sy(n)], mid.y.owner, mid.y.s.evflg) &&
           Yielded(mid, b, polls, n, p)
    else b.y.Runs(p) && b.y.tas == if a.y.tas <= 0 then 0 else a.y.tas - 1
  }

  lemma ReleasedGave(a: Stage, mid: Stage, b: Stage, polls: seq<seq<Fork>>, n: nat, p: nat)
    requires a.y.tas == 1 && |a.y.s.chain| == 3 + 5 * n && a.y.s.chain[Sy(n)] != [] && mid.y.tas == 1
    requires HandedTo(a.y.s.evb, a.y.s.chain[Sy(n)], mid.y.owner, mid.y.s.evflg) && Yielded(mid, b, polls, n, p)
    ensures Released(a, b, polls, n, p)
  {
    hide HandedTo, Yielded;
  }

  lemma ReleasedKept(a: Stage, b: Stage, polls: seq<seq<Fork>>, n: nat, p: nat)
    requires !(a.y.tas == 1 && |a.y.s.chain| == 3 + 5 * n && a.y.s.chain[Sy(n)] != [])
    requires b.y.Runs(p) && b.y.tas == if a.y.tas <= 0 then 0 else a.y.tas - 1
    ensures Released(a, b, polls, n, p)
  {
  }

  // What the running process did.
  ghost predicate Acted(act: Action, a: Stage, b: Stage, polls: seq<seq<Fork>>, n: nat, p: nat) {
    match act
    case Wait(ask) => b.y.Runs(p) || Sleeping({ask.Code()}, a, b, polls, n, p)
    case Multi(flags, _, _, _, _, _, _, _) => b.y.Runs(p) || exists at: int :: Sleeping(flags, Stage(a.y, [], at, 0), b, polls, n, p)
    case Empty => b.y.Runs(p) || Sleeping({MESAG}, a, b, polls, n, p)
    case Release => Released(a, b, polls, n, p)
    case Launch =>
      if a.y.curpid < n
      then b.y.curpid == a.y.curpid + 1 && b.y.pr.drl == [a.y.curpid] + a.y.pr.drl && b.y.pr.rlr == a.y.pr.rlr && b.y.s == a.y.s
      else b.y == a.y
    case Yield => Yielded(a, b, polls, n, p)
  }

  // A step of a run.  First the ring takes in what interrupts bring, as far as it has room.
  ghost predicate Stepped(a: Stage, turn: Turn, b: Stage, n: nat) {
    var l := a.forks + turn.before;
    var f := if |l| <= NFORKS then l else l[..NFORKS];
    if a.y.pr.rlr == [] then
      exists t: seq<Stage> :: Finished(t, turn.polls, n) && t[0] == Stage(a.y, f, a.mouse, 0) && t[|t| - 1].y == b.y && b.forks == []
    else
      var p := a.y.pr.rlr[0];
      p < |a.y.task| &&
      if a.y.task[p].Blocked?
      then |a.y.task[p].m| == 1 || a.y.task[p].m <= AllEvents() ==> Rested(b.y, p)
      else Acted(turn.act, Stage(a.y, f, a.mouse, 0), b, turn.polls, n, p)
  }

  // Messages of 16 bytes that say so.
  predicate AllRegular(a: Ask) {
    (a.AskMesag? ==> a.cnt == MSG) && (a.AskSend? ==> a.cnt == MSG && PlainMessage(a.data))
  }

  // aqueue() does no harm.
  ghost predicate AskSafe(a: Ask, y: Sys, st: Store, n: nat) {
    a.ForPipe() ==> Harmless(y.s, y.qindex, st, n, a.At(), a.AskSend?, a.cnt, a.Data())
  }

  lemma NoPipe(a: Ask, y: Sys, st: Store, n: nat)
    requires !a.ForPipe()
    ensures AskSafe(a, y, st, n) && !AskMerges(a, y, st, n)
  {
  }

  // Nor does ap_rdwr().
  ghost predicate RecvSafe(a: Ask, y: Sys, st: Store, n: nat) {
    (a.AskMesag? && a.from < |y.qindex| && Quick(y.qindex[a.from], a.cnt)) || AskSafe(a, y, st, n)
  }

  // A message is merged in the call.
  ghost predicate AskMerges(a: Ask, y: Sys, st: Store, n: nat) {
    a.ForPipe() && Merging(y.s, y.qindex, st, n, a.At(), a.AskSend?, a.cnt, a.Data())
  }

  // What iasync() does to the bytes in the pipes.
  ghost predicate StoreAfter(a: Ask, y: Sys, st: Store, z: Sys, st': Store, n: nat, p: nat) {
    if a.ForPipe() then StorePassed(y, st, z, st', n, p, a.At(), a.AskSend?, a.cnt, a.Data()) else st' == st
  }

  // The pipe takes the step of PipeLine.
  ghost predicate PipeStep(a: Ask, found: bool, y: Sys, z: Sys) {
    && Lines(y.s, y.qindex) && Lines(z.s, z.qindex) && a.At() < |y.qindex| == |z.qindex|
    && LineOf(z.s, z.qindex, a.At()) == Step(LineOf(y.s, y.qindex, a.At()), a.PipeOp(found))
  }

  // The reader has the bytes that were at the front of the pipe.
  ghost predicate ReadGot(a: Ask, st: Store, st': Store, p: nat) {
    a.AskMesag? ==>
      a.from < |st.queues| && 0 <= a.cnt <= |st.queues[a.from]| && p < |st.inbox| &&
      st'.inbox == st.inbox[p := st.queues[a.from][..a.cnt]]
  }

  lemma GotIt(a: Ask, y: Sys, st: Store, z: Sys, st': Store, n: nat, p: nat)
    requires a.ForPipe() && StoreAfter(a, y, st, z, st', n, p) && CanBytes(y.s, y.qindex, st, n, a.At())
    requires Ready(y.qindex[a.At()], a.AskSend?, a.cnt)
    ensures ReadGot(a, st, st', p)
  {
    hide PassBytes;
    if a.AskMesag? {
      ReadFront(y.s, y.qindex, st, n, a.from, a.cnt, Nothing);
    }
  }

  lemma StoreSame(a: Ask, y: Sys, st: Store, z: Sys, w: Sys, st': Store, n: nat, p: nat)
    requires StoreAfter(a, y, st, z, st', n, p) && w.qindex == z.qindex
    requires a.ForPipe() ==> a.At() < |y.qindex| && Ready(y.qindex[a.At()], a.AskSend?, a.cnt)
    ensures StoreAfter(a, y, st, w, st', n, p)
  {
    hide Handed;
  }

  // What a running process may do next.
  datatype Action = Wait(ask: Ask)
                  | Multi(flags: set<Mask>, typed: seq<Fork>, quick: set<Mask>, satb: bool, sat1: bool, sat2: bool,
                          tmcount: int, ticktime: int)
                  | Empty | Release | Launch | Yield

  // One step of a run: what interrupts bring before it, what the process does that runs then, and
  // what interrupts bring while the dispatcher looks for one that is ready.
  datatype Turn = Turn(before: seq<Fork>, act: Action, polls: seq<seq<Fork>>)

  predicate TurnOk(t: Turn, n: nat) {
    && (forall i :: 0 <= i < |t.before| ==> ForkOk(t.before[i], n))
    && (t.act.Multi? ==> forall i :: 0 <= i < |t.act.typed| ==> ForkOk(t.act.typed[i], n))
    && (forall i, j :: 0 <= i < |t.polls| && 0 <= j < |t.polls[i]| ==> ForkOk(t.polls[i][j], n))
  }

  // The fork ring with what chkkbd() puts there.
  function Typed(forks: seq<Fork>, typed: seq<Fork>): seq<Fork> {
    if typed != [] && |forks| < NFORKS then forks + [typed[0]] else forks
  }

  // What ev_multi() asks for, in this order.
  function Asks(satb: bool, sat1: bool, sat2: bool, ticks: int, q: nat): seq<Ask> {
    [AskKey, AskButton(satb), AskMouse(M1, sat1), AskMouse(M2, sat2), AskMesag(q, MSG), AskTimer(ticks)]
  }

  function FourAsks(satb: bool, sat1: bool, sat2: bool): seq<Ask> {
    [AskKey, AskButton(satb), AskMouse(M1, sat1), AskMouse(M2, sat2)]
  }

  lemma AsksAre(satb: bool, sat1: bool, sat2: bool, ticks: int, q: nat)
    ensures FourAsks(satb, sat1, sat2) + [AskMesag(q, MSG)] + [AskTimer(ticks)] == Asks(satb, sat1, sat2, ticks, q)
    ensures {KEYBD, BUTTON, M1, M2} + {MESAG} + {TIMER} == AllEvents()
  {
  }

  lemma TwoAre(satb: bool)
    ensures [] + [AskKey] == [AskKey] && [AskKey] + [AskButton(satb)] == [AskKey, AskButton(satb)]
    ensures {} + {KEYBD} == {KEYBD} && {KEYBD} + {BUTTON} == {KEYBD, BUTTON}
  {
  }

  lemma FourAre(satb: bool, sat1: bool, sat2: bool)
    ensures [AskKey, AskButton(satb)] + [AskMouse(M1, sat1)] == [AskKey, AskButton(satb), AskMouse(M1, sat1)]
    ensures [AskKey, AskButton(satb), AskMouse(M1, sat1)] + [AskMouse(M2, sat2)] == FourAsks(satb, sat1, sat2)
    ensures {KEYBD, BUTTON} + {M1} == {KEYBD, BUTTON, M1}
    ensures {KEYBD, BUTTON, M1} + {M2} == {KEYBD, BUTTON, M1, M2}
  {
  }

  // Those events that are there when they are asked for.
  function Satisfied(flags: set<Mask>, satb: bool, sat1: bool, sat2: bool): set<Mask> {
    (if BUTTON in flags && satb then {BUTTON} else {}) + (if M1 in flags && sat1 then {M1} else {})
    + (if M2 in flags && sat2 then {M2} else {})
  }

  lemma SatisfiedIs(flags: set<Mask>, satb: bool, sat1: bool, sat2: bool)
    ensures forall m :: m in Satisfied(flags, satb, sat1, sat2) <==>
      m in flags && ((m == BUTTON && satb) || (m == M1 && sat1) || (m == M2 && sat2))
    ensures Satisfied(flags, satb, sat1, sat2) != {} <==> ((BUTTON in flags && satb) || (M1 in flags && sat1) || (M2 in flags && sat2))
  {
  }

  lemma SatisfiedWanted(flags: set<Mask>, satb: bool, sat1: bool, sat2: bool)
    ensures flags * Satisfied(flags, satb, sat1, sat2) == Satisfied(flags, satb, sat1, sat2)
  {
  }

  // The block is the process's own, for this event.
  ghost predicate HasBlock(z: Sys, e: nat, p: nat, m: Mask) {
    e < |z.s.evb| && z.s.evb[e].pd == p && z.s.evb[e].mask == m
  }

  // The process has the block for what it asked: completed with its value when that was there
  // already, else on the chain for it, with the count of a message, or due when the timer is.
  ghost predicate AskedFor(a: Ask, z: Sys, n: nat, p: nat) {
    && |z.s.chain| == 3 + 5 * n && p < n
    && if a.Sat() then
         exists e: nat :: HasBlock(z, e, p, a.Code()) && e in z.s.chain[ZLR] && z.s.evb[e].ret == if a.AskButton? then 1 else 0
       else
         match a
         case AskKey => z.s.chain[Kb(p)] != [] && HasBlock(z, z.s.chain[Kb(p)][0], p, KEYBD)
         case AskButton(_) => exists e: nat :: HasBlock(z, e, p, BUTTON) && e in z.s.chain[Bt(n, p)]
         case AskMouse(m, _) => exists e: nat :: HasBlock(z, e, p, m) && e in z.s.chain[Mo(n, p)]
         case AskMesag(from, cnt) =>
           from < n && exists e: nat :: HasBlock(z, e, p, MESAG) && e in z.s.chain[Qd(n, from)] && z.s.evb[e].parm == cnt
         case AskTimer(c) => exists e: nat :: HasBlock(z, e, p, TIMER) && DueIn(z, e, if c == 0 then 1 else c)
         case AskSend(to, cnt, _) =>
           to < n && exists e: nat :: HasBlock(z, e, p, SDMSG) && e in z.s.chain[Qn(n, to)] && z.s.evb[e].parm == cnt
         case AskMutex => exists e: nat :: HasBlock(z, e, p, MUTEX) && e in z.s.chain[Sy(n)]
  }

  // Of these the wanted ones are asked for, and everyone else waits as before.
  ghost predicate Begun(flags: set<Mask>, l: seq<Ask>, y: Sys, z: Sys, n: nat, p: nat) {
    && InRange(y.s) && InRange(z.s) && Keeps(y, z) && z == y.(s := z.s)
    && (forall i :: 0 <= i < |l| && l[i].Code() in flags ==> AskedFor(l[i], z, n, p))
    && p < |y.s.evflg| && z.s.evflg == y.s.evflg[p := y.s.evflg[p] + There(flags, l)]
  }

  // Those of the events that are there.
  function There(flags: set<Mask>, l: seq<Ask>): set<Mask> {
    set i | 0 <= i < |l| && l[i].Code() in flags && l[i].Sat() :: l[i].Code()
  }

  lemma ThereMore(flags: set<Mask>, l: seq<Ask>, a: Ask)
    ensures There(flags, l + [a]) == There(flags, l) + if a.Code() in flags && a.Sat() then {a.Code()} else {}
  {
    var r := l + [a];
    assert r[|l|] == a && forall i :: 0 <= i < |l| ==> r[i] == l[i];
    forall m ensures m in There(flags, r) <==> m in There(flags, l) || (m == a.Code() && a.Code() in flags && a.Sat()) {
      if m in There(flags, l) {
        var i :| 0 <= i < |l| && l[i].Code() in flags && l[i].Sat() && l[i].Code() == m;
        assert r[i] == l[i];
      }
    }
  }

  // What ev_multi() finds at once is the button and the mouse.
  lemma BegunFlags(flags: set<Mask>, satb: bool, sat1: bool, sat2: bool, ticks: int, y: Sys, z: Sys, n: nat, p: nat)
    requires Begun(flags, Asks(satb, sat1, sat2, ticks, p), y, z, n, p)
    ensures p < |y.s.evflg| == |z.s.evflg| && (y.s.evflg[p] == {} ==> z.s.evflg[p] == Satisfied(flags, satb, sat1, sat2))
  {
    hide Keeps, AskedFor;
    var l := Asks(satb, sat1, sat2, ticks, p);
    assert l[1] == AskButton(satb) && l[2] == AskMouse(M1, sat1) && l[3] == AskMouse(M2, sat2);
    forall m ensures m in There(flags, l) <==> m in Satisfied(flags, satb, sat1, sat2) {
    }
    assert {} + There(flags, l) == Satisfied(flags, satb, sat1, sat2);
  }

  lemma NoneBegun(flags: set<Mask>, y: Sys, n: nat, p: nat)
    requires y.Ok(n, p, 0) && p < n
    ensures Begun(flags, [], y, y, n, p)
  {
    SysSizes(y, n, p, 0);
    KeepsSame(y, y);
    assert y.s.evflg[p] + There(flags, []) == y.s.evflg[p];
  }

  lemma BegunSame(flags: set<Mask>, l: seq<Ask>, a: Ask, y: Sys, z: Sys, n: nat, p: nat)
    requires Begun(flags, l, y, z, n, p) && a.Code() !in flags
    ensures Begun(flags, l + [a], y, z, n, p)
  {
    hide Keeps, AskedFor, There;
    ThereMore(flags, l, a);
    assert There(flags, l) + {} == There(flags, l);
  }

  lemma BegunMore(flags: set<Mask>, l: seq<Ask>, a: Ask, y: Sys, z: Sys, w: Sys, n: nat, p: nat)
    requires Begun(flags, l, y, z, n, p) && InRange(w.s) && Keeps(z, w) && w == z.(s := w.s) && AskedFor(a, w, n, p)
    requires p < |z.s.evflg| && w.s.evflg == z.s.evflg[p := z.s.evflg[p] + if a.Sat() then {a.Code()} else {}] && a.Code() in flags
    requires l != [] && p < n ==> 3 + 5 * n == |z.s.chain| == |w.s.chain| && w.s.chain[Kb(p)] == z.s.chain[Kb(p)]
    ensures Begun(flags, l + [a], y, w, n, p)
  {
    hide Keeps, AskedFor, There;
    KeepsTwice(y, z, w);
    ThereMore(flags, l, a);
    assert y.s.evflg[p] + There(flags, l + [a]) == z.s.evflg[p] + if a.Sat() then {a.Code()} else {};
    forall i | 0 <= i < |l| && l[i].Code() in flags ensures AskedFor(l[i], w, n, p) {
      AskedStays(l[i], z, w, n, p);
    }
  }

  lemma BlockStays(y: Sys, z: Sys, c: nat, e: nat, p: nat, m: Mask)
    requires Keeps(y, z) && InRange(y.s) && c < |y.s.chain| && e in y.s.chain[c] && HasBlock(y, e, p, m)
    ensures HasBlock(z, e, p, m) && e in z.s.chain[c] && z.s.evb[e].ret == y.s.evb[e].ret
    ensures c != DLR ==> z.s.evb[e].parm == y.s.evb[e].parm
  {
    StillThere(y, z, c, e);
  }

  lemma AskedStays(a: Ask, y: Sys, z: Sys, n: nat, p: nat)
    requires AskedFor(a, y, n, p) && Keeps(y, z) && InRange(y.s)
    requires p < n ==> 3 + 5 * n == |z.s.chain| == |y.s.chain| && z.s.chain[Kb(p)] == y.s.chain[Kb(p)]
    ensures AskedFor(a, z, n, p)
  {
    hide Keeps, HasBlock, DueIn;
    if a.Sat() {
      var e: nat :| HasBlock(y, e, p, a.Code()) && e in y.s.chain[ZLR] && y.s.evb[e].ret == if a.AskButton? then 1 else 0;
      BlockStays(y, z, ZLR, e, p, a.Code());
    } else {
      match a {
        case AskKey => BlockStays(y, z, Kb(p), y.s.chain[Kb(p)][0], p, KEYBD);
        case AskButton(_) =>
          var e: nat :| HasBlock(y, e, p, BUTTON) && e in y.s.chain[Bt(n, p)];
          BlockStays(y, z, Bt(n, p), e, p, BUTTON);
        case AskMouse(m, _) =>
          var e: nat :| HasBlock(y, e, p, m) && e in y.s.chain[Mo(n, p)];
          BlockStays(y, z, Mo(n, p), e, p, m);
        case AskMesag(from, cnt) =>
          var e: nat :| HasBlock(y, e, p, MESAG) && e in y.s.chain[Qd(n, from)] && y.s.evb[e].parm == cnt;
          BlockStays(y, z, Qd(n, from), e, p, MESAG);
        case AskTimer(c) =>
          var e: nat :| HasBlock(y, e, p, TIMER) && DueIn(y, e, if c == 0 then 1 else c);
          TimerStays(y, z, e, p, if c == 0 then 1 else c);
        case AskSend(to, cnt, _) =>
          var e: nat :| HasBlock(y, e, p, SDMSG) && e in y.s.chain[Qn(n, to)] && y.s.evb[e].parm == cnt;
          BlockStays(y, z, Qn(n, to), e, p, SDMSG);
        case AskMutex =>
          var e: nat :| HasBlock(y, e, p, MUTEX) && e in y.s.chain[Sy(n)];
          BlockStays(y, z, Sy(n), e, p, MUTEX);
      }
    }
  }

  lemma TimerStays(y: Sys, z: Sys, e: nat, p: nat, d: int)
    requires Keeps(y, z) && HasBlock(y, e, p, TIMER) && DueIn(y, e, d)
    ensures HasBlock(z, e, p, TIMER) && DueIn(z, e, d)
  {
    var i := DuePlace(y, e, d);
    assert e in y.s.chain[DLR];
  }

  // Asking for one event.
  lemma AnsweredKeeps(a: Ask, found: bool, y: Sys, z: Sys, n: nat, p: nat, parm: int)
    requires y.Ok(n, p, 0) && z.Ok(n, p, 0) && p < n && Answered(a, found, y, z, n, p, parm)
    requires (a.AskKey? ==> p < |y.keys| && y.keys[p] == []) && (a.AskTimer? ==> a.c >= 0)
    requires a.ForPipe() ==> a.At() < |y.qindex| && !Ready(y.qindex[a.At()], a.AskSend?, a.cnt)
    requires a.AskMutex? ==> y.owner != -1 && y.owner != p
    ensures InRange(z.s) && Keeps(y, z) && z == y.(s := z.s) && AskedFor(a, z, n, p) && p < |y.s.evflg|
    ensures |z.s.chain| == |y.s.chain| == 3 + 5 * n && (!a.AskKey? ==> z.s.chain[Kb(p)] == y.s.chain[Kb(p)])
    ensures z.s.evflg == y.s.evflg[p := y.s.evflg[p] + if a.Sat() then {a.Code()} else {}]
  {
    hide Sys.Ok, Keeps, Issue1, DelayAsked, TicksPut, DueIn;
    SysSizes(y, n, p, 0);
    SysSizes(z, n, p, 0);
    assert y.s.evflg[p] + {} == y.s.evflg[p];
    if a.AskTimer? {
      TimerAnswered(a.c, y, z, n, p);
    } else {
      var c, b := if a.Sat() then ZLR else ChainOf(a, n, p), BlockOf(a, p, parm);
      IssueKeepsOthers(y, n, p, b, c, z);
      assert HasBlock(z, y.s.eul[0], p, a.Code()) && y.s.eul[0] in z.s.chain[c];
    }
  }

  // The block that is set up, and where it waits.
  function BlockOf(a: Ask, p: nat, parm: int): Evb {
    if a.Sat() then Evb(p, a.Code(), parm, false, true, false, if a.AskButton? then 1 else 0)
    else Evb(p, a.Code(), if a.ForPipe() then a.cnt else 0, false, false, false, 0)
  }

  function ChainOf(a: Ask, n: nat, p: nat): nat {
    match a
    case AskKey => Kb(p)
    case AskButton(_) => Bt(n, p)
    case AskMouse(_, _) => Mo(n, p)
    case AskMesag(from, _) => Qd(n, from)
    case AskTimer(_) => DLR
    case AskSend(to, _, _) => Qn(n, to)
    case AskMutex => Sy(n)
  }

  lemma TimerAnswered(c: int, y: Sys, z: Sys, n: nat, p: nat)
    requires y.Ok(n, p, 0) && z.Ok(n, p, 0) && p < n && Answered(AskTimer(c), false, y, z, n, p, 0) && c >= 0
    ensures Keeps(y, z) && z == y.(s := z.s) && AskedFor(AskTimer(c), z, n, p) && z.s.evflg == y.s.evflg
    ensures |z.s.chain| == |y.s.chain| == 3 + 5 * n && z.s.chain[Kb(p)] == y.s.chain[Kb(p)]
  {
    hide Sys.Ok, Keeps, TicksPut, DueIn, OthersAsThey;
    SysSizes(y, n, p, 0);
    SysSizes(z, n, p, 0);
    var j: nat :| DelayAsked(y, z, p, j) && TicksPut(y, z, j, if c == 0 then 1 else c);
    TimerKeepsOthers(y, n, p, j, if c == 0 then 1 else c, z);
    assert HasBlock(z, y.s.eul[0], p, TIMER);
  }

  // A call of ev_block() that has to wait: the block is set up, everyone else waits as before, and a
  // message to be written is kept with the block.
  lemma BlockAsked(a: Ask, found: bool, y: Sys, st: Store, z: Sys, st': Store, n: nat, p: nat, parm: int)
    requires y.Ok(n, p, 0) && z.Ok(n, p, 0) && p < n && Answered(a, found, y, z, n, p, parm) && StoreAfter(a, y, st, z, st', n, p)
    requires (a.AskKey? ==> p < |y.keys| && y.keys[p] == []) && (a.AskTimer? ==> a.c >= 0)
    requires a.ForPipe() ==> a.At() < |y.qindex| && !Ready(y.qindex[a.At()], a.AskSend?, a.cnt)
    requires a.AskMutex? ==> y.owner != -1 && y.owner != p
    ensures Keeps(y, z) && z == y.(s := z.s) && AskedFor(a, z, n, p)
    ensures MailWaits(a, z, st', p)
  {
    hide Sys.Ok, Keeps, Answered, AskedFor;
    AnsweredKeeps(a, found, y, z, n, p, parm);
    if a.AskSend? {
      SendPending(a, found, y, z, n, p, parm);
    }
  }

  // A message that has to wait is kept with its block.
  ghost predicate MailWaits(a: Ask, z: Sys, st: Store, p: nat) {
    a.AskSend? ==>
      (p < |z.s.evlist| && z.s.evlist[p] != [] && z.s.evlist[p][0] < |st.mail| && st.mail[z.s.evlist[p][0]] == a.data &&
       HasBlock(z, z.s.evlist[p][0], p, SDMSG))
  }

  lemma SendPending(a: Ask, found: bool, y: Sys, z: Sys, n: nat, p: nat, parm: int)
    requires y.Ok(n, p, 0) && Answered(a, found, y, z, n, p, parm) && a.AskSend?
    requires a.to < |y.qindex| && !Ready(y.qindex[a.to], true, a.cnt)
    ensures p < |z.s.evlist| && z.s.evlist[p] != [] && HasBlock(z, z.s.evlist[p][0], p, SDMSG)
  {
  }

  // What this comes to for ev_multi().
  lemma BegunFacts(flags: set<Mask>, satb: bool, sat1: bool, sat2: bool, ticks: int, y: Sys, z: Sys, n: nat, p: nat)
    requires Begun(flags, Asks(satb, sat1, sat2, ticks, p), y, z, n, p) && y.Ok(n, -1, 0)
    ensures Keeps(y, z) && z == y.(s := z.s) && InRange(z.s) && |z.s.chain| == 3 + 5 * n
    ensures TIMER in flags ==> exists e: nat :: HasBlock(z, e, p, TIMER) && DueIn(z, e, if ticks == 0 then 1 else ticks)
  {
    hide Sys.Ok, DueIn, Behind;
    SysSizes(y, n, -1, 0);
    if TIMER in flags {
      assert AskedFor(Asks(satb, sat1, sat2, ticks, p)[5], z, n, p);
    }
  }

  // ev_multi() asleep: when the dispatcher has come to its end, the process is ready exactly when it
  // has a flag.  It has that of its timer exactly when the ticks that came are as many as it asked
  // for, at least one, and that of the keyboard when a key came for it.
  lemma MultiWakes(flags: set<Mask>, satb: bool, sat1: bool, sat2: bool, ticks: int, y: Sys, asked: Sys, n: nat, p: nat,
                   forks: seq<Fork>, mouse: int, t: seq<Stage>, z: Sys, mouse': int, switched: bool, polls: seq<seq<Fork>>)
    requires Begun(flags, Asks(satb, sat1, sat2, ticks, p), y, asked, n, p) && p < n
    requires WentToSleep(asked, p, flags, forks, mouse, t, z, mouse', switched, polls, n)
    ensures p < |z.s.evflg| && t != [] && t[|t| - 1].at <= |polls|
    ensures p in z.pr.rlr <==> z.s.evflg[p] != {}
    ensures TIMER in flags && ticks >= 0 ==>
      (TIMER in z.s.evflg[p] <==> TickSum(Entries(t, polls)) >= if ticks == 0 then 1 else ticks)
    ensures KEYBD in flags && (exists i :: 0 <= i < |Entries(t, polls)| && Entries(t, polls)[i].Key? && Entries(t, polls)[i].pd == p) ==>
      KEYBD in z.s.evflg[p]
  {
    hide Sys.Ok, Finished, Keeps, DueIn, There, TickSum, Framed, Fate;
    DispatchFate(t, polls, n, 0);
    SleeperWakes(asked, p, flags, forks, mouse, t, z, mouse', switched, polls, n);
    var x, r := t[0].y, Entries(t, polls);
    assert x.s == asked.s;
    SysSizes(x, n, -1, 0);
    if TIMER in flags && ticks >= 0 {
      assert AskedFor(Asks(satb, sat1, sat2, ticks, p)[5], asked, n, p);
      var c := if ticks == 0 then 1 else ticks;
      var e: nat :| HasBlock(asked, e, p, TIMER) && DueIn(asked, e, c);
      DueSame(asked, x, e, c);
      TimerFlag(t, polls, n, e, p, c);
    }
    if KEYBD in flags && exists i :: 0 <= i < |r| && r[i].Key? && r[i].pd == p {
      assert AskedFor(Asks(satb, sat1, sat2, ticks, p)[0], asked, n, p);
      WaitEnds(t, polls, n, Kb(p), asked.s.chain[Kb(p)][0]);
    }
  }

  lemma TimerFlag(t: seq<Stage>, polls: seq<seq<Fork>>, n: nat, e: nat, p: nat, c: int)
    requires Finished(t, polls, n) && HasBlock(t[0].y, e, p, TIMER) && DueIn(t[0].y, e, c) && c > 0
    ensures t[|t| - 1].at <= |polls| && p < |t[|t| - 1].y.s.evflg|
    ensures TIMER in t[|t| - 1].y.s.evflg[p] <==> TickSum(Entries(t, polls)) >= c
  {
    hide Sys.Ok, Finished, TickSum, Framed, Fate;
    DispatchFate(t, polls, n, 0);
    var i := DuePlace(t[0].y, e, c);
    TimerEnds(t, polls, n, i);
    SumPositive(Entries(t, polls), n);
    FlagIsDone(t[0].y, t[|t| - 1].y, n, DLR, e);
  }

  lemma OneClick(flags: set<Mask>, satb: bool, sat1: bool, sat2: bool, ticks: int, y: Sys, z: Sys, v: Sys, n: nat, p: nat, clicks: int)
    requires Begun(flags, Asks(satb, sat1, sat2, ticks, p), y, z, n, p) && v.s == z.s && v.Ok(n, p, 0)
    requires BUTTON in Satisfied(flags, satb, sat1, sat2) && Returned(v.s.evb, v.s.evlist, p, BUTTON, clicks)
    ensures clicks == 1
  {
    hide Keeps, ProcOk, TasksOk, Side, Kept, Chained, Done, Flagged;
    assert AskedFor(Asks(satb, sat1, sat2, ticks, p)[1], z, n, p);
    var e: nat :| HasBlock(z, e, p, BUTTON) && e in z.s.chain[ZLR] && z.s.evb[e].ret == 1;
    var k: nat :| k < |z.s.chain[ZLR]| && z.s.chain[ZLR][k] == e;
    var q, i := OnList(v.s, ZLR, k);
    var j :| 0 <= j < |v.s.evlist[p]| && v.s.evlist[p][j] < |v.s.evb| && v.s.evb[v.s.evlist[p][j]].mask == BUTTON && v.s.evb[v.s.evlist[p][j]].ret == clicks;
    assert i == j;
  }

  lemma NothingThere(flags: set<Mask>, quick: set<Mask>, tmcount: int, y: Sys, n: nat, p: nat)
    requires y.Ok(n, -1, 0) && p < |y.qindex| && p < |y.keys|
    ensures Already(flags, quick, tmcount, y, p) == {} <==>
      quick == {} && (KEYBD in flags ==> y.keys[p] == []) && (TIMER in flags ==> tmcount != 0) && (MESAG in flags ==> y.qindex[p] == 0)
    ensures forall m :: m in Already(flags, quick, tmcount, y, p) <==>
      (m in quick || (m == KEYBD && KEYBD in flags && y.keys[p] != []) ||
       (m == TIMER && TIMER in flags && tmcount == 0) || (m == MESAG && MESAG in flags && y.qindex[p] > 0))
  {
    LinesIn(y, n, -1, 0, if p < n then p else 0);
    SysSizes(y, n, -1, 0);
    assert InBuffer(y.qindex[p]);
    AlreadyHas(flags, quick, tmcount, y, p);
  }

  lemma AlreadyHas(flags: set<Mask>, quick: set<Mask>, tmcount: int, y: Sys, p: nat)
    requires p < |y.qindex| && p < |y.keys|
    ensures forall m :: m in Already(flags, quick, tmcount, y, p) <==>
      (m in quick || (m == KEYBD && KEYBD in flags && y.keys[p] != []) ||
       (m == TIMER && TIMER in flags && tmcount == 0) || (m == MESAG && MESAG in flags && y.qindex[p] > 0))
  {
  }

  lemma TookKey(flags: set<Mask>, y: Sys, st: Store, z: Sys, st': Store, n: nat, p: nat, key: int)
    ensures TookThem(flags, y, st, z, st', n, p, key) && KEYBD in flags && p < |y.keys| && y.keys[p] != [] ==>
      key == y.keys[p][0] && z.keys == y.keys[p := y.keys[p][1..]]
  {
    hide PipeStep, ReadGot, AskMerges;
  }

  // What has happened before ev_multi() waits.
  ghost function Already(flags: set<Mask>, quick: set<Mask>, tmcount: int, y: Sys, p: nat): set<Mask> {
    quick + (if KEYBD in flags && p < |y.keys| && y.keys[p] != [] then {KEYBD} else {})
    + (if TIMER in flags && tmcount == 0 then {TIMER} else {})
    + (if MESAG in flags && p < |y.qindex| && y.qindex[p] > 0 then {MESAG} else {})
  }

  // The key that came first is returned and gone, and so is a message; else both queues stay.
  ghost predicate TookThem(flags: set<Mask>, y: Sys, st: Store, z: Sys, st': Store, n: nat, p: nat, key: int) {
    && p < |y.keys| && p < |y.qindex|
    && (if KEYBD in flags && y.keys[p] != [] then key == y.keys[p][0] && z.keys == y.keys[p := y.keys[p][1..]] else z.keys == y.keys)
    && (if MESAG in flags && y.qindex[p] > 0
        then PipeStep(AskMesag(p, MSG), AskMerges(AskMesag(p, MSG), y, st, n), y, z) && ReadGot(AskMesag(p, MSG), st, st', p)
        else z.qindex == y.qindex && st' == st)
  }

  // What a call of ev_block() gives that need not wait.
  ghost predicate Given(a: Ask, found: bool, y: Sys, z: Sys, n: nat, p: nat, ret: int) {
    && (if a.AskKey? then p < |y.keys| && y.keys[p] != [] && ret == y.keys[p][0] && z.keys == y.keys[p := y.keys[p][1..]]
        else z.keys == y.keys)
    && (if a.AskMutex? then ret == 0 && z.tas == y.tas + 1 && z.owner == p else z.tas == y.tas && z.owner == y.owner)
    && (a.AskButton? ==> ret == 1) && (a.AskMouse? ==> ret == 0)
    && (if a.ForPipe()
        then ret == 1 && Lines(y.s, y.qindex) && Lines(z.s, z.qindex) && a.At() < |y.qindex| == |z.qindex| &&
          LineOf(z.s, z.qindex, a.At()) == Passed(LineOf(y.s, y.qindex, a.At()), a.AskSend?, a.cnt, found)
        else z.qindex == y.qindex)
  }

  lemma GivenIs(a: Ask, found: bool, y: Sys, z: Sys, n: nat, p: nat, ret: int)
    requires Given(a, found, y, z, n, p, ret)
    ensures a.AskKey? ==> (p < |y.keys| && y.keys[p] != [] && ret == y.keys[p][0] && z.keys == y.keys[p := y.keys[p][1..]])
    ensures !a.AskKey? && !a.AskTimer? ==> z.keys == y.keys && ret == if a.AskMouse? || a.AskMutex? then 0 else 1
  {
    hide Lines, LineOf, Passed;
  }

  // Nothing came to a process's list.
  ghost predicate Fewer(evlist: seq<seq<nat>>, evlist': seq<seq<nat>>, p: nat) {
    p < |evlist| == |evlist'| && forall e :: e in evlist'[p] ==> e in evlist[p]
  }

  lemma FewerSelf(evlist: seq<seq<nat>>, p: nat)
    ensures p < |evlist| ==> Fewer(evlist, evlist, p)
  {
  }

  lemma CutFewer(evlist: seq<seq<nat>>, p: nat, i: nat)
    requires p < |evlist| && i < |evlist[p]|
    ensures Fewer(evlist, evlist[p := Cut(evlist[p], i)], p)
  {
    CutIn(evlist[p], i);
  }

  // What was with a block before is with it still.
  lemma ReturnedBefore(evb: seq<Evb>, evlist: seq<seq<nat>>, evb': seq<Evb>, evlist': seq<seq<nat>>, p: nat, m: Mask, r: int)
    requires Returned(evb', evlist', p, m, r) && Fewer(evlist, evlist', p) && SameBlocks(evb, evb')
    ensures Returned(evb, evlist, p, m, r)
  {
    var i :| 0 <= i < |evlist'[p]| && evlist'[p][i] < |evb'| && evb'[evlist'[p][i]].mask == m && evb'[evlist'[p][i]].ret == r;
    assert evlist'[p][i] in evlist[p];
  }

  lemma GivenUpFewer(y: Sys, z: Sys, p: nat, gone: set<nat>)
    requires GivenUp(y, z, p, gone)
    ensures Fewer(y.s.evlist, z.s.evlist, p) && SameBlocks(y.s.evb, z.s.evb)
  {
    hide Others, DueKept;
    forall e | e in z.s.evlist[p] ensures e in y.s.evlist[p] {
      OthersHas(y.s.evlist[p], gone, e);
    }
  }

  // The wait lists are as they were.
  predicate SameWaits(chain: seq<seq<nat>>, chain': seq<seq<nat>>) {
    |chain'| == |chain| && forall c :: ZLR < c < |chain| ==> chain'[c] == chain[c]
  }

  // The process asked for nothing else, and has asked for this.
  ghost predicate CanAnswer(a: Ask, found: bool, y: Sys, z: Sys, n: nat, p: nat, parm: int) {
    && y.Ok(n, p, 0) && y.Runs(p) && MasksOf(y, p) == {} && z.Ok(n, p, 0) && Answered(a, found, y, z, n, p, parm)
  }

  lemma NowAsked(a: Ask, found: bool, y: Sys, z: Sys, n: nat, p: nat, parm: int)
    requires y.Ok(n, p, 0) && y.Runs(p) && MasksOf(y, p) == {} && z.Ok(n, p, 0)
    requires Answered(a, found, y, z, n, p, parm) && Asked(y, z, p, a.Code())
    ensures CanAnswer(a, found, y, z, n, p, parm) && z.Runs(p) && MasksOf(z, p) == {a.Code()}
    ensures p < |y.s.evflg| && y.s.evflg[p] == {}
    ensures z.s.evflg == y.s.evflg ==> !Flag(z, p, a.Code())
  {
    hide Sys.Ok, MasksOf, Answered;
    SysSizes(y, n, p, 0);
    NoFlag(y, n, p);
    assert {} + {a.Code()} == {a.Code()};
  }

  // Nothing was flagged before, so what the event was given is what comes back.
  lemma AnswerGiven(a: Ask, found: bool, y: Sys, z: Sys, v: Sys, w: Sys, n: nat, p: nat, parm: int, ret: int)
    requires CanAnswer(a, found, y, z, n, p, parm) && w.Ok(n, -1, 0) && Flag(z, p, a.Code())
    requires v.s == z.s && v.keys == z.keys && v.qindex == z.qindex && v.tas == z.tas && v.owner == z.owner
    requires Returned(v.s.evb, v.s.evlist, p, a.Code(), ret)
    requires w.s.evb == v.s.evb && SameWaits(v.s.chain, w.s.chain)
    requires w.keys == v.keys && w.qindex == v.qindex && w.tas == v.tas && w.owner == v.owner
    ensures Given(a, found, y, w, n, p, ret)
  {
    hide Sys.Ok, MasksOf, Over, Pending, Queued, DelayAsked, Returned, SameWaits, Lines, LineOf, Passed;
    SysSizes(y, n, p, 0);
    NoFlag(y, n, p);
    NoMasks(y, p);
    match a
    case AskKey => KeyGiven(y, z, p, parm, ret);
    case AskButton(sat) => OverGiven(y, z, p, BUTTON, parm, 1, Bt(n, p), ret, sat);
    case AskMouse(m, sat) => OverGiven(y, z, p, m, parm, 0, Mo(n, p), ret, sat);
    case AskMesag(from, cnt) =>
      MessageGiven(y, z, w, n, p, MESAG, from, false, cnt, found, parm, ret);
    case AskTimer(_) =>
    case AskSend(to, cnt, _) =>
      MessageGiven(y, z, w, n, p, SDMSG, to, true, cnt, found, parm, ret);
    case AskMutex => MutexGiven(y, z, n, p, parm, ret);
  }

  // The process has only this one block.
  lemma OverReturned(y: Sys, z: Sys, p: nat, m: Mask, parm: int, ret0: int, ret: int)
    requires Over(y, z, p, m, parm, ret0) && p < |y.s.evlist| && y.s.evlist[p] == []
    ensures Returned(z.s.evb, z.s.evlist, p, m, ret) ==> ret == ret0
    ensures z == y.(s := z.s) && p < |z.s.evlist| && z.s.evlist[p] == [y.s.eul[0]] && y.s.eul[0] < |z.s.evb|
    ensures z.s.evb[y.s.eul[0]].ret == ret0
  {
  }

  lemma PendingUnflagged(y: Sys, z: Sys, p: nat, m: Mask, parm: int, c: nat)
    requires Pending(y, z, p, m, parm, c) && p < |y.s.evflg| && y.s.evflg[p] == {}
    ensures !Flag(z, p, m) && z == y.(s := z.s)
  {
  }

  lemma OverGiven(y: Sys, z: Sys, p: nat, m: Mask, parm: int, ret0: int, c: nat, ret: int, sat: bool)
    requires if sat then Over(y, z, p, m, parm, ret0) else Pending(y, z, p, m, 0, c)
    requires p < |y.s.evlist| && y.s.evlist[p] == [] && p < |y.s.evflg| && y.s.evflg[p] == {}
    ensures Flag(z, p, m) && Returned(z.s.evb, z.s.evlist, p, m, ret) ==> ret == ret0
    ensures z == y.(s := z.s)
  {
    hide Over, Pending, Returned;
    if sat {
      OverReturned(y, z, p, m, parm, ret0, ret);
    } else {
      PendingUnflagged(y, z, p, m, 0, c);
    }
  }

  lemma KeyGiven(y: Sys, z: Sys, p: nat, parm: int, ret: int)
    requires KeyAsked(y, z, p, parm) && Returned(z.s.evb, z.s.evlist, p, KEYBD, ret)
    requires p < |y.s.evlist| && y.s.evlist[p] == [] && p < |y.s.evflg| && y.s.evflg[p] == {}
    ensures p < |y.keys| && z == y.(s := z.s, keys := z.keys)
    ensures Flag(z, p, KEYBD) ==> y.keys[p] != [] && ret == y.keys[p][0] && z.keys == y.keys[p := y.keys[p][1..]]
  {
    hide Over, Pending, Returned;
    if y.keys[p] != [] {
      OverReturned(y, z.(keys := y.keys), p, KEYBD, parm, y.keys[p][0], ret);
    } else {
      PendingUnflagged(y, z, p, KEYBD, 0, Kb(p));
    }
  }

  lemma MutexGiven(y: Sys, z: Sys, n: nat, p: nat, parm: int, ret: int)
    requires MutexAsked(y, z, n, p, parm) && Returned(z.s.evb, z.s.evlist, p, MUTEX, ret)
    requires p < |y.s.evlist| && y.s.evlist[p] == [] && p < |y.s.evflg| && y.s.evflg[p] == {}
    ensures z == y.(s := z.s, tas := z.tas, owner := z.owner)
    ensures Flag(z, p, MUTEX) ==> ret == 0 && z.tas == y.tas + 1 && z.owner == p
  {
    hide Over, Pending, Returned;
    if y.owner == -1 || y.owner == p {
      OverReturned(y, z.(tas := y.tas, owner := y.owner), p, MUTEX, parm, 0, ret);
    } else {
      PendingUnflagged(y, z, p, MUTEX, 0, Sy(n));
    }
  }

  lemma ServedReturned(y: Sys, z: Sys, c: nat, parm: int, p: nat, m: Mask, ret: int)
    requires Served(y, z, c, parm) && p < |y.s.evlist| && |y.s.evlist[p]| == 1 && y.s.evlist[p][0] < |y.s.evb|
    requires y.s.evb[y.s.evlist[p][0]].ret == 1 && Returned(z.s.evb, z.s.evlist, p, m, ret)
    ensures ret == 1 && z == y.(s := z.s, pr := z.pr)
  {
    hide Woken;
  }

  lemma MessageGiven(y: Sys, z: Sys, w: Sys, n: nat, p: nat, m: Mask, t: nat, isqwrite: bool, cnt: int, found: bool, parm: int, ret: int)
    requires y.Ok(n, p, 0) && y.Runs(p) && MasksOf(y, p) == {} && z.Ok(n, p, 0) && w.Ok(n, -1, 0)
    requires Queued(y, z, n, p, m, t, isqwrite, cnt, found, parm) && Flag(z, p, m) && Returned(z.s.evb, z.s.evlist, p, m, ret)
    requires p < |y.s.evlist| && y.s.evlist[p] == [] && p < |y.s.evflg| && y.s.evflg[p] == {}
    requires w.s.evb == z.s.evb && SameWaits(z.s.chain, w.s.chain) && w.qindex == z.qindex
    ensures ret == 1 && z == y.(s := z.s, pr := z.pr, qindex := z.qindex)
    ensures Lines(y.s, y.qindex) && Lines(w.s, w.qindex) && t < |y.qindex| == |w.qindex|
    ensures LineOf(w.s, w.qindex, t) == Passed(LineOf(y.s, y.qindex, t), isqwrite, cnt, found)
  {
    hide Sys.Ok, MasksOf, Over, Pending, Served, Returned, Counts, Passed;
    QueuedLine(y, z, n, p, m, t, isqwrite, cnt, found, parm);
    LinesAre(w, n, -1, 0);
    SameLine(z, w, t);
    if !Ready(y.qindex[t], isqwrite, cnt) {
      PendingUnflagged(y, z, p, m, cnt, if isqwrite then Qn(n, t) else Qd(n, t));
    } else {
      var c := if isqwrite then Qd(n, t) else Qn(n, t);
      var y1: Sys :| Over(y, y1, p, m, parm, 1) && Served(y1, z.(qindex := y.qindex), c, parm);
      OverReturned(y, y1, p, m, parm, 1, ret);
      ServedReturned(y1, z.(qindex := y.qindex), c, parm, p, m, ret);
    }
  }

  lemma SameLine(y: Sys, z: Sys, t: nat)
    requires Lines(y.s, y.qindex) && Lines(z.s, z.qindex) && t < |y.qindex| && z.qindex == y.qindex
    requires z.s.evb == y.s.evb && SameWaits(y.s.chain, z.s.chain)
    ensures LineOf(z.s, z.qindex, t) == LineOf(y.s, y.qindex, t)
  {
    assert Counts(z.s, Qd(|y.qindex|, t)) == Counts(y.s, Qd(|y.qindex|, t));
    assert Counts(z.s, Qn(|y.qindex|, t)) == Counts(y.s, Qn(|y.qindex|, t));
  }

  lemma NoFlag(y: Sys, n: nat, p: nat)
    requires y.Ok(n, p, 0) && MasksOf(y, p) == {} && p < n
    ensures p < |y.s.evflg| && y.s.evflg[p] == {}
  {
    SysSizes(y, n, p, 0);
    FlagsAsked(y, n, p);
  }

  lemma LinesIn(y: Sys, n: nat, ex: int, skip: nat, p: nat)
    requires y.Ok(n, ex, skip) && p < n
    ensures p < |y.qindex| && InBuffer(y.qindex[p])
  {
  }

  lemma StdQuick(y: Sys, z: Sys, n: nat, t: nat)
    requires Lines(y.s, y.qindex) && t < |y.qindex| && Quick(y.qindex[t], MSG) && z == y.(qindex := y.qindex[t := 0])
    ensures Lines(z.s, z.qindex) && LineOf(z.s, z.qindex, t) == LineOf(y.s, y.qindex, t).(q := 0)
    ensures Std(y.s, y.qindex) ==> Std(z.s, z.qindex)
  {
    if Std(y.s, y.qindex) {
      assert Standard(LineOf(y.s, y.qindex, t));
      StdRoom(y.s, y.qindex, t, 0);
    }
  }

  lemma YieldOk(y: Sys, n: nat, p: nat)
    requires y.Ok(n, -1, 0) && y.Runs(p)
    ensures y.Ok(n, -1, 1) && Leaving(y) && p < |y.pr.waitin|
    ensures Left1(y) == y.(pr := y.pr.(rlr := y.pr.rlr[1..] + [p], waitin := y.pr.waitin[p := false]))
  {
    hide EvOk, Side, Conserved;
    assert Runnable(y.pr, y.s.evflg, y.task, y.pr.rlr[0]);
  }

  // The events an application may ask ev_multi() for.
  function AllEvents(): set<Mask> {
    {KEYBD, BUTTON, M1, M2, MESAG, TIMER}
  }

  lemma SixEvents(flags: set<Mask>)
    requires flags <= AllEvents()
    ensures flags * {} == {} && |flags| <= EVBS_PER_PD && flags * AllEvents() == flags
  {
    Subset(flags, AllEvents());
  }

  lemma {:induction false} Subset(a: set<Mask>, b: set<Mask>)
    requires a <= b
    ensures |a| <= |b|
  {
    assert b == a + (b - a);
  }

  lemma FiveBefore(before: set<Mask>, m: Mask)
    requires before <= AllEvents() && m !in before && m in AllEvents()
    ensures |before| < EVBS_PER_PD
  {
    Subset(before, AllEvents() - {m});
  }

  lemma WantMore(flags: set<Mask>, before: set<Mask>, m: Mask)
    requires m !in before && |before| < EVBS_PER_PD
    ensures |flags * before| < EVBS_PER_PD && m !in flags * before
    ensures flags * (before + {m}) == if m in flags then flags * before + {m} else flags * before
  {
    Subset(flags * before, before);
  }

  // mwait() has returned: the process has just the blocks for the events it asked for, and one of
  // them is completed.
  ghost predicate Came(y: Sys, p: nat, flags: set<Mask>) {
    && y.Runs(p) && MasksOf(y, p) == flags && p < |y.s.evflg| == |y.pr.evwait|
    && flags * y.s.evflg[p] != {} && y.pr.evwait[p] == flags
  }

  lemma CameIs(y: Sys, p: nat, flags: set<Mask>)
    ensures y.Runs(p) && MasksOf(y, p) == flags && p < |y.s.evflg| == |y.pr.evwait| && flags * y.s.evflg[p] != {} && y.pr.evwait[p] == flags
      ==> Came(y, p, flags)
  {
  }

  // What a process holds is completed, flagged and waited for, and is just these events.
  ghost predicate HoldsJust(y: Sys, p: nat, held: set<Mask>) {
    && y.Runs(p) && MasksOf(y, p) == held && p < |y.s.evflg| == |y.pr.evwait| && y.s.evflg[p] == held && y.pr.evwait[p] == held
  }

  lemma JustThose(y: Sys, z: Sys, n: nat, p: nat, flags: set<Mask>, m1: set<Mask>)
    requires Came(y, p, flags) && z.Ok(n, p, 0) && z.Runs(p) && p < |z.s.evflg| == |z.pr.evwait| && z.s.evflg == y.s.evflg
    requires m1 == z.s.evflg[p] * flags && MasksOf(z, p) == MasksOf(y, p) - (flags - z.s.evflg[p])
    requires z.pr.evwait[p] == y.pr.evwait[p] - (MasksOf(y, p) * flags - z.s.evflg[p]) && y.Ok(n, p, 0)
    ensures HoldsJust(z, p, m1) && y.s.evflg[p] + m1 == m1 && m1 != {} && m1 <= flags
  {
    FlagsAsked(y, n, p);
    assert m1 == y.s.evflg[p] && flags - (flags - m1) == m1;
  }

  lemma FlagsAsked(y: Sys, n: nat, p: nat)
    requires y.Ok(n, p, 0) && p < |y.s.evflg|
    ensures y.s.evflg[p] <= MasksOf(y, p)
  {
    forall m | m in y.s.evflg[p] ensures m in MasksOf(y, p) {
      assert HasDone(y.s.evb, y.s.evlist[p], m);
    }
  }

  lemma HoldsLess(y: Sys, z: Sys, p: nat, m: Mask, r: int, held: set<Mask>)
    requires HoldsJust(y, p, held) && m in held && Collected1(y, z, p, m, r)
    ensures HoldsJust(z, p, held - {m})
  {
  }

  lemma AtRest(y: Sys, n: nat, p: nat, held: set<Mask>)
    requires y.Ok(n, p, 0) && HoldsJust(y, p, held) && held == {}
    ensures y.Ok(n, -1, 0) && Rested(y, p)
  {
    SysSizes(y, n, p, 0);
    NoMasks(y, p);
    Idle(y, n, p);
  }

  lemma StartOk(y: Sys, n: nat)
    requires y.Ok(n, -1, 0) && y.curpid < n
    ensures y.curpid < |y.pr.waitin|
    ensures y.(curpid := y.curpid + 1, pr := y.pr.(drl := [y.curpid] + y.pr.drl, waitin := y.pr.waitin[y.curpid := false])).Ok(n, -1, 0)
  {
    hide EvOk, Side, Conserved;
    SysSizes(y, n, -1, 0);
    StartedOk(y.pr, y.s.evflg, y.task, y.curpid);
  }

  // A process back in its own program: no event pending, no flag left, nothing waited for.
  ghost predicate Rested(y: Sys, p: nat) {
    y.Runs(p) && p < |y.s.evlist| == |y.s.evflg| == |y.pr.evwait| && y.s.evlist[p] == [] && y.s.evflg[p] == {} && y.pr.evwait[p] == {}
  }

  lemma RestedRuns(y: Sys, p: nat)
    ensures Rested(y, p) ==> y.Runs(p)
  {
  }

  lemma AtFirst(y: Sys, n: nat)
    requires |y.s.evb| == |y.s.eul| == EVBS_PER_PD * n && Conserved(y.s.eul, y.s.evlist, EVBS_PER_PD * n)
    requires y.s.evlist == seq(n, _ => []) && y.s.chain == seq(3 + 5 * n, _ => []) && y.s.evflg == seq(n, _ => {})
    requires n > 0 && y.pr == Procs([0], [], [], seq(n, _ => false), seq(n, _ => {})) && y.task == seq(n, _ => Free)
    requires y.curpid == 1 && y.tas == 0 && y.owner == -1 && y.keys == seq(n, _ => []) && y.qindex == seq(n, _ => 0)
    ensures y.Ok(n, -1, 0)
  {
    forall x: nat ensures Held(y.s.chain, x) == 0 == Held(y.s.evlist, x) == Held([y.pr.drl, y.pr.nrl], x) {
      NoneHeldAt(y.s.chain, x);
      NoneHeldAt(y.s.evlist, x);
      TwoLists([], [], x);
    }
    NoTotal(y.s.evlist);
    forall p | 0 <= p < n ensures TaskOk(y.s, y.pr.evwait, y.task, p) {
    }
  }

  lemma NoLines(y: Sys, n: nat)
    requires y.s.evlist == seq(n, _ => []) && y.s.chain == seq(3 + 5 * n, _ => []) && y.qindex == seq(n, _ => 0)
    ensures Std(y.s, y.qindex)
  {
  }

  lemma NoBytes(st: Store, n: nat, qindex: seq<int>)
    requires st.queues == seq(n, _ => seq(QUEUE_SIZE, _ => 0)) && st.mail == NoMail(EVBS_PER_PD * n)
    requires |st.inbox| == n && qindex == seq(n, _ => 0)
    ensures StoreOk(st, n, qindex) && PlainStore(st, qindex)
  {
  }

  lemma {:induction false} NoTotal(lists: seq<seq<nat>>)
    requires forall w :: 0 <= w < |lists| ==> lists[w] == []
    ensures Total(lists) == 0
  {
    if lists != [] {
      assert lists[0] == [];
      NoTotal(lists[1..]);
    }
  }

  lemma Busy1(y: Sys, n: nat, p: nat)
    requires y.Ok(n, -1, 0) && y.Runs(p)
    ensures y.Ok(n, p, 0) && MasksOf(y, p) == {} && p < n
  {
    Busy(y, n, p);
  }

  lemma Meets(m: Mask, y: Sys, p: nat)
    ensures p < |y.s.evflg| && {m} * y.s.evflg[p] != {} ==> m in y.s.evflg[p]
  {
  }

  // The process that is run again is the busy one, with its blocks as it left them.
  lemma BackOk(y: Sys, n: nat, p: nat)
    requires y.Ok(n, -1, 0) && y.pr.rlr != [] && y.pr.rlr[0] == p && p < |y.task| && y.task[p].Blocked?
    ensures Resumed(y, p).Ok(n, p, 0) && Resumed(y, p).Runs(p) && p < |y.s.evflg| == |y.pr.evwait|
    ensures MasksOf(Resumed(y, p), p) == y.task[p].m == y.pr.evwait[p] && y.task[p].m * y.s.evflg[p] != {}
  {
    ResumedOk(y, n, p);
  }

  // With its one event collected a process is at rest.
  lemma RestedOk(y: Sys, z: Sys, n: nat, p: nat, m: Mask, r: int)
    requires z.Ok(n, p, 0) && Collected1(y, z, p, m, r) && MasksOf(y, p) == {m} && p < |y.pr.evwait| && y.pr.evwait[p] == {m}
    requires y.Ok(n, p, 0)
    ensures z.Ok(n, -1, 0) && Rested(z, p) && Returned(y.s.evb, y.s.evlist, p, m, r)
  {
    SysSizes(z, n, p, 0);
    NoMasks(z, p);
    Idle(z, n, p);
    AllDone(z, n, p, 0, p);
  }

  // The process at the head is on its way out of mwait() or of its own accord.
  ghost predicate Leaving(y: Sys) {
    && y.pr.rlr != [] && y.pr.rlr[0] < |y.pr.waitin| == |y.task|
    && (y.pr.waitin[y.pr.rlr[0]] <==> y.task[y.pr.rlr[0]].Blocked?)
  }

  lemma LeaveOk(y: Sys, n: nat)
    requires y.Ok(n, -1, 1) && Leaving(y)
    ensures var p := y.pr.rlr[0];
            && p < |y.pr.waitin| == |y.pr.evwait| == |y.s.evflg|
            && (y.pr.waitin[p] && y.pr.evwait[p] * y.s.evflg[p] == {} ==> y.(pr := Slept(y.pr)).Ok(n, -1, 0))
            && (!(y.pr.waitin[p] && y.pr.evwait[p] * y.s.evflg[p] == {}) ==> y.(pr := Requeued(y.pr)).Ok(n, -1, 0))
  {
    hide EvOk, Side, Conserved;
    SysSizes(y, n, -1, 1);
    var p := y.pr.rlr[0];
    if y.pr.waitin[p] && y.pr.evwait[p] * y.s.evflg[p] == {} {
      SleptOk(y.pr, y.s.evflg, y.task, y.curpid);
    } else {
      RequeuedOk(y.pr, y.s.evflg, y.task, y.curpid);
    }
  }

  lemma SleptIs(y: Sys, z: Sys)
    requires y.pr.rlr != [] && z == y.(pr := y.pr.(rlr := y.pr.rlr[1..], nrl := [y.pr.rlr[0]] + y.pr.nrl))
    ensures z == y.(pr := Slept(y.pr))
  {
  }

  lemma RequeuedIs(y: Sys, z: Sys)
    requires y.pr.rlr != [] && y.pr.rlr[0] < |y.pr.waitin|
    requires z == y.(pr := y.pr.(rlr := y.pr.rlr[1..] + [y.pr.rlr[0]], waitin := y.pr.waitin[y.pr.rlr[0] := false]))
    ensures z == y.(pr := Requeued(y.pr))
  {
  }

  lemma WaitsOn(y: Sys, n: nat, p: nat, m: set<Mask>)
    requires y.Ok(n, p, 0) && y.Runs(p)
    ensures p < |y.pr.evwait| && y.(pr := y.pr.(evwait := y.pr.evwait[p := m])).Ok(n, p, 0)
    ensures MasksOf(y.(pr := y.pr.(evwait := y.pr.evwait[p := m])), p) == MasksOf(y, p)
  {
    hide EvOk, Side, Conserved;
    SysSizes(y, n, p, 0);
    SelfWaits(y.pr, y.s.evflg, y.task, y.curpid, p, m);
    TasksOther(y.s, y.s, y.pr.evwait, y.pr.evwait[p := m], y.task, y.task, p);
  }

  lemma MustWait(y: Sys, n: nat, p: nat, m: set<Mask>)
    requires y.Ok(n, p, 0) && y.Runs(p) && MasksOf(y, p) == m && |m| <= EVBS_PER_PD
    requires p < |y.s.evflg| && m * y.s.evflg[p] == {}
    ensures p < |y.task| == |y.pr.waitin| == |y.pr.evwait| && Waits(y, p, m).Ok(n, -1, 1)
  {
    SysSizes(y, n, p, 0);
    WaitsOk(y, n, p, m);
  }

  lemma WaitsIs(y: Sys, p: nat, m: set<Mask>, z: Sys)
    requires p < |y.task| == |y.pr.waitin| == |y.pr.evwait| && y.Runs(p)
    requires z == y.(task := y.task[p := Blocked(m)],
                     pr := y.pr.(waitin := y.pr.waitin[p := true], evwait := y.pr.evwait[p := m]))
    ensures z == Waits(y, p, m) && Leaving(z)
  {
  }

  // The process goes to sleep.
  lemma WaitsLeave(y: Sys, p: nat, m: set<Mask>)
    requires y.Runs(p) && p < |y.task| == |y.pr.waitin| == |y.pr.evwait| == |y.s.evflg| && m * y.s.evflg[p] == {}
    ensures Leaving(Waits(y, p, m))
    ensures Left1(Waits(y, p, m)) ==
            y.(task := y.task[p := Blocked(m)],
               pr := y.pr.(rlr := y.pr.rlr[1..], nrl := [p] + y.pr.nrl, waitin := y.pr.waitin[p := true], evwait := y.pr.evwait[p := m]))
  {
  }

  lemma ReadyOk(y: Sys, n: nat)
    requires y.Ok(n, -1, 0) && y.pr.drl != []
    ensures y.pr.drl[0] < |y.pr.waitin| && y.(pr := Readied(y.pr)).Ok(n, -1, 0)
  {
    hide EvOk, Side, TasksOk, Readied;
    ReadiedOk(y.pr, y.s.evflg, y.task, y.curpid);
    ReadiedSame(y.pr);
  }

  lemma ReadiedSame(pr: Procs)
    requires pr.drl != [] && pr.drl[0] < |pr.waitin|
    ensures Readied(pr).evwait == pr.evwait
  {
  }

  // No process on the drl is marked as waiting.
  lemma AwakeThere(y: Sys, n: nat)
    requires y.Ok(n, -1, 0) && y.pr.drl != []
    ensures y.pr.drl[0] < |y.pr.waitin| && y.pr.waitin[y.pr.drl[0] := false] == y.pr.waitin
  {
    hide EvOk, Side, TasksOk, Conserved;
    assert Runnable(y.pr, y.s.evflg, y.task, y.pr.drl[0]);
  }

  lemma LookedIs(w: Sys, z: Sys, forks: seq<Fork>, mouse: int, at: nat, next: nat, awake: bool, polls: seq<seq<Fork>>)
    requires at <= next <= |polls| && (next == at ==> at == |polls|)
    requires z == w.(pr := w.pr.(rlr := w.pr.rlr + w.pr.drl, drl := []))
    requires var l := if next > at then polls[next - 1] else []; forks == if |l| <= NFORKS then l else l[..NFORKS]
    requires next > at + 1 ==> z.pr.rlr == []
    requires forall i :: at <= i < next - 1 ==> polls[i] == []
    requires (awake <==> z.pr.rlr != [] || forks != []) && (!awake ==> next == |polls|)
    ensures Looked(w, Stage(z, forks, mouse, next), at, polls)
  {
  }

  // The process at the head leaves the dispatcher's ready list: it goes to sleep when it waits for
  // events and none of them has come, else to the end of the list.
  ghost function Left1(y: Sys): Sys
    requires Leaving(y)
  {
    var p := y.pr.rlr[0];
    if y.pr.waitin[p] && p < |y.pr.evwait| && p < |y.s.evflg| && y.pr.evwait[p] * y.s.evflg[p] == {}
    then y.(pr := Slept(y.pr)) else y.(pr := Requeued(y.pr))
  }

  lemma ReadyIs(y: Sys, z: Sys)
    requires y.pr.drl != [] && y.pr.drl[0] < |y.pr.waitin|
    requires z == y.(pr := y.pr.(drl := y.pr.drl[1..], rlr := y.pr.rlr + [y.pr.drl[0]], waitin := y.pr.waitin[y.pr.drl[0] := false]))
    ensures z == y.(pr := Readied(y.pr))
  {
  }

  // tchange() under way: fired timers are gone, c of the ticks are left to spend.
  ghost predicate Ticking(d: seq<int>, e: seq<int>, fired: nat, c0: int, c: int) {
    fired <= |d| && e == d[fired..] && c == c0 - Before(d, fired) && c >= 0
  }

  lemma TickingStart(d: seq<int>, c: int)
    requires c >= 0
    ensures Ticking(d, d, 0, c, c)
  {
  }

  lemma TickingFire(d: seq<int>, e: seq<int>, fired: nat, c0: int, c: int)
    requires Ticking(d, e, fired, c0, c) && e != [] && e[0] <= c
    ensures fired < |d| && Ticking(d, e[1..], fired + 1, c0, c - e[0])
  {
  }

  lemma TickingStop(d: seq<int>, e: seq<int>, fired: nat, c0: int, c: int)
    requires Ticking(d, e, fired, c0, c) && e != [] && e[0] > c
    ensures Expired(d, fired, c0) && e[0 := e[0] - c] == Lowered(d, fired, c0)
  {
  }

  lemma TickingEnd(d: seq<int>, e: seq<int>, fired: nat, c0: int, c: int)
    requires Ticking(d, e, fired, c0, c) && e == []
    ensures Expired(d, fired, c0) && e == Lowered(d, fired, c0)
  {
  }

  // tchange() under way: the first timers are over, and only they.
  ghost predicate OnlyFired(y: Sys, z: Sys, fired: nat) {
    && OnlyEnds(y, z) && OnlyTimers(y, z) && |y.s.chain| > DLR && fired <= |y.s.chain[DLR]|
    && z.s.chain[DLR] == y.s.chain[DLR][fired..] && z.s.chain[ZLR] == Rev(y.s.chain[DLR][..fired]) + y.s.chain[ZLR]
    && (forall d :: DLR < d < |y.s.chain| ==> z.s.chain[d] == y.s.chain[d])
  }

  lemma NoneFired(y: Sys)
    requires |y.s.chain| > DLR
    ensures OnlyFired(y, y, 0)
  {
    assert y.s.chain[DLR][..0] == [];
  }

  lemma OneFired(y: Sys, z: Sys, w: Sys, fired: nat)
    requires OnlyFired(y, z, fired) && |z.s.chain| > DLR && z.s.chain[DLR] != [] && OnlyEnds(z, w) && OnlyTimers(z, w)
    requires w.s.chain == z.s.chain[DLR := z.s.chain[DLR][1..]][ZLR := [z.s.chain[DLR][0]] + z.s.chain[ZLR]]
    ensures OnlyFired(y, w, fired + 1)
  {
    var l := y.s.chain[DLR];
    assert l[..fired + 1] == l[..fired] + [l[fired]];
    RevSnoc(l[..fired], l[fired]);
    OnlyEndsTwice(y, z, w);
  }

  lemma OnlyFiredAgain(y: Sys, z: Sys, w: Sys, fired: nat)
    requires OnlyFired(y, z, fired) && w == z.(s := z.s.(evb := w.s.evb)) && SameEvents(z.s.evb, w.s.evb) && OnlyTimers(z, w)
    ensures OnlyFired(y, w, fired)
  {
  }

  lemma AllTimedOut(y: Sys, z: Sys, n: nat, ex: int, skip: nat, fired: nat)
    requires OnlyFired(y, z, fired) && y.Ok(n, ex, skip) && z.Ok(n, ex, skip)
    ensures |y.s.chain| > DLR && fired <= |y.s.chain[DLR]| && forall i :: 0 <= i < fired ==> TimedOut(z, y.s.chain[DLR][i])
  {
    hide Sys.Ok;
    var l := y.s.chain[DLR];
    forall i | 0 <= i < fired ensures TimedOut(z, l[i]) {
      RevAt(l[..fired], i);
      var k := fired - 1 - i;
      assert z.s.chain[ZLR][k] == l[i];
      ZombieFlag(z, n, ex, skip, k);
      TimerMask(y, n, ex, skip, i);
    }
  }

  lemma TimerMask(y: Sys, n: nat, ex: int, skip: nat, i: nat)
    requires y.Ok(n, ex, skip) && |y.s.chain| > DLR && i < |y.s.chain[DLR]|
    ensures y.s.chain[DLR][i] < |y.s.evb| && y.s.evb[y.s.chain[DLR][i]].mask == TIMER
  {
    NotDone(y.s, DLR, i);
  }

  lemma TimersFiredIs(y: Sys, z: Sys, n: nat, ex: int, skip: nat, fired: nat, c: int)
    requires OnlyFired(y, z, fired) && y.Ok(n, ex, skip) && z.Ok(n, ex, skip) && InRange(y.s) && InRange(z.s)
    requires |y.s.chain| > DLR && |z.s.chain| > DLR && Expired(Deltas(y.s), fired, c) && Deltas(z.s) == Lowered(Deltas(y.s), fired, c)
    ensures TimersFired(y, z, fired, c)
  {
    hide Sys.Ok, InRange, Expired, Lowered, TimedOut;
    AllTimedOut(y, z, n, ex, skip, fired);
  }

  // post_button() under way: the first d waits have been looked at, and i of them stay.
  ghost predicate Posting(y: Sys, z: Sys, c: nat, rets: map<nat, int>, parm: int, d: nat, i: nat) {
    && OnlyEnds(y, z) && DLR < c < |y.s.chain| && d <= |y.s.chain[c]|
    && var l := y.s.chain[c];
       && z.s.chain[c] == Others(l[..d], rets.Keys) + l[d..] && i == |Others(l[..d], rets.Keys)|
       && z.s.chain[ZLR] == Rev(Those(l[..d], rets.Keys)) + y.s.chain[ZLR]
       && (forall e :: ZLR < e < |y.s.chain| && e != c ==> z.s.chain[e] == y.s.chain[e])
       && EndedWith(y.s.evb, z.s.evb, Those(l[..d], rets.Keys), parm, rets)
  }

  lemma NonePosted(y: Sys, c: nat, rets: map<nat, int>, parm: int)
    requires DLR < c < |y.s.chain|
    ensures Posting(y, y, c, rets, parm, 0, 0)
  {
    assert y.s.chain[c][..0] == [];
  }

  lemma PostingHere(y: Sys, z: Sys, c: nat, rets: map<nat, int>, parm: int, d: nat, i: nat)
    requires Posting(y, z, c, rets, parm, d, i) && i < |z.s.chain[c]|
    ensures d < |y.s.chain[c]| && z.s.chain[c][i] == y.s.chain[c][d]
  {
  }

  lemma OneStays(y: Sys, z: Sys, c: nat, rets: map<nat, int>, parm: int, d: nat, i: nat)
    requires Posting(y, z, c, rets, parm, d, i) && d < |y.s.chain[c]| && y.s.chain[c][d] !in rets.Keys
    ensures Posting(y, z, c, rets, parm, d + 1, i + 1)
  {
    var l := y.s.chain[c];
    assert l[..d + 1] == l[..d] + [l[d]];
    SortedOut(l[..d], rets.Keys, l[d]);
    OthersSortedOut(l[..d], rets.Keys, l[d]);
    assert Those(l[..d + 1], rets.Keys) == Those(l[..d], rets.Keys);
  }

  lemma OnePosted(y: Sys, z: Sys, n: nat, ex: int, skip: nat, c: nat, rets: map<nat, int>, parm: int, d: nat, i: nat)
    requires Posting(y, z, c, rets, parm, d, i) && d < |y.s.chain[c]| && y.s.chain[c][d] in rets.Keys && CanFire(z, c, i)
    requires i < |z.s.chain[c]| && z.s.chain[c][i] == y.s.chain[c][d] && z.Ok(n, ex, skip)
    ensures Posting(y, Fired(z, c, i, parm, ValueOf(rets, y.s.chain[c][d])), c, rets, parm, d + 1, i)
    ensures var w := Fired(z, c, i, parm, ValueOf(rets, y.s.chain[c][d])); c < |w.s.chain| == |z.s.chain| && |w.s.chain[c]| == |z.s.chain[c]| - 1
  {
    hide Sys.Ok, Fired, EndedWith, Rev, Those, Others;
    var l, w := y.s.chain[c], Fired(z, c, i, parm, ValueOf(rets, y.s.chain[c][d]));
    assert l[..d + 1] == l[..d] + [l[d]];
    SortedOut(l[..d], rets.Keys, l[d]);
    OthersSortedOut(l[..d], rets.Keys, l[d]);
    RevSnoc(Those(l[..d], rets.Keys), l[d]);
    FiredChain(z, c, i, parm, ValueOf(rets, l[d]));
    FiredOnlyEnds(z, c, i, parm, ValueOf(rets, l[d]));
    OnlyEndsTwice(y, z, w);
    NotYet(y, z, n, ex, skip, c, rets, parm, d, i);
    EndedMore(y.s.evb, z.s.evb, w.s.evb, Those(l[..d], rets.Keys), l[d], parm, rets);
  }

  // The block that is looked at is not one of those completed before.
  lemma NotYet(y: Sys, z: Sys, n: nat, ex: int, skip: nat, c: nat, rets: map<nat, int>, parm: int, d: nat, i: nat)
    requires Posting(y, z, c, rets, parm, d, i) && i < |z.s.chain[c]| && z.Ok(n, ex, skip)
    ensures z.s.chain[c][i] !in Those(y.s.chain[c][..d], rets.Keys) && z.s.chain[c][i] < |z.s.evb|
  {
    hide ProcOk, TasksOk, Side, Those, Others;
    NotDone(z.s, c, i);
  }

  lemma EndedMore(a: seq<Evb>, b: seq<Evb>, w: seq<Evb>, l: seq<nat>, x: nat, parm: int, rets: map<nat, int>)
    requires EndedWith(a, b, l, parm, rets) && x < |b| && x !in l && w == b[x := Zombie(b[x], parm, ValueOf(rets, x))]
    ensures EndedWith(a, w, l + [x], parm, rets)
  {
  }

  lemma Posted(y: Sys, z: Sys, c: nat, rets: map<nat, int>, parm: int, d: nat, i: nat)
    requires Posting(y, z, c, rets, parm, d, i) && i >= |z.s.chain[c]|
    ensures AllPosted(y, z, c, rets, parm)
  {
    assert y.s.chain[c][..d] == y.s.chain[c];
  }

  lemma TakenKeeps(y: Sys, n: nat, p: nat, i: nat, k: nat, m: Mask, std: bool)
    requires y.Ok(n, p, 0) && y.Runs(p) && InRange(y.s) && p < |y.s.evlist| && i < |y.s.evlist[p]|
    requires |y.s.chain| > ZLR && k < |y.s.chain[ZLR]| && y.s.evlist[p][i] == y.s.chain[ZLR][k]
    requires m == y.s.evb[y.s.evlist[p][i]].mask && (std ==> Std(y.s, y.qindex))
    ensures CanTake(y, p, i, k) && Taken(y, p, i, k).Ok(n, p, 0) && Collected1(y, Taken(y, p, i, k), p, m, y.s.evb[y.s.evlist[p][i]].ret)
    ensures std ==> Std(Taken(y, p, i, k).s, y.qindex)
  {
    hide Sys.Ok, MasksOf, Taken, InRange, Std, Collected1;
    TakenOk(y, n, p, i, k);
    if std {
      TakenStd(y, n, p, i, k);
    }
    TakenDone(y, p, i, k, m);
  }

  // What iasync() does for what is asked.
  ghost predicate Answered(a: Ask, found: bool, y: Sys, z: Sys, n: nat, p: nat, parm: int) {
    match a
    case AskKey => KeyAsked(y, z, p, parm)
    case AskButton(sat) => if sat then Over(y, z, p, BUTTON, parm, 1) else Pending(y, z, p, BUTTON, 0, Bt(n, p))
    case AskMouse(m, sat) => if sat then Over(y, z, p, m, parm, 0) else Pending(y, z, p, m, 0, Mo(n, p))
    case AskMesag(from, cnt) => Queued(y, z, n, p, MESAG, from, false, cnt, found, parm)
    case AskTimer(c) =>
      z.s.evflg == y.s.evflg && exists j: nat :: DelayAsked(y, z, p, j) && TicksPut(y, z, j, if c == 0 then 1 else c)
    case AskSend(to, cnt, _) => Queued(y, z, n, p, SDMSG, to, true, cnt, found, parm)
    case AskMutex => MutexAsked(y, z, n, p, parm)
  }

  lemma DelayAnswer(y: Sys, z: Sys, p: nat, j: nat, c: int)
    requires DelayAsked(y, z, p, j) && TicksPut(y, z, j, if c == 0 then 1 else c)
    ensures exists j: nat :: DelayAsked(y, z, p, j) && TicksPut(y, z, j, if c == 0 then 1 else c)
  {
    hide DelayAsked, TicksPut;
  }

  // The semaphore went to the process whose wait was at the front of the chain, and it knows.
  ghost predicate HandedTo(evb: seq<Evb>, l: seq<nat>, owner: int, evflg: seq<set<Mask>>) {
    l != [] && l[0] < |evb| && owner == evb[l[0]].pd && 0 <= owner < |evflg| && MUTEX in evflg[owner]
  }

  lemma SemLess(y: Sys, n: nat, ex: int, skip: nat)
    requires y.Ok(n, ex, skip) && y.tas > 1
    ensures InRange(y.s) && SemOk(y.s, y.tas - 1, y.owner)
  {
  }

  lemma SemFree(y: Sys, n: nat, ex: int, skip: nat)
    requires y.Ok(n, ex, skip) && |y.s.chain| == 3 + 5 * n && y.s.chain[Sy(n)] == []
    ensures InRange(y.s) && SemOk(y.s, 0, -1)
  {
  }

  // After the hand-over the other waiters wait for the new owner: none of them is that process, as
  // no process waits twice for one event.
  lemma HandOver(y: Sys, n: nat, ex: int, skip: nat, z: Sys, parm: int)
    requires y.Ok(n, ex, skip) && |y.s.chain| == 3 + 5 * n && y.s.chain[Sy(n)] != [] && CanFire(y, Sy(n), 0)
    requires z == Fired(y, Sy(n), 0, parm, 0) && z.Ok(n, ex, skip)
    ensures InRange(z.s) && y.s.chain[Sy(n)][0] < |y.s.evb| && SemOk(z.s, 1, y.s.evb[y.s.chain[Sy(n)][0]].pd)
    ensures HandedTo(y.s.evb, y.s.chain[Sy(n)], y.s.evb[y.s.chain[Sy(n)][0]].pd, z.s.evflg)
  {
    hide ProcOk, TasksOk, Kept, Chained, Done, Flagged, Woken;
    var e := y.s.chain[Sy(n)][0];
    var p, i := OnList(y.s, Sy(n), 0);
    FiredChain(y, Sy(n), 0, parm, 0);
    forall k | 0 < k < |y.s.chain[Sy(n)]| ensures y.s.evb[y.s.chain[Sy(n)][k]].pd != p {
      var q, j := OnList(y.s, Sy(n), k);
      ChainApart(y.s, Sy(n), 0, Sy(n), k);
    }
    CutIn(y.s.chain[Sy(n)], 0);
    SemMoved(y, n, z, parm, p);
  }

  lemma SemMoved(y: Sys, n: nat, z: Sys, parm: int, p: nat)
    requires InRange(y.s) && InRange(z.s) && |y.s.evlist| == n && SemOk(y.s, y.tas, y.owner) && p < n
    requires y.s.chain[Sy(n)] != [] && CanFire(y, Sy(n), 0) && z == Fired(y, Sy(n), 0, parm, 0)
    requires forall k :: 0 < k < |y.s.chain[Sy(n)]| ==> y.s.evb[y.s.chain[Sy(n)][k]].pd != p
    ensures SemOk(z.s, 1, p)
  {
    hide Woken;
    CutIn(y.s.chain[Sy(n)], 0);
  }

  // acancel() under way: the first i events left are completed or none of those to cancel; m1 are
  // the masks of the former, and what was given up is waited for no more and has no flag.
  ghost predicate Cancelling(y: Sys, z: Sys, p: nat, i: nat, m: set<Mask>, m1: set<Mask>) {
    && InRange(z.s) && p < |z.s.evlist| && i <= |z.s.evlist[p]| && z.s.evflg == y.s.evflg && p < |z.s.evflg|
    && (forall j :: 0 <= j < i ==> z.s.evb[z.s.evlist[p][j]].complete || z.s.evb[z.s.evlist[p][j]].mask !in m)
    && m1 == Masks(z.s.evb, z.s.evlist[p][..i]) * m
    && MasksOf(z, p) <= MasksOf(y, p) && p < |z.pr.evwait| && p < |y.pr.evwait|
    && MasksOf(y, p) - MasksOf(z, p) <= m - z.s.evflg[p]
    && z.pr.evwait[p] == y.pr.evwait[p] - (MasksOf(y, p) - MasksOf(z, p))
  }

  lemma CancelStart(y: Sys, p: nat, m: set<Mask>)
    requires InRange(y.s) && p < |y.s.evlist| == |y.s.evflg| && p < |y.pr.evwait|
    ensures Cancelling(y, y, p, 0, m, {})
  {
    assert Masks(y.s.evb, y.s.evlist[p][..0]) == {};
    assert MasksOf(y, p) - MasksOf(y, p) == {};
  }

  lemma CancelHere(y: Sys, z: Sys, n: nat, p: nat, i: nat, m: set<Mask>, m1: set<Mask>)
    requires Cancelling(y, z, p, i, m, m1) && z.Ok(n, p, 0)
    ensures InRange(z.s) && p < |z.s.evlist| && i <= |z.s.evlist[p]|
    ensures i < |z.s.evlist[p]| ==> !z.s.evb[z.s.evlist[p][i]].nocancel
  {
  }

  lemma CancelSkip(y: Sys, z: Sys, p: nat, i: nat, m: set<Mask>, m1: set<Mask>)
    requires Cancelling(y, z, p, i, m, m1) && InRange(z.s) && p < |z.s.evlist| && i < |z.s.evlist[p]|
    ensures var b := z.s.evb[z.s.evlist[p][i]];
            b.complete || b.mask !in m ==> Cancelling(y, z, p, i + 1, m, if b.mask in m then m1 + {b.mask} else m1)
  {
    MasksMore(z.s.evb, z.s.evlist[p], i);
  }

  lemma CancelLost(y: Sys, z: Sys, w: Sys, n: nat, p: nat, i: nat, m: set<Mask>, m1: set<Mask>)
    requires Cancelling(y, z, p, i, m, m1) && Lost(z, w, p, i) && InRange(w.s) && z.Ok(n, p, 0)
    requires !z.s.evb[z.s.evlist[p][i]].complete && z.s.evb[z.s.evlist[p][i]].mask in m
    ensures Cancelling(y, w, p, i, m, m1) && |w.s.evlist[p]| == |z.s.evlist[p]| - 1
  {
    hide Sys.Ok;
    var l, l' := z.s.evlist[p], w.s.evlist[p];
    CutIn(l, i);
    NotFlagged(z, n, p, i);
    assert l'[..i] == l[..i];
    assert Masks(w.s.evb, l'[..i]) == Masks(z.s.evb, l[..i]);
    assert z.s.evb[l[i]].mask in MasksOf(z, p);
  }

  // An event that is not completed has no flag.
  lemma NotFlagged(y: Sys, n: nat, p: nat, i: nat)
    requires y.Ok(n, p, 0) && p < |y.s.evlist| && i < |y.s.evlist[p]| && InRange(y.s) && !y.s.evb[y.s.evlist[p][i]].complete
    ensures p < |y.s.evflg| && y.s.evb[y.s.evlist[p][i]].mask !in y.s.evflg[p]
  {
    var l, m := y.s.evlist[p], y.s.evb[y.s.evlist[p][i]].mask;
    forall j | 0 <= j < |l| && y.s.evb[l[j]].complete ensures y.s.evb[l[j]].mask != m {
      assert j < i || i < j;
    }
    assert !HasDone(y.s.evb, l, m);
  }

  lemma CancelEnd(y: Sys, z: Sys, n: nat, p: nat, i: nat, m: set<Mask>, m1: set<Mask>)
    requires Cancelling(y, z, p, i, m, m1) && i == |z.s.evlist[p]| && z.Ok(n, p, 0)
    ensures p < |z.s.evflg| && p < |z.pr.evwait| && p < |y.pr.evwait| && m1 == z.s.evflg[p] * m
    ensures MasksOf(z, p) == MasksOf(y, p) - (m - z.s.evflg[p])
    ensures z.pr.evwait[p] == y.pr.evwait[p] - (MasksOf(y, p) * m - z.s.evflg[p])
  {
    var l, flags := z.s.evlist[p], z.s.evflg[p];
    assert l[..i] == l;
    FlagsAsked(z, n, p);
    forall e | e in MasksOf(z, p) && e in m ensures e in flags {
      var j :| 0 <= j < |l| && z.s.evb[l[j]].mask == e;
      assert z.s.evb[l[j]].complete;
    }
    assert MasksOf(z, p) == MasksOf(y, p) - (m - flags);
    assert MasksOf(y, p) - MasksOf(z, p) == MasksOf(y, p) * m - flags;
  }

  // What is given up next is one of those to be.
  lemma MoreGone(y: Sys, z: Sys, p: nat, gone: set<nat>, i: nat, m: set<Mask>)
    requires GivenUp(y, z, p, gone) && InRange(z.s) && i < |z.s.evlist[p]|
    requires !z.s.evb[z.s.evlist[p][i]].complete && z.s.evb[z.s.evlist[p][i]].mask in m
    ensures z.s.evlist[p][i] in GoneOf(y.s, p, m)
  {
    hide Others, DueKept;
    OthersHas(y.s.evlist[p], gone, z.s.evlist[p][i]);
  }

  lemma CancelAll(y: Sys, z: Sys, p: nat, i: nat, m: set<Mask>, m1: set<Mask>, gone: set<nat>)
    requires Cancelling(y, z, p, i, m, m1) && i >= |z.s.evlist[p]| && GivenUp(y, z, p, gone) && gone <= GoneOf(y.s, p, m)
    ensures gone == GoneOf(y.s, p, m)
  {
    hide Masks, MasksOf, GivenUp, GoneOf;
    AllGivenUp(y, z, p, m, gone);
  }

  lemma ChainedAt(y: Sys, n: nat, p: nat, i: nat)
    requires y.Ok(n, p, 0) && p < |y.s.evlist| && i < |y.s.evlist[p]|
    ensures exists d, l :: 0 <= d < |y.s.chain| && 0 <= l < |y.s.chain[d]| && y.s.chain[d][l] == y.s.evlist[p][i]
  {
    var c, k := OnChain(y.s, p, i);
  }

  // An event that is not completed is on one of the waiting chains.
  lemma WaitsThere(y: Sys, n: nat, p: nat, i: nat, c: nat, k: nat)
    requires y.Ok(n, p, 0) && p < |y.s.evlist| && i < |y.s.evlist[p]| && c < |y.s.chain| && k < |y.s.chain[c]|
    requires y.s.chain[c][k] == y.s.evlist[p][i] && InRange(y.s) && !y.s.evb[y.s.evlist[p][i]].complete
    ensures ZLR < c && DLR < |y.s.chain| && (y.s.evb[y.s.evlist[p][i]].delay <==> c == DLR)
  {
    NotDone(y.s, c, k);
  }

  // No block's mask or state changed, only its parameter.
  ghost predicate SameEvents(evb: seq<Evb>, evb': seq<Evb>) {
    SameBlocks(evb, evb') && forall x :: 0 <= x < |evb| ==> evb'[x].nocancel == evb[x].nocancel
  }

  // The first entry of the delay list is the first timer's.
  ghost predicate TicksAt(y: Sys)
    requires InRange(y.s) && |y.s.chain| > DLR
  {
    y.s.chain[DLR] != [] ==> y.s.chain[DLR][0] < |y.s.evb| && Deltas(y.s)[0] == y.s.evb[y.s.chain[DLR][0]].parm
  }

  lemma TicksHere(y: Sys, n: nat, ex: int, skip: nat, k: nat)
    requires y.Ok(n, ex, skip)
    ensures InRange(y.s) && |y.s.chain| > DLR && Ticks(Deltas(y.s)) && TicksAt(y)
    ensures k < |y.s.chain[DLR]| ==> y.s.chain[DLR][k] < |y.s.evb| && Deltas(y.s)[k] == y.s.evb[y.s.chain[DLR][k]].parm
  {
  }

  lemma RemovedIs(d: seq<int>, k: nat, e: seq<int>)
    requires k < |d| && e == if k + 1 < |d| then d[k + 1 := d[k + 1] + d[k]] else d
    ensures Cut(e, k) == Removed(d, k)
  {
  }

  lemma FlagMeets(y: Sys, p: nat, m: Mask)
    ensures Flag(y, p, m) <==> p < |y.s.evflg| && {m} * y.s.evflg[p] != {}
  {
    if Flag(y, p, m) {
      assert m in {m} * y.s.evflg[p];
    }
  }

  lemma PendingFlags(y: Sys, p: nat, b: Evb, c: nat, j: nat)
    requires CanIssue(y, p, c, j) && !b.complete
    ensures Issue1(y, p, b, c, j).s.evflg == y.s.evflg
  {
  }

  // What apret() leaves: the event is gone from the process's list, flags and waits, and the value
  // is the one left with it.
  ghost predicate Collected1(y: Sys, z: Sys, p: nat, m: Mask, r: int) {
    && z.Runs(p) && MasksOf(z, p) == MasksOf(y, p) - {m} && p < |y.s.evflg| == |z.s.evflg| && p < |y.pr.evwait| == |z.pr.evwait|
    && (m !in MasksOf(y, p) ==> z == y && r == 0)
    && (m in MasksOf(y, p) ==>
         z.s.evflg[p] == y.s.evflg[p] - {m} && z.pr.evwait[p] == y.pr.evwait[p] - {m} && Returned(y.s.evb, y.s.evlist, p, m, r))
  }

  lemma NoneCollected(y: Sys, p: nat, m: Mask)
    requires y.Runs(p) && m !in MasksOf(y, p) && p < |y.s.evflg| && p < |y.pr.evwait|
    ensures Collected1(y, y, p, m, 0)
  {
  }

  lemma TakenDone(y: Sys, p: nat, i: nat, k: nat, m: Mask)
    requires CanTake(y, p, i, k) && m == y.s.evb[y.s.evlist[p][i]].mask && Taken(y, p, i, k).Runs(p) && InRange(y.s)
    requires MasksOf(Taken(y, p, i, k), p) == MasksOf(y, p) - {m}
    ensures Collected1(y, Taken(y, p, i, k), p, m, y.s.evb[y.s.evlist[p][i]].ret)
  {
    assert m in MasksOf(y, p);
  }

  // The value left with the completed event.
  ghost predicate Returned(evb: seq<Evb>, evlist: seq<seq<nat>>, p: nat, m: Mask, r: int) {
    p < |evlist| && exists i :: 0 <= i < |evlist[p]| && evlist[p][i] < |evb| && evb[evlist[p][i]].mask == m && evb[evlist[p][i]].ret == r
  }

  // The flag of an event means that its block is completed.
  lemma CompletedAt(y: Sys, n: nat, p: nat, m: Mask, i: nat)
    requires y.Ok(n, p, 0) && p < |y.s.evflg| == |y.s.evlist| && m in y.s.evflg[p] && i < |y.s.evlist[p]|
    requires InRange(y.s) && y.s.evb[y.s.evlist[p][i]].mask == m
    ensures y.s.evb[y.s.evlist[p][i]].complete
    ensures exists d, l :: 0 <= d < |y.s.chain| && 0 <= l < |y.s.chain[d]| && y.s.chain[d][l] == y.s.evlist[p][i]
  {
    assert HasDone(y.s.evb, y.s.evlist[p], m);
    var c, k := OnChain(y.s, p, i);
  }

  lemma OnFirst(y: Sys, n: nat, p: nat, i: nat, c: nat, k: nat)
    requires y.Ok(n, p, 0) && p < |y.s.evlist| && i < |y.s.evlist[p]| && InRange(y.s) && c < |y.s.chain| && k < |y.s.chain[c]|
    requires y.s.chain[c][k] == y.s.evlist[p][i] && y.s.evb[y.s.evlist[p][i]].complete
    ensures c == ZLR
  {
    NotDone(y.s, c, k);
  }

  // A process may wait to write to a pipe without the room, or to read from an empty one.
  lemma WaitQueue(y: Sys, n: nat, p: nat, m: Mask, t: nat, isqwrite: bool, cnt: int)
    requires y.Ok(n, p, 0) && t < n && Lines(y.s, y.qindex) && |y.qindex| == n
    ensures MayWait(n, p, if isqwrite then Qn(n, t) else Qd(n, t), m, y.tas, y.owner, y.keys, y.qindex)
    ensures !Ready(y.qindex[t], isqwrite, cnt) && UsualCount(y.qindex[t], isqwrite, cnt) ==>
      PipeFit(y.qindex, if isqwrite then Qn(n, t) else Qd(n, t), cnt)
  {
    SysSizes(y, n, p, 0);
    PipeChain(y.qindex, t, MSG);
  }

  lemma SemFacts(y: Sys, n: nat, ex: int, skip: nat)
    requires y.Ok(n, ex, skip)
    ensures y.tas >= 0 && (y.tas == 0 <==> y.owner == -1) && InRange(y.s) && SemOk(y.s, y.tas, y.owner)
  {
  }

  // The running process holds the semaphore, for the first time or once more.
  lemma SemTaken(y: Sys, n: nat, p: nat, tas: int)
    requires y.Ok(n, p, 0) && y.Runs(p) && (y.owner == -1 || y.owner == p) && tas == y.tas + 1
    ensures InRange(y.s) && SemOk(y.s, tas, p)
  {
    SysSizes(y, n, p, 0);
  }

  lemma ReticksAsked(y: Sys, z: Sys, w: Sys, p: nat)
    requires Asked(y, z, p, TIMER) && w.task == z.task && w.pr == z.pr && w.curpid == z.curpid && MasksOf(w, p) == MasksOf(z, p)
    ensures Asked(y, w, p, TIMER)
  {
  }

  lemma ZombieSame(b: Evb, parm: int, ret: int)
    ensures Zombie(b, parm, ret).pd == b.pd && Zombie(b, parm, ret).mask == b.mask
  {
  }

  // A timer put on the delay list.
  lemma IssuedTicks(y: Sys, n: nat, p: nat, b: Evb, j: nat, z: Sys)
    requires y.Ok(n, p, 0) && p < |y.s.evlist| && |y.s.chain| > DLR && j <= |y.s.chain[DLR]| && y.s.eul != []
    requires CanIssue(y, p, DLR, j) && z == Issue1(y, p, b, DLR, j)
    requires InRange(y.s) && InRange(z.s)
    ensures |z.s.chain| > DLR && Deltas(z.s) == Put(Deltas(y.s), j, b.parm)
    ensures |z.s.chain[DLR]| == |y.s.chain[DLR]| + 1
  {
    HeadFree(y.s);
    IssuedDeltas(y.s, p, b, j);
  }

  lemma InsertedIs(d: seq<int>, j: nat, r: int, c: int)
    requires j <= |d| && r == c - Before(d, j)
    ensures j < |d| && PlaceFor(d, j, c) ==> r <= d[j]
    ensures j < |d| ==> Put(d, j, r)[j + 1] == d[j] && Put(d, j, r)[j + 1 := d[j] - r] == Inserted(d, j, c)
    ensures j == |d| ==> Put(d, j, r) == Inserted(d, j, c)
  {
  }

  lemma WaitChain(n: nat, p: nat, c: nat, m: Mask, tas: int, owner: int, keys: seq<seq<int>>, qindex: seq<int>)
    requires MayWait(n, p, c, m, tas, owner, keys, qindex)
    ensures c < 3 + 5 * n
  {
  }

  // While a key is queued nobody waits for one.
  lemma NoKeyWait(y: Sys, n: nat, ex: int, skip: nat, p: nat)
    requires y.Ok(n, ex, skip) && p < n
    ensures p < |y.keys| && |y.s.chain| == 3 + 5 * n && (y.keys[p] != [] ==> y.s.chain[Kb(p)] == [])
  {
  }

  lemma {:induction false} FindIs(l: seq<nat>, p: nat, i: nat)
    requires i <= |l| && (i < |l| ==> l[i] == p) && forall k :: 0 <= k < i ==> l[k] != p
    ensures Find(l, p) == i
  {
    if i > 0 {
      FindIs(l[1..], p, i - 1);
    }
  }

  // A process that is ready or running does not sleep.
  lemma NotAsleep(y: Sys, n: nat, ex: int, skip: nat, cur: int)
    requires y.Ok(n, ex, skip)
    ensures cur >= 0 && cur in y.pr.rlr ==> cur !in y.pr.nrl
  {
    OnOne(y.pr, y.curpid);
  }
}

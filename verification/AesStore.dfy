// The bytes in the message pipes of all processes, and what aqueue() does to them.
module AesStore {
  import opened Lists
  import opened Pools
  import opened Bytes
  import opened PipeLine
  import opened PipeBytes
  import opened AesEvents
  import opened AesWaits
  import opened AesPipes
  import opened AesSystem
  import opened AesSteps

  // queues: p_queue of each process; mail: what lies at the address that the process of an event
  // block hands over to write; inbox: what each process was given when it read last.
  datatype Store = Store(queues: seq<seq<Byte>>, mail: seq<nat -> Byte>, inbox: seq<seq<Byte>>)

  ghost predicate StoreOk(st: Store, n: nat, qindex: seq<int>) {
    && |st.queues| == |st.inbox| == |qindex| == n && |st.mail| == EVBS_PER_PD * n
    && forall t {:trigger st.queues[t]} :: 0 <= t < n ==> |st.queues[t]| == QUEUE_SIZE
  }

  // All messages have 16 bytes and say so.
  ghost predicate PlainStore(st: Store, qindex: seq<int>) {
    && |qindex| == |st.queues| && (forall t {:trigger st.queues[t]} :: 0 <= t < |st.queues| ==> Plain(Box(st.queues[t], qindex[t])))
    && forall e {:trigger st.mail[e]} :: 0 <= e < |st.mail| ==> PlainMessage(st.mail[e])
  }

  // Nothing to write.
  function Nothing(i: nat): Byte { 0 }

  function NoMail(k: nat): (m: seq<nat -> Byte>)
    ensures |m| == k && forall i :: 0 <= i < k ==> m[i] == Nothing
  {
    if k == 0 then [] else NoMail(k - 1) + [Nothing]
  }

  ghost predicate CanBytes(s: Events, qindex: seq<int>, st: Store, n: nat, t: nat) {
    && Lines(s, qindex) && t < |qindex| == n && StoreOk(st, n, qindex) && InBuffer(qindex[t]) && |s.evb| == EVBS_PER_PD * n
  }

  // The chain of those that wait for the opposite.
  function Opposite(isqwrite: bool, n: nat, t: nat): nat {
    if isqwrite then Qd(n, t) else Qn(n, t)
  }

  // What the copies of aqueue() come to, for the caller and for the one it serves.
  ghost function PassBytes(s: Events, qindex: seq<int>, st: Store, n: nat, t: nat, isqwrite: bool, cnt: int, data: nat -> Byte): Doing
    requires CanBytes(s, qindex, st, n, t)
  {
    var c, x := Opposite(isqwrite, n, t), Box(st.queues[t], qindex[t]);
    if s.chain[c] == [] then Passage(x, isqwrite, cnt, data, false, 0, Nothing)
    else
      var e := s.chain[c][0];
      Passage(x, isqwrite, cnt, data, true, s.evb[e].parm, st.mail[e])
  }

  // aqueue() stays inside the pipe and comes to an end.
  ghost predicate Harmless(s: Events, qindex: seq<int>, st: Store, n: nat, t: nat, isqwrite: bool, cnt: int, data: nat -> Byte) {
    && CanBytes(s, qindex, st, n, t)
    && (Ready(qindex[t], isqwrite, cnt) ==> PassBytes(s, qindex, st, n, t, isqwrite, cnt, data).Did?)
  }

  // A message is merged.
  ghost predicate Merging(s: Events, qindex: seq<int>, st: Store, n: nat, t: nat, isqwrite: bool, cnt: int, data: nat -> Byte) {
    CanBytes(s, qindex, st, n, t) && Ready(qindex[t], isqwrite, cnt) &&
    var r := PassBytes(s, qindex, st, n, t, isqwrite, cnt, data); r.Did? && r.found
  }

  // What aqueue() leaves: the pipe's bytes, and those that the reader was given, the caller or the
  // process it served; a message that has to wait is kept.
  ghost predicate Handed(s: Events, qindex: seq<int>, st: Store, qindex': seq<int>, st': Store, n: nat, p: nat, t: nat,
                         isqwrite: bool, cnt: int, data: nat -> Byte)
  {
    CanBytes(s, qindex, st, n, t) && Ready(qindex[t], isqwrite, cnt) &&
    var r := PassBytes(s, qindex, st, n, t, isqwrite, cnt, data);
    && r.Did? && st'.mail == st.mail && st'.queues == st.queues[t := r.x.b] && qindex' == qindex[t := r.x.q]
    && var c := Opposite(isqwrite, n, t);
       if !isqwrite then p < |st.inbox| && st'.inbox == st.inbox[p := r.got]
       else if s.chain[c] == [] then st'.inbox == st.inbox
       else var q := s.evb[s.chain[c][0]].pd; q < |st.inbox| && st'.inbox == st.inbox[q := r.got]
  }

  // The step of the bytes is the step of the counts.
  lemma BytesLine(s: Events, qindex: seq<int>, st: Store, n: nat, t: nat, isqwrite: bool, cnt: int, data: nat -> Byte)
    requires CanBytes(s, qindex, st, n, t) && Ready(qindex[t], isqwrite, cnt)
    ensures var r, l := PassBytes(s, qindex, st, n, t, isqwrite, cnt, data), LineOf(s, qindex, t);
            r.Did? ==> Whole(r.x) && PassSafe(l, isqwrite, cnt, r.found) && r.x.q == Passed(l, isqwrite, cnt, r.found).q
  {
    hide Passage, PassSafe, Passed;
    var c := Opposite(isqwrite, n, t);
    PassageCounts(Box(st.queues[t], qindex[t]), LineOf(s, qindex, t), isqwrite, cnt, data,
                  if s.chain[c] == [] then Nothing else st.mail[s.chain[c][0]]);
  }

  // With messages of 16 bytes that say so nothing can go wrong.
  lemma PlainPasses(s: Events, qindex: seq<int>, st: Store, n: nat, t: nat, isqwrite: bool, cnt: int, data: nat -> Byte)
    requires CanBytes(s, qindex, st, n, t) && Std(s, qindex) && PlainStore(st, qindex) && Ready(qindex[t], isqwrite, cnt)
    requires UsualCount(qindex[t], isqwrite, cnt) && (isqwrite ==> PlainMessage(data))
    ensures var r := PassBytes(s, qindex, st, n, t, isqwrite, cnt, data); r.Did? && Plain(r.x)
  {
    hide Passage, Plain, PlainMessage;
    var c, x, l := Opposite(isqwrite, n, t), Box(st.queues[t], qindex[t]), LineOf(s, qindex, t);
    assert Standard(l) && Plain(x);
    var w := if isqwrite then l.readers else l.writers;
    assert s.chain[c] != [] ==> w[0] == s.evb[s.chain[c][0]].parm == MSG;
    var e := if s.chain[c] == [] then 0 else s.chain[c][0];
    assert s.chain[c] != [] ==> PlainMessage(st.mail[e]);
    PlainPassage(x, isqwrite, cnt, data, s.chain[c] != [], if s.chain[c] == [] then 0 else s.evb[e].parm,
                 if s.chain[c] == [] then Nothing else st.mail[e]);
  }

  lemma PlainNext(st: Store, qindex: seq<int>, t: nat, x: Box)
    requires PlainStore(st, qindex) && t < |qindex| && Plain(x)
    ensures PlainStore(st.(queues := st.queues[t := x.b]), qindex[t := x.q])
  {
    hide Plain, PlainMessage;
  }

  // A read takes the bytes at the front.
  lemma ReadFront(s: Events, qindex: seq<int>, st: Store, n: nat, t: nat, cnt: int, data: nat -> Byte)
    requires CanBytes(s, qindex, st, n, t) && Ready(qindex[t], false, cnt)
    ensures var r := PassBytes(s, qindex, st, n, t, false, cnt, data); r.Did? ==> 0 <= cnt <= QUEUE_SIZE && r.got == st.queues[t][..cnt]
  {
    hide DoqDoes;
    var c, x := Opposite(false, n, t), Box(st.queues[t], qindex[t]);
    DoqCounts(x, false, cnt, data);
    if DoqDoes(x, false, cnt, data).Did? && s.chain[c] != [] {
      var e := s.chain[c][0];
      DoqCounts(DoqDoes(x, false, cnt, data).x, true, s.evb[e].parm, st.mail[e]);
    }
  }

  // A message that has to wait is kept with its block, the first of its process.
  ghost predicate MailKept(st: Store, st': Store, evlist: seq<seq<nat>>, p: nat, isqwrite: bool, data: nat -> Byte) {
    && st'.queues == st.queues && st'.inbox == st.inbox
    && if !isqwrite then st'.mail == st.mail
       else p < |evlist| && evlist[p] != [] && evlist[p][0] < |st.mail| && st'.mail == st.mail[evlist[p][0] := data]
  }

  // What aqueue() does to the bytes.
  ghost predicate StorePassed(y: Sys, st: Store, z: Sys, st': Store, n: nat, p: nat, t: nat, isqwrite: bool, cnt: int, data: nat -> Byte) {
    t < |y.qindex| &&
    if Ready(y.qindex[t], isqwrite, cnt) then Handed(y.s, y.qindex, st, z.qindex, st', n, p, t, isqwrite, cnt, data)
    else MailKept(st, st', z.s.evlist, p, isqwrite, data)
  }

  lemma PendingHead(y: Sys, z: Sys, n: nat, p: nat, m: Mask, parm: int, c: nat)
    requires y.Ok(n, p, 0) && Pending(y, z, p, m, parm, c)
    ensures p < |z.s.evlist| && z.s.evlist[p] != [] && z.s.evlist[p][0] < EVBS_PER_PD * n
  {
  }
}

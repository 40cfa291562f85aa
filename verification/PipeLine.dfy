// A process's message pipe by its byte counts (aqueue() and doq() in aes/gemqueue.c, ap_rdwr() in
// aes/gemaplib.c): what is queued, and how many bytes each waiting reader and writer wants.  The
// counts are the callers' own.
module PipeLine {
  const QUEUE_SIZE := 128
  const MSG := 16

  // The bytes queued, and the counts of the waiting readers and writers, the last to come first.
  datatype Line = Line(q: int, readers: seq<int>, writers: seq<int>)

  // What comes in: a write or a read by aqueue(), or a read by ap_rdwr().  match1 says that the
  // search of doq() finds something to merge the message with, match2 that it does for a writer
  // that is served.
  datatype Op = Write(cnt: int, match1: bool) | Read(cnt: int, match2: bool) | Recv(cnt: int, match2: bool)

  // doq(): the bytes queued after a message was written, or read.
  function AfterDoq(q: int, donq: bool, cnt: int, match1: bool): int {
    if donq then (if match1 && q > 0 then q else q + cnt) else q - cnt
  }

  // As far as the counts tell, doq() stays in the buffer: what it copies lies there, and of a new
  // message the first word, which it always looks at, and all 16 bytes if it merges the message.
  // Where its search leads depends on the messages themselves.
  predicate DoqSafe(q: int, donq: bool, cnt: int, match1: bool) {
    0 <= cnt &&
    if donq then q + cnt <= QUEUE_SIZE && q + 2 <= QUEUE_SIZE && (match1 && q > 0 ==> q + MSG <= QUEUE_SIZE) else cnt <= q
  }

  // What aqueue() tests.
  predicate Ready(q: int, isqwrite: bool, cnt: int) {
    if isqwrite then cnt <= QUEUE_SIZE - q else q > 0
  }

  // ap_rdwr() takes the one message there is by itself.
  predicate Quick(q: int, cnt: int) {
    q == cnt == MSG
  }

  // aqueue(), with what it does for the process that asked last for the opposite.
  function Wrote(l: Line, cnt: int, match1: bool): Line {
    var q := AfterDoq(l.q, true, cnt, match1);
    if !Ready(l.q, true, cnt) then l.(writers := [cnt] + l.writers)
    else if l.readers == [] then l.(q := q)
    else l.(q := AfterDoq(q, false, l.readers[0], false), readers := l.readers[1..])
  }

  function Took(l: Line, cnt: int, match2: bool): Line {
    var q := AfterDoq(l.q, false, cnt, false);
    if !Ready(l.q, false, cnt) then l.(readers := [cnt] + l.readers)
    else if l.writers == [] then l.(q := q)
    else l.(q := AfterDoq(q, true, l.writers[0], match2), writers := l.writers[1..])
  }

  function Step(l: Line, op: Op): Line {
    match op
    case Write(cnt, match1) => Wrote(l, cnt, match1)
    case Read(cnt, match2) => Took(l, cnt, match2)
    case Recv(cnt, match2) => if Quick(l.q, cnt) then l.(q := 0) else Took(l, cnt, match2)
  }

  // So does every doq() of the call.
  predicate WriteSafe(l: Line, cnt: int, match1: bool) {
    Ready(l.q, true, cnt) ==>
      DoqSafe(l.q, true, cnt, match1) &&
      (l.readers != [] ==> DoqSafe(AfterDoq(l.q, true, cnt, match1), false, l.readers[0], false))
  }

  predicate ReadSafe(l: Line, cnt: int, match2: bool) {
    Ready(l.q, false, cnt) ==>
      DoqSafe(l.q, false, cnt, false) &&
      (l.writers != [] ==> DoqSafe(AfterDoq(l.q, false, cnt, false), true, l.writers[0], match2))
  }

  predicate Safe(l: Line, op: Op) {
    match op
    case Write(cnt, match1) => WriteSafe(l, cnt, match1)
    case Read(cnt, match2) => ReadSafe(l, cnt, match2)
    case Recv(cnt, match2) => Quick(l.q, cnt) || ReadSafe(l, cnt, match2)
  }

  predicate InBuffer(q: int) {
    0 <= q <= QUEUE_SIZE
  }

  // The bytes queued stay within the buffer as long as the copies do.
  lemma SafeKeeps(l: Line, op: Op)
    requires InBuffer(l.q) && Safe(l, op)
    ensures InBuffer(Step(l, op).q)
  {
  }

  // What aqueue() would have to test besides.  A write that finds room is safe unless its count is
  // negative, its first word or the 16 bytes to be merged lie beyond the buffer, or the reader it
  // serves wants more than is then there; a read that finds something is safe only if it wants no
  // more than that, and the writer it serves is safe behind it.
  lemma SafeIff(l: Line, cnt: int, flag: bool)
    requires InBuffer(l.q)
    ensures WriteSafe(l, cnt, flag) <==>
      cnt > QUEUE_SIZE - l.q ||
      (cnt >= 0 && Fit(l.q, flag) && (l.readers == [] || 0 <= l.readers[0] <= if flag && l.q > 0 then l.q else l.q + cnt))
    ensures ReadSafe(l, cnt, flag) <==>
      l.q == 0 ||
      (0 <= cnt <= l.q &&
       (l.writers == [] || (0 <= l.writers[0] <= QUEUE_SIZE - (l.q - cnt) && Fit(l.q - cnt, flag))))
  {
  }

  // There is room for what is looked at of a message at q.
  predicate Fit(q: int, merged: bool) {
    q <= QUEUE_SIZE - if merged && q > 0 then MSG else 2
  }

  // What aqueue() does not test: a read of 32 bytes with one message queued leaves -16, as does a
  // message for a reader that waits for 32; a writer of 32 bytes served behind a read of 16 from a
  // full buffer runs over its end; and so does a look at the first word of an empty message there,
  // or at the 16 bytes of one that is shorter.
  lemma Unchecked()
    ensures var l := Line(16, [], []); !Safe(l, Read(32, false)) && Step(l, Read(32, false)).q == -16
    ensures var l := Line(0, [32], []); !Safe(l, Write(16, false)) && Step(l, Write(16, false)).q == -16
    ensures var l := Line(128, [], [32]); !Safe(l, Read(16, false)) && Step(l, Read(16, false)).q == 144
    ensures !Safe(Line(128, [], []), Write(0, false)) && !Safe(Line(120, [], []), Write(8, true))
  {
  }

  // No reader waits while something is queued, and no writer while there is room for it.
  ghost predicate Flowing(l: Line) {
    (l.readers != [] ==> l.q == 0) && Fills(l.writers, l.q)
  }

  ghost predicate Fills(writers: seq<int>, q: int) {
    forall i :: 0 <= i < |writers| ==> writers[i] > QUEUE_SIZE - q
  }

  // When this lasts: a write serves one reader only, which must leave nothing for the others; a
  // read serves one writer only, behind which there must be no room for the others; and the quick
  // read of ap_rdwr() serves nobody.
  lemma FlowingIff(l: Line, op: Op)
    requires InBuffer(l.q) && Flowing(l) && Safe(l, op)
    ensures Flowing(Step(l, op)) <==>
      match op
      case Write(cnt, _) => l.q > 0 || cnt > QUEUE_SIZE || |l.readers| <= 1 || cnt == l.readers[0]
      case Read(cnt, _) => l.q == 0 || l.writers == [] || Fills(l.writers[1..], Step(l, op).q)
      case Recv(cnt, _) =>
        if Quick(l.q, cnt) then Fills(l.writers, 0)
        else l.q == 0 || l.writers == [] || Fills(l.writers[1..], Step(l, op).q)
  {
    var z := Step(l, op);
    match op
    case Write(cnt, match1) =>
      if !Ready(l.q, true, cnt) {
        assert z.writers[1..] == l.writers;
      } else if |l.readers| > 1 {
        assert z.readers == l.readers[1..] != [];
      }
    case Read(cnt, match2) => FlowingTook(l, cnt, match2);
    case Recv(cnt, match2) =>
      if !Quick(l.q, cnt) {
        FlowingTook(l, cnt, match2);
      }
  }

  lemma FlowingTook(l: Line, cnt: int, match2: bool)
    requires InBuffer(l.q) && Flowing(l) && ReadSafe(l, cnt, match2)
    ensures var z := Took(l, cnt, match2);
            Flowing(z) <==> l.q == 0 || l.writers == [] || Fills(l.writers[1..], z.q)
  {
  }

  // Waiters left behind: a reader beside a message that was there for it, a writer beside an empty
  // buffer after a quick read, and a writer beside the room left by a merged message or by a read of
  // more than one.
  lemma LeftBehind()
    ensures var l := Line(0, [16, 16], []);
            Flowing(l) && Safe(l, Write(32, false)) && Step(l, Write(32, false)) == Line(16, [16], [])
    ensures var l := Line(16, [], [128]);
            Flowing(l) && Safe(l, Recv(16, false)) && Step(l, Recv(16, false)) == Line(0, [], [128])
    ensures var l := Line(128, [], [16, 16]);
            Flowing(l) && Safe(l, Read(16, true)) && Step(l, Read(16, true)) == Line(112, [], [16])
    ensures var l := Line(128, [], [16, 16]);
            Flowing(l) && Safe(l, Read(128, false)) && Step(l, Read(128, false)) == Line(16, [], [16])
  {
    assert [16, 16][1..] == [16];
  }

  // A message of 16 bytes, or a read of all that is queued, as appl_exit() does it.
  predicate UsualCount(q: int, isqwrite: bool, cnt: int) {
    cnt == MSG || (!isqwrite && cnt == q > 0)
  }

  predicate Common(l: Line, op: Op) {
    UsualCount(l.q, op.Write?, op.cnt)
  }

  // With such counts all is well as far as they tell, in any run from an empty pipe: nothing leaves
  // the buffer, whole messages are queued, no reader is left behind, and no writer as long as each read takes
  // one message and none is merged in its place.
  ghost predicate Standard(l: Line) {
    && InBuffer(l.q) && l.q % MSG == 0 && (l.readers != [] ==> l.q == 0)
    && (forall i :: 0 <= i < |l.readers| ==> l.readers[i] == MSG)
    && (forall i :: 0 <= i < |l.writers| ==> l.writers[i] == MSG)
  }

  // One message is read, and no message is merged in its place.
  predicate OneForOne(op: Op) {
    match op
    case Write(_, _) => true
    case Read(cnt, match2) => cnt == MSG && !match2
    case Recv(cnt, match2) => cnt == MSG && !match2
  }

  lemma StandardStep(l: Line, op: Op)
    requires Standard(l) && Common(l, op)
    ensures Safe(l, op) && Standard(Step(l, op))
    ensures Flowing(l) && OneForOne(op) ==> Flowing(Step(l, op))
  {
    assert (l.q + MSG) % MSG == 0 && (l.q - MSG) % MSG == 0;
    if Flowing(l) && OneForOne(op) {
      FlowingIff(l, op);
    }
  }

  // Where a run leads from an empty pipe.
  function After(ops: seq<Op>): Line {
    if ops == [] then Line(0, [], []) else Step(After(ops[..|ops| - 1]), ops[|ops| - 1])
  }

  lemma {:induction false} StandardRun(ops: seq<Op>, k: nat)
    requires k <= |ops| && forall i :: 0 <= i < |ops| ==> Common(After(ops[..i]), ops[i])
    ensures Standard(After(ops[..k])) && (k < |ops| ==> Safe(After(ops[..k]), ops[k]))
    ensures (forall i :: 0 <= i < k ==> OneForOne(ops[i])) ==> Flowing(After(ops[..k]))
  {
    if k > 0 {
      StandardRun(ops, k - 1);
      assert ops[..k][..k - 1] == ops[..k - 1] && ops[..k][k - 1] == ops[k - 1];
      StandardStep(After(ops[..k - 1]), ops[k - 1]);
    }
    if k < |ops| {
      StandardStep(After(ops[..k]), ops[k]);
    }
  }
}

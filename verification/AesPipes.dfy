// The message pipes of the processes, as the lines of PipeLine: what is queued for a process, and
// the counts of those that wait to read it or to write there.
module AesPipes {
  import opened Lists
  import opened Pools
  import opened AesEvents
  import opened AesWaits
  import opened PipeLine

  // What the blocks of a chain hold as their parameter.
  ghost function Counts(s: Events, c: nat): (d: seq<int>)
    requires InRange(s) && c < |s.chain|
    ensures |d| == |s.chain[c]|
  {
    seq(|s.chain[c]|, i requires 0 <= i < |s.chain[c]| => s.evb[s.chain[c][i]].parm)
  }

  ghost predicate Lines(s: Events, qindex: seq<int>) {
    InRange(s) && |s.chain| == 3 + 5 * |s.evlist| && |qindex| == |s.evlist|
  }

  ghost function LineOf(s: Events, qindex: seq<int>, t: nat): Line
    requires Lines(s, qindex) && t < |qindex|
  {
    Line(qindex[t], Counts(s, Qd(|qindex|, t)), Counts(s, Qn(|qindex|, t)))
  }

  // With messages of 16 bytes only.
  ghost predicate Std(s: Events, qindex: seq<int>) {
    Lines(s, qindex) && forall t :: 0 <= t < |qindex| ==> Standard(LineOf(s, qindex, t))
  }

  lemma CountsBeside(s: Events, t: Events, c: nat, d: nat)
    requires InRange(s) && InRange(t) && Beside(s, t, c) && ZLR < d < |s.chain| && d != c
    ensures Counts(t, d) == Counts(s, d)
  {
  }

  lemma CountsLeft(s: Events, t: Events, c: nat, k: nat)
    requires InRange(s) && InRange(t) && Left(s, t, c, k) && ZLR < c
    ensures Counts(t, c) == Cut(Counts(s, c), k)
  {
    CutIn(s.chain[c], k);
    CutIn(Counts(s, c), k);
  }

  lemma CountsIssued(s: Events, p: nat, b: Evb, c: nat, j: nat, d: nat)
    requires EvOk(s) && s.eul != [] && p < |s.evlist| && c < |s.chain| && j <= |s.chain[c]| && s.eul[0] < |s.evb|
    requires ZLR < d < |s.chain| && InRange(Issued(s, p, b, c, j))
    ensures Counts(Issued(s, p, b, c, j), d) == if d == c then Put(Counts(s, d), j, b.parm) else Counts(s, d)
  {
    hide Kept, Chained, Owned, Done, Flagged, OneEach, Put;
    HeadFree(s);
    if d == c {
      var t := Issued(s, p, b, c, j);
      PutIn(s.chain[c], j, s.eul[0]);
      PutIn(Counts(s, c), j, b.parm);
      assert |Counts(t, c)| == |s.chain[c]| + 1;
      forall i | 0 <= i < |Counts(t, c)| ensures Counts(t, c)[i] == Put(Counts(s, c), j, b.parm)[i] {
      }
    } else {
      IssuedBeside(s, p, b, c, j);
      CountsBeside(s, Issued(s, p, b, c, j), c, d);
    }
  }

  // A waiter that leaves, or is served, leaves the rest of the lines as they were.
  lemma StdLeft(s: Events, t: Events, c: nat, k: nat, qindex: seq<int>)
    requires Std(s, qindex) && InRange(t) && Left(s, t, c, k) && ZLR < c
    ensures Std(t, qindex)
  {
    hide Left, Cut;
    LeftSizes(s, t, c, k);
    forall u | 0 <= u < |qindex| ensures Standard(LineOf(t, qindex, u)) {
      assert Standard(LineOf(s, qindex, u));
      CountsEither(s, t, c, k, Qd(|qindex|, u));
      CountsEither(s, t, c, k, Qn(|qindex|, u));
    }
  }

  lemma LeftSizes(s: Events, t: Events, c: nat, k: nat)
    requires Left(s, t, c, k)
    ensures |t.evlist| == |s.evlist| && |t.chain| == |s.chain|
  {
  }

  lemma CountsEither(s: Events, t: Events, c: nat, k: nat, d: nat)
    requires InRange(s) && InRange(t) && Left(s, t, c, k) && ZLR < c && ZLR < d < |s.chain|
    ensures d < |t.chain| && |Counts(t, d)| <= |Counts(s, d)|
    ensures forall i :: 0 <= i < |Counts(t, d)| ==> Counts(t, d)[i] in Counts(s, d)
  {
    if d == c {
      CountsLeft(s, t, c, k);
      CutIn(Counts(s, c), k);
    } else {
      CountsBeside(s, t, c, d);
      forall i | 0 <= i < |Counts(t, d)| ensures Counts(t, d)[i] in Counts(s, d) {
      }
    }
  }

  // A block that may be put on a chain: one that waits for a message does so with a count of 16,
  // and beside an empty pipe if it is to read.
  ghost predicate PipeFit(qindex: seq<int>, c: nat, parm: int) {
    forall u: nat :: u < |qindex| ==>
      (c == Qd(|qindex|, u) ==> parm == MSG && qindex[u] == 0) && (c == Qn(|qindex|, u) ==> parm == MSG)
  }

  // So does a block put on a list that is none of them, or one with a count of 16 beside what is
  // not there.
  lemma StdIssued(s: Events, p: nat, b: Evb, c: nat, j: nat, qindex: seq<int>)
    requires EvOk(s) && s.eul != [] && p < |s.evlist| && c < |s.chain| && j <= |s.chain[c]| && s.eul[0] < |s.evb|
    requires Std(s, qindex) && InRange(Issued(s, p, b, c, j))
    requires PipeFit(qindex, c, b.parm)
    ensures Std(Issued(s, p, b, c, j), qindex)
  {
    hide Kept, Chained, Owned, Done, Flagged, OneEach, Put, Issued;
    var t := Issued(s, p, b, c, j);
    IssuedSizes(s, p, b, c, j);
    forall u | 0 <= u < |qindex| ensures Standard(LineOf(t, qindex, u)) {
      assert Standard(LineOf(s, qindex, u));
      CountsIssued(s, p, b, c, j, Qd(|qindex|, u));
      CountsIssued(s, p, b, c, j, Qn(|qindex|, u));
      var l, l' := LineOf(s, qindex, u), LineOf(t, qindex, u);
      AllPut(l.readers, if c == Qd(|qindex|, u) then j else 0, MSG);
      AllPut(l.writers, if c == Qn(|qindex|, u) then j else 0, MSG);
    }
  }

  lemma IssuedSizes(s: Events, p: nat, b: Evb, c: nat, j: nat)
    requires s.eul != [] && p < |s.evlist| == |s.evflg| && c < |s.chain| && j <= |s.chain[c]| && s.eul[0] < |s.evb|
    ensures |Issued(s, p, b, c, j).evlist| == |s.evlist| && |Issued(s, p, b, c, j).chain| == |s.chain|
  {
  }

  lemma AllPut(l: seq<int>, j: nat, x: int)
    requires j <= |l|
    ensures (forall i :: 0 <= i < |l| ==> l[i] == x) ==> forall i :: 0 <= i <= |l| ==> Put(l, j, x)[i] == x
  {
  }

  // Nor does it matter to them when a block gets a new parameter that is on none of these lists.
  lemma StdReparm(s: Events, t: Events, c: nat, qindex: seq<int>)
    requires Std(s, qindex) && InRange(t) && Beside(s, t, c) && forall u: nat :: u < |qindex| ==> c != Qd(|qindex|, u) && c != Qn(|qindex|, u)
    ensures Std(t, qindex)
  {
    hide Beside;
    BesideSizes(s, t, c);
    forall u | 0 <= u < |qindex| ensures Standard(LineOf(t, qindex, u)) {
      assert Standard(LineOf(s, qindex, u));
      CountsBeside(s, t, c, Qd(|qindex|, u));
      CountsBeside(s, t, c, Qn(|qindex|, u));
    }
  }

  lemma BesideSizes(s: Events, t: Events, c: nat)
    requires Beside(s, t, c)
    ensures |t.evlist| == |s.evlist| && |t.chain| == |s.chain|
  {
  }

  lemma StdRoom(s: Events, qindex: seq<int>, t: nat, v: int)
    requires Std(s, qindex) && t < |qindex| && Lines(s, qindex[t := v]) && Standard(LineOf(s, qindex[t := v], t))
    ensures Std(s, qindex[t := v])
  {
    hide Standard, Counts;
    var w := qindex[t := v];
    forall u | 0 <= u < |w| ensures Standard(LineOf(s, w, u)) {
      assert Standard(LineOf(s, qindex, u));
    }
  }
}

// File position and transfers (bdos/fsio.c).
module FileIo {
  import opened Bounds
  import opened Bytes
  import opened Shift
  import opened Media
  import opened BufferCache
  import opened FatTable
  import opened Chains
  import opened FatOps
  import opened FileData

  // A descriptor between transfers.  On a cluster boundary it points at the cluster before the
  // boundary, with an offset of 0 or of a whole cluster.
  ghost predicate AtPos(p: OFD, j: nat)
    reads p, p.dfd
  {
    && On(p, j)
    && (if 0 < j && 0 < p.curbyt < p.dm.clsizb then p.bytnum == Mul(j - 1, p.dm.clsizb) + p.curbyt
        else p.bytnum == Mul(j, p.dm.clsizb) && (p.curbyt == 0 || (0 < j && p.curbyt == p.dm.clsizb)))
  }

  // Number of the chain element that the position n points at, counted from 1.
  function ChainPos(n: nat, clsizb: nat): nat {
    if n == 0 then 0 else Quo(n - 1, clsizb) + 1
  }

  // addit(): account for siz bytes.
  method Addit(p: OFD, siz: nat)
    modifies p`curbyt, p`bytnum, p.dfd`fileln, p.dfd`dirty
    ensures p.curbyt == old(p.curbyt) + if siz < p.dm.clsizb then siz else 0
    ensures p.bytnum == old(p.bytnum) + siz && p.dfd.fileln == Max(old(p.dfd.fileln), p.bytnum)
    ensures p.dfd.dirty == (old(p.dfd.dirty) || p.dfd.fileln != old(p.dfd.fileln))
  {
    if siz < p.dm.clsizb {
      p.curbyt := p.curbyt + siz;
    }
    p.bytnum := p.bytnum + siz;
    if p.bytnum > p.dfd.fileln {
      p.dfd.fileln := p.bytnum;
      p.dfd.dirty := true;
    }
  }

  lemma ChainGood(c: Cache, p: OFD)
    requires FileOk(c, p)
    ensures GoodChain(p.dm, p.dfd.chain) && |Fat(c.vol, p.dm)| == p.dm.numcl + 2 <= 0xfff8
  {
    hide CacheOk, Fat;
    ChainDistinct(Fat(c.vol, p.dm), p.dfd.strtcl, p.dfd.chain);
  }

  // memcpy() between the front data buffer and the user's memory.
  method CopyRecord(c: Cache, p: OFD, wrtflg: bool, recn: nat, off: nat, len: nat, ubufr: array<Byte>, ub: nat)
    requires FileOk(c, p) && recn < p.dm.datlen && off + len <= p.dm.recsiz && ub + len <= ubufr.Length
    requires p.bytnum + len <= Cap(p.dm, p.dfd.chain)
    requires off == p.dm.RecByte(p.bytnum) && FileRec(p.dm, p.dfd.chain, p.dm.RecNum(p.bytnum)) == recn
    modifies c, ubufr
    ensures FileOk(c, p)
    ensures Transferred(wrtflg, p.dm, old(c.vol), p.dfd.chain, c.vol, p.dfd.chain, p.bytnum,
                  old(ubufr[..]), ubufr[..], ub, len)
  {
    hide CacheOk, DMD.SizesOk, FileRec, Mul, Quo, Rem, IsChain, Cap;
    RecordThere(c, p.dm, BtData, recn);
    var bufp := c.GetRec(recn, p.dm, BtData, wrtflg);
    ghost var v := c.vol;
    if wrtflg {
      c.Poke(BtData, off, ubufr[ub..ub + len]);
      WroteInRecord(p.dm, v, p.dfd.chain, p.bytnum, ubufr[ub..ub + len], recn);
      SameFat(p.dm, v, c.vol);
    } else {
      forall i | 0 <= i < len {
        ubufr[ub + i] := bufp[off + i];
      }
      ReadInRecord(p.dm, v, p.dfd.chain, p.bytnum, recn, len, old(ubufr[..]), ubufr[..], ub);
    }
  }

  lemma ReadInRecord(dm: DMD, v: Volume, ch: seq<nat>, b: nat, r: nat, n: nat, u0: seq<Byte>, u1: seq<Byte>, uo: nat)
    requires dm.LayoutOk() && dm.RecByte(b) + n <= dm.recsiz && b + n <= Cap(dm, ch)
    requires Addr(dm.drvnum, BtData, r) in v && |v[Addr(dm.drvnum, BtData, r)]| == dm.recsiz
    requires FileRec(dm, ch, dm.RecNum(b)) == r
    requires |u1| == |u0| && uo + n <= |u0|
    requires forall i :: 0 <= i < |u0| ==>
      u1[i] == if uo <= i < uo + n then v[Addr(dm.drvnum, BtData, r)][dm.RecByte(b) + (i - uo)] else u0[i]
    ensures Transferred(false, dm, v, ch, v, ch, b, u0, u1, uo, n)
  {
    hide FileRec, Mul, Quo, Rem, Cap;
    forall i | uo <= i < uo + n
      ensures u1[i] == ByteAt(v, dm, ch, b + (i - uo))
    {
      RecordRun(dm, b, i - uo);
    }
  }

  // usrio() on records that are consecutive in the file.
  method CopyRun(c: Cache, p: OFD, wrtflg: bool, num: nat, strt: nat, ubufr: array<Byte>, ub: nat)
    requires FileOk(c, p) && num <= CNTMAX && strt + num <= p.dm.datlen && ub + Mul(num, p.dm.recsiz) <= ubufr.Length
    requires p.bytnum + Mul(num, p.dm.recsiz) <= Cap(p.dm, p.dfd.chain) && p.dm.RecByte(p.bytnum) == 0
    requires Contiguous(p.dm, p.dfd.chain, p.dm.RecNum(p.bytnum), strt, num)
    modifies c, ubufr
    ensures FileOk(c, p) && Fat(c.vol, p.dm) == old(Fat(c.vol, p.dm))
    ensures Transferred(wrtflg, p.dm, old(c.vol), p.dfd.chain, c.vol, p.dfd.chain, p.bytnum,
                  old(ubufr[..]), ubufr[..], ub, Mul(num, p.dm.recsiz))
  {
    hide CacheOk, DMD.SizesOk, FileRec, Mul, Quo, Rem, IsChain, Cap, Contiguous, Fat;
    RunIsThere(c, p.dm, strt, num);
    ghost var v, n := c.vol, Mul(num, p.dm.recsiz);
    c.Usrio(wrtflg, num, strt, ubufr, ub, p.dm);
    if wrtflg {
      WroteRun(p.dm, v, p.dfd.chain, p.bytnum, ubufr[ub..ub + n], strt, num);
      SameFat(p.dm, v, c.vol);
    } else {
      ReadRun(p.dm, v, p.dfd.chain, p.bytnum, strt, num, old(ubufr[..]), ubufr[..], ub);
    }
  }

  lemma RunIsThere(c: Cache, dm: DMD, strt: nat, num: nat)
    requires Mounted(c, dm) && strt + num <= dm.datlen
    ensures RunThere(dm, c.vol, strt, num)
  {
    forall r: nat | strt <= r < strt + num
      ensures Addr(dm.drvnum, BtData, r) in c.vol && |c.vol[Addr(dm.drvnum, BtData, r)]| == dm.recsiz
    {
      RecordThere(c, dm, BtData, r);
    }
  }

  lemma ReadRun(dm: DMD, v: Volume, ch: seq<nat>, b: nat, strt: nat, num: nat, u0: seq<Byte>, u1: seq<Byte>, uo: nat)
    requires dm.LayoutOk() && dm.RecByte(b) == 0 && b + Mul(num, dm.recsiz) <= Cap(dm, ch)
    requires RunThere(dm, v, strt, num) && Contiguous(dm, ch, dm.RecNum(b), strt, num)
    requires |u1| == |u0| && uo + Mul(num, dm.recsiz) <= |u0|
    requires u1[..uo] == u0[..uo] && u1[uo + Mul(num, dm.recsiz)..] == u0[uo + Mul(num, dm.recsiz)..]
    requires forall i :: 0 <= i < Mul(num, dm.recsiz) ==>
      Addr(dm.drvnum, BtData, strt + dm.RecNum(i)) in v &&
      |v[Addr(dm.drvnum, BtData, strt + dm.RecNum(i))]| == dm.recsiz &&
      u1[uo + i] == v[Addr(dm.drvnum, BtData, strt + dm.RecNum(i))][dm.RecByte(i)]
    ensures Transferred(false, dm, v, ch, v, ch, b, u0, u1, uo, Mul(num, dm.recsiz))
  {
    hide FileRec, Mul, Quo, Rem, Cap, Contiguous;
    var n := Mul(num, dm.recsiz);
    forall i | 0 <= i < |u0|
      ensures u1[i] == if uo <= i < uo + n then ByteAt(v, dm, ch, b + (i - uo)) else u0[i]
    {
      if i < uo {
        assert u1[i] == u1[..uo][i] == u0[..uo][i];
      } else if i < uo + n {
        RunByte(dm, ch, b, i - uo, strt, num);
        assert u1[uo + (i - uo)] == u1[i];
      } else {
        assert u1[i] == u1[uo + n..][i - (uo + n)] == u0[uo + n..][i - (uo + n)];
      }
    }
  }

  // What a transfer can see and change, at one moment.
  datatype Snap = Snap(v: Volume, ch: seq<nat>, st: Word, b: nat, fl: nat, dirty: bool, u: seq<Byte>, uo: nat)

  ghost function Take(c: Cache, p: OFD, ubufr: array<Byte>, ub: nat): Snap
    reads c`vol, p, p.dfd, ubufr
  {
    Snap(c.vol, p.dfd.chain, p.dfd.strtcl, p.bytnum, p.dfd.fileln, p.dfd.dirty, ubufr[..], ub)
  }

  ghost predicate SnapOk(dm: DMD, s: Snap) {
    && dm.LayoutOk() && dm.SizesOk() && |Fat(s.v, dm)| <= 0xfff8
    && IsChain(Fat(s.v, dm), s.st, s.ch) && GoodChain(dm, s.ch)
  }

  // A transfer between two moments: the bytes between the two positions were moved, the file
  // is as long as the furthest byte written, and a change to the directory data is marked.
  ghost predicate Step(wrt: bool, dm: DMD, s: Snap, t: Snap) {
    && s.b <= t.b && t.uo == s.uo + (t.b - s.b)
    && Transferred(wrt, dm, s.v, s.ch, t.v, t.ch, s.b, s.u, t.u, s.uo, t.b - s.b)
    && t.fl == (if s.b < t.b then Max(s.fl, t.b) else s.fl)
    && (s.dirty || s.st != t.st || s.fl != t.fl ==> t.dirty)
  }

  lemma StepTrans(wrt: bool, dm: DMD, s: Snap, t: Snap, w: Snap)
    requires SnapOk(dm, t) && SnapOk(dm, w) && Step(wrt, dm, s, t) && Step(wrt, dm, t, w)
    ensures Step(wrt, dm, s, w)
  {
    hide IsChain, GoodChain, DMD.SizesOk, Transferred, Fat;
    MovedTrans(wrt, dm, s.v, s.ch, t.v, t.ch, w.v, w.ch, s.b, s.u, t.u, w.u, s.uo, t.b - s.b, w.b - t.b);
  }

  lemma SnapFile(c: Cache, p: OFD, ubufr: array<Byte>, ub: nat)
    requires FileOk(c, p)
    ensures SnapOk(p.dm, Take(c, p, ubufr, ub))
  {
    hide CacheOk, IsChain, DMD.SizesOk, GoodChain;
    ChainGood(c, p);
  }

  method PartRecord0(c: Cache, p: OFD, wrtflg: bool, recn: nat, off: nat, len: nat, ubufr: array<Byte>, ub: nat)
    requires FileOk(c, p) && recn < p.dm.datlen && off + len <= p.dm.recsiz && ub + len <= ubufr.Length
    requires p.bytnum + len <= Cap(p.dm, p.dfd.chain) && 0 < len < p.dm.clsizb
    requires off == p.dm.RecByte(p.bytnum) && FileRec(p.dm, p.dfd.chain, p.dm.RecNum(p.bytnum)) == recn
    modifies c, ubufr, p`curbyt, p`bytnum, p.dfd`fileln, p.dfd`dirty
    ensures FileOk(c, p) && p.bytnum == old(p.bytnum) + len && p.curbyt == old(p.curbyt) + len
    ensures Step(wrtflg, p.dm, old(Take(c, p, ubufr, ub)), Take(c, p, ubufr, ub + len))
  {
    hide CacheOk, DMD.SizesOk, FileRec, Mul, Quo, Rem, IsChain, Cap, Transferred;
    CopyRecord(c, p, wrtflg, recn, off, len, ubufr, ub);
    Addit(p, len);
  }

  method WholeRecords0(c: Cache, p: OFD, wrtflg: bool, num: nat, strt: nat, ubufr: array<Byte>, ub: nat)
    requires FileOk(c, p) && 0 < num <= CNTMAX && strt + num <= p.dm.datlen
    requires ub + Mul(num, p.dm.recsiz) <= ubufr.Length
    requires p.bytnum + Mul(num, p.dm.recsiz) <= Cap(p.dm, p.dfd.chain) && p.dm.RecByte(p.bytnum) == 0
    requires Contiguous(p.dm, p.dfd.chain, p.dm.RecNum(p.bytnum), strt, num)
    modifies c, ubufr, p`curbyt, p`bytnum, p.dfd`fileln, p.dfd`dirty
    ensures FileOk(c, p) && Fat(c.vol, p.dm) == old(Fat(c.vol, p.dm))
    ensures p.bytnum == old(p.bytnum) + Mul(num, p.dm.recsiz)
    ensures p.curbyt == old(p.curbyt) + if Mul(num, p.dm.recsiz) < p.dm.clsizb then Mul(num, p.dm.recsiz) else 0
    ensures Step(wrtflg, p.dm, old(Take(c, p, ubufr, ub)), Take(c, p, ubufr, ub + Mul(num, p.dm.recsiz)))
  {
    hide CacheOk, DMD.SizesOk, FileRec, Mul, Quo, Rem, IsChain, Cap, Transferred, Contiguous, Step, DMD.RecByte;
    MulPos(num, p.dm.recsiz);
    ghost var s := Take(c, p, ubufr, ub);
    CopyRun(c, p, wrtflg, num, strt, ubufr, ub);
    ghost var nbytes := Mul(num, p.dm.recsiz);
    Addit(p, Mul(num, p.dm.recsiz));
    StepBy(wrtflg, p.dm, s, Take(c, p, ubufr, ub + nbytes), nbytes);
  }

  lemma StepBy(wrt: bool, dm: DMD, s: Snap, t: Snap, n: nat)
    requires Transferred(wrt, dm, s.v, s.ch, t.v, t.ch, s.b, s.u, t.u, s.uo, n)
    requires 0 < n && t.b == s.b + n && t.uo == s.uo + n && t.fl == Max(s.fl, t.b)
    requires t.st == s.st && (s.dirty || s.fl != t.fl ==> t.dirty)
    ensures Step(wrt, dm, s, t)
  {
    hide Transferred;
  }

  // The transfer stopped at the end of the chain, for a write with no cluster left to add.
  ghost predicate AtEnd(c: Cache, p: OFD, wrt: bool)
    reads c, p, p.dfd
  {
    p.bytnum == Cap(p.dm, p.dfd.chain) && (wrt ==> NoneFree(Fat(c.vol, p.dm)))
  }

  method Advance0(c: Cache, p: OFD, wrtflg: bool, ghost j: nat, ghost ubufr: array<Byte>, ghost ub: nat) returns (rc: int)
    requires FileOk(c, p) && On(p, j) && p.bytnum <= Mul(j, p.dm.clsizb) && ub <= ubufr.Length
    modifies c, p`curcl, p`currec, p`curbyt, p.dfd`strtcl, p.dfd`dirty, p.dfd`chain
    ensures FileOk(c, p) && old(p.dfd.chain) <= p.dfd.chain
    ensures if rc == 0 then On(p, j + 1) && p.curbyt == 0
      else On(p, j) && p.curbyt == old(p.curbyt) && j == |p.dfd.chain| && (wrtflg ==> NoneFree(Fat(c.vol, p.dm)))
    ensures Step(wrtflg, p.dm, old(Take(c, p, ubufr, ub)), Take(c, p, ubufr, ub))
  {
    hide CacheOk, DMD.SizesOk, Mul, IsChain, Transferred, Fat, Grown, OnlyFat, NoneFree, Cl2Rec, FreeCount;
    ghost var s := Take(c, p, ubufr, ub);
    rc := NextCl(c, p, wrtflg, j);
    GrownPrefix(s.v, s.ch, c.vol, p.dfd.chain, p.dm);
    AdvanceMoved(wrtflg, p.dm, s, Take(c, p, ubufr, ub), j);
  }

  lemma GrownPrefix(v0: Volume, c0: seq<nat>, v1: Volume, c1: seq<nat>, dm: DMD)
    requires Grown(Fat(v0, dm), c0, Fat(v1, dm), c1)
    ensures c0 <= c1
  {
  }

  lemma AdvanceMoved(wrt: bool, dm: DMD, s: Snap, t: Snap, j: nat)
    requires Grown(Fat(s.v, dm), s.ch, Fat(t.v, dm), t.ch) && OnlyFat(s.v, t.v, dm)
    requires wrt || (t.v == s.v && t.ch == s.ch)
    requires j <= |s.ch| && s.b <= Mul(j, dm.clsizb) && s.b == t.b && s.u == t.u && s.uo == t.uo <= |s.u|
    ensures Transferred(wrt, dm, s.v, s.ch, t.v, t.ch, s.b, s.u, t.u, s.uo, 0)
  {
    hide Mul, Fat, OnlyFat, Transferred;
    assert s.ch <= t.ch;
    MulMono(j, |t.ch|, dm.clsizb);
    MovedNothing(wrt, dm, s.v, s.ch, t.v, t.ch, s.b, s.u, s.uo);
  }

  // The primitives again, continuing a transfer that began at s0.

  // Part of a record, through its buffer.
  method PartRecord(c: Cache, p: OFD, wrtflg: bool, recn: nat, off: nat, len: nat, ubufr: array<Byte>, ub: nat, ghost s0: Snap)
    requires FileOk(c, p) && recn < p.dm.datlen && off + len <= p.dm.recsiz && ub + len <= ubufr.Length
    requires p.bytnum + len <= Cap(p.dm, p.dfd.chain) && 0 < len < p.dm.clsizb
    requires off == p.dm.RecByte(p.bytnum) && FileRec(p.dm, p.dfd.chain, p.dm.RecNum(p.bytnum)) == recn
    requires Step(wrtflg, p.dm, s0, Take(c, p, ubufr, ub))
    modifies c, ubufr, p`curbyt, p`bytnum, p.dfd`fileln, p.dfd`dirty
    ensures FileOk(c, p) && p.bytnum == old(p.bytnum) + len && p.curbyt == old(p.curbyt) + len
    ensures Step(wrtflg, p.dm, s0, Take(c, p, ubufr, ub + len))
  {
    hide CacheOk, DMD.SizesOk, FileRec, Mul, Quo, Rem, IsChain, Cap, Transferred, Step, Take, SnapOk;
    ghost var s := Take(c, p, ubufr, ub);
    SnapFile(c, p, ubufr, ub);
    PartRecord0(c, p, wrtflg, recn, off, len, ubufr, ub);
    SnapFile(c, p, ubufr, ub + len);
    StepTrans(wrtflg, p.dm, s0, s, Take(c, p, ubufr, ub + len));
  }

  // Whole records, past the buffers.
  method WholeRecords(c: Cache, p: OFD, wrtflg: bool, num: nat, strt: nat, ubufr: array<Byte>, ub: nat, ghost s0: Snap)
    requires FileOk(c, p) && 0 < num <= CNTMAX && strt + num <= p.dm.datlen
    requires ub + Mul(num, p.dm.recsiz) <= ubufr.Length
    requires p.bytnum + Mul(num, p.dm.recsiz) <= Cap(p.dm, p.dfd.chain) && p.dm.RecByte(p.bytnum) == 0
    requires Contiguous(p.dm, p.dfd.chain, p.dm.RecNum(p.bytnum), strt, num)
    requires Step(wrtflg, p.dm, s0, Take(c, p, ubufr, ub))
    modifies c, ubufr, p`curbyt, p`bytnum, p.dfd`fileln, p.dfd`dirty
    ensures FileOk(c, p) && Fat(c.vol, p.dm) == old(Fat(c.vol, p.dm))
    ensures p.bytnum == old(p.bytnum) + Mul(num, p.dm.recsiz)
    ensures p.curbyt == old(p.curbyt) + if Mul(num, p.dm.recsiz) < p.dm.clsizb then Mul(num, p.dm.recsiz) else 0
    ensures Step(wrtflg, p.dm, s0, Take(c, p, ubufr, ub + Mul(num, p.dm.recsiz)))
  {
    hide CacheOk, DMD.SizesOk, FileRec, Mul, Quo, Rem, IsChain, Cap, Transferred, Contiguous, Step, Take, SnapOk;
    ghost var s := Take(c, p, ubufr, ub);
    SnapFile(c, p, ubufr, ub);
    WholeRecords0(c, p, wrtflg, num, strt, ubufr, ub);
    SnapFile(c, p, ubufr, ub + Mul(num, p.dm.recsiz));
    StepTrans(wrtflg, p.dm, s0, s, Take(c, p, ubufr, ub + Mul(num, p.dm.recsiz)));
  }

  // nextcl() at a cluster boundary.
  method Advance(c: Cache, p: OFD, wrtflg: bool, ghost j: nat, ghost ubufr: array<Byte>, ghost ub: nat, ghost s0: Snap) returns (rc: int)
    requires FileOk(c, p) && On(p, j) && p.bytnum <= Mul(j, p.dm.clsizb) && ub <= ubufr.Length
    requires Step(wrtflg, p.dm, s0, Take(c, p, ubufr, ub))
    modifies c, p`curcl, p`currec, p`curbyt, p.dfd`strtcl, p.dfd`dirty, p.dfd`chain
    ensures FileOk(c, p) && old(p.dfd.chain) <= p.dfd.chain
    ensures if rc == 0 then On(p, j + 1) && p.curbyt == 0
      else On(p, j) && p.curbyt == old(p.curbyt) && j == |p.dfd.chain| && (wrtflg ==> NoneFree(Fat(c.vol, p.dm)))
    ensures Step(wrtflg, p.dm, s0, Take(c, p, ubufr, ub))
  {
    hide CacheOk, DMD.SizesOk, Mul, IsChain, Transferred, Fat, NoneFree, Cl2Rec, Step, Take, SnapOk;
    ghost var s := Take(c, p, ubufr, ub);
    SnapFile(c, p, ubufr, ub);
    rc := Advance0(c, p, wrtflg, j, ubufr, ub);
    SnapFile(c, p, ubufr, ub);
    StepTrans(wrtflg, p.dm, s0, s, Take(c, p, ubufr, ub));
  }

  lemma FileDm(c: Cache, p: OFD)
    requires FileOk(c, p)
    ensures p.dm.LayoutOk() && p.dm.SizesOk() && GoodChain(p.dm, p.dfd.chain)
    ensures 0 < p.dm.recsiz <= p.dm.clsizb && 0 < p.dm.clsiz <= CNTMAX
    ensures p.dm.clsizb == Mul(p.dm.clsiz, p.dm.recsiz)
  {
    hide CacheOk, IsChain, GoodChain, Fat;
    ChainGood(c, p);
    Sizes(p.dm);
  }

  // An offset that is not a multiple of the record size is inside a cluster.
  lemma InsideCluster(p: OFD, j: nat)
    requires p.dm.LayoutOk() && p.dm.SizesOk() && AtPos(p, j) && p.dm.RecByte(p.curbyt) != 0
    ensures 0 < j && 0 < p.curbyt < p.dm.clsizb
  {
    Boundary(p.dm, 0);
    Sizes(p.dm);
  }

  // Still in the cluster, or at its end.
  lemma InsideAt(p: OFD, k: nat)
    requires On(p, k + 1) && 0 < p.curbyt <= p.dm.clsizb && p.bytnum == Mul(k, p.dm.clsizb) + p.curbyt
    ensures AtPos(p, k + 1)
  {
    hide Mul;
    MulOne(p.dm.clsizb);
    MulAdd(k, 1, p.dm.clsizb);
  }

  lemma AtInside(p: OFD, j: nat)
    requires AtPos(p, j) && 0 < j && 0 < p.curbyt < p.dm.clsizb
    ensures On(p, j) && p.bytnum == Mul(j - 1, p.dm.clsizb) + p.curbyt
    ensures p.currec == Cl2Rec(p.dfd.chain[j - 1], p.dm)
    ensures p.dm.RecByte(p.curbyt) == 0 ==> InRecord(p, j - 1)
  {
  }

  // From x, y is the end of the record.
  lemma ToRecordEnd(dm: DMD, x: nat, y: nat)
    requires 0 < dm.recsiz && y == x - dm.RecByte(x) + dm.recsiz
    ensures dm.RecNum(y) == dm.RecNum(x) + 1 && dm.RecByte(y) == 0
  {
    hide Mul, Quo, Rem;
    Recompose(x, dm.recsiz);
    MulAdd(dm.RecNum(x), 1, dm.recsiz);
    MulOne(dm.recsiz);
    Decompose(dm.RecNum(x) + 1, 0, dm.recsiz);
  }

  // The head bytes of xrw(): up to the end of the current record.
  method HeadBytes(c: Cache, p: OFD, wrtflg: bool, recn: nat, bytn: nat, len: nat, ubufr: array<Byte>, ub: nat, ghost j: nat, ghost s0: Snap)
    returns (lenxfr: nat)
    requires FileOk(c, p) && AtPos(p, j) && 0 < len && ub + len <= ubufr.Length
    requires bytn == p.dm.RecByte(p.curbyt) && bytn != 0 && recn == p.currec + p.dm.RecNum(p.curbyt)
    requires Step(wrtflg, p.dm, s0, Take(c, p, ubufr, ub))
    modifies c, ubufr, p`curbyt, p`bytnum, p.dfd`fileln, p.dfd`dirty
    ensures FileOk(c, p) && AtPos(p, j) && 0 < lenxfr <= len && p.bytnum == old(p.bytnum) + lenxfr
    ensures lenxfr < len ==> p.dm.RecByte(p.curbyt) == 0 && recn + 1 == p.currec + p.dm.RecNum(p.curbyt)
    ensures Step(wrtflg, p.dm, s0, Take(c, p, ubufr, ub + lenxfr))
  {
    hide CacheOk, DMD.SizesOk, FileRec, Mul, Quo, Rem, IsChain, Cap, Step, GoodChain, Cl2Rec, AtPos, DMD.RecByte,
      DMD.RecNum, Take;
    FileDm(c, p);
    InsideCluster(p, j);
    AtInside(p, j);
    ghost var x, k := p.curbyt, j - 1;
    assert k + 1 == j;
    Place(p.dm, p.dfd.chain, k, x);
    lenxfr := if len < p.dm.recsiz - bytn then len else p.dm.recsiz - bytn;
    PartRecord(c, p, wrtflg, recn, bytn, lenxfr, ubufr, ub, s0);
    InsideAt(p, k);
    if lenxfr < len {
      ToRecordEnd(p.dm, x, p.curbyt);
    }
  }

  // In chain element k, at the start of a record.
  ghost predicate InRecord(p: OFD, k: nat)
    reads p, p.dfd
  {
    && On(p, k + 1) && p.curbyt < p.dm.clsizb && p.bytnum == Mul(k, p.dm.clsizb) + p.curbyt
    && p.dm.RecByte(p.curbyt) == 0
  }

  // The cluster that tail bytes go to: the next one at a cluster boundary, else the current one.
  method TailCluster(c: Cache, p: OFD, wrtflg: bool, ghost j: nat, ghost ubufr: array<Byte>, ghost ub: nat, ghost s0: Snap)
    returns (ok: bool, recn: nat, ghost k: nat)
    requires FileOk(c, p) && AtPos(p, j) && p.dm.RecByte(p.curbyt) == 0 && ub <= ubufr.Length
    requires Step(wrtflg, p.dm, s0, Take(c, p, ubufr, ub))
    modifies c, p`curcl, p`currec, p`curbyt, p.dfd`strtcl, p.dfd`dirty, p.dfd`chain
    ensures FileOk(c, p) && recn == p.dm.RecNum(p.curbyt)
    ensures if ok then InRecord(p, k) else AtPos(p, j) && AtEnd(c, p, wrtflg)
    ensures Step(wrtflg, p.dm, s0, Take(c, p, ubufr, ub))
  {
    hide CacheOk, DMD.SizesOk, Mul, Quo, Rem, IsChain, Step, GoodChain, Cl2Rec, NoneFree, Fat, Take, DMD.RecByte, DMD.RecNum;
    FileDm(c, p);
    TailPlace(p, j);
    ZeroPlace(p.dm);
    PosInCap(p, j);
    ok := true;
    recn := p.dm.RecNum(p.curbyt);
    if recn == 0 || recn == p.dm.clsiz {
      var rc := Advance(c, p, wrtflg, j, ubufr, ub, s0);
      recn, k, ok := if rc == 0 then 0 else recn, j, rc == 0;
    } else {
      k := j - 1;
    }
  }

  lemma PosInCap(p: OFD, j: nat)
    requires AtPos(p, j)
    ensures p.bytnum <= Cap(p.dm, p.dfd.chain) && p.bytnum <= Mul(j, p.dm.clsizb)
  {
    hide Mul;
    MulMono(j, |p.dfd.chain|, p.dm.clsizb);
    if 0 < j {
      MulOne(p.dm.clsizb);
      MulAdd(j - 1, 1, p.dm.clsizb);
    }
  }

  lemma StepRefl(wrt: bool, dm: DMD, s: Snap)
    requires s.b <= Cap(dm, s.ch) && s.uo <= |s.u|
    ensures Step(wrt, dm, s, s)
  {
    hide Fat, Transferred, Cap;
    GrownRefl(Fat(s.v, dm), s.ch);
    OnlyFatRefl(s.v, dm);
    MovedNothing(wrt, dm, s.v, s.ch, s.v, s.ch, s.b, s.u, s.uo);
  }

  // The tail bytes of xrw().
  method TailBytes(c: Cache, p: OFD, wrtflg: bool, lentail: nat, ubufr: array<Byte>, ub: nat, ghost j: nat, ghost s0: Snap)
    returns (ok: bool, ghost k: nat)
    requires FileOk(c, p) && AtPos(p, j) && p.dm.RecByte(p.curbyt) == 0
    requires 0 < lentail < p.dm.recsiz && ub + lentail <= ubufr.Length
    requires Step(wrtflg, p.dm, s0, Take(c, p, ubufr, ub))
    modifies c, ubufr, p, p.dfd
    ensures FileOk(c, p) && AtPos(p, k)
    ensures if ok then p.bytnum == old(p.bytnum) + lentail else p.bytnum == old(p.bytnum) && AtEnd(c, p, wrtflg)
    ensures Step(wrtflg, p.dm, s0, Take(c, p, ubufr, if ok then ub + lentail else ub))
  {
    hide CacheOk, DMD.SizesOk, Mul, Quo, Rem, IsChain, Step, GoodChain, Cl2Rec, NoneFree, Fat, Take, DMD.RecByte, FileRec, Cap, SnapOk, AtEnd;
    var recn: nat;
    ok, recn, k := TailCluster(c, p, wrtflg, j, ubufr, ub, s0);
    if ok {
      FileDm(c, p);
      Place(p.dm, p.dfd.chain, k, p.curbyt);
      PartRecord(c, p, wrtflg, p.currec + recn, 0, lentail, ubufr, ub, s0);
      k := k + 1;
    } else {
      k := j;
    }
  }

  lemma ZeroPlace(dm: DMD)
    ensures dm.RecNum(0) == 0 && dm.RecByte(0) == 0
  {
  }

  lemma TailPlace(p: OFD, j: nat)
    requires p.dm.LayoutOk() && p.dm.SizesOk() && GoodChain(p.dm, p.dfd.chain)
    requires AtPos(p, j) && p.dm.RecByte(p.curbyt) == 0
    ensures p.dm.RecNum(p.curbyt) == 0 <==> p.curbyt == 0
    ensures p.dm.RecNum(p.curbyt) == p.dm.clsiz <==> p.curbyt == p.dm.clsizb
    ensures 0 < p.dm.RecNum(p.curbyt) < p.dm.clsiz ==> 0 < j && 0 < p.curbyt < p.dm.clsizb
    ensures p.dm.RecNum(p.curbyt) == 0 || p.dm.RecNum(p.curbyt) == p.dm.clsiz ==> p.bytnum == Mul(j, p.dm.clsizb)
  {
    hide Mul, Quo, Rem, DMD.SizesOk, FileRec, Cl2Rec, GoodChain;
    Sizes(p.dm);
    ZeroPlace(p.dm);
    Boundary(p.dm, 0);
    if 0 < p.curbyt < p.dm.clsizb {
      Place(p.dm, p.dfd.chain, j - 1, p.curbyt);
    }
  }

  // Whole records within the current cluster.
  method ClusterRecs(c: Cache, p: OFD, wrtflg: bool, h: nat, strt: nat, ubufr: array<Byte>, ub: nat, ghost k: nat, ghost s0: Snap)
    requires FileOk(c, p) && InRecord(p, k) && strt == p.currec + p.dm.RecNum(p.curbyt)
    requires 0 < h && p.dm.RecNum(p.curbyt) + h <= p.dm.clsiz && (0 < p.curbyt || h < p.dm.clsiz)
    requires ub + Mul(h, p.dm.recsiz) <= ubufr.Length
    requires Step(wrtflg, p.dm, s0, Take(c, p, ubufr, ub))
    modifies c, ubufr, p`curbyt, p`bytnum, p.dfd`fileln, p.dfd`dirty
    ensures FileOk(c, p) && AtPos(p, k + 1) && p.dm.RecByte(p.curbyt) == 0
    ensures p.bytnum == old(p.bytnum) + Mul(h, p.dm.recsiz)
    ensures p.dm.RecNum(old(p.curbyt)) + h == p.dm.clsiz ==> p.bytnum == Mul(k + 1, p.dm.clsizb)
    ensures Step(wrtflg, p.dm, s0, Take(c, p, ubufr, ub + Mul(h, p.dm.recsiz)))
  {
    hide CacheOk, DMD.SizesOk, Mul, Quo, Rem, IsChain, Step, GoodChain, Cl2Rec, Fat, Take, Cap, Contiguous, FileRec,
      DMD.RecByte, DMD.RecNum, AtPos;
    FileDm(c, p);
    ghost var x := p.curbyt;
    ClusterRunSize(p.dm, x, h);
    RunPlaced(p, k, h);
    MulPos(h, p.dm.recsiz);
    WholeRecords(c, p, wrtflg, h, strt, ubufr, ub, s0);
    InsideAt(p, k);
  }

  lemma RunPlaced(p: OFD, k: nat, h: nat)
    requires p.dm.LayoutOk() && p.dm.SizesOk() && GoodChain(p.dm, p.dfd.chain)
    requires InRecord(p, k) && p.dm.RecNum(p.curbyt) + h <= p.dm.clsiz
    ensures var strt := p.currec + p.dm.RecNum(p.curbyt);
      && Contiguous(p.dm, p.dfd.chain, p.dm.RecNum(p.bytnum), strt, h) && strt + h <= p.dm.datlen
    ensures p.dm.RecByte(p.bytnum) == 0 && p.bytnum + Mul(h, p.dm.recsiz) <= Cap(p.dm, p.dfd.chain)
    ensures p.curbyt + Mul(h, p.dm.recsiz) <= p.dm.clsizb
    ensures p.dm.RecNum(p.curbyt) + h == p.dm.clsiz ==> p.curbyt + Mul(h, p.dm.recsiz) == p.dm.clsizb
    ensures h <= CNTMAX && Mul(k, p.dm.clsizb) + p.dm.clsizb == Mul(k + 1, p.dm.clsizb)
  {
    hide DMD.SizesOk, Mul, Quo, Rem, GoodChain, Cl2Rec, Cap, Contiguous, FileRec, DMD.RecByte, DMD.RecNum;
    Sizes(p.dm);
    ClusterRun(p.dm, p.dfd.chain, k, p.curbyt, h);
    Place(p.dm, p.dfd.chain, k, p.curbyt);
  }

  // The header records of xrw_recs(): the rest of the current cluster.
  method HeadRecs(c: Cache, p: OFD, wrtflg: bool, startrec: nat, numrecs: nat, ubufr: array<Byte>, ub: nat, ghost j: nat, ghost s0: Snap)
    returns (hdrrec: nat)
    requires FileOk(c, p) && AtPos(p, j) && p.dm.RecByte(p.curbyt) == 0
    requires startrec == p.currec + p.dm.RecNum(p.curbyt) && ub + Mul(numrecs, p.dm.recsiz) <= ubufr.Length && 0 < numrecs
    requires Step(wrtflg, p.dm, s0, Take(c, p, ubufr, ub))
    modifies c, ubufr, p`curbyt, p`bytnum, p.dfd`fileln, p.dfd`dirty
    ensures FileOk(c, p) && AtPos(p, j) && p.dm.RecByte(p.curbyt) == 0 && hdrrec <= numrecs
    ensures p.bytnum == old(p.bytnum) + Mul(hdrrec, p.dm.recsiz)
    ensures hdrrec < numrecs ==> p.bytnum == Mul(j, p.dm.clsizb)
    ensures Step(wrtflg, p.dm, s0, Take(c, p, ubufr, ub + Mul(hdrrec, p.dm.recsiz)))
  {
    hide CacheOk, DMD.SizesOk, Mul, Quo, Rem, IsChain, Step, GoodChain, Cl2Rec, Fat, Take, Cap, DMD.RecByte, DMD.RecNum,
      AtPos, InRecord, On;
    FileDm(c, p);
    HeadPlace(p, j, startrec);
    PosInCap(p, j);
    MulOne(p.dm.recsiz);
    if Rem(startrec, p.dm.clsiz) != 0 {
      AtInside(p, j);
    }
    hdrrec := Rem(startrec, p.dm.clsiz);
    if hdrrec != 0 {
      hdrrec := p.dm.clsiz - hdrrec;
      if hdrrec > numrecs {
        hdrrec := numrecs;
      }
      MulMono(hdrrec, numrecs, p.dm.recsiz);
      ghost var k := j - 1;
      assert k + 1 == j;
      ClusterRecs(c, p, wrtflg, hdrrec, startrec, ubufr, ub, k, s0);
    }
  }

  // startrec & m_clrm is the record within the cluster, or 0 on a cluster boundary.
  lemma HeadPlace(p: OFD, j: nat, startrec: nat)
    requires p.dm.LayoutOk() && p.dm.SizesOk() && GoodChain(p.dm, p.dfd.chain)
    requires AtPos(p, j) && p.dm.RecByte(p.curbyt) == 0 && startrec == p.currec + p.dm.RecNum(p.curbyt)
    ensures Rem(startrec, p.dm.clsiz) < p.dm.clsiz
    ensures Rem(startrec, p.dm.clsiz) != 0 ==>
      0 < j && 0 < p.curbyt < p.dm.clsizb && p.dm.RecNum(p.curbyt) == Rem(startrec, p.dm.clsiz)
    ensures Rem(startrec, p.dm.clsiz) == 0 ==> p.bytnum == Mul(j, p.dm.clsizb)
  {
    hide Mul, Quo, Rem, DMD.SizesOk, GoodChain, FileRec;
    Sizes(p.dm);
    ZeroPlace(p.dm);
    Boundary(p.dm, 0);
    TailPlace(p, j);
    if 0 < j {
      var k := p.curcl - 2;
      if p.dm.RecNum(p.curbyt) < p.dm.clsiz {
        Decompose(k, p.dm.RecNum(p.curbyt), p.dm.clsiz);
      } else {
        MulOne(p.dm.clsiz);
        MulAdd(k, 1, p.dm.clsiz);
        Decompose(k + 1, 0, p.dm.clsiz);
        NotPast(p.dm, p.curbyt);
      }
    } else {
      MulOne(p.dm.clsiz);
      Decompose(0, 0, p.dm.clsiz);
    }
  }

  lemma NotPast(dm: DMD, x: nat)
    requires dm.LayoutOk() && dm.SizesOk() && x <= dm.clsizb
    ensures dm.RecNum(x) <= dm.clsiz
  {
    hide Mul, Quo, Rem, DMD.SizesOk;
    Sizes(dm);
    Boundary(dm, 0);
    QuoBound(x, dm.clsiz, dm.recsiz);
  }

  lemma ClusterRunSize(dm: DMD, x: nat, h: nat)
    requires dm.LayoutOk() && dm.SizesOk() && dm.RecByte(x) == 0 && dm.RecNum(x) + h <= dm.clsiz
    requires 0 < x || h < dm.clsiz
    ensures Mul(h, dm.recsiz) < dm.clsizb && dm.RecByte(x + Mul(h, dm.recsiz)) == 0
  {
    hide Mul, Quo, Rem, DMD.SizesOk;
    Sizes(dm);
    ZeroPlace(dm);
    Recompose(x, dm.recsiz);
    MulAdd(dm.RecNum(x), h, dm.recsiz);
    Decompose(dm.RecNum(x) + h, 0, dm.recsiz);
    MulMono(dm.RecNum(x) + h, dm.clsiz, dm.recsiz);
  }

  // The tail records of xrw_recs(): the start of the next cluster.
  method TailRecs(c: Cache, p: OFD, wrtflg: bool, tailrec: nat, ubufr: array<Byte>, ub: nat, ghost j: nat, ghost s0: Snap)
    returns (ok: bool, ghost k: nat)
    requires FileOk(c, p) && AtPos(p, j) && p.bytnum == Mul(j, p.dm.clsizb)
    requires 0 < tailrec < p.dm.clsiz && ub + Mul(tailrec, p.dm.recsiz) <= ubufr.Length
    requires Step(wrtflg, p.dm, s0, Take(c, p, ubufr, ub))
    modifies c, ubufr, p, p.dfd
    ensures FileOk(c, p) && AtPos(p, k) && p.dm.RecByte(p.curbyt) == 0
    ensures if ok then p.bytnum == old(p.bytnum) + Mul(tailrec, p.dm.recsiz)
      else p.bytnum == old(p.bytnum) && AtEnd(c, p, wrtflg)
    ensures Step(wrtflg, p.dm, s0, Take(c, p, ubufr, if ok then ub + Mul(tailrec, p.dm.recsiz) else ub))
  {
    hide CacheOk, DMD.SizesOk, Mul, Quo, Rem, IsChain, Step, GoodChain, Cl2Rec, Fat, Take, SnapOk, AtPos, AtEnd, InRecord, On,
      DMD.RecByte, DMD.RecNum;
    ZeroPlace(p.dm);
    ok := Boundary1(c, p, wrtflg, j, ubufr, ub, s0);
    k := j;
    if ok {
      ClusterRecs(c, p, wrtflg, tailrec, p.currec, ubufr, ub, j, s0);
      k := j + 1;
    }
  }

  // nextcl() on a cluster boundary, before a transfer.
  method Boundary1(c: Cache, p: OFD, wrtflg: bool, ghost j: nat, ghost ubufr: array<Byte>, ghost ub: nat, ghost s0: Snap) returns (ok: bool)
    requires FileOk(c, p) && AtPos(p, j) && p.bytnum == Mul(j, p.dm.clsizb) && ub <= ubufr.Length
    requires Step(wrtflg, p.dm, s0, Take(c, p, ubufr, ub))
    modifies c, p`curcl, p`currec, p`curbyt, p.dfd`strtcl, p.dfd`dirty, p.dfd`chain
    ensures FileOk(c, p)
    ensures if ok then InRecord(p, j) && p.curbyt == 0
      else AtPos(p, j) && AtEnd(c, p, wrtflg) && p.curbyt == old(p.curbyt) && p.dm.RecByte(p.curbyt) == 0
    ensures Step(wrtflg, p.dm, s0, Take(c, p, ubufr, ub))
  {
    hide CacheOk, DMD.SizesOk, Mul, Quo, Rem, IsChain, Step, GoodChain, Cl2Rec, Fat, Take, NoneFree, DMD.RecByte, DMD.RecNum;
    FileDm(c, p);
    BoundaryByte(p, j);
    ZeroPlace(p.dm);
    var rc := Advance(c, p, wrtflg, j, ubufr, ub, s0);
    ok := rc == 0;
  }

  lemma CapOf(p: OFD, j: nat)
    requires j == |p.dfd.chain|
    ensures Cap(p.dm, p.dfd.chain) == Mul(j, p.dm.clsizb)
  {
  }

  // On a boundary the offset is 0 or a whole cluster.
  lemma BoundaryByte(p: OFD, j: nat)
    requires p.dm.LayoutOk() && p.dm.SizesOk() && AtPos(p, j) && p.bytnum == Mul(j, p.dm.clsizb)
    ensures p.curbyt == 0 || p.curbyt == p.dm.clsizb
    ensures p.dm.RecByte(p.curbyt) == 0
  {
    hide Mul, Quo, Rem, DMD.SizesOk;
    ZeroPlace(p.dm);
    Boundary(p.dm, 0);
    if 0 < j {
      MulOne(p.dm.clsizb);
      MulAdd(j - 1, 1, p.dm.clsizb);
    }
  }

  // The pending transfer of the cluster loop of xrw_recs(): m clusters from chain element j on,
  // next to each other on the disk from record `last` on.
  ghost predicate Pending(p: OFD, j: nat, m: nat, nrecs: nat, last: nat)
    reads p, p.dfd
  {
    && p.bytnum == Mul(j, p.dm.clsizb) && nrecs == Mul(m, p.dm.clsiz) && nrecs <= CNTMAX
    && Adjacent(p.dm, p.dfd.chain, j, m, last)
  }

  // Complete the pending transfer, if there is one.
  method Drain(c: Cache, p: OFD, wrtflg: bool, nrecs: nat, last: nat, ubufr: array<Byte>, ub: nat,
               ghost j: nat, ghost m: nat, ghost e: nat, ghost s0: Snap)
    returns (last': nat, ub': nat)
    requires FileOk(c, p) && Pending(p, j, m, nrecs, last) && ub + Mul(m, p.dm.clsizb) <= ubufr.Length
    requires On(p, e) && (0 < m ==> p.curbyt == 0)
    requires Step(wrtflg, p.dm, s0, Take(c, p, ubufr, ub))
    modifies c, ubufr, p`curbyt, p`bytnum, p.dfd`fileln, p.dfd`dirty
    ensures FileOk(c, p) && Fat(c.vol, p.dm) == old(Fat(c.vol, p.dm))
    ensures On(p, e) && p.curbyt == old(p.curbyt)
    ensures Pending(p, j + m, 0, 0, last') && last' == if m == 0 then last else p.currec
    ensures ub' == ub + Mul(m, p.dm.clsizb)
    ensures Step(wrtflg, p.dm, s0, Take(c, p, ubufr, ub'))
  {
    hide CacheOk, DMD.SizesOk, Mul, Quo, Rem, IsChain, Step, GoodChain, Fat, Take, Cap, Contiguous, Adjacent, Cl2Rec,
      DMD.RecByte, DMD.RecNum, FileOk;
    FileDm(c, p);
    MulZero(p.dm.clsiz);
    MulZero(p.dm.clsizb);
    AdjacentIn(p.dm, p.dfd.chain, j, m, last);
    last', ub' := last, ub;
    if nrecs != 0 {
      AdjacentRun(p.dm, p.dfd.chain, j, m, last);
      Boundary(p.dm, j);
      WholeRecords(c, p, wrtflg, nrecs, last, ubufr, ub, s0);
      ub' := ub + Mul(nrecs, p.dm.recsiz);
      last' := p.currec;
    } else {
      NoneOf(p.dm, m);
    }
    AdjacentNone(p.dm, p.dfd.chain, j + m, last');
  }

  lemma AdjacentIn(dm: DMD, ch: seq<nat>, j: nat, m: nat, strt: nat)
    requires Adjacent(dm, ch, j, m, strt)
    ensures j + m <= |ch|
  {
  }

  // The cluster the descriptor is on joins the pending transfer.
  lemma PendingNext(p: OFD, j: nat, m: nat, nrecs: nat, last: nat)
    requires Pending(p, j, m, nrecs, last) && On(p, j + m + 1)
    requires p.currec == last + nrecs && nrecs + p.dm.clsiz <= CNTMAX
    ensures Pending(p, j, m + 1, nrecs + p.dm.clsiz, last)
  {
    hide Mul, Adjacent, Cl2Rec;
    AdjacentNext(p.dm, p.dfd.chain, j, m, last);
    MulOne(p.dm.clsiz);
    MulAdd(m, 1, p.dm.clsiz);
  }

  // nextcl() in the cluster loop: the pending transfer is not touched.
  method AdvanceLoop(c: Cache, p: OFD, wrtflg: bool, ghost j: nat, ghost m: nat, nrecs: nat, last: nat,
                     ghost ubufr: array<Byte>, ghost ub: nat, ghost s0: Snap)
    returns (rc: int)
    requires FileOk(c, p) && Pending(p, j, m, nrecs, last) && On(p, j + m) && ub <= ubufr.Length
    requires Step(wrtflg, p.dm, s0, Take(c, p, ubufr, ub))
    modifies c, p`curcl, p`currec, p`curbyt, p.dfd`strtcl, p.dfd`dirty, p.dfd`chain
    ensures FileOk(c, p) && Pending(p, j, m, nrecs, last)
    ensures if rc == 0 then On(p, j + m + 1) && p.curbyt == 0
      else On(p, j + m) && p.curbyt == old(p.curbyt) && j + m == |p.dfd.chain| && (wrtflg ==> NoneFree(Fat(c.vol, p.dm)))
    ensures Step(wrtflg, p.dm, s0, Take(c, p, ubufr, ub))
  {
    hide CacheOk, DMD.SizesOk, Mul, IsChain, Step, Fat, Take, Adjacent, NoneFree, Cl2Rec, FileOk;
    ghost var e, ch := j + m, p.dfd.chain;
    MulMono(j, e, p.dm.clsizb);
    rc := Advance(c, p, wrtflg, e, ubufr, ub, s0);
    AdjacentPrefix(p.dm, ch, p.dfd.chain, j, m, last);
  }

  // The cluster loop of xrw_recs().
  method MidClusters(c: Cache, p: OFD, wrtflg: bool, numclus0: nat, ubufr: array<Byte>, ub: nat, ghost j: nat, ghost s0: Snap)
    returns (ok: bool, ub': nat, ghost k: nat)
    requires FileOk(c, p) && On(p, j) && p.bytnum == Mul(j, p.dm.clsizb) && (p.curbyt == 0 || p.curbyt == p.dm.clsizb)
    requires ub + Mul(numclus0, p.dm.clsizb) <= ubufr.Length
    requires Step(wrtflg, p.dm, s0, Take(c, p, ubufr, ub))
    modifies c, ubufr, p, p.dfd
    ensures FileOk(c, p) && On(p, k) && p.bytnum == Mul(k, p.dm.clsizb) && (p.curbyt == 0 || p.curbyt == p.dm.clsizb)
    ensures if ok then k == j + numclus0 else AtEnd(c, p, wrtflg) && j <= k < j + numclus0
    ensures ub' == ub + Mul(k - j, p.dm.clsizb)
    ensures k == 0 ==> p.curbyt == old(p.curbyt)
    ensures Step(wrtflg, p.dm, s0, Take(c, p, ubufr, ub'))
  {
    hide CacheOk, DMD.SizesOk, Mul, Quo, Rem, IsChain, Step, GoodChain, Fat, Take, Cap, Adjacent, Cl2Rec,
      DMD.RecByte, DMD.RecNum, FileOk, NoneFree;
    FileDm(c, p);
    MulZero(p.dm.clsiz);
    MulZero(p.dm.clsizb);
    var numclus, last: nat, nrecs: nat, first := numclus0, 0, 0, true;
    ub' := ub;
    ghost var m := 0;
    k := j;
    InChain(p, j);
    AdjacentNone(p.dm, p.dfd.chain, j, last);
    while true
      invariant FileOk(c, p) && Pending(p, k, m, nrecs, last) && On(p, k + m)
      invariant p.curbyt == 0 || (m == 0 && p.curbyt == p.dm.clsizb && k == j)
      invariant k + m == 0 ==> p.curbyt == old(p.curbyt)
      invariant j <= k && k + m + numclus == j + numclus0 && ub' == ub + Mul(k - j, p.dm.clsizb)
      invariant first <==> k + m == j
      invariant !first ==> 0 < m
      invariant Step(wrtflg, p.dm, s0, Take(c, p, ubufr, ub'))
      decreases numclus
    {
      FileDm(c, p);
      Room(k - j, m, numclus, p.dm.clsizb);
      ghost var e := k + m;
      var rc := 0;
      if numclus != 0 {
        rc := AdvanceLoop(c, p, wrtflg, k, m, nrecs, last, ubufr, ub', s0);
        if rc == 0 {
          e := e + 1;
        }
      }
      if first {
        last := p.currec;
        first := false;
        AdjacentNone(p.dm, p.dfd.chain, k, last);
      }
      if rc != 0 || numclus == 0 || p.currec != last + nrecs || nrecs + p.dm.clsiz > CNTMAX {
        last, ub' := Drain(c, p, wrtflg, nrecs, last, ubufr, ub', k, m, e, s0);
        nrecs, k, m := 0, k + m, 0;
      }
      if rc != 0 {
        CapOf(p, k);
        return false, ub', k;
      }
      if numclus == 0 {
        return true, ub', k;
      }
      PendingNext(p, k, m, nrecs, last);
      nrecs, numclus, m := nrecs + p.dm.clsiz, numclus - 1, m + 1;
    }
  }

  lemma InChain(p: OFD, j: nat)
    requires On(p, j)
    ensures j <= |p.dfd.chain|
  {
  }

  lemma Room(a: nat, m: nat, n: nat, size: nat)
    ensures Mul(a, size) + Mul(m, size) <= Mul(a + m + n, size) && Mul(a, size) + Mul(m, size) == Mul(a + m, size)
  {
    hide Mul;
    MulAdd(a, m, size);
    MulMono(a + m, a + m + n, size);
  }

  lemma MulZero(n: nat)
    ensures Mul(0, n) == 0
  {
  }

  lemma NoneOf(dm: DMD, m: nat)
    requires 0 < dm.clsiz && Mul(m, dm.clsiz) == 0
    ensures m == 0
  {
    if 0 < m {
      MulPos(m, dm.clsiz);
    }
  }

  // xrw_recs(): numrecs whole records.
  method XrwRecs(c: Cache, p: OFD, wrtflg: bool, startrec: nat, numrecs0: nat, ubufr: array<Byte>, ub: nat,
                 ghost j: nat, ghost s0: Snap)
    returns (ok: bool, ub': nat, ghost k: nat)
    requires FileOk(c, p) && AtPos(p, j) && p.dm.RecByte(p.curbyt) == 0
    requires startrec == p.currec + p.dm.RecNum(p.curbyt) && 0 < numrecs0
    requires ub + Mul(numrecs0, p.dm.recsiz) <= ubufr.Length
    requires Step(wrtflg, p.dm, s0, Take(c, p, ubufr, ub))
    modifies c, ubufr, p, p.dfd
    ensures FileOk(c, p) && AtPos(p, k) && p.dm.RecByte(p.curbyt) == 0
    ensures ub <= ub' && p.bytnum == old(p.bytnum) + (ub' - ub)
    ensures if ok then ub' == ub + Mul(numrecs0, p.dm.recsiz) else AtEnd(c, p, wrtflg) && ub' < ub + Mul(numrecs0, p.dm.recsiz)
    ensures Step(wrtflg, p.dm, s0, Take(c, p, ubufr, ub'))
  {
    hide CacheOk, DMD.SizesOk, Mul, Quo, Rem, IsChain, Step, GoodChain, Fat, Take, Cap, Cl2Rec, DMD.RecByte, DMD.RecNum,
      FileOk, AtPos, On, AtEnd;
    FileDm(c, p);
    var hdrrec := HeadRecs(c, p, wrtflg, startrec, numrecs0, ubufr, ub, j, s0);
    var numrecs := numrecs0 - hdrrec;
    k, ok, ub' := j, true, ub + Mul(hdrrec, p.dm.recsiz);
    SplitRecs(p.dm, numrecs0, hdrrec);
    if numrecs != 0 {
      ok, ub', k := XrwClusters(c, p, wrtflg, numrecs, ubufr, ub', j, s0);
    }
  }

  // numrecs records are whole clusters and a tail.
  lemma SplitRecs(dm: DMD, numrecs: nat, hdrrec: nat)
    requires 0 < dm.recsiz && hdrrec <= numrecs
    ensures Mul(hdrrec, dm.recsiz) + Mul(numrecs - hdrrec, dm.recsiz) == Mul(numrecs, dm.recsiz)
  {
    hide Mul;
    MulAdd(hdrrec, numrecs - hdrrec, dm.recsiz);
  }

  lemma SplitClusters(dm: DMD, numrecs: nat)
    requires 0 < dm.clsiz && dm.clsizb == Mul(dm.clsiz, dm.recsiz)
    ensures Rem(numrecs, dm.clsiz) < dm.clsiz
    ensures Mul(Quo(numrecs, dm.clsiz), dm.clsizb) + Mul(Rem(numrecs, dm.clsiz), dm.recsiz) == Mul(numrecs, dm.recsiz)
  {
    hide Mul, Quo, Rem;
    Recompose(numrecs, dm.clsiz);
    MulMul(Quo(numrecs, dm.clsiz), dm.clsiz, dm.recsiz);
    MulAdd(Mul(Quo(numrecs, dm.clsiz), dm.clsiz), Rem(numrecs, dm.clsiz), dm.recsiz);
  }

  // The middle and tail of xrw_recs(), from a cluster boundary.
  method XrwClusters(c: Cache, p: OFD, wrtflg: bool, numrecs: nat, ubufr: array<Byte>, ub: nat, ghost j: nat, ghost s0: Snap)
    returns (ok: bool, ub': nat, ghost k: nat)
    requires FileOk(c, p) && AtPos(p, j) && p.bytnum == Mul(j, p.dm.clsizb) && 0 < numrecs
    requires ub + Mul(numrecs, p.dm.recsiz) <= ubufr.Length
    requires Step(wrtflg, p.dm, s0, Take(c, p, ubufr, ub))
    modifies c, ubufr, p, p.dfd
    ensures FileOk(c, p) && AtPos(p, k) && p.dm.RecByte(p.curbyt) == 0
    ensures ub <= ub' && p.bytnum == old(p.bytnum) + (ub' - ub)
    ensures if ok then ub' == ub + Mul(numrecs, p.dm.recsiz) else AtEnd(c, p, wrtflg) && ub' < ub + Mul(numrecs, p.dm.recsiz)
    ensures Step(wrtflg, p.dm, s0, Take(c, p, ubufr, ub'))
  {
    hide CacheOk, DMD.SizesOk, Mul, Quo, Rem, IsChain, Step, GoodChain, Fat, Take, Cap, Cl2Rec, DMD.RecByte, DMD.RecNum,
      FileOk, AtPos, On, AtEnd;
    FileDm(c, p);
    BoundaryByte(p, j);
    AtPosOn(p, j);
    SplitClusters(p.dm, numrecs);
    var tailrec := Rem(numrecs, p.dm.clsiz);
    var numclus := Quo(numrecs, p.dm.clsiz);
    ok, ub', k := MidClusters(c, p, wrtflg, numclus, ubufr, ub, j, s0);
    ClustersMoved(j, k, numclus, p.dm.clsizb);
    FileDm(c, p);
    OnAtPos(p, k);
    BoundaryByte(p, k);
    if ok && tailrec != 0 {
      TailPos(p.dm, tailrec);
      var w := ub';
      ok, k := TailRecs(c, p, wrtflg, tailrec, ubufr, w, k, s0);
      ub' := if ok then w + Mul(tailrec, p.dm.recsiz) else w;
    } else {
      MulZero(p.dm.recsiz);
    }
  }

  lemma TailPos(dm: DMD, tailrec: nat)
    requires 0 < tailrec && 0 < dm.recsiz
    ensures 0 < Mul(tailrec, dm.recsiz)
  {
    MulPos(tailrec, dm.recsiz);
  }

  lemma ClustersMoved(j: nat, k: nat, n: nat, size: nat)
    requires j <= k <= j + n && 0 < size
    ensures Mul(k, size) == Mul(j, size) + Mul(k - j, size) && Mul(k - j, size) <= Mul(n, size)
    ensures k < j + n ==> Mul(k - j, size) < Mul(n, size)
  {
    hide Mul;
    MulAdd(j, k - j, size);
    MulMono(k - j, n, size);
  }

  lemma AtPosOn(p: OFD, j: nat)
    requires AtPos(p, j)
    ensures On(p, j) && (j == 0 ==> p.curbyt == 0)
  {
  }

  lemma OnAtPos(p: OFD, j: nat)
    requires On(p, j) && p.bytnum == Mul(j, p.dm.clsizb) && (p.curbyt == 0 || p.curbyt == p.dm.clsizb)
    requires j == 0 ==> p.curbyt == 0
    ensures AtPos(p, j)
  {
  }

  // xrw(): len bytes between the file and the user's memory.  The result is how many were
  // moved; it is less than len only at the end of the chain.
  method Xrw(wrtflg: bool, c: Cache, p: OFD, len0: nat, ubufr: array<Byte>, ghost j: nat) returns (rc: nat, ghost k: nat)
    requires FileOk(c, p) && AtPos(p, j) && len0 <= ubufr.Length
    modifies c, ubufr, p, p.dfd
    ensures FileOk(c, p) && AtPos(p, k)
    ensures rc <= len0 && p.bytnum == old(p.bytnum) + rc && (rc < len0 ==> AtEnd(c, p, wrtflg))
    ensures Step(wrtflg, p.dm, old(Take(c, p, ubufr, 0)), Take(c, p, ubufr, rc))
  {
    hide CacheOk, DMD.SizesOk, Mul, Quo, Rem, IsChain, Step, GoodChain, Fat, Take, Cap, Cl2Rec, DMD.RecByte, DMD.RecNum,
      FileOk, AtPos, On, AtEnd;
    ghost var s0 := Take(c, p, ubufr, 0);
    FileDm(c, p);
    PosInCap(p, j);
    TakeStep(wrtflg, c, p, ubufr);
    var recn := p.dm.RecNum(p.curbyt);
    var bytn := p.dm.RecByte(p.curbyt);
    recn := recn + p.currec;
    var len, ub, ok := len0, 0, true;
    k := j;
    if bytn != 0 {
      if len == 0 {
        Touch(c, p, wrtflg, recn, bytn, j);
      } else {
        ub := HeadBytes(c, p, wrtflg, recn, bytn, len, ubufr, 0, j, s0);
        len := len - ub;
      }
      recn := recn + 1;
    }
    if len != 0 {
      ok, ub, k := XrwRest(wrtflg, c, p, len, recn, ubufr, ub, k, s0);
    }
    rc := ub;
  }

  // A request for no bytes still fetches the current record.
  method Touch(c: Cache, p: OFD, wrtflg: bool, recn: nat, bytn: nat, ghost j: nat)
    requires FileOk(c, p) && AtPos(p, j)
    requires bytn == p.dm.RecByte(p.curbyt) && bytn != 0 && recn == p.currec + p.dm.RecNum(p.curbyt)
    modifies c`disk, c`bufl
    ensures FileOk(c, p)
  {
    hide CacheOk, DMD.SizesOk, FileRec, Mul, Quo, Rem, IsChain, Cap, GoodChain, Cl2Rec, DMD.RecByte, DMD.RecNum, Fat;
    FileDm(c, p);
    InsideCluster(p, j);
    AtInside(p, j);
    Place(p.dm, p.dfd.chain, j - 1, p.curbyt);
    var _ := c.GetRec(recn, p.dm, BtData, wrtflg);
  }

  lemma TakeStep(wrt: bool, c: Cache, p: OFD, ubufr: array<Byte>)
    requires p.bytnum <= Cap(p.dm, p.dfd.chain)
    ensures Step(wrt, p.dm, Take(c, p, ubufr, 0), Take(c, p, ubufr, 0))
  {
    hide Step, Cap;
    StepRefl(wrt, p.dm, Take(c, p, ubufr, 0));
  }

  lemma SplitBytes(dm: DMD, len: nat)
    requires 0 < dm.recsiz
    ensures Rem(len, dm.recsiz) <= len && Quo(len - Rem(len, dm.recsiz), dm.recsiz) == Quo(len, dm.recsiz)
    ensures Mul(Quo(len, dm.recsiz), dm.recsiz) + Rem(len, dm.recsiz) == len && Rem(len, dm.recsiz) < dm.recsiz
    ensures 0 < Quo(len, dm.recsiz) || Rem(len, dm.recsiz) == len
  {
    hide Mul, Quo, Rem;
    Recompose(len, dm.recsiz);
    Decompose(Quo(len, dm.recsiz), 0, dm.recsiz);
    MulZero(dm.recsiz);
  }

  // The middle records and tail bytes of xrw(), from a record boundary.
  method XrwRest(wrtflg: bool, c: Cache, p: OFD, len: nat, recn: nat, ubufr: array<Byte>, ub: nat, ghost j: nat, ghost s0: Snap)
    returns (ok: bool, ub': nat, ghost k: nat)
    requires FileOk(c, p) && AtPos(p, j) && p.dm.RecByte(p.curbyt) == 0 && recn == p.currec + p.dm.RecNum(p.curbyt)
    requires ub + len <= ubufr.Length && 0 < len
    requires Step(wrtflg, p.dm, s0, Take(c, p, ubufr, ub))
    modifies c, ubufr, p, p.dfd
    ensures FileOk(c, p) && AtPos(p, k)
    ensures ub <= ub' <= ub + len && p.bytnum == old(p.bytnum) + (ub' - ub)
    ensures if ok then ub' == ub + len else AtEnd(c, p, wrtflg)
    ensures Step(wrtflg, p.dm, s0, Take(c, p, ubufr, ub'))
  {
    hide CacheOk, DMD.SizesOk, Mul, Quo, Rem, IsChain, Step, GoodChain, Fat, Take, Cap, Cl2Rec, DMD.RecByte, DMD.RecNum,
      FileOk, AtPos, On, AtEnd;
    FileDm(c, p);
    SplitBytes(p.dm, len);
    var lentail := Rem(len, p.dm.recsiz);
    var numrecs := Quo(len - lentail, p.dm.recsiz);
    ok, ub', k := true, ub, j;
    if numrecs != 0 {
      ok, ub', k := XrwRecs(c, p, wrtflg, recn, numrecs, ubufr, ub, j, s0);
      if !ok {
        return;
      }
    }
    if lentail != 0 {
      var w := ub';
      ok, k := TailBytes(c, p, wrtflg, lentail, ubufr, w, k, s0);
      ub' := if ok then w + lentail else w;
    }
  }
}

// The file system calls: ixread, ixwrite, ixlseek and ixgetfcb (bdos/fsio.c).
module FileOps {
  import opened Bounds
  import opened Bytes
  import opened Shift
  import opened Media
  import opened BufferCache
  import opened FatTable
  import opened Chains
  import opened FatOps
  import opened FileData
  import opened FileIo

  const ERANGE := -64
  const EINTRN := -65

  // What one call does to the volume, the file and the user's memory, on values.
  lemma ReadMoved(dm: DMD, s: Snap, t: Snap)
    requires Step(false, dm, s, t) && s.uo == 0
    ensures t.v == s.v && t.ch == s.ch && |t.u| == |s.u| && t.b <= Cap(dm, s.ch)
    ensures t.u == Content(s.v, dm, s.ch, t.b)[s.b..] + s.u[t.b - s.b..]
  {
    hide Cap, ByteAt;
    var r := Content(s.v, dm, s.ch, t.b)[s.b..] + s.u[t.b - s.b..];
    forall i | 0 <= i < |t.u| ensures t.u[i] == r[i] {
    }
  }

  // ixread(): the bytes between the position and the end of the file, as far as they were asked
  // for (and as far as the chain goes, should it be shorter than the length says).
  method IxRead(c: Cache, p: OFD, len: int, ubufr: array<Byte>, ghost j: nat) returns (rc: nat, ghost k: nat)
    requires FileOk(c, p) && AtPos(p, j) && p.bytnum <= p.dfd.fileln && len <= ubufr.Length
    modifies c, ubufr, p, p.dfd
    ensures FileOk(c, p) && AtPos(p, k) && c.vol == old(c.vol) && p.dfd.chain == old(p.dfd.chain)
    ensures rc == if len <= 0 then 0 else Min(len, Min(p.dfd.fileln, Cap(p.dm, p.dfd.chain)) - old(p.bytnum))
    ensures p.bytnum == old(p.bytnum) + rc
    ensures ubufr[..] == Content(c.vol, p.dm, p.dfd.chain, p.bytnum)[old(p.bytnum)..] + old(ubufr[..])[rc..]
    ensures p.dfd.fileln == old(p.dfd.fileln) && p.dfd.strtcl == old(p.dfd.strtcl)
  {
    hide CacheOk, DMD.SizesOk, IsChain, Step, GoodChain, Fat, Cap, AtPos, FileOk, Content, SnapOk;
    ghost var s := Take(c, p, ubufr, 0);
    SnapFile(c, p, ubufr, 0);
    PosInCap(p, j);
    var maxlen := p.dfd.fileln - p.bytnum;
    var n := len;
    if n > maxlen {
      n := maxlen;
    }
    rc, k := 0, j;
    NothingRead(c.vol, p.dm, p.dfd.chain, p.bytnum, ubufr[..]);
    if n > 0 {
      rc, k := Xrw(false, c, p, n, ubufr, j);
      ReadMoved(p.dm, s, Take(c, p, ubufr, rc));
      StartUnique(c, p, s);
      ReadLen(p.dm, s, Take(c, p, ubufr, rc));
    }
  }

  lemma ReadLen(dm: DMD, s: Snap, t: Snap)
    requires Step(false, dm, s, t) && s.b <= s.fl
    ensures t.b <= s.fl ==> t.fl == s.fl
  {
    hide Transferred;
  }

  lemma NothingRead(v: Volume, dm: DMD, ch: seq<nat>, b: nat, u: seq<Byte>)
    ensures u == Content(v, dm, ch, b)[b..] + u[0..]
  {
    hide ByteAt;
  }

  // The chain fixes the start cluster.
  lemma StartUnique(c: Cache, p: OFD, s: Snap)
    requires FileOk(c, p) && c.vol == s.v && p.dfd.chain == s.ch && SnapOk(p.dm, s)
    ensures p.dfd.strtcl == s.st
  {
    hide Fat, CacheOk, DMD.SizesOk;
  }

  // What ixwrite() promises for one other file, identified by its start cluster and chain.
  ghost predicate Undisturbed(dm: DMD, v0: Volume, c0: seq<nat>, v1: Volume, c1: seq<nat>, start: int, other: seq<nat>) {
    IsChain(Fat(v0, dm), start, other) && Apart(c0, other) ==>
      && IsChain(Fat(v1, dm), start, other) && Apart(c1, other)
      && forall n: nat :: n <= Cap(dm, other) ==> Content(v1, dm, other, n) == Content(v0, dm, other, n)
  }

  // The effect of a write of s at position b on the file's contents.
  ghost function Overwritten(old': seq<Byte>, b: nat, s: seq<Byte>): seq<Byte>
    requires b <= |old'|
  {
    old'[..b] + s + (if b + |s| < |old'| then old'[b + |s|..] else [])
  }

  lemma WriteMoved(dm: DMD, s: Snap, t: Snap)
    requires SnapOk(dm, s) && SnapOk(dm, t) && Step(true, dm, s, t) && s.uo == 0 && s.b <= s.fl <= Cap(dm, s.ch)
    ensures t.u == s.u && OnlyFatData(s.v, t.v, dm) && s.ch <= t.ch && t.fl == Max(s.fl, t.b) <= Cap(dm, t.ch)
    ensures Content(t.v, dm, t.ch, t.fl) == Overwritten(Content(s.v, dm, s.ch, s.fl), s.b, s.u[..t.b - s.b])
    ensures FreeCount(Fat(t.v, dm)) + |t.ch| == FreeCount(Fat(s.v, dm)) + |s.ch|
  {
    hide DMD.SizesOk, IsChain, GoodChain, Fat, Grown, Content, Cap;
    var n := t.b - s.b;
    assert s.u[0..n] == s.u[..n];
    WrotePrefix(dm, s.v, s.ch, t.v, t.ch, s.b, s.u[..n]);
    CapMono(dm, s.ch, t.ch);
    WroteContent(dm, s.v, s.ch, t.v, t.ch, s.b, s.u[..n], s.fl, t.fl);
    GrownCount(Fat(s.v, dm), s.st, s.ch, Fat(t.v, dm), t.st, t.ch);
  }

  lemma WriteOthers(dm: DMD, s: Snap, t: Snap, start: int, other: seq<nat>)
    requires SnapOk(dm, s) && SnapOk(dm, t) && Step(true, dm, s, t) && s.uo == 0
    ensures Undisturbed(dm, s.v, s.ch, t.v, t.ch, start, other)
  {
    hide DMD.SizesOk, IsChain, GoodChain, Fat, Grown, Content, Cap, Wrote, Apart;
    var n := t.b - s.b;
    if IsChain(Fat(s.v, dm), start, other) && Apart(s.ch, other) {
      WroteOthers(dm, s.v, s.ch, t.v, t.ch, s.b, s.u[0..n], start, other, 0);
      forall m: nat | m <= Cap(dm, other)
        ensures Content(t.v, dm, other, m) == Content(s.v, dm, other, m)
      {
        WroteOthers(dm, s.v, s.ch, t.v, t.ch, s.b, s.u[0..n], start, other, m);
      }
    }
  }

  // ixwrite(): the first rc bytes of the user's memory replace or extend the contents at the
  // position; fewer than len are written only when no cluster is free.  Every other file keeps
  // its chain and its bytes, and clusters only move from the free list to this file.
  method IxWrite(c: Cache, p: OFD, len: nat, ubufr: array<Byte>, ghost j: nat) returns (rc: nat, ghost k: nat)
    requires FileOk(c, p) && AtPos(p, j) && p.bytnum <= p.dfd.fileln <= Cap(p.dm, p.dfd.chain) && len <= ubufr.Length
    modifies c, ubufr, p, p.dfd
    ensures FileOk(c, p) && AtPos(p, k) && ubufr[..] == old(ubufr[..])
    ensures rc <= len && p.bytnum == old(p.bytnum) + rc
    ensures rc < len ==> NoneFree(Fat(c.vol, p.dm)) && p.bytnum == Cap(p.dm, p.dfd.chain)
    ensures p.dfd.fileln == Max(old(p.dfd.fileln), p.bytnum) <= Cap(p.dm, p.dfd.chain)
    ensures Content(c.vol, p.dm, p.dfd.chain, p.dfd.fileln) ==
      Overwritten(old(Content(c.vol, p.dm, p.dfd.chain, p.dfd.fileln)), old(p.bytnum), ubufr[..rc])
    ensures OnlyFatData(old(c.vol), c.vol, p.dm) && old(p.dfd.chain) <= p.dfd.chain
    ensures forall start: int, other: seq<nat> ::
      Undisturbed(p.dm, old(c.vol), old(p.dfd.chain), c.vol, p.dfd.chain, start, other)
    ensures FreeCount(Fat(c.vol, p.dm)) + |p.dfd.chain| == old(FreeCount(Fat(c.vol, p.dm)) + |p.dfd.chain|)
    ensures p.dfd.strtcl != old(p.dfd.strtcl) || p.dfd.fileln != old(p.dfd.fileln) ==> p.dfd.dirty
  {
    hide CacheOk, DMD.SizesOk, IsChain, Step, GoodChain, Fat, Cap, AtPos, FileOk, Content, SnapOk, OnlyFatData, Undisturbed,
      NoneFree, FreeCount, Overwritten;
    ghost var s := Take(c, p, ubufr, 0);
    SnapFile(c, p, ubufr, 0);
    rc, k := Xrw(true, c, p, len, ubufr, j);
    ghost var t := Take(c, p, ubufr, rc);
    SnapFile(c, p, ubufr, rc);
    WriteMoved(p.dm, s, t);
    assert s.u[..rc] == ubufr[..rc];
    forall start: int, other: seq<nat>
      ensures Undisturbed(p.dm, s.v, s.ch, c.vol, p.dfd.chain, start, other)
    {
      WriteOthers(p.dm, s, t, start, other);
    }
    StepDirty(true, p.dm, s, t);
  }

  lemma StepDirty(wrt: bool, dm: DMD, s: Snap, t: Snap)
    requires Step(wrt, dm, s, t)
    ensures s.st != t.st || s.fl != t.fl ==> t.dirty
  {
    hide Transferred;
  }

  // Another descriptor of the same file keeps its position while the file grows.
  twostate lemma OtherDescriptor(q: OFD, j: nat)
    requires old(AtPos(q, j)) && unchanged(q) && old(q.dfd.chain) <= q.dfd.chain
    ensures AtPos(q, j)
  {
  }

  // What was written reads back, and nothing else of the contents moved.
  lemma ReadBack(old': seq<Byte>, b: nat, s: seq<Byte>)
    requires b <= |old'|
    ensures |Overwritten(old', b, s)| == Max(|old'|, b + |s|)
    ensures Overwritten(old', b, s)[b..b + |s|] == s
    ensures forall i :: 0 <= i < |old'| && !(b <= i < b + |s|) ==> Overwritten(old', b, s)[i] == old'[i]
  {
  }

  // Element and offset that a seek to n > 0 points at: on a cluster boundary the cluster before it.
  lemma SeekTarget(n: nat, size: nat)
    requires 0 < n && 0 < size
    ensures Rem(n, size) == 0 ==> 0 < Quo(n, size) && ChainPos(n, size) == Quo(n, size)
    ensures Rem(n, size) != 0 ==> ChainPos(n, size) == Quo(n, size) + 1
    ensures n == Mul(Quo(n, size), size) + Rem(n, size) && Rem(n, size) < size
  {
    hide Mul, Quo, Rem;
    Recompose(n, size);
    MulZero(size);
    var q, r := Quo(n, size), Rem(n, size);
    if r != 0 {
      Decompose(q, r - 1, size);
    } else {
      MulOne(size);
      MulAdd(q - 1, 1, size);
      Decompose(q - 1, size - 1, size);
    }
  }

  // The descriptor's chain element follows from its position.
  lemma PosElement(p: OFD, j: nat)
    requires AtPos(p, j) && 0 < p.dm.clsizb
    ensures j == ChainPos(p.bytnum, p.dm.clsizb)
    ensures 0 < j ==> 0 < p.bytnum
    ensures p.curbyt != 0 && p.curbyt != p.dm.clsizb ==> 0 < j && Quo(p.bytnum, p.dm.clsizb) == j - 1
    ensures p.curbyt == 0 || p.curbyt == p.dm.clsizb ==> Quo(p.bytnum, p.dm.clsizb) == j
  {
    hide Mul, Quo, Rem, Cl2Rec;
    var size := p.dm.clsizb;
    if 0 < j && 0 < p.curbyt < size {
      Decompose(j - 1, p.curbyt, size);
      Decompose(j - 1, p.curbyt - 1, size);
    } else {
      Decompose(j, 0, size);
      if 0 < j {
        MulPos(j, size);
        SeekTarget(p.bytnum, size);
      } else {
        MulZero(size);
      }
    }
  }

  // Whole clusters below n, for the 16-bit step count of ixlseek().
  lemma StepCount(n: nat, b: nat, size: nat)
    requires 0 < size && b <= n
    ensures Quo(b, size) <= Quo(n, size) && ChainPos(b, size) <= ChainPos(n, size)
  {
    hide Quo;
    QuoMono(b, n, size);
    if 0 < b {
      QuoMono(b - 1, n - 1, size);
    }
  }

  // ixlseek(): to position n.  The step count is an unsigned 16-bit number, and never wraps.
  method IxLseek(c: Cache, p: OFD, n: int, ghost j: nat) returns (r: int)
    requires FileOk(c, p) && AtPos(p, j)
    requires 0 < p.dfd.fileln ==> p.dfd.chain != []
    requires p.dfd.fileln < Mul(0x10000, p.dm.clsizb)
    modifies c`disk, c`bufl, p
    ensures FileOk(c, p)
    ensures n < 0 || n > p.dfd.fileln ==> r == ERANGE
    ensures 0 <= n <= p.dfd.fileln ==> r == if n <= Cap(p.dm, p.dfd.chain) then n else EINTRN
    ensures r >= 0 ==> p.bytnum == n && AtPos(p, ChainPos(n, p.dm.clsizb)) && p.curbyt < p.dm.clsizb
    ensures r < 0 ==> AtPos(p, j) && p.bytnum == old(p.bytnum)
  {
    hide CacheOk, DMD.SizesOk, IsChain, GoodChain, Fat, FileOk, Mul, Quo, Rem, On, AtPos, Cl2Rec;
    FileDm(c, p);
    if n < 0 || n > p.dfd.fileln {
      return ERANGE;
    }
    if n == 0 {
      p.curcl, p.currec, p.bytnum, p.curbyt := 0, 0, 0, 0;
      StartPos(p);
      return 0;
    }
    var ok, clx := Walk(c, p, n, j);
    if !ok {
      return EINTRN;
    }
    p.curcl, p.currec := clx, Cl2Rec(clx, p.dm);
    p.bytnum, p.curbyt := n, Rem(n, p.dm.clsizb);
    SeekPos(p, n);
    return n;
  }

  // A file whose length fits its chain meets what ixlseek() asks for: the chain has no more
  // clusters than the FAT, and those are counted in 16 bits.
  lemma SeekFits(c: Cache, p: OFD)
    requires FileOk(c, p) && p.dfd.fileln <= Cap(p.dm, p.dfd.chain)
    ensures p.dfd.fileln < Mul(0x10000, p.dm.clsizb) && (0 < p.dfd.fileln ==> p.dfd.chain != [])
  {
    hide CacheOk, Fat, Mul;
    FileDm(c, p);
    TableSize(c, p.dm);
    ChainShort(Fat(c.vol, p.dm), p.dfd.strtcl, p.dfd.chain);
    MulZero(p.dm.clsizb);
    MulMono(|p.dfd.chain|, 0x10000, p.dm.clsizb);
  }

  lemma StartPos(p: OFD)
    requires p.curcl == 0 && p.currec == 0 && p.bytnum == 0 && p.curbyt == 0
    ensures AtPos(p, ChainPos(0, p.dm.clsizb))
  {
  }

  lemma SeekPos(p: OFD, n: nat)
    requires 0 < n && 0 < p.dm.clsizb && p.bytnum == n && p.curbyt == Rem(n, p.dm.clsizb)
    requires ChainPos(n, p.dm.clsizb) <= |p.dfd.chain| && p.curcl == p.dfd.chain[ChainPos(n, p.dm.clsizb) - 1]
    requires 2 <= p.curcl && p.currec == Cl2Rec(p.curcl, p.dm)
    ensures AtPos(p, ChainPos(n, p.dm.clsizb)) && p.curbyt < p.dm.clsizb
  {
    hide Mul, Quo, Rem, Cl2Rec;
    SeekTarget(n, p.dm.clsizb);
  }

  // The walk of ixlseek(): from the current cluster if the target is not behind it, else from
  // the start of the chain, to the same chain element.
  method Walk(c: Cache, p: OFD, n: nat, ghost j: nat) returns (ok: bool, clx: Word)
    requires FileOk(c, p) && AtPos(p, j) && 0 < n <= p.dfd.fileln
    requires p.dfd.chain != [] && p.dfd.fileln < Mul(0x10000, p.dm.clsizb)
    modifies c`disk, c`bufl
    ensures FileOk(c, p)
    ensures ok <==> n <= Cap(p.dm, p.dfd.chain)
    ensures ok ==> ChainPos(n, p.dm.clsizb) <= |p.dfd.chain| && 2 <= clx
    ensures ok ==> clx == p.dfd.chain[ChainPos(n, p.dm.clsizb) - 1]
  {
    hide CacheOk, DMD.SizesOk, IsChain, GoodChain, Fat, FileOk, Mul, Quo, Rem, Cl2Rec, AtPos;
    FileDm(c, p);
    TargetFits(p, n);
    SeekTarget(n, p.dm.clsizb);
    PosElement(p, j);
    AtPosOn(p, j);
    ghost var e := 0;
    var clnum: Word := Quo(n, p.dm.clsizb);
    if p.curcl != 0 && n >= p.bytnum {
      StepCount(n, p.bytnum, p.dm.clsizb);
      var curnum: Word := Quo(p.bytnum, p.dm.clsizb);
      if (p.curbyt == 0 || p.curbyt == p.dm.clsizb) && p.bytnum != 0 {
        curnum := curnum - 1;
      }
      clnum := clnum - curnum;
      clx := p.curcl;
      e := j - 1;
    } else {
      StartElement(c, p);
      clx := p.dfd.strtcl;
    }
    if Rem(n, p.dm.clsizb) == 0 {
      clnum := clnum - 1;
    }
    ok, clx := Follow(c, p, clx, clnum, e);
    TargetCap(p, n);
  }

  lemma TargetFits(p: OFD, n: nat)
    requires 0 < p.dm.clsizb && n <= p.dfd.fileln < Mul(0x10000, p.dm.clsizb)
    ensures Quo(n, p.dm.clsizb) < 0x10000
  {
    hide Mul, Quo;
    QuoBound(n, 0x10000, p.dm.clsizb);
  }

  lemma TargetCap(p: OFD, n: nat)
    requires 0 < p.dm.clsizb && 0 < n
    ensures n <= Cap(p.dm, p.dfd.chain) <==> ChainPos(n, p.dm.clsizb) <= |p.dfd.chain|
  {
    hide Mul, Quo;
    QuoBound(n - 1, |p.dfd.chain|, p.dm.clsizb);
  }

  lemma StartElement(c: Cache, p: OFD)
    requires FileOk(c, p) && p.dfd.chain != []
    ensures p.dfd.strtcl == p.dfd.chain[0]
  {
    hide CacheOk, Fat, DMD.SizesOk;
  }

  // The loop of ixlseek(): clnum links onward from chain element e.
  method Follow(c: Cache, p: OFD, clx0: Word, clnum: Word, ghost e: nat) returns (ok: bool, clx: Word)
    requires FileOk(c, p) && e < |p.dfd.chain| && clx0 == p.dfd.chain[e]
    modifies c`disk, c`bufl
    ensures FileOk(c, p) && (ok <==> e + clnum < |p.dfd.chain|)
    ensures ok ==> clx == p.dfd.chain[e + clnum] && 2 <= clx
  {
    hide CacheOk, DMD.SizesOk, IsChain, Fat;
    clx := clx0;
    var i := 0;
    ElementOk(c, p, e);
    while i < clnum
      invariant FileOk(c, p) && 0 <= i <= clnum && e + i < |p.dfd.chain| && clx == p.dfd.chain[e + i]
      invariant 2 <= clx < p.dm.numcl + 2
    {
      ElementOk(c, p, e + i);
      clx := GetRealCl(c, clx, p.dm);
      if EndOfChain(clx) {
        return false, clx;    // FAT chain is shorter than filesize says
      }
      i := i + 1;
      ElementOk(c, p, e + i);
    }
    ok := true;
  }

  // The FAT entry of a chain element.
  lemma ElementOk(c: Cache, p: OFD, k: nat)
    requires FileOk(c, p) && k < |p.dfd.chain|
    ensures 2 <= p.dfd.chain[k] < p.dm.numcl + 2
    ensures var next := Fat(c.vol, p.dm)[p.dfd.chain[k]];
      if k + 1 < |p.dfd.chain| then next == p.dfd.chain[k + 1] && !EndOfChain(next) else EndOfChain(next)
  {
    hide CacheOk, Fat;
  }

  const FCBSIZE := 32

  // ixgetfcb(): the directory entry at the position, in its buffer; nothing at the end of the
  // directory.
  method IxGetFcb(c: Cache, p: OFD, ghost j: nat) returns (fcb: seq<Byte>, ghost k: nat)
    requires FileOk(c, p) && AtPos(p, j)
    requires p.dm.recsiz % FCBSIZE == 0 && p.bytnum % FCBSIZE == 0 && FCBSIZE < p.dm.clsizb
    modifies c, p, p.dfd
    ensures FileOk(c, p) && AtPos(p, k) && c.vol == old(c.vol) && p.dfd.chain == old(p.dfd.chain)
    ensures fcb == [] <==> old(p.bytnum) == Cap(p.dm, p.dfd.chain)
    ensures fcb == [] ==> p.bytnum == old(p.bytnum)
    ensures fcb != [] ==> p.bytnum == old(p.bytnum) + FCBSIZE <= Cap(p.dm, p.dfd.chain)
    ensures fcb != [] ==> fcb == Content(c.vol, p.dm, p.dfd.chain, p.bytnum)[old(p.bytnum)..]
  {
    hide CacheOk, DMD.SizesOk, IsChain, GoodChain, Fat, Mul, Quo, Rem, Cl2Rec, AtPos, Content, DMD.RecByte, DMD.RecNum, Cap,
      FileRec;
    FileDm(c, p);
    var recnum := p.dm.RecNum(p.curbyt);
    var offset := p.dm.RecByte(p.curbyt);
    ghost var e;
    var ok: bool;
    ok, recnum, e := FcbCluster(c, p, recnum, offset, j);
    fcb, k := [], j;
    if ok {
      FcbPlace(c, p, e);
      recnum := recnum + p.currec;
      var buf := c.GetRec(recnum, p.dm, BtData, false);
      FcbBytes(p.dm, c.vol, p.dfd.chain, p.bytnum, recnum);
      fcb := buf[offset..offset + FCBSIZE];
      Addit(p, FCBSIZE);
      InsideAt(p, e);
      k := e + 1;
    }
  }

  // In chain element e, at any offset.
  ghost predicate InElement(p: OFD, e: nat)
    reads p, p.dfd
  {
    On(p, e + 1) && p.curbyt < p.dm.clsizb && p.bytnum == Mul(e, p.dm.clsizb) + p.curbyt
  }

  // ixgetfcb()'s start-of-record case: at a cluster boundary, step to the next cluster.
  method FcbCluster(c: Cache, p: OFD, recnum0: nat, offset: nat, ghost j: nat) returns (ok: bool, recnum: nat, ghost e: nat)
    requires FileOk(c, p) && AtPos(p, j) && recnum0 == p.dm.RecNum(p.curbyt) && offset == p.dm.RecByte(p.curbyt)
    modifies c, p`curcl, p`currec, p`curbyt, p.dfd`strtcl, p.dfd`dirty, p.dfd`chain
    ensures FileOk(c, p) && c.vol == old(c.vol) && p.dfd.chain == old(p.dfd.chain)
    ensures recnum == p.dm.RecNum(p.curbyt) && offset == p.dm.RecByte(p.curbyt)
    ensures if ok then InElement(p, e) else AtPos(p, j) && p.bytnum == Cap(p.dm, p.dfd.chain)
  {
    hide CacheOk, DMD.SizesOk, IsChain, GoodChain, Fat, FileOk, Mul, Quo, Rem, Cl2Rec, DMD.RecByte, DMD.RecNum,
      OnlyFat, Grown, FreeCount, NoneFree;
    FileDm(c, p);
    ZeroPlace(p.dm);
    ok, recnum := true, recnum0;
    if offset == 0 {
      TailPlace(p, j);
      if recnum == 0 || recnum == p.dm.clsiz {
        var rc := NextCl(c, p, false, j);
        recnum, e, ok := if rc == 0 then 0 else recnum, j, rc == 0;
        return;
      }
    } else {
      InsideCluster(p, j);
    }
    e := j - 1;
  }

  lemma FcbPlace(c: Cache, p: OFD, e: nat)
    requires FileOk(c, p) && InElement(p, e) && p.dm.recsiz % FCBSIZE == 0 && p.bytnum % FCBSIZE == 0
    ensures FileRec(p.dm, p.dfd.chain, p.dm.RecNum(p.bytnum)) == p.currec + p.dm.RecNum(p.curbyt) < p.dm.datlen
    ensures p.dm.RecByte(p.bytnum) == p.dm.RecByte(p.curbyt) && p.dm.RecByte(p.curbyt) + FCBSIZE <= p.dm.recsiz
    ensures On(p, e + 1) && p.bytnum == Mul(e, p.dm.clsizb) + p.curbyt && p.curbyt + FCBSIZE <= p.dm.clsizb
    ensures p.bytnum + FCBSIZE <= Cap(p.dm, p.dfd.chain)
  {
    hide CacheOk, DMD.SizesOk, IsChain, GoodChain, Fat, FileOk, Mul, Quo, Rem, Cl2Rec, Cap, FileRec;
    FileDm(c, p);
    Place(p.dm, p.dfd.chain, e, p.curbyt);
    Aligned(p.bytnum, p.dm.recsiz);
  }

  lemma {:induction false} Aligned(o: nat, n: nat)
    requires 0 < n && n % FCBSIZE == 0 && o % FCBSIZE == 0
    ensures Rem(o, n) % FCBSIZE == 0 && Rem(o, n) + FCBSIZE <= n
  {
    if n <= o {
      Aligned(o - n, n);
    }
  }

  lemma FcbBytes(dm: DMD, v: Volume, ch: seq<nat>, b: nat, r: nat)
    requires dm.LayoutOk() && dm.RecByte(b) + FCBSIZE <= dm.recsiz && b + FCBSIZE <= Cap(dm, ch)
    requires Addr(dm.drvnum, BtData, r) in v && |v[Addr(dm.drvnum, BtData, r)]| == dm.recsiz
    requires FileRec(dm, ch, dm.RecNum(b)) == r
    ensures v[Addr(dm.drvnum, BtData, r)][dm.RecByte(b)..dm.RecByte(b) + FCBSIZE] == Content(v, dm, ch, b + FCBSIZE)[b..]
  {
    hide FileRec, Mul, Quo, Rem, Cap;
    var l := v[Addr(dm.drvnum, BtData, r)][dm.RecByte(b)..dm.RecByte(b) + FCBSIZE];
    var t := Content(v, dm, ch, b + FCBSIZE)[b..];
    forall i | 0 <= i < FCBSIZE ensures l[i] == t[i] {
      RecordRun(dm, b, i);
    }
  }

  // The freeing loop of ixdel(), seen from the other files: they keep their chains and bytes.
  method DeleteChain(c: Cache, dm: DMD, start: Word, ghost ch: seq<nat>)
    requires Mounted(c, dm) && IsChain(Fat(c.vol, dm), start, ch)
    modifies c
    ensures Mounted(c, dm) && OnlyFat(old(c.vol), c.vol, dm)
    ensures forall cl :: 0 <= cl < dm.numcl + 2 ==>
      Fat(c.vol, dm)[cl] == if cl in ch then FREECLUSTER else Fat(old(c.vol), dm)[cl]
    ensures FreeCount(Fat(c.vol, dm)) == FreeCount(Fat(old(c.vol), dm)) + |ch|
    ensures forall s: int, other: seq<nat> :: Undisturbed(dm, old(c.vol), ch, c.vol, [], s, other)
  {
    hide CacheOk, DMD.SizesOk, Fat, OnlyFat, IsChain, Freed, FreeCount, Undisturbed;
    ghost var v := c.vol;
    FreeChain(c, dm, start, ch);
    forall s: int, other: seq<nat>
      ensures Undisturbed(dm, v, ch, c.vol, [], s, other)
    {
      FreedUndisturbed(dm, v, start, ch, c.vol, s, other);
    }
  }

  lemma FreedUndisturbed(dm: DMD, v: Volume, start: int, ch: seq<nat>, w: Volume, s: int, other: seq<nat>)
    requires OnlyFat(v, w, dm) && IsChain(Fat(v, dm), start, ch) && Fat(w, dm) == Freed(Fat(v, dm), ch)
    ensures Undisturbed(dm, v, ch, w, [], s, other)
  {
    hide Fat, FileRec, Cap;
    if IsChain(Fat(v, dm), s, other) && Apart(ch, other) {
      FreedOthers(Fat(v, dm), ch, s, other);
      assert forall i: nat :: ByteAt(w, dm, other, i) == ByteAt(v, dm, other, i);
    }
  }
}

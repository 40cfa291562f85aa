// Scanning the FAT and following or extending a file's chain (bdos/fsfat.c), and freeing it
// (the loop of ixdel in bdos/fsopnclo.c).
module FatOps {
  import opened Shift
  import opened Media
  import opened BufferCache
  import opened FatTable
  import opened Chains

  // File data shared by every descriptor of a file (DFD).  chain is the file's cluster chain.
  class DFD {
    var dirty: bool
    var strtcl: Word
    var fileln: nat
    ghost var chain: seq<nat>

    constructor (start: Word, length: nat, ghost ch: seq<nat>)
      ensures strtcl == start && fileln == length && chain == ch && !dirty
    {
      dirty, strtcl, fileln, chain := false, start, length, ch;
    }
  }

  // Open file descriptor: a position in a file.
  class OFD {
    const dfd: DFD
    const dm: DMD
    var bytnum: nat
    var curcl: Word
    var currec: nat
    var curbyt: nat

    constructor (d: DFD, m: DMD)
      ensures dfd == d && dm == m && bytnum == 0 && curcl == 0 && currec == 0 && curbyt == 0
    {
      dfd, dm, bytnum, curcl, currec, curbyt := d, m, 0, 0, 0, 0;
    }
  }

  function Cl2Rec(cl: nat, dm: DMD): nat
    requires 2 <= cl
  {
    Mul(cl - 2, dm.clsiz)
  }

  // The cluster a FAT scan that starts at s looks at after i steps.
  function Cyclic(s: nat, i: nat, numcl: nat): int {
    if s + i <= numcl + 1 then s + i else s + i - numcl
  }

  ghost predicate NoneFree(fat: Table) {
    forall cl :: 2 <= cl < |fat| ==> fat[cl] != FREECLUSTER
  }

  function ScanStart(cl: nat): nat { if cl < 2 then 2 else cl }

  // r is the first free cluster of a scan from s, found after i steps.
  ghost predicate FirstFree(fat: Table, numcl: nat, s: nat, i: nat, r: nat)
    requires |fat| == numcl + 2 && 2 <= s && (s < |fat| || numcl == 0)
  {
    && i < numcl && r == Cyclic(s, i, numcl)
    && forall t :: 0 <= t < i ==> fat[Cyclic(s, t, numcl)] != FREECLUSTER
  }

  // None is free from s up to r; when r lies before s, none from s to the end nor from 2 up to r.
  lemma ScannedIs(fat: Table, numcl: nat, s: nat, i: nat, r: nat)
    requires |fat| == numcl + 2 && 2 <= s < |fat| && FirstFree(fat, numcl, s, i, r)
    ensures 2 <= r < numcl + 2
    ensures forall x :: s <= x < (if s <= r then r else numcl + 2) ==> fat[x] != 0
    ensures r < s ==> forall x :: 2 <= x < r ==> fat[x] != 0
  {
    forall x | s <= x < (if s <= r then r else numcl + 2) ensures fat[x] != 0 {
      assert x == Cyclic(s, x - s, numcl);
    }
    if r < s {
      forall x | 2 <= x < r ensures fat[x] != 0 {
        assert x == Cyclic(s, x + numcl - s, numcl);
      }
    }
  }

  // findfree16(): the lowest free cluster of a 16-bit FAT, 0 if there is none.
  method FindFree16(c: Cache, dm: DMD) returns (r: nat)
    requires Mounted(c, dm) && dm.m16
    modifies c`disk, c`bufl
    ensures Mounted(c, dm)
    ensures r == 0 ==> NoneFree(Fat(c.vol, dm))
    ensures r != 0 ==> 2 <= r < dm.numcl + 2 && Fat(c.vol, dm)[r] == FREECLUSTER
    ensures r != 0 ==> forall cl :: 2 <= cl < r ==> Fat(c.vol, dm)[cl] != FREECLUSTER
  {
    hide CacheOk, DMD.SizesOk, Fat;
    var clnum := 2;
    while clnum < dm.numcl + 2
      invariant Mounted(c, dm) && 2 <= clnum
      invariant forall cl :: 2 <= cl < clnum && cl < dm.numcl + 2 ==> Fat(c.vol, dm)[cl] != FREECLUSTER
      decreases dm.numcl + 2 - clnum
    {
      var found: bool;
      found, clnum := ScanRecord(c, dm, clnum);
      if found {
        return clnum;
      }
    }
    return 0;
  }

  // One pass of the inner loop of findfree16(): the entries of one FAT record.
  method ScanRecord(c: Cache, dm: DMD, clnum: nat) returns (found: bool, next: nat)
    requires Mounted(c, dm) && dm.m16 && 2 <= clnum < dm.numcl + 2
    modifies c`disk, c`bufl
    ensures Mounted(c, dm) && clnum <= next <= dm.numcl + 2
    ensures forall cl :: clnum <= cl < next ==> Fat(c.vol, dm)[cl] != FREECLUSTER
    ensures if found then next < dm.numcl + 2 && Fat(c.vol, dm)[next] == FREECLUSTER else clnum < next
  {
    hide CacheOk, DMD.SizesOk, Fat;
    EvenRecords(dm);
    FatBytesThere(c, dm, clnum);
    var recnum, offset := dm.RecNum(2 * clnum), dm.RecByte(2 * clnum);
    var buf := c.GetRec(recnum, dm, BtFat, false);
    EvenOffset(2 * clnum, dm.recsiz);
    found, next := ScanBuffer(buf, dm, clnum, offset, c.vol, recnum);
  }

  method ScanBuffer(buf: Sector, dm: DMD, clnum: nat, offset0: nat, ghost vol: Volume, ghost recnum: nat)
    returns (found: bool, next: nat)
    requires dm.m16 && 0 < dm.recsiz && dm.recsiz % 2 == 0 && clnum < dm.numcl + 2
    requires Addr(dm.drvnum, BtFat, recnum) in vol && buf == vol[Addr(dm.drvnum, BtFat, recnum)]
    requires |buf| == dm.recsiz && recnum == dm.RecNum(2 * clnum) && offset0 == dm.RecByte(2 * clnum)
    requires offset0 % 2 == 0 && offset0 < dm.recsiz
    ensures clnum <= next <= dm.numcl + 2
    ensures forall cl :: clnum <= cl < next ==> Fat(vol, dm)[cl] != FREECLUSTER
    ensures if found then next < dm.numcl + 2 && Fat(vol, dm)[next] == FREECLUSTER else clnum < next
  {
    hide Fat, DMD.RecNum, DMD.RecByte, Quo, Rem;
    var offset := offset0;
    next := clnum;
    while offset < dm.recsiz && next < dm.numcl + 2
      invariant clnum <= next <= dm.numcl + 2 && offset % 2 == 0 && offset <= dm.recsiz
      invariant offset < dm.recsiz ==> recnum == dm.RecNum(2 * next) && offset == dm.RecByte(2 * next)
      invariant offset < dm.recsiz || clnum < next
      invariant forall cl :: clnum <= cl < next ==> Fat(vol, dm)[cl] != FREECLUSTER
    {
      EntryInRecord(vol, dm, next, recnum, offset);
      if buf[offset] == 0 && buf[offset + 1] == 0 {
        return true, next;
      }
      StepEven(dm, 2 * next);
      offset, next := offset + 2, next + 1;
    }
    found := false;
  }

  lemma EntryInRecord(vol: Volume, dm: DMD, cl: nat, recnum: nat, offset: nat)
    requires dm.m16 && cl < dm.numcl + 2 && 0 < dm.recsiz
    requires recnum == dm.RecNum(2 * cl) && offset == dm.RecByte(2 * cl) && dm.recsiz % 2 == 0 && offset % 2 == 0
    requires Addr(dm.drvnum, BtFat, recnum) in vol && |vol[Addr(dm.drvnum, BtFat, recnum)]| == dm.recsiz
    ensures var buf := vol[Addr(dm.drvnum, BtFat, recnum)];
      Fat(vol, dm)[cl] == FREECLUSTER <==> buf[offset] == 0 && buf[offset + 1] == 0
  {
    hide Quo, Rem;
    QuoNext(2 * cl, dm.recsiz);
    assert FatByte(vol, dm, 2 * cl) == vol[Addr(dm.drvnum, BtFat, recnum)][offset];
  }

  lemma EvenRecords(dm: DMD)
    requires dm.SizesOk()
    ensures dm.recsiz % 2 == 0
  {
  }

  lemma StepEven(dm: DMD, o: nat)
    requires 0 < dm.recsiz && dm.recsiz % 2 == 0 && dm.RecByte(o) % 2 == 0
    ensures dm.RecByte(o) + 2 <= dm.recsiz
    ensures dm.RecByte(o) + 2 < dm.recsiz ==> dm.RecNum(o + 2) == dm.RecNum(o) && dm.RecByte(o + 2) == dm.RecByte(o) + 2
  {
    hide Quo, Rem;
    QuoNext(o, dm.recsiz);
    QuoNext(o + 1, dm.recsiz);
  }

  // findfree(): the next free cluster, cyclically from the current one; 0 if there is none.
  method FindFree(c: Cache, cl0: nat, dm: DMD) returns (r: nat)
    requires Mounted(c, dm) && (cl0 == 0 || 2 <= cl0 < dm.numcl + 2)
    modifies c`disk, c`bufl
    ensures Mounted(c, dm)
    ensures r == 0 <==> NoneFree(Fat(c.vol, dm))
    ensures r != 0 ==> 2 <= r < dm.numcl + 2 && Fat(c.vol, dm)[r] == FREECLUSTER
    ensures r != 0 ==> exists i: nat :: FirstFree(Fat(c.vol, dm), dm.numcl, ScanStart(cl0), i, r)
    ensures r != 0 && r >= cl0 ==>
      forall x {:trigger Fat(c.vol, dm)[x]} :: 2 <= x && cl0 <= x < r ==> Fat(c.vol, dm)[x] != 0
    ensures 0 < r < cl0 ==>
      forall x {:trigger Fat(c.vol, dm)[x]} :: 2 <= x < r || cl0 <= x < dm.numcl + 2 ==> Fat(c.vol, dm)[x] != 0
  {
    hide CacheOk, DMD.SizesOk, Fat;
    if cl0 == 0 && dm.m16 {
      r := FindFree16(c, dm);
      if r != 0 {
        assert FirstFree(Fat(c.vol, dm), dm.numcl, ScanStart(cl0), r - 2, r);
      }
    } else {
      r := FindFreeFrom(c, ScanStart(cl0), dm);
      if r != 0 {
        ghost var i: nat :| FirstFree(Fat(c.vol, dm), dm.numcl, ScanStart(cl0), i, r);
        ScannedIs(Fat(c.vol, dm), dm.numcl, ScanStart(cl0), i, r);
      }
    }
  }

  // The general scan: look at every cluster once, wrapping at the largest number.
  method FindFreeFrom(c: Cache, s: nat, dm: DMD) returns (r: nat)
    requires Mounted(c, dm) && 2 <= s && (s < dm.numcl + 2 || dm.numcl == 0)
    modifies c`disk, c`bufl
    ensures Mounted(c, dm)
    ensures r == 0 <==> NoneFree(Fat(c.vol, dm))
    ensures r != 0 ==> 2 <= r < dm.numcl + 2 && Fat(c.vol, dm)[r] == FREECLUSTER
    ensures r != 0 ==> exists i: nat :: FirstFree(Fat(c.vol, dm), dm.numcl, s, i, r)
  {
    hide CacheOk, DMD.SizesOk, Fat;
    var cl, i := s, 0;
    while i < dm.numcl
      invariant Mounted(c, dm) && 0 <= i <= dm.numcl
      invariant i < dm.numcl ==> cl == Cyclic(s, i, dm.numcl)
      invariant forall t :: 0 <= t < i ==> Fat(c.vol, dm)[Cyclic(s, t, dm.numcl)] != FREECLUSTER
    {
      var e := GetRealCl(c, cl, dm);
      if e == 0 {
        assert FirstFree(Fat(c.vol, dm), dm.numcl, s, i, cl);
        return cl;
      }
      if cl == dm.numcl + 1 {
        cl := 1;
      }
      i, cl := i + 1, cl + 1;
    }
    forall x | 2 <= x < dm.numcl + 2 ensures Fat(c.vol, dm)[x] != FREECLUSTER {
      assert x == Cyclic(s, if s <= x then x - s else x + dm.numcl - s, dm.numcl);
    }
    return 0;
  }

  // xgetfree() on a 12-bit FAT: the number of free clusters.
  method CountFree(c: Cache, dm: DMD) returns (free: nat)
    requires Mounted(c, dm)
    modifies c`disk, c`bufl
    ensures Mounted(c, dm) && free == FreeCount(Fat(c.vol, dm))
  {
    hide CacheOk, DMD.SizesOk, Fat;
    free := 0;
    var i := 0;
    while i < dm.numcl
      invariant Mounted(c, dm) && 0 <= i <= dm.numcl
      invariant free == FreeBelow(Fat(c.vol, dm), i + 2)
    {
      var e := GetRealCl(c, i + 2, dm);
      if e == 0 {    // cluster numbers start at 2
        free := free + 1;
      }
      i := i + 1;
    }
  }

  // countfree16(): the same number, one FAT record at a time.
  method CountFree16(c: Cache, dm: DMD) returns (free: nat)
    requires Mounted(c, dm) && dm.m16
    modifies c`disk, c`bufl
    ensures Mounted(c, dm) && free == FreeCount(Fat(c.vol, dm))
  {
    hide CacheOk, DMD.SizesOk, Fat;
    var clnum := 2;
    free := 0;
    while clnum < dm.numcl + 2
      invariant Mounted(c, dm) && 2 <= clnum <= dm.numcl + 2
      invariant free == FreeBelow(Fat(c.vol, dm), clnum)
    {
      free, clnum := CountRecord(c, dm, clnum, free);
    }
  }

  method CountRecord(c: Cache, dm: DMD, clnum: nat, free0: nat) returns (free: nat, next: nat)
    requires Mounted(c, dm) && dm.m16 && 2 <= clnum < dm.numcl + 2 && free0 == FreeBelow(Fat(c.vol, dm), clnum)
    modifies c`disk, c`bufl
    ensures Mounted(c, dm) && clnum < next <= dm.numcl + 2 && free == FreeBelow(Fat(c.vol, dm), next)
  {
    hide CacheOk, DMD.SizesOk, Fat;
    EvenRecords(dm);
    FatBytesThere(c, dm, clnum);
    var recnum, offset := dm.RecNum(2 * clnum), dm.RecByte(2 * clnum);
    var buf := c.GetRec(recnum, dm, BtFat, false);
    EvenOffset(2 * clnum, dm.recsiz);
    free, next := CountBuffer(buf, dm, clnum, offset, free0, c.vol, recnum);
  }

  method CountBuffer(buf: Sector, dm: DMD, clnum: nat, offset0: nat, free0: nat, ghost vol: Volume, ghost recnum: nat)
    returns (free: nat, next: nat)
    requires dm.m16 && 0 < dm.recsiz && dm.recsiz % 2 == 0 && 2 <= clnum < dm.numcl + 2
    requires Addr(dm.drvnum, BtFat, recnum) in vol && buf == vol[Addr(dm.drvnum, BtFat, recnum)]
    requires |buf| == dm.recsiz && recnum == dm.RecNum(2 * clnum) && offset0 == dm.RecByte(2 * clnum)
    requires offset0 % 2 == 0 && offset0 < dm.recsiz && free0 == FreeBelow(Fat(vol, dm), clnum)
    ensures clnum < next <= dm.numcl + 2 && free == FreeBelow(Fat(vol, dm), next)
  {
    hide Fat, DMD.RecNum, DMD.RecByte, Quo, Rem;
    var offset := offset0;
    next, free := clnum, free0;
    while offset < dm.recsiz && next < dm.numcl + 2
      invariant clnum <= next <= dm.numcl + 2 && offset % 2 == 0 && offset <= dm.recsiz
      invariant offset < dm.recsiz ==> recnum == dm.RecNum(2 * next) && offset == dm.RecByte(2 * next)
      invariant offset < dm.recsiz || clnum < next
      invariant free == FreeBelow(Fat(vol, dm), next)
    {
      EntryInRecord(vol, dm, next, recnum, offset);
      if buf[offset] == 0 && buf[offset + 1] == 0 {
        free := free + 1;
      }
      StepEven(dm, 2 * next);
      offset, next := offset + 2, next + 1;
    }
  }

  ghost predicate FileOk(c: Cache, p: OFD)
    reads c, p.dfd
  {
    Mounted(c, p.dm) && IsChain(Fat(c.vol, p.dm), p.dfd.strtcl, p.dfd.chain)
  }

  // The descriptor is on element j - 1 of its chain, before the first element if j is 0.
  ghost predicate On(p: OFD, j: nat)
    reads p, p.dfd
  {
    && j <= |p.dfd.chain|
    && (if j == 0 then p.curcl == 0 && p.currec == 0
        else p.curcl == p.dfd.chain[j - 1] && 2 <= p.curcl && p.currec == Cl2Rec(p.curcl, p.dm))
  }

  lemma TableSize(c: Cache, dm: DMD)
    requires Mounted(c, dm)
    ensures |Fat(c.vol, dm)| == dm.numcl + 2 <= 0xfff8
    ensures forall cl: Word :: 2 <= cl < dm.numcl + 2 ==> Normal(dm, cl) == cl && !EndOfChain(cl)
    ensures Normal(dm, ENDOFCHAIN) == ENDOFCHAIN && Normal(dm, FREECLUSTER) == FREECLUSTER
  {
  }

  // One more cluster on a file: table, chain and start before and after.
  ghost predicate Extended(f0: Table, c0: seq<nat>, s0: Word, f1: Table, c1: seq<nat>, s1: Word, cl: nat) {
    && |f0| <= 0xfff8 && (c0 != [] ==> c0[|c0| - 1] < |f0|)
    && 2 <= cl < |f0| && f0[cl] == FREECLUSTER
    && c1 == c0 + [cl] && f1 == Appended(f0, c0, cl) && s1 == if c0 == [] then cl else s0
  }

  lemma ExtendedChain(f0: Table, c0: seq<nat>, s0: Word, f1: Table, c1: seq<nat>, s1: Word, cl: nat)
    requires IsChain(f0, s0, c0) && Extended(f0, c0, s0, f1, c1, s1, cl)
    ensures IsChain(f1, s1, c1) && Grown(f0, c0, f1, c1)
    ensures |c1| == |c0| + 1 && c1[|c0|] == cl && 2 <= cl && !EndOfChain(cl)
    ensures FreeCount(f1) == FreeCount(f0) - 1
  {
    AppendedChain(f0, s0, c0, cl);
    AppendedCount(f0, s0, c0, cl);
  }

  // The allocating half of nextcl(): end a free cluster's chain, then link it to the file.
  method Extend(c: Cache, p: OFD) returns (cl2: Word)
    requires FileOk(c, p) && On(p, |p.dfd.chain|)
    modifies c, p.dfd`strtcl, p.dfd`dirty, p.dfd`chain
    ensures Mounted(c, p.dm) && OnlyFat(old(c.vol), c.vol, p.dm)
    ensures cl2 == 0 <==> NoneFree(Fat(old(c.vol), p.dm))
    ensures if cl2 == 0 then c.vol == old(c.vol) && p.dfd.chain == old(p.dfd.chain) && p.dfd.strtcl == old(p.dfd.strtcl)
      else Extended(Fat(old(c.vol), p.dm), old(p.dfd.chain), old(p.dfd.strtcl),
                    Fat(c.vol, p.dm), p.dfd.chain, p.dfd.strtcl, cl2)
    ensures p.dfd.dirty == (old(p.dfd.dirty) || p.dfd.strtcl != old(p.dfd.strtcl))
  {
    hide CacheOk, DMD.SizesOk, Fat, OnlyFat, IsChain, NoneFree, Appended, Cl2Rec;
    TableSize(c, p.dm);
    LastInTable(Fat(c.vol, p.dm), p.dfd.strtcl, p.dfd.chain);
    cl2 := Allocate(c, p.curcl, p.dm, p.dfd.chain);
    if cl2 != 0 {
      if p.curcl == 0 {
        p.dfd.strtcl := cl2;
        p.dfd.dirty := true;
      }
      p.dfd.chain := p.dfd.chain + [cl2];
    }
  }

  method Allocate(c: Cache, cl: Word, dm: DMD, ghost ch: seq<nat>) returns (cl2: Word)
    requires Mounted(c, dm)
    requires if ch == [] then cl == 0 else 2 <= cl < dm.numcl + 2 && cl == ch[|ch| - 1]
    modifies c
    ensures Mounted(c, dm) && OnlyFat(old(c.vol), c.vol, dm)
    ensures cl2 == 0 <==> NoneFree(Fat(old(c.vol), dm))
    ensures if cl2 == 0 then c.vol == old(c.vol)
      else 2 <= cl2 < dm.numcl + 2 <= 0xfff8 && Fat(old(c.vol), dm)[cl2] == FREECLUSTER &&
           Fat(c.vol, dm) == Appended(Fat(old(c.vol), dm), ch, cl2)
  {
    hide CacheOk, DMD.SizesOk, Fat, OnlyFat, FirstFree, NoneFree, Appended;
    TableSize(c, dm);
    OnlyFatRefl(c.vol, dm);
    cl2 := FindFree(c, cl, dm);
    if cl2 != 0 {
      Link(c, cl, cl2, dm, ch);
    }
  }

  lemma LastInTable(fat: Table, start: Word, ch: seq<nat>)
    requires IsChain(fat, start, ch)
    ensures if ch == [] then start == 0 else 2 <= ch[|ch| - 1] < |fat|
  {
  }

  // The two clfix() calls of nextcl(), in that order.
  method Link(c: Cache, cl: Word, cl2: Word, dm: DMD, ghost ch: seq<nat>)
    requires Mounted(c, dm) && 2 <= cl2 < dm.numcl + 2 <= 0xfff8
    requires if ch == [] then cl == 0 else 2 <= cl < dm.numcl + 2 && cl == ch[|ch| - 1]
    modifies c
    ensures Mounted(c, dm) && OnlyFat(old(c.vol), c.vol, dm)
    ensures Fat(c.vol, dm) == Appended(Fat(old(c.vol), dm), ch, cl2)
  {
    hide CacheOk, DMD.SizesOk, Fat, Normal, OnlyFat;
    TableSize(c, dm);
    ClFix(c, cl2, ENDOFCHAIN, dm);
    ghost var mid := c.vol;
    if cl != 0 {
      ClFix(c, cl, cl2, dm);
      OnlyFatTrans(old(c.vol), mid, c.vol, dm);
    }
  }

  lemma OnlyFatTrans(a: Volume, b: Volume, c: Volume, dm: DMD)
    requires OnlyFat(a, b, dm) && OnlyFat(b, c, dm)
    ensures OnlyFat(a, c, dm)
  {
  }

  // nextcl(): step to the next cluster of the chain; a write at its end takes a free cluster.
  // The step fails exactly at the end of the chain, for a write only if no cluster is free.
  method NextCl(c: Cache, p: OFD, wrtflg: bool, ghost j: nat) returns (rc: int)
    requires FileOk(c, p) && On(p, j)
    modifies c, p`curcl, p`currec, p`curbyt, p.dfd`strtcl, p.dfd`dirty, p.dfd`chain
    ensures FileOk(c, p) && OnlyFat(old(c.vol), c.vol, p.dm)
    ensures rc == 0 <==> j < |old(p.dfd.chain)| || (wrtflg && !NoneFree(Fat(old(c.vol), p.dm)))
    ensures p.dfd.dirty == (old(p.dfd.dirty) || p.dfd.strtcl != old(p.dfd.strtcl))
    ensures rc == 0 ==> On(p, j + 1) && p.curbyt == 0
    ensures rc != 0 ==> On(p, j) && p.curbyt == old(p.curbyt)
    ensures rc != 0 || j < |old(p.dfd.chain)| ==> c.vol == old(c.vol) && p.dfd.chain == old(p.dfd.chain)
    ensures Grown(Fat(old(c.vol), p.dm), old(p.dfd.chain), Fat(c.vol, p.dm), p.dfd.chain)
    ensures rc == 0 && j == |old(p.dfd.chain)| ==>
      |p.dfd.chain| == j + 1 && FreeCount(Fat(c.vol, p.dm)) == FreeCount(Fat(old(c.vol), p.dm)) - 1
  {
    hide CacheOk, DMD.SizesOk, Fat, OnlyFat, Cl2Rec, IsChain, Grown, Extended, FreeCount, NoneFree;
    ghost var f0, c0, s0 := Fat(c.vol, p.dm), p.dfd.chain, p.dfd.strtcl;
    GrownRefl(f0, c0);
    OnlyFatRefl(c.vol, p.dm);
    var cl2 := Peek(c, p, j);
    if wrtflg && EndOfChain(cl2) {
      cl2 := Extend(c, p);
      if cl2 == 0 {
        return -1;
      }
      ExtendedChain(f0, c0, s0, Fat(c.vol, p.dm), p.dfd.chain, p.dfd.strtcl, cl2);
    }
    if EndOfChain(cl2) || cl2 < 2 {
      return -1;
    }
    p.curcl := cl2;
    p.currec := Cl2Rec(cl2, p.dm);
    p.curbyt := 0;
    return 0;
  }

  lemma GrownRefl(f: Table, c: seq<nat>)
    ensures Grown(f, c, f, c)
  {
  }

  lemma OnlyFatRefl(v: Volume, dm: DMD)
    ensures OnlyFat(v, v, dm)
  {
  }

  // The reading half of nextcl(): the cluster that follows the current one.
  method Peek(c: Cache, p: OFD, ghost j: nat) returns (cl2: Word)
    requires FileOk(c, p) && On(p, j)
    modifies c`disk, c`bufl
    ensures FileOk(c, p)
    ensures if j < |p.dfd.chain| then cl2 == p.dfd.chain[j] && 2 <= cl2 && !EndOfChain(cl2) else EndOfChain(cl2)
  {
    hide CacheOk, DMD.SizesOk, Fat;
    TableSize(c, p.dm);
    if p.curcl == 0 {
      cl2 := if p.dfd.strtcl != 0 then p.dfd.strtcl else ENDOFCHAIN;
    } else {
      cl2 := GetRealCl(c, p.curcl, p.dm);
    }
  }

  // The loop of ixdel(): free a file's chain.
  method FreeChain(c: Cache, dm: DMD, start: Word, ghost ch: seq<nat>)
    requires Mounted(c, dm) && IsChain(Fat(c.vol, dm), start, ch)
    modifies c
    ensures Mounted(c, dm) && OnlyFat(old(c.vol), c.vol, dm)
    ensures Fat(c.vol, dm) == Freed(Fat(old(c.vol), dm), ch)
    ensures FreeCount(Fat(c.vol, dm)) == FreeCount(Fat(old(c.vol), dm)) + |ch|
    ensures forall cl :: 0 <= cl < dm.numcl + 2 ==>
      Fat(c.vol, dm)[cl] == if cl in ch then FREECLUSTER else Fat(old(c.vol), dm)[cl]
  {
    hide CacheOk, DMD.SizesOk, Fat, Normal, OnlyFat, IsChain, Freed, EndOfChain;
    TableSize(c, dm);
    ghost var f0 := Fat(c.vol, dm);
    FreedChain(f0, start, ch);
    ChainTail(f0, start, ch);
    OnlyFatRefl(c.vol, dm);
    var n := start;
    ghost var rest := ch;
    while n != 0 && !EndOfChain(n)
      invariant Mounted(c, dm) && OnlyFat(old(c.vol), c.vol, dm)
      invariant Tail(Fat(c.vol, dm), n, rest) && Freed(Fat(c.vol, dm), rest) == Freed(f0, ch)
      decreases |rest|
    {
      ghost var v := c.vol;
      FreeStep(Fat(c.vol, dm), n, rest);
      var n2 := GetRealCl(c, n, dm);
      ClFix(c, n, FREECLUSTER, dm);
      OnlyFatTrans(old(c.vol), v, c.vol, dm);
      n, rest := n2, rest[1..];
    }
    ChainEnd(Fat(c.vol, dm), n, rest);
  }

  // What is left of a chain, from cluster n on.
  ghost predicate Tail(fat: Table, n: Word, rest: seq<nat>) {
    && (forall i :: 0 <= i < |rest| ==> rest[i] < |fat|)
    && if |rest| == 0 then n == 0 || EndOfChain(n) else IsChain(fat, n, rest)
  }

  lemma ChainTail(fat: Table, n: Word, ch: seq<nat>)
    requires IsChain(fat, n, ch)
    ensures Tail(fat, n, ch)
  {
  }

  lemma ChainEnd(fat: Table, n: Word, rest: seq<nat>)
    requires |fat| <= 0xfff8 && Tail(fat, n, rest) && (n == 0 || EndOfChain(n))
    ensures Freed(fat, rest) == fat
  {
  }

  lemma FreeStep(fat: Table, n: Word, rest: seq<nat>)
    requires |fat| <= 0xfff8 && Tail(fat, n, rest) && n != 0 && !EndOfChain(n)
    ensures 0 < |rest| && 2 <= n < |fat|
    ensures Tail(fat[n := FREECLUSTER], fat[n], rest[1..])
    ensures Freed(fat[n := FREECLUSTER], rest[1..]) == Freed(fat, rest)
  {
    ChainDistinct(fat, n, rest);
    assert fat[rest[0]] == fat[n];
    var f, r := fat[n := FREECLUSTER], rest[1..];
    forall i | 0 <= i < |r|
      ensures f[r[i]] == fat[rest[i + 1]]
    {
    }
  }

  lemma FreedChain(f0: Table, start: Word, ch: seq<nat>)
    requires |f0| <= 0xfff8 && IsChain(f0, start, ch)
    ensures FreeCount(Freed(f0, ch)) == FreeCount(f0) + |ch|
    ensures forall cl :: 0 <= cl < |f0| ==> Freed(f0, ch)[cl] == if cl in ch then FREECLUSTER else f0[cl]
  {
    ChainDistinct(f0, start, ch);
    forall i | 0 <= i < |ch| ensures f0[ch[i]] != FREECLUSTER {
      ChainUsed(f0, start, ch, i);
    }
    FreedCount(f0, ch);
    forall cl | 0 <= cl < |f0| ensures Freed(f0, ch)[cl] == if cl in ch then FREECLUSTER else f0[cl] {
      FreedAt(f0, ch, cl);
    }
  }
}

// The sector cache of GEMDOS (bdos/fsbuf.c) and the uncached bulk path beside it
// (usrio in bdos/fsio.c).
module BufferCache {
  import opened Bytes
  import opened Shift
  import opened Media

  // Buffer control block.  drv == -1 marks an invalid buffer.
  datatype BCB = BCB(drv: int, rec: nat, typ: BufTyp, dirty: bool, bufr: Sector)
  {
    predicate Holds(a: Addr) { drv == a.drv && typ == a.typ && rec == a.rec }

    // usrio()'s test: a buffer numbered within the run, whatever its type.
    predicate Within(d: nat, strt: nat, num: nat) { drv == d && strt <= rec < strt + num }

    function At(): Addr
      requires 0 <= drv
    {
      Addr(drv, typ, rec)
    }
  }

  // Index of the list a record type is cached in: BI_FAT or BI_DATA.
  function Bi(t: BufTyp): nat { if t.BtFat? then 0 else 1 }

  ghost predicate BufOk(vol: Volume, k: nat, b: BCB) {
    b.drv == -1 || (0 <= b.drv && Bi(b.typ) == k && b.At() in vol && b.bufr == vol[b.At()])
  }

  // Every valid buffer of list k shows the uncached contents, and no record is held twice.
  ghost predicate ListOk(vol: Volume, k: nat, l: seq<BCB>) {
    && (forall i :: 0 <= i < |l| ==> BufOk(vol, k, l[i]))
    && (forall i, j :: 0 <= i < j < |l| && 0 <= l[i].drv && 0 <= l[j].drv ==> l[i].At() != l[j].At())
  }

  ghost predicate DirtyIn(l: seq<BCB>, a: Addr) {
    exists b :: b in l && b.Holds(a) && b.dirty
  }

  ghost predicate Backed(t: DriveTable, disk: Disks, l: seq<BCB>, vol: Volume, a: Addr)
    requires TableOk(t) && DisksOk(t, disk) && a in vol && InRange(t, a)
  {
    SectorInDisk(t, a);
    disk[a.drv][SectorOf(t, a)] == vol[a] || DirtyIn(l, a)
  }

  // Whatever a record's sector does not hold is waiting in a dirty buffer of its list.
  ghost predicate AllBacked(t: DriveTable, disk: Disks, l: seq<BCB>, k: nat, vol: Volume)
    requires TableOk(t) && DisksOk(t, disk) && VolumeOk(t, vol)
  {
    forall a :: a in vol && Bi(a.typ) == k ==> Backed(t, disk, l, vol, a)
  }

  // The two FAT copies on each drive are equal.
  ghost predicate Mirrored(t: DriveTable, disk: Disks)
    requires TableOk(t) && DisksOk(t, disk)
  {
    forall a :: InRange(t, a) && a.typ == BtFat && !t[a.drv].m1fat ==>
      disk[a.drv][SectorOf(t, a)] == disk[a.drv][SectorOf(t, a) - t[a.drv].fsiz]
  }

  ghost predicate CacheOk(t: DriveTable, disk: Disks, bufl: seq<seq<BCB>>, vol: Volume) {
    && TableOk(t) && DisksOk(t, disk) && VolumeOk(t, vol)
    && |bufl| == 2 && 0 < |bufl[0]| && 0 < |bufl[1]|
    && ListOk(vol, 0, bufl[0]) && ListOk(vol, 1, bufl[1])
    && AllBacked(t, disk, bufl[0], 0, vol) && AllBacked(t, disk, bufl[1], 1, vol)
    && Mirrored(t, disk)
  }

  // Rwabs: write one sector.
  function WriteSector(disk: Disks, drv: nat, s: nat, x: Sector): Disks
    requires drv in disk && s < |disk[drv]|
  {
    disk[drv := disk[drv][s := x]]
  }

  // What flush() leaves on the drives: the sector, and its twin for a FAT buffer.
  function FlushedDisk(t: DriveTable, disk: Disks, b: BCB): (d: Disks)
    requires 0 <= b.drv && b.drv in disk && InRange(t, b.At())
    requires SectorOf(t, b.At()) < |disk[b.drv]|
    requires b.typ == BtFat && !t[b.drv].m1fat ==> t[b.drv].fsiz <= SectorOf(t, b.At())
  {
    var s := SectorOf(t, b.At());
    var once := WriteSector(disk, b.drv, s, b.bufr);
    if b.typ == BtFat && !t[b.drv].m1fat then
      WriteSector(once, b.drv, s - t[b.drv].fsiz, b.bufr)
    else
      once
  }

  lemma FlushedAt(t: DriveTable, disk: Disks, b: BCB, a: Addr)
    requires TableOk(t) && DisksOk(t, disk)
    requires 0 <= b.drv && InRange(t, b.At()) && InRange(t, a)
    ensures SectorOf(t, b.At()) < |disk[b.drv]| && SectorOf(t, a) < |disk[a.drv]|
    ensures FlushedDisk(t, disk, b)[a.drv][SectorOf(t, a)]
      == if a == b.At() then b.bufr else disk[a.drv][SectorOf(t, a)]
  {
    SectorInDisk(t, b.At());
    SectorInDisk(t, a);
    if a.drv == b.drv {
      SectorsDistinct(t, b.At(), a);
    }
  }

  lemma FlushKeepsDisks(t: DriveTable, disk: Disks, b: BCB)
    requires TableOk(t) && DisksOk(t, disk)
    requires 0 <= b.drv && InRange(t, b.At()) && |b.bufr| == t[b.drv].recsiz
    ensures SectorOf(t, b.At()) < |disk[b.drv]|
    ensures DisksOk(t, FlushedDisk(t, disk, b))
  {
    SectorInDisk(t, b.At());
    var d' := FlushedDisk(t, disk, b);
    assert |d'[b.drv]| == |disk[b.drv]|;
    assert forall d :: d in t && d != b.drv ==> d'[d] == disk[d];
  }

  lemma FlushKeepsMirror(t: DriveTable, disk: Disks, b: BCB)
    requires TableOk(t) && DisksOk(t, disk) && Mirrored(t, disk)
    requires 0 <= b.drv && InRange(t, b.At()) && |b.bufr| == t[b.drv].recsiz
    ensures SectorOf(t, b.At()) < |disk[b.drv]|
    ensures DisksOk(t, FlushedDisk(t, disk, b))
    ensures Mirrored(t, FlushedDisk(t, disk, b))
  {
    FlushKeepsDisks(t, disk, b);
    var d' := FlushedDisk(t, disk, b);
    forall a | InRange(t, a) && a.typ == BtFat && !t[a.drv].m1fat
      ensures d'[a.drv][SectorOf(t, a)] == d'[a.drv][SectorOf(t, a) - t[a.drv].fsiz]
    {
      FlushedAt(t, disk, b, a);
      TwinFlushed(t, disk, b, a);
    }
  }

  // The first FAT copy follows the second, and nothing else touches it.
  lemma TwinFlushed(t: DriveTable, disk: Disks, b: BCB, a: Addr)
    requires TableOk(t) && DisksOk(t, disk)
    requires 0 <= b.drv && InRange(t, b.At()) && InRange(t, a)
    requires a.typ == BtFat && !t[a.drv].m1fat
    ensures SectorOf(t, b.At()) < |disk[b.drv]| && t[a.drv].fsiz <= SectorOf(t, a) < |disk[a.drv]|
    ensures FlushedDisk(t, disk, b)[a.drv][SectorOf(t, a) - t[a.drv].fsiz]
      == if a == b.At() then b.bufr else disk[a.drv][SectorOf(t, a) - t[a.drv].fsiz]
  {
    SectorInDisk(t, b.At());
    SectorInDisk(t, a);
  }

  // flush() of buffer i writes through and leaves every uncached record as it was.
  lemma FlushStep(t: DriveTable, disk: Disks, l: seq<BCB>, k: nat, vol: Volume, i: nat)
    requires TableOk(t) && DisksOk(t, disk) && VolumeOk(t, vol)
    requires ListOk(vol, k, l) && AllBacked(t, disk, l, k, vol)
    requires i < |l| && 0 <= l[i].drv
    ensures SectorOf(t, l[i].At()) < |disk[l[i].drv]|
    ensures DisksOk(t, FlushedDisk(t, disk, l[i]))
    ensures ListOk(vol, k, l[i := l[i].(dirty := false)])
    ensures AllBacked(t, FlushedDisk(t, disk, l[i]), l[i := l[i].(dirty := false)], k, vol)
  {
    hide ListOk, Backed, FlushedDisk;
    BufHere(t, vol, k, l, i);
    FlushKeepsDisks(t, disk, l[i]);
    FlushedList(vol, k, l, i);
    forall a | a in vol && Bi(a.typ) == k
      ensures Backed(t, FlushedDisk(t, disk, l[i]), l[i := l[i].(dirty := false)], vol, a)
    {
      assert Backed(t, disk, l, vol, a);
      FlushedBacked(t, disk, l, k, vol, i, a);
    }
  }

  lemma BufHere(t: DriveTable, vol: Volume, k: nat, l: seq<BCB>, i: nat)
    requires TableOk(t) && VolumeOk(t, vol) && ListOk(vol, k, l) && i < |l| && 0 <= l[i].drv
    ensures l[i].At() in vol && InRange(t, l[i].At()) && |l[i].bufr| == t[l[i].drv].recsiz
    ensures vol[l[i].At()] == l[i].bufr
  {
    assert BufOk(vol, k, l[i]);
  }

  lemma FlushedList(vol: Volume, k: nat, l: seq<BCB>, i: nat)
    requires ListOk(vol, k, l) && i < |l|
    ensures ListOk(vol, k, l[i := l[i].(dirty := false)])
  {
    assert BufOk(vol, k, l[i]);
  }

  lemma FlushedBacked(t: DriveTable, disk: Disks, l: seq<BCB>, k: nat, vol: Volume, i: nat, a: Addr)
    requires TableOk(t) && DisksOk(t, disk) && VolumeOk(t, vol) && ListOk(vol, k, l) && a in vol
    requires i < |l| && 0 <= l[i].drv && Backed(t, disk, l, vol, a)
    requires InRange(t, l[i].At()) && SectorOf(t, l[i].At()) < |disk[l[i].drv]| && DisksOk(t, FlushedDisk(t, disk, l[i]))
    ensures Backed(t, FlushedDisk(t, disk, l[i]), l[i := l[i].(dirty := false)], vol, a)
  {
    hide ListOk, DisksOk, TableOk, FlushedDisk;
    var b, l' := l[i], l[i := l[i].(dirty := false)];
    BufHere(t, vol, k, l, i);
    FlushedAt(t, disk, b, a);
    if a != b.At() && DirtyIn(l, a) {
      var c :| c in l && c.Holds(a) && c.dirty;
      var j :| 0 <= j < |l| && l[j] == c;
      assert l'[j] == c;
    }
  }

  // flush() of a buffer of the other list.
  lemma FlushOther(t: DriveTable, disk: Disks, b: BCB, l: seq<BCB>, k: nat, vol: Volume)
    requires TableOk(t) && DisksOk(t, disk) && VolumeOk(t, vol)
    requires 0 <= b.drv && b.At() in vol && Bi(b.typ) != k
    requires |b.bufr| == t[b.drv].recsiz
    requires AllBacked(t, disk, l, k, vol)
    ensures SectorOf(t, b.At()) < |disk[b.drv]|
    ensures DisksOk(t, FlushedDisk(t, disk, b))
    ensures AllBacked(t, FlushedDisk(t, disk, b), l, k, vol)
  {
    FlushKeepsDisks(t, disk, b);
    forall a | a in vol && Bi(a.typ) == k
      ensures Backed(t, FlushedDisk(t, disk, b), l, vol, a)
    {
      FlushedAt(t, disk, b, a);
      assert Backed(t, disk, l, vol, a);
    }
  }

  lemma FlushCache(t: DriveTable, disk: Disks, bufl: seq<seq<BCB>>, vol: Volume, k: nat, i: nat)
    requires CacheOk(t, disk, bufl, vol)
    requires k < 2 && i < |bufl[k]| && 0 <= bufl[k][i].drv
    ensures bufl[k][i].drv in disk && bufl[k][i].drv in t && t[bufl[k][i].drv].LayoutOk()
    ensures InRange(t, bufl[k][i].At()) && SectorOf(t, bufl[k][i].At()) < |disk[bufl[k][i].drv]|
    ensures CacheOk(t, FlushedDisk(t, disk, bufl[k][i]), bufl[k := bufl[k][i := bufl[k][i].(dirty := false)]], vol)
  {
    assert BufOk(vol, k, bufl[k][i]);
    FlushStep(t, disk, bufl[k], k, vol, i);
    FlushOther(t, disk, bufl[k][i], bufl[1 - k], 1 - k, vol);
    FlushKeepsMirror(t, disk, bufl[k][i]);
  }

  // A slot that holds nothing unwritten may be given to another record.
  lemma ReplaceSlot(t: DriveTable, disk: Disks, l: seq<BCB>, k: nat, vol: Volume, i: nat, nb: BCB)
    requires TableOk(t) && DisksOk(t, disk) && VolumeOk(t, vol)
    requires ListOk(vol, k, l) && AllBacked(t, disk, l, k, vol)
    requires i < |l| && (l[i].drv == -1 || !l[i].dirty)
    requires BufOk(vol, k, nb)
    requires 0 <= nb.drv ==> forall j :: 0 <= j < |l| && j != i && 0 <= l[j].drv ==> l[j].At() != nb.At()
    ensures ListOk(vol, k, l[i := nb])
    ensures AllBacked(t, disk, l[i := nb], k, vol)
  {
    var l' := l[i := nb];
    forall a | a in vol && Bi(a.typ) == k
      ensures Backed(t, disk, l', vol, a)
    {
      assert Backed(t, disk, l, vol, a);
      if DirtyIn(l, a) {
        var c :| c in l && c.Holds(a) && c.dirty;
        var j :| 0 <= j < |l| && l[j] == c;
        assert l'[j] == c;
      }
    }
  }

  function ToFront(l: seq<BCB>, i: nat): (r: seq<BCB>)
    requires i < |l|
    ensures |r| == |l| && r[0] == l[i] && r[1..] == l[..i] + l[i + 1..]
  {
    [l[i]] + l[..i] + l[i + 1..]
  }

  lemma ToFrontSame(l: seq<BCB>, i: nat)
    requires i < |l|
    ensures forall b :: b in l <==> b in ToFront(l, i)
  {
    var r := ToFront(l, i);
    forall b | b in l ensures b in r {
      var j :| 0 <= j < |l| && l[j] == b;
      assert r[if j == i then 0 else if j < i then j + 1 else j] == b;
    }
    assert l == l[..i] + [l[i]] + l[i + 1..];
  }

  // Relinking at the head of the list is invisible.
  lemma ToFrontOk(t: DriveTable, disk: Disks, l: seq<BCB>, k: nat, vol: Volume, i: nat)
    requires TableOk(t) && DisksOk(t, disk) && VolumeOk(t, vol)
    requires ListOk(vol, k, l) && AllBacked(t, disk, l, k, vol)
    requires i < |l|
    ensures ListOk(vol, k, ToFront(l, i))
    ensures AllBacked(t, disk, ToFront(l, i), k, vol)
  {
    hide ListOk, Backed, DisksOk, TableOk;
    ToFrontSame(l, i);
    ToFrontList(vol, k, l, i);
    forall a | a in vol && Bi(a.typ) == k
      ensures Backed(t, disk, ToFront(l, i), vol, a)
    {
      assert Backed(t, disk, l, vol, a);
      SameBacked(t, disk, l, ToFront(l, i), vol, a);
    }
  }

  lemma SameBacked(t: DriveTable, disk: Disks, l: seq<BCB>, r: seq<BCB>, vol: Volume, a: Addr)
    requires TableOk(t) && DisksOk(t, disk) && a in vol && InRange(t, a)
    requires Backed(t, disk, l, vol, a) && forall b :: b in l ==> b in r
    ensures Backed(t, disk, r, vol, a)
  {
    if DirtyIn(l, a) {
      var b :| b in l && b.Holds(a) && b.dirty;
      assert b in r;
    }
  }

  lemma ToFrontList(vol: Volume, k: nat, l: seq<BCB>, i: nat)
    requires ListOk(vol, k, l) && i < |l|
    ensures ListOk(vol, k, ToFront(l, i))
  {
    hide BufOk;
    var r := ToFront(l, i);
    assert forall j :: 0 <= j < |r| ==> r[j] == l[if j == 0 then i else if j <= i then j - 1 else j];
  }

  lemma MarkDirty(t: DriveTable, disk: Disks, l: seq<BCB>, k: nat, vol: Volume)
    requires TableOk(t) && DisksOk(t, disk) && VolumeOk(t, vol)
    requires ListOk(vol, k, l) && AllBacked(t, disk, l, k, vol) && 0 < |l|
    ensures ListOk(vol, k, l[0 := l[0].(dirty := true)])
    ensures AllBacked(t, disk, l[0 := l[0].(dirty := true)], k, vol)
  {
    var l' := l[0 := l[0].(dirty := true)];
    forall i | 0 <= i < |l'| ensures BufOk(vol, k, l'[i]) {
      assert BufOk(vol, k, l[i]);
    }
    forall a | a in vol && Bi(a.typ) == k
      ensures Backed(t, disk, l', vol, a)
    {
      assert Backed(t, disk, l, vol, a);
      if DirtyIn(l, a) {
        var c :| c in l && c.Holds(a) && c.dirty;
        var j :| 0 <= j < |l| && l[j] == c;
        assert l'[j].Holds(a) && l'[j].dirty;
      }
    }
  }

  // Writing through the pointer to a dirty front buffer changes that record and no other.
  lemma PatchFront(t: DriveTable, disk: Disks, l: seq<BCB>, k: nat, vol: Volume, x: Sector)
    requires TableOk(t) && DisksOk(t, disk) && VolumeOk(t, vol)
    requires ListOk(vol, k, l) && AllBacked(t, disk, l, k, vol)
    requires 0 < |l| && 0 <= l[0].drv && l[0].dirty && |x| == |l[0].bufr|
    ensures VolumeOk(t, vol[l[0].At() := x])
    ensures ListOk(vol[l[0].At() := x], k, l[0 := l[0].(bufr := x)])
    ensures AllBacked(t, disk, l[0 := l[0].(bufr := x)], k, vol[l[0].At() := x])
  {
    assert BufOk(vol, k, l[0]);
    var here := l[0].At();
    var l' := l[0 := l[0].(bufr := x)];
    var vol' := vol[here := x];
    forall a | a in vol' && Bi(a.typ) == k
      ensures Backed(t, disk, l', vol', a)
    {
      assert Backed(t, disk, l, vol, a);
      if a == here {
        assert l'[0] in l' && l'[0].Holds(a);
      } else if DirtyIn(l, a) {
        var c :| c in l && c.Holds(a) && c.dirty;
        var j :| 0 <= j < |l| && l[j] == c;
        assert l'[j] == c;
      }
    }
  }

  lemma PatchOther(t: DriveTable, disk: Disks, l: seq<BCB>, k: nat, vol: Volume, here: Addr, x: Sector)
    requires TableOk(t) && DisksOk(t, disk) && VolumeOk(t, vol)
    requires ListOk(vol, k, l) && AllBacked(t, disk, l, k, vol)
    requires here in vol && Bi(here.typ) != k && |x| == |vol[here]|
    ensures VolumeOk(t, vol[here := x])
    ensures ListOk(vol[here := x], k, l)
    ensures AllBacked(t, disk, l, k, vol[here := x])
  {
    forall a | a in vol[here := x] && Bi(a.typ) == k
      ensures Backed(t, disk, l, vol[here := x], a)
    {
      assert Backed(t, disk, l, vol, a);
    }
  }

  // The t-th record of a run of bytes.
  function Chunk(data: seq<Byte>, n: nat, t: nat): (c: Sector)
    ensures |c| == n
  {
    seq(n, j requires 0 <= j < n => var i := Mul(t, n) + j; if 0 <= i < |data| then data[i] else 0)
  }

  // Rwabs: write num records from sector s on.
  function WriteRun(secs: seq<Sector>, s: nat, num: nat, data: seq<Byte>, n: nat): (r: seq<Sector>)
    ensures |r| == |secs|
  {
    seq(|secs|, i requires 0 <= i < |secs| => if s <= i < s + num then Chunk(data, n, i - s) else secs[i])
  }

  lemma WriteRunAt(secs: seq<Sector>, s: nat, num: nat, data: seq<Byte>, n: nat, i: nat)
    requires i < |secs|
    ensures WriteRun(secs, s, num, data, n)[i] == if s <= i < s + num then Chunk(data, n, i - s) else secs[i]
  {
  }

  predicate InRun(a: Addr, drv: nat, strt: nat, num: nat) {
    a.drv == drv && a.typ == BtData && strt <= a.rec < strt + num
  }

  // The same transfer on the uncached disk.
  ghost function BulkVol(vol: Volume, drv: nat, strt: nat, num: nat, data: seq<Byte>, n: nat): Volume {
    imap a | a in vol :: if InRun(a, drv, strt, num) then Chunk(data, n, a.rec - strt) else vol[a]
  }

  // No buffer of the list holds a record numbered within the run.
  ghost predicate NoneHeld(l: seq<BCB>, drv: nat, strt: nat, num: nat) {
    forall i :: 0 <= i < |l| ==> !l[i].Within(drv, strt, num)
  }

  lemma BulkWriteDisks(t: DriveTable, disk: Disks, drv: nat, strt: nat, num: nat, data: seq<Byte>)
    requires TableOk(t) && DisksOk(t, disk) && Mirrored(t, disk)
    requires drv in t && strt + num <= t[drv].datlen
    ensures var d' := disk[drv := WriteRun(disk[drv], t[drv].datrec + strt, num, data, t[drv].recsiz)];
      DisksOk(t, d') && Mirrored(t, d')
  {
    var run := WriteRun(disk[drv], t[drv].datrec + strt, num, data, t[drv].recsiz);
    var d' := disk[drv := run];
    assert forall d :: d in t && d != drv ==> d'[d] == disk[d];
    forall d, s | d in t && 0 <= s < |d'[d]|
      ensures |d'[d][s]| == t[d].recsiz
    {
      if d == drv {
        WriteRunAt(disk[drv], t[drv].datrec + strt, num, data, t[drv].recsiz, s);
        assert |disk[drv][s]| == t[drv].recsiz;
      } else {
        assert d'[d][s] == disk[d][s];
      }
    }
    forall a | InRange(t, a) && a.typ == BtFat && !t[a.drv].m1fat
      ensures d'[a.drv][SectorOf(t, a)] == d'[a.drv][SectorOf(t, a) - t[a.drv].fsiz]
    {
      assert disk[a.drv][SectorOf(t, a)] == disk[a.drv][SectorOf(t, a) - t[a.drv].fsiz];
    }
  }

  lemma BulkVolOk(t: DriveTable, vol: Volume, drv: nat, strt: nat, num: nat, data: seq<Byte>)
    requires VolumeOk(t, vol) && drv in t
    ensures VolumeOk(t, BulkVol(vol, drv, strt, num, data, t[drv].recsiz))
  {
  }

  lemma BulkAt(t: DriveTable, disk: Disks, vol: Volume, drv: nat, strt: nat, num: nat, data: seq<Byte>, a: Addr)
    requires TableOk(t) && DisksOk(t, disk) && VolumeOk(t, vol)
    requires drv in t && a in vol
    ensures SectorOf(t, a) < |disk[a.drv]|
    ensures var n := t[drv].recsiz;
      var d' := disk[drv := WriteRun(disk[drv], t[drv].datrec + strt, num, data, n)];
      var v' := BulkVol(vol, drv, strt, num, data, n);
      if InRun(a, drv, strt, num) then d'[a.drv][SectorOf(t, a)] == v'[a]
      else strt + num <= t[drv].datlen ==> d'[a.drv][SectorOf(t, a)] == disk[a.drv][SectorOf(t, a)] && v'[a] == vol[a]
  {
    SectorInDisk(t, a);
    if a.drv == drv {
      assert t[drv].LayoutOk();
    }
  }

  // With the overlapping buffers gone, a bulk write and the cache cannot disagree.
  lemma BulkWriteList(t: DriveTable, disk: Disks, l: seq<BCB>, k: nat, vol: Volume,
                      drv: nat, strt: nat, num: nat, data: seq<Byte>)
    requires TableOk(t) && DisksOk(t, disk) && VolumeOk(t, vol) && Mirrored(t, disk)
    requires ListOk(vol, k, l) && AllBacked(t, disk, l, k, vol)
    requires drv in t && strt + num <= t[drv].datlen
    requires k == 0 || NoneHeld(l, drv, strt, num)
    ensures var n := t[drv].recsiz;
      var d' := disk[drv := WriteRun(disk[drv], t[drv].datrec + strt, num, data, n)];
      var v' := BulkVol(vol, drv, strt, num, data, n);
      DisksOk(t, d') && VolumeOk(t, v') && ListOk(v', k, l) && AllBacked(t, d', l, k, v')
  {
    var n := t[drv].recsiz;
    var d' := disk[drv := WriteRun(disk[drv], t[drv].datrec + strt, num, data, n)];
    var v' := BulkVol(vol, drv, strt, num, data, n);
    BulkWriteDisks(t, disk, drv, strt, num, data);
    BulkVolOk(t, vol, drv, strt, num, data);
    assert ListOk(v', k, l) by {
      assert forall i :: 0 <= i < |l| ==> BufOk(vol, k, l[i]);
    }
    forall a | a in v' && Bi(a.typ) == k
      ensures Backed(t, d', l, v', a)
    {
      assert Backed(t, disk, l, vol, a);
      BulkAt(t, disk, vol, drv, strt, num, data, a);
    }
  }

  lemma BulkWriteCache(t: DriveTable, disk: Disks, bufl: seq<seq<BCB>>, vol: Volume,
                       drv: nat, strt: nat, num: nat, data: seq<Byte>)
    requires CacheOk(t, disk, bufl, vol)
    requires drv in t && strt + num <= t[drv].datlen && NoneHeld(bufl[1], drv, strt, num)
    ensures drv in disk && var n := t[drv].recsiz;
      CacheOk(t, disk[drv := WriteRun(disk[drv], t[drv].datrec + strt, num, data, n)], bufl,
              BulkVol(vol, drv, strt, num, data, n))
  {
    BulkWriteList(t, disk, bufl[0], 0, vol, drv, strt, num, data);
    BulkWriteList(t, disk, bufl[1], 1, vol, drv, strt, num, data);
    BulkWriteDisks(t, disk, drv, strt, num, data);
  }

  lemma NoneHeldOnDisk(t: DriveTable, disk: Disks, l: seq<BCB>, vol: Volume,
                       drv: nat, strt: nat, num: nat, a: Addr)
    requires TableOk(t) && DisksOk(t, disk) && VolumeOk(t, vol)
    requires AllBacked(t, disk, l, 1, vol) && NoneHeld(l, drv, strt, num)
    requires a in vol && InRun(a, drv, strt, num)
    ensures SectorOf(t, a) < |disk[a.drv]| && disk[a.drv][SectorOf(t, a)] == vol[a]
  {
    SectorInDisk(t, a);
    assert Backed(t, disk, l, vol, a);
  }

  // Which buffer of a list getbcb() uses for a record: the one that holds it, else the last
  // invalid one, else the last of the list.
  ghost predicate IsSlotFor(l: seq<BCB>, a: Addr, i: nat)
    requires i < |l|
  {
    l[i].Holds(a) ||
    ((forall j :: 0 <= j < |l| ==> !l[j].Holds(a)) &&
     if exists j :: 0 <= j < |l| && l[j].drv == -1
     then l[i].drv == -1 && forall j :: i < j < |l| ==> l[j].drv != -1
     else i == |l| - 1)
  }

  lemma RunOnDisk(t: DriveTable, disk: Disks, bufl: seq<seq<BCB>>, vol: Volume, drv: nat, strt: nat, num: nat)
    requires CacheOk(t, disk, bufl, vol)
    requires drv in t && strt + num <= t[drv].datlen && NoneHeld(bufl[1], drv, strt, num)
    ensures drv in disk && t[drv].datrec + strt + num <= |disk[drv]| && 0 < t[drv].recsiz
    ensures forall r :: strt <= r < strt + num ==>
      Addr(drv, BtData, r) in vol && |vol[Addr(drv, BtData, r)]| == t[drv].recsiz &&
      disk[drv][t[drv].datrec + r] == vol[Addr(drv, BtData, r)]
  {
    assert t[drv].LayoutOk();
    forall r | strt <= r < strt + num
      ensures Addr(drv, BtData, r) in vol && |vol[Addr(drv, BtData, r)]| == t[drv].recsiz
      ensures disk[drv][t[drv].datrec + r] == vol[Addr(drv, BtData, r)]
    {
      var a := Addr(drv, BtData, r);
      assert InRange(t, a);
      NoneHeldOnDisk(t, disk, bufl[1], vol, drv, strt, num, a);
    }
  }

  ghost predicate AllClean(l: seq<BCB>) {
    forall b :: b in l && 0 <= b.drv ==> !b.dirty
  }

  function Overlay(x: Sector, off: nat, data: seq<Byte>): (r: Sector)
    requires off + |data| <= |x|
    ensures |r| == |x|
    ensures forall i :: 0 <= i < |x| ==> r[i] == if off <= i < off + |data| then data[i - off] else x[i]
  {
    x[..off] + data + x[off + |data|..]
  }

  // The two buffer lists of GEMDOS in front of the drives.  vol is the uncached disk: each
  // operation is specified by what it does to vol, and Valid() ties the lists to it.
  // Sector by sector, a drive holds its FAT, twice if it has two copies, the root directory, and the
  // data.
  ghost predicate OnDrives(t: DriveTable, disk: Disks, vol: Volume) {
    forall d: nat, r: nat {:trigger Addr(d, BtFat, r)} {:trigger Addr(d, BtRoot, r)} {:trigger Addr(d, BtData, r)} ::
      d in t ==> d in disk && OnDrive(t[d], disk[d], vol, d, r)
  }

  ghost predicate OnDrive(dm: DMD, sectors: seq<Sector>, vol: Volume, d: nat, r: nat) {
    && (r < dm.fsiz ==>
         (dm.fatrec + r < |sectors| && Addr(d, BtFat, r) in vol && sectors[dm.fatrec + r] == vol[Addr(d, BtFat, r)] &&
          (!dm.m1fat ==> 0 <= dm.fatrec - dm.fsiz && sectors[dm.fatrec - dm.fsiz + r] == vol[Addr(d, BtFat, r)])))
    && (r < dm.rdlen ==>
         (dm.rootrec + r < |sectors| && Addr(d, BtRoot, r) in vol && sectors[dm.rootrec + r] == vol[Addr(d, BtRoot, r)]))
    && (r < dm.datlen ==>
         (dm.datrec + r < |sectors| && Addr(d, BtData, r) in vol && sectors[dm.datrec + r] == vol[Addr(d, BtData, r)]))
  }

  lemma AllOnDrives(t: DriveTable, disk: Disks, vol: Volume)
    requires TableOk(t) && DisksOk(t, disk) && VolumeOk(t, vol) && Mirrored(t, disk)
    requires forall a :: a in vol ==> SectorOf(t, a) < |disk[a.drv]| && disk[a.drv][SectorOf(t, a)] == vol[a]
    ensures OnDrives(t, disk, vol)
  {
    forall d: nat, r: nat | d in t ensures OnDrive(t[d], disk[d], vol, d, r) {
      DriveHolds(t, disk, vol, d, r);
    }
  }

  lemma DriveHolds(t: DriveTable, disk: Disks, vol: Volume, d: nat, r: nat)
    requires TableOk(t) && DisksOk(t, disk) && VolumeOk(t, vol) && Mirrored(t, disk) && d in t
    requires forall a :: a in vol ==> SectorOf(t, a) < |disk[a.drv]| && disk[a.drv][SectorOf(t, a)] == vol[a]
    ensures OnDrive(t[d], disk[d], vol, d, r)
  {
    var dm, f, g, h := t[d], Addr(d, BtFat, r), Addr(d, BtRoot, r), Addr(d, BtData, r);
    assert r < dm.fsiz ==> f in vol && SectorOf(t, f) == dm.fatrec + r;
    assert r < dm.rdlen ==> g in vol && SectorOf(t, g) == dm.rootrec + r;
    assert r < dm.datlen ==> h in vol && SectorOf(t, h) == dm.datrec + r;
  }

  class Cache {
    const drvtbl: DriveTable
    var disk: Disks
    var bufl: seq<seq<BCB>>
    ghost var vol: Volume

    ghost predicate Valid()
      reads this
    {
      CacheOk(drvtbl, disk, bufl, vol)
    }

    constructor (t: DriveTable, d: Disks, numbufs: nat)
      requires TableOk(t) && DisksOk(t, d) && Mirrored(t, d) && 0 < numbufs
      ensures Valid() && drvtbl == t && disk == d
      ensures forall a :: a in vol ==> SectorOf(t, a) < |d[a.drv]| && vol[a] == d[a.drv][SectorOf(t, a)]
    {
      var chain := seq(numbufs, _ => BCB(-1, 0, BtFat, false, []));
      drvtbl, disk, bufl := t, d, [chain, chain];
      forall a | InRange(t, a) ensures SectorOf(t, a) < |d[a.drv]| { SectorInDisk(t, a); }
      vol := imap a | InRange(t, a) :: d[a.drv][SectorOf(t, a)];
    }

    method Flush(k: nat, i: nat)
      requires Valid() && k < 2 && i < |bufl[k]| && 0 <= bufl[k][i].drv
      modifies this`disk, this`bufl
      ensures Valid()
      ensures bufl == old(bufl)[k := old(bufl[k])[i := old(bufl[k][i]).(dirty := false)]]
    {
      FlushCache(drvtbl, disk, bufl, vol, k, i);
      WriteThrough(k, i);
    }

    method WriteThrough(k: nat, i: nat)
      requires k < |bufl| && i < |bufl[k]| && 0 <= bufl[k][i].drv && bufl[k][i].drv in drvtbl
      requires bufl[k][i].drv in disk && drvtbl[bufl[k][i].drv].LayoutOk() && InRange(drvtbl, bufl[k][i].At())
      requires SectorOf(drvtbl, bufl[k][i].At()) < |disk[bufl[k][i].drv]|
      modifies this`disk, this`bufl
      ensures disk == FlushedDisk(drvtbl, old(disk), old(bufl[k][i]))
      ensures bufl == old(bufl)[k := old(bufl[k])[i := old(bufl[k][i]).(dirty := false)]]
    {
      var b := bufl[k][i];
      var dm := drvtbl[b.drv];
      var s := b.rec + dm.RecOff(b.typ);
      disk := WriteSector(disk, b.drv, s, b.bufr);
      // flush to both FATs
      if b.typ == BtFat && !dm.m1fat {
        disk := WriteSector(disk, b.drv, s - dm.fsiz, b.bufr);
      }
      bufl := bufl[k := bufl[k][i := b.(dirty := false)]];
    }

    // The search loop of getbcb(): the index of the buffer that holds the record, or the
    // length of the list and the last invalid buffer seen (-1 if none).
    method Search(k: nat, dm: DMD, typ: BufTyp, rec: nat) returns (i: nat, mtbuf: int)
      requires k < |bufl|
      ensures i <= |bufl[k]| && -1 <= mtbuf < i
      ensures i < |bufl[k]| ==> bufl[k][i].Holds(Addr(dm.drvnum, typ, rec))
      ensures forall j :: 0 <= j < i ==> !bufl[k][j].Holds(Addr(dm.drvnum, typ, rec))
      ensures 0 <= mtbuf ==> bufl[k][mtbuf].drv == -1
      ensures forall j :: mtbuf < j < i ==> bufl[k][j].drv != -1
    {
      i, mtbuf := 0, -1;
      while i < |bufl[k]|
        invariant 0 <= i <= |bufl[k]| && -1 <= mtbuf < i
        invariant forall j :: 0 <= j < i ==> !bufl[k][j].Holds(Addr(dm.drvnum, typ, rec))
        invariant 0 <= mtbuf ==> bufl[k][mtbuf].drv == -1
        invariant forall j :: mtbuf < j < i ==> bufl[k][j].drv != -1
      {
        if bufl[k][i].drv == dm.drvnum && bufl[k][i].typ == typ && bufl[k][i].rec == rec {
          return;
        }
        if bufl[k][i].drv == -1 {
          mtbuf := i;
        }
        i := i + 1;
      }
    }

    // The buffer for a record: the one that holds it, else the last invalid one, else the
    // least recently used; in every case it ends up at the head of its list.
    method GetBcb(dm: DMD, typ: BufTyp, rec: nat) returns (ghost slot: nat)
      requires Valid() && dm.drvnum in drvtbl && drvtbl[dm.drvnum] == dm && rec < dm.Records(typ)
      modifies this`disk, this`bufl
      ensures Valid() && bufl[1 - Bi(typ)] == old(bufl)[1 - Bi(typ)]
      ensures slot < |old(bufl)[Bi(typ)]|
      ensures IsSlotFor(old(bufl)[Bi(typ)], Addr(dm.drvnum, typ, rec), slot)
      ensures bufl[Bi(typ)][0].Holds(Addr(dm.drvnum, typ, rec))
      ensures bufl[Bi(typ)][1..] == old(bufl)[Bi(typ)][..slot] + old(bufl)[Bi(typ)][slot + 1..]
    {
      var k := Bi(typ);
      var i := Obtain(k, dm, typ, rec);
      slot := i;
      Relink(k, i);
    }

    // Find the record's buffer, reading it in if necessary.
    method Obtain(k: nat, dm: DMD, typ: BufTyp, rec: nat) returns (i: nat)
      requires Valid() && dm.drvnum in drvtbl && drvtbl[dm.drvnum] == dm && rec < dm.Records(typ)
      requires k == Bi(typ)
      modifies this`disk, this`bufl
      ensures Valid() && |bufl| == 2 && i < |bufl[k]| == |old(bufl)[k]|
      ensures bufl[1 - k] == old(bufl)[1 - k] && bufl[k] == old(bufl)[k][i := bufl[k][i]]
      ensures bufl[k][i].Holds(Addr(dm.drvnum, typ, rec))
      ensures IsSlotFor(old(bufl)[k], Addr(dm.drvnum, typ, rec), i)
    {
      var mtbuf: int;
      i, mtbuf := Search(k, dm, typ, rec);
      if i == |bufl[k]| {
        i := Victim(k, mtbuf);
        assert IsSlotFor(bufl[k], Addr(dm.drvnum, typ, rec), i);
        Recycle(k, i, dm, typ, rec);
      } else {
        assert bufl[k] == bufl[k][i := bufl[k][i]];
      }
    }

    // The loop at doio: stop at the invalid buffer, or at the last in the list.
    method Victim(k: nat, mtbuf: int) returns (i: nat)
      requires k < |bufl| && -1 <= mtbuf < |bufl[k]| && 0 < |bufl[k]|
      ensures i == if mtbuf == -1 then |bufl[k]| - 1 else mtbuf
    {
      i := 0;
      while i < |bufl[k]| - 1 && i != mtbuf
        invariant 0 <= i <= |bufl[k]| - 1 && (mtbuf == -1 || i <= mtbuf)
      {
        i := i + 1;
      }
    }

    // Put a buffer at the head of its list.
    method Relink(k: nat, i: nat)
      requires Valid() && k < 2 && i < |bufl[k]|
      modifies this`bufl
      ensures Valid() && bufl == old(bufl)[k := ToFront(old(bufl)[k], i)]
    {
      ToFrontOk(drvtbl, disk, bufl[k], k, vol, i);
      bufl := bufl[k := ToFront(bufl[k], i)];
    }

    // Flush a buffer that is about to be reused.
    method Evict(k: nat, i: nat)
      requires Valid() && k < 2 && i < |bufl[k]|
      modifies this`disk, this`bufl
      ensures Valid() && |bufl| == 2 && |bufl[k]| == |old(bufl)[k]| && bufl == old(bufl)[k := bufl[k]]
      ensures bufl[k][i].drv == -1 || !bufl[k][i].dirty
      ensures bufl[k] == old(bufl)[k][i := bufl[k][i]]
      ensures bufl[k][i].(dirty := false) == old(bufl)[k][i].(dirty := false)
    {
      assert BufOk(vol, k, bufl[k][i]);
      if bufl[k][i].drv != -1 && bufl[k][i].dirty {
        Flush(k, i);
      }
    }

    // Give buffer i to another record.
    method Recycle(k: nat, i: nat, dm: DMD, typ: BufTyp, rec: nat)
      requires Valid() && dm.drvnum in drvtbl && drvtbl[dm.drvnum] == dm && rec < dm.Records(typ)
      requires k == Bi(typ) && i < |bufl[k]|
      requires forall j :: 0 <= j < |bufl[k]| ==> !bufl[k][j].Holds(Addr(dm.drvnum, typ, rec))
      modifies this`disk, this`bufl
      ensures Valid() && |bufl[k]| == |old(bufl)[k]| && bufl[1 - k] == old(bufl)[1 - k]
      ensures bufl[k] == old(bufl)[k][i := bufl[k][i]]
      ensures bufl[k][i].Holds(Addr(dm.drvnum, typ, rec))
    {
      Evict(k, i);
      Fill(k, i, dm, typ, rec);
    }

    // Read a record into a clean buffer.
    method Fill(k: nat, i: nat, dm: DMD, typ: BufTyp, rec: nat)
      requires Valid() && dm.drvnum in drvtbl && drvtbl[dm.drvnum] == dm && rec < dm.Records(typ)
      requires k == Bi(typ) && i < |bufl[k]| && (bufl[k][i].drv == -1 || !bufl[k][i].dirty)
      requires forall j :: 0 <= j < |bufl[k]| ==> !bufl[k][j].Holds(Addr(dm.drvnum, typ, rec))
      modifies this`bufl
      ensures Valid() && |bufl| == 2 && |bufl[k]| == |old(bufl)[k]| && bufl == old(bufl)[k := bufl[k]]
      ensures bufl[k] == old(bufl)[k][i := bufl[k][i]]
      ensures bufl[k][i].Holds(Addr(dm.drvnum, typ, rec))
    {
      ghost var a := Addr(dm.drvnum, typ, rec);
      SectorInDisk(drvtbl, a);
      assert Backed(drvtbl, disk, bufl[k], vol, a);
      var b := BCB(dm.drvnum, rec, typ, false, disk[dm.drvnum][rec + dm.RecOff(typ)]);
      ReplaceSlot(drvtbl, disk, bufl[k], k, vol, i, b);
      bufl := bufl[k := bufl[k][i := b]];
    }

    // getrec(): the contents of a record, in a buffer that the caller may write through if
    // wrtflg is set.
    method GetRec(rec: nat, dm: DMD, typ: BufTyp, wrtflg: bool) returns (buf: Sector)
      requires Valid() && dm.drvnum in drvtbl && drvtbl[dm.drvnum] == dm && rec < dm.Records(typ)
      modifies this`disk, this`bufl
      ensures Valid() && bufl[1 - Bi(typ)] == old(bufl)[1 - Bi(typ)]
      ensures bufl[Bi(typ)][0].Holds(Addr(dm.drvnum, typ, rec))
      ensures wrtflg ==> bufl[Bi(typ)][0].dirty
      ensures Addr(dm.drvnum, typ, rec) in vol && buf == vol[Addr(dm.drvnum, typ, rec)]
      ensures bufl[Bi(typ)][0].bufr == buf && |buf| == dm.recsiz
    {
      assert InRange(drvtbl, Addr(dm.drvnum, typ, rec));
      ghost var _ := GetBcb(dm, typ, rec);
      var k := Bi(typ);
      assert BufOk(vol, k, bufl[k][0]);
      buf := bufl[k][0].bufr;
      if wrtflg {
        MarkDirty(drvtbl, disk, bufl[k], k, vol);
        bufl := bufl[k := bufl[k][0 := bufl[k][0].(dirty := true)]];
      }
    }

    // memcpy() through the pointer that getrec() returned.
    method Poke(typ: BufTyp, off: nat, data: seq<Byte>)
      requires Valid() && 0 <= bufl[Bi(typ)][0].drv && bufl[Bi(typ)][0].dirty
      requires off + |data| <= |bufl[Bi(typ)][0].bufr|
      modifies this`bufl, this`vol
      ensures Valid() && old(bufl[Bi(typ)][0]).At() in old(vol)
      ensures vol == old(vol)[old(bufl[Bi(typ)][0]).At() := Overlay(old(bufl[Bi(typ)][0].bufr), off, data)]
      ensures bufl[Bi(typ)][0] == old(bufl[Bi(typ)][0]).(bufr := Overlay(old(bufl[Bi(typ)][0].bufr), off, data))
    {
      var k := Bi(typ);
      var b := bufl[k][0];
      assert BufOk(vol, k, b);
      var x := Overlay(b.bufr, off, data);
      PatchFront(drvtbl, disk, bufl[k], k, vol, x);
      PatchOther(drvtbl, disk, bufl[1 - k], 1 - k, vol, b.At(), x);
      bufl := bufl[k := bufl[k][0 := b.(bufr := x)]];
      vol := vol[b.At() := x];
    }

    // Write out every dirty buffer of a list.
    method FlushList(k: nat)
      requires Valid() && k < 2
      modifies this`disk, this`bufl
      ensures Valid() && AllClean(bufl[k]) && bufl[1 - k] == old(bufl)[1 - k]
    {
      var i := 0;
      while i < |bufl[k]|
        invariant Valid() && 0 <= i <= |bufl[k]| && bufl[1 - k] == old(bufl)[1 - k]
        invariant AllClean(bufl[k][..i])
        decreases |bufl[k]| - i
      {
        ghost var was := bufl[k][..i];
        Evict(k, i);
        assert bufl[k][..i] == was;
        assert bufl[k][..i + 1] == bufl[k][..i] + [bufl[k][i]];
        i := i + 1;
      }
      assert bufl[k] == bufl[k][..i];
    }

    // The loop at the end of ixclose(): afterwards the drives alone hold everything.
    method FlushAll()
      requires Valid()
      modifies this`disk, this`bufl
      ensures Valid()
      ensures forall a :: a in vol ==> SectorOf(drvtbl, a) < |disk[a.drv]| && disk[a.drv][SectorOf(drvtbl, a)] == vol[a]
      ensures OnDrives(drvtbl, disk, vol)
    {
      hide OnDrives;
      FlushList(0);
      FlushList(1);
      forall a | a in vol
        ensures SectorOf(drvtbl, a) < |disk[a.drv]| && disk[a.drv][SectorOf(drvtbl, a)] == vol[a]
      {
        SectorInDisk(drvtbl, a);
        assert Backed(drvtbl, disk, bufl[Bi(a.typ)], vol, a);
      }
      AllOnDrives(drvtbl, disk, vol);
    }

    // The loop of usrio(): write out and drop every data buffer numbered within the run.
    method Purge(num: nat, strt: nat, dm: DMD)
      requires Valid()
      modifies this`disk, this`bufl
      ensures Valid() && bufl[0] == old(bufl)[0] && NoneHeld(bufl[1], dm.drvnum, strt, num)
    {
      var i := 0;
      while i < |bufl[1]|
        invariant Valid() && 0 <= i <= |bufl[1]|
        invariant bufl[0] == old(bufl)[0]
        invariant forall j :: 0 <= j < i ==> !bufl[1][j].Within(dm.drvnum, strt, num)
        decreases |bufl[1]| - i
      {
        if bufl[1][i].Within(dm.drvnum, strt, num) {
          Drop(i);
        }
        i := i + 1;
      }
    }

    method Drop(i: nat)
      requires Valid() && i < |bufl[1]|
      modifies this`disk, this`bufl
      ensures Valid() && |bufl[1]| == |old(bufl)[1]|
      ensures bufl[0] == old(bufl)[0] && bufl[1][i].drv == -1
      ensures bufl[1] == old(bufl)[1][i := bufl[1][i]]
    {
      Evict(1, i);
      ReplaceSlot(drvtbl, disk, bufl[1], 1, vol, i, bufl[1][i].(drv := -1));
      bufl := bufl[1 := bufl[1][i := bufl[1][i].(drv := -1)]];
    }

    // usrio(): transfer num records between the data area and the user's memory, past the
    // buffers.
    method Usrio(rwflg: bool, num: nat, strt: nat, ubuf: array<Byte>, ub: nat, dm: DMD)
      requires Valid() && dm.drvnum in drvtbl && drvtbl[dm.drvnum] == dm
      requires num <= CNTMAX && strt + num <= dm.datlen && ub + Mul(num, dm.recsiz) <= ubuf.Length
      modifies this`disk, this`bufl, this`vol, ubuf
      ensures Valid()
      ensures rwflg ==> ubuf[..] == old(ubuf[..])
      ensures rwflg ==>
        vol == BulkVol(old(vol), dm.drvnum, strt, num, ubuf[ub..ub + Mul(num, dm.recsiz)], dm.recsiz)
      ensures !rwflg ==> vol == old(vol)
      ensures !rwflg ==> forall i :: 0 <= i < Mul(num, dm.recsiz) ==>
        Addr(dm.drvnum, BtData, strt + dm.RecNum(i)) in vol &&
        |vol[Addr(dm.drvnum, BtData, strt + dm.RecNum(i))]| == dm.recsiz &&
        ubuf[ub + i] == vol[Addr(dm.drvnum, BtData, strt + dm.RecNum(i))][dm.RecByte(i)]
      ensures !rwflg ==> ubuf[..ub] == old(ubuf[..ub])
      ensures !rwflg ==> ubuf[ub + Mul(num, dm.recsiz)..] == old(ubuf[ub + Mul(num, dm.recsiz)..])
    {
      Purge(num, strt, dm);
      if rwflg {
        BulkWrite(num, strt, ubuf[ub..ub + Mul(num, dm.recsiz)], dm);
      } else {
        BulkRead(num, strt, ubuf, ub, dm);
      }
    }

    method BulkWrite(num: nat, strt: nat, data: seq<Byte>, dm: DMD)
      requires Valid() && dm.drvnum in drvtbl && drvtbl[dm.drvnum] == dm && strt + num <= dm.datlen
      requires NoneHeld(bufl[1], dm.drvnum, strt, num)
      modifies this`disk, this`vol
      ensures Valid() && vol == BulkVol(old(vol), dm.drvnum, strt, num, data, dm.recsiz)
    {
      hide CacheOk;
      BulkWriteCache(drvtbl, disk, bufl, vol, dm.drvnum, strt, num, data);
      var d' := disk[dm.drvnum := WriteRun(disk[dm.drvnum], dm.datrec + strt, num, data, dm.recsiz)];
      ghost var v' := BulkVol(vol, dm.drvnum, strt, num, data, dm.recsiz);
      assert CacheOk(drvtbl, d', bufl, v');
      disk := d';
      vol := v';
    }

    method BulkRead(num: nat, strt: nat, ubuf: array<Byte>, ub: nat, dm: DMD)
      requires Valid() && dm.drvnum in drvtbl && drvtbl[dm.drvnum] == dm && strt + num <= dm.datlen
      requires ub + Mul(num, dm.recsiz) <= ubuf.Length
      requires NoneHeld(bufl[1], dm.drvnum, strt, num)
      modifies ubuf
      ensures forall i :: 0 <= i < Mul(num, dm.recsiz) ==>
        Addr(dm.drvnum, BtData, strt + dm.RecNum(i)) in vol &&
        |vol[Addr(dm.drvnum, BtData, strt + dm.RecNum(i))]| == dm.recsiz &&
        ubuf[ub + i] == vol[Addr(dm.drvnum, BtData, strt + dm.RecNum(i))][dm.RecByte(i)]
      ensures ubuf[..ub] == old(ubuf[..ub])
      ensures ubuf[ub + Mul(num, dm.recsiz)..] == old(ubuf[ub + Mul(num, dm.recsiz)..])
    {
      hide CacheOk;
      var n := dm.recsiz;
      RunOnDisk(drvtbl, disk, bufl, vol, dm.drvnum, strt, num);
      forall i | 0 <= i < Mul(num, n)
        ensures dm.RecNum(i) < num && dm.RecByte(i) < n
        ensures |disk[dm.drvnum][dm.datrec + (strt + dm.RecNum(i))]| == n
      {
        QuoBound(i, num, n);
        assert Addr(dm.drvnum, BtData, strt + dm.RecNum(i)) in vol;
      }
      forall i | 0 <= i < Mul(num, n) {
        ubuf[ub + i] := disk[dm.drvnum][dm.datrec + (strt + dm.RecNum(i))][dm.RecByte(i)];
      }
    }
  }
}

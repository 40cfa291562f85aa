// A file as bytes: where byte i of a chain lives, and what it means for a transfer to move
// exactly a range of them.
module FileData {
  import opened Bytes
  import opened Shift
  import opened Media
  import opened BufferCache
  import opened FatTable
  import opened Chains
  import opened FatOps

  // Capacity of a chain in bytes.
  function Cap(dm: DMD, ch: seq<nat>): nat { Mul(|ch|, dm.clsizb) }

  // Record number, in the data area, of the q-th record of a chain.
  ghost function FileRec(dm: DMD, ch: seq<nat>, q: nat): int {
    var k := Quo(q, dm.clsiz);
    if k < |ch| && 2 <= ch[k] then Cl2Rec(ch[k], dm) + Rem(q, dm.clsiz) else -1
  }

  ghost function DataByte(vol: Volume, dm: DMD, r: int, o: nat): Byte {
    if 0 <= r && Addr(dm.drvnum, BtData, r) in vol && o < |vol[Addr(dm.drvnum, BtData, r)]|
    then vol[Addr(dm.drvnum, BtData, r)][o] else 0
  }

  // Byte i of a file.
  ghost function ByteAt(vol: Volume, dm: DMD, ch: seq<nat>, i: nat): Byte {
    DataByte(vol, dm, FileRec(dm, ch, dm.RecNum(i)), dm.RecByte(i))
  }

  // Byte i of the file is byte o of data record r.
  ghost predicate At(dm: DMD, ch: seq<nat>, i: nat, r: int, o: nat) {
    FileRec(dm, ch, dm.RecNum(i)) == r && dm.RecByte(i) == o
  }

  ghost predicate Hit(dm: DMD, ch: seq<nat>, b: nat, n: nat, r: int, o: nat) {
    exists i: nat :: b <= i < b + n && At(dm, ch, i, r, o)
  }

  ghost predicate GoodChain(dm: DMD, ch: seq<nat>) {
    && (forall k :: 0 <= k < |ch| ==> 2 <= ch[k] < dm.numcl + 2)
    && (forall k, l :: 0 <= k < l < |ch| ==> ch[k] != ch[l])
  }

  lemma Sizes(dm: DMD)
    requires dm.LayoutOk() && dm.SizesOk()
    ensures 0 < dm.recsiz && 0 < dm.clsiz && dm.clsizb == Mul(dm.clsiz, dm.recsiz)
    ensures dm.recsiz <= dm.clsizb && dm.clsiz <= CNTMAX && dm.datlen == Mul(dm.numcl, dm.clsiz)
  {
    MulPos(dm.clsiz, dm.recsiz);
  }

  // Offset x in the k-th cluster of a chain.
  lemma InCluster(dm: DMD, ch: seq<nat>, k: nat, x: nat)
    requires dm.LayoutOk() && dm.SizesOk() && k < |ch| && x < dm.clsizb && 2 <= ch[k] < dm.numcl + 2
    ensures dm.RecNum(x) < dm.clsiz
    ensures dm.RecNum(Mul(k, dm.clsizb) + x) == Mul(k, dm.clsiz) + dm.RecNum(x)
    ensures dm.RecByte(Mul(k, dm.clsizb) + x) == dm.RecByte(x)
    ensures FileRec(dm, ch, dm.RecNum(Mul(k, dm.clsizb) + x)) == Cl2Rec(ch[k], dm) + dm.RecNum(x) < dm.datlen
  {
    hide Mul, Quo, Rem, DMD.SizesOk;
    Sizes(dm);
    QuoBound(x, dm.clsiz, dm.recsiz);
    MulMul(k, dm.clsiz, dm.recsiz);
    QuoAdd(Mul(k, dm.clsiz), x, dm.recsiz);
    Decompose(k, dm.RecNum(x), dm.clsiz);
    MulMono(ch[k] - 2, dm.numcl, dm.clsiz);
  }

  // Every byte of a chain is at an offset in one of its clusters.
  lemma ByteCluster(dm: DMD, ch: seq<nat>, i: nat)
    requires dm.LayoutOk() && dm.SizesOk() && i < Cap(dm, ch)
    ensures Quo(i, dm.clsizb) < |ch| && Rem(i, dm.clsizb) < dm.clsizb
    ensures i == Mul(Quo(i, dm.clsizb), dm.clsizb) + Rem(i, dm.clsizb)
  {
    Sizes(dm);
    QuoBound(i, |ch|, dm.clsizb);
    Recompose(i, dm.clsizb);
  }

  // No two bytes of a file share a place.
  lemma AtInjective(dm: DMD, ch: seq<nat>, i: nat, j: nat, r: int, o: nat)
    requires dm.LayoutOk() && dm.SizesOk() && GoodChain(dm, ch)
    requires i < Cap(dm, ch) && j < Cap(dm, ch) && At(dm, ch, i, r, o) && At(dm, ch, j, r, o)
    ensures i == j
  {
    hide Mul, Quo, Rem, DMD.SizesOk;
    Sizes(dm);
    ByteCluster(dm, ch, i);
    ByteCluster(dm, ch, j);
    var k, x := Quo(i, dm.clsizb), Rem(i, dm.clsizb);
    var l, y := Quo(j, dm.clsizb), Rem(j, dm.clsizb);
    InCluster(dm, ch, k, x);
    InCluster(dm, ch, l, y);
    Decompose(ch[k] - 2, dm.RecNum(x), dm.clsiz);
    Decompose(ch[l] - 2, dm.RecNum(y), dm.clsiz);
    QuoRemUnique(x, y, dm.recsiz);
  }

  // A longer chain puts the bytes it already had where they were.
  lemma AtPrefix(dm: DMD, c0: seq<nat>, c1: seq<nat>, i: nat)
    requires dm.LayoutOk() && dm.SizesOk() && c0 <= c1 && i < Cap(dm, c0)
    ensures FileRec(dm, c1, dm.RecNum(i)) == FileRec(dm, c0, dm.RecNum(i))
  {
    Sizes(dm);
    ByteCluster(dm, c0, i);
    QuoQuo(i, dm.clsiz, dm.recsiz);
  }

  lemma CapMono(dm: DMD, c0: seq<nat>, c1: seq<nat>)
    requires c0 <= c1
    ensures Cap(dm, c0) <= Cap(dm, c1)
  {
    MulMono(|c0|, |c1|, dm.clsizb);
  }

  // Outside the drive's FAT and data area nothing changes.
  ghost predicate OnlyFatData(v: Volume, w: Volume, dm: DMD) {
    && v.Keys == w.Keys
    && forall a :: a in v && !(a.drv == dm.drvnum && (a.typ == BtFat || a.typ == BtData)) ==> w[a] == v[a]
  }

  // The bytes s were written at position b: the file's chain may have grown, these bytes read
  // back, and every data byte that is not one of them is as before.
  ghost predicate Wrote(dm: DMD, v0: Volume, c0: seq<nat>, v1: Volume, c1: seq<nat>, b: nat, s: seq<Byte>) {
    && Grown(Fat(v0, dm), c0, Fat(v1, dm), c1)
    && OnlyFatData(v0, v1, dm)
    && b + |s| <= Cap(dm, c1)
    && (forall i :: 0 <= i < |s| ==> ByteAt(v1, dm, c1, b + i) == s[i])
    && (forall r: int, o: nat :: Hit(dm, c1, b, |s|, r, o) || DataByte(v1, dm, r, o) == DataByte(v0, dm, r, o))
  }

  lemma HitPrefix(dm: DMD, c0: seq<nat>, c1: seq<nat>, b: nat, n: nat, m: nat, r: int, o: nat)
    requires dm.LayoutOk() && dm.SizesOk() && c0 <= c1 && b + n <= Cap(dm, c0)
    ensures Hit(dm, c0, b, n, r, o) ==> Hit(dm, c1, b, n + m, r, o)
  {
    if Hit(dm, c0, b, n, r, o) {
      var i: nat :| b <= i < b + n && At(dm, c0, i, r, o);
      AtPrefix(dm, c0, c1, i);
      assert At(dm, c1, i, r, o);
    }
  }

  lemma HitLater(dm: DMD, ch: seq<nat>, b: nat, n: nat, m: nat, r: int, o: nat)
    ensures Hit(dm, ch, b + n, m, r, o) ==> Hit(dm, ch, b, n + m, r, o)
  {
    if Hit(dm, ch, b + n, m, r, o) {
      var i: nat :| b + n <= i < b + n + m && At(dm, ch, i, r, o);
      assert At(dm, ch, i, r, o);
    }
  }

  // A byte before the range is not hit.
  lemma NotHit(dm: DMD, ch: seq<nat>, i: nat, b: nat, n: nat)
    requires dm.LayoutOk() && dm.SizesOk() && GoodChain(dm, ch)
    requires (i < b || b + n <= i) && i < Cap(dm, ch) && b + n <= Cap(dm, ch)
    ensures !Hit(dm, ch, b, n, FileRec(dm, ch, dm.RecNum(i)), dm.RecByte(i))
  {
    var r, o := FileRec(dm, ch, dm.RecNum(i)), dm.RecByte(i);
    assert At(dm, ch, i, r, o);
    if Hit(dm, ch, b, n, r, o) {
      var j: nat :| b <= j < b + n && At(dm, ch, j, r, o);
      AtInjective(dm, ch, i, j, r, o);
      assert false;
    }
  }

  // Two writes in a row are one write of both.
  lemma WroteTrans(dm: DMD, v0: Volume, c0: seq<nat>, v1: Volume, c1: seq<nat>, v2: Volume, c2: seq<nat>,
                   b: nat, s: seq<Byte>, t: seq<Byte>)
    requires dm.LayoutOk() && dm.SizesOk() && GoodChain(dm, c2)
    requires Wrote(dm, v0, c0, v1, c1, b, s) && Wrote(dm, v1, c1, v2, c2, b + |s|, t)
    requires exists st :: IsChain(Fat(v1, dm), st, c1)
    requires |Fat(v1, dm)| <= 0xfff8
    ensures Wrote(dm, v0, c0, v2, c2, b, s + t)
  {
    hide FileRec, DataByte, Fat, IsChain, DMD.SizesOk, Mul, Quo, Rem;
    GrownTrans(Fat(v0, dm), c0, Fat(v1, dm), c1, Fat(v2, dm), c2);
    CapMono(dm, c1, c2);
    forall i | 0 <= i < |s + t|
      ensures ByteAt(v2, dm, c2, b + i) == (s + t)[i]
    {
      if i < |s| {
        AtPrefix(dm, c1, c2, b + i);
        NotHit(dm, c2, b + i, b + |s|, |t|);
        assert ByteAt(v2, dm, c2, b + i) == ByteAt(v1, dm, c1, b + i);
      } else {
        assert b + i == b + |s| + (i - |s|);
      }
    }
    forall r: int, o: nat
      ensures Hit(dm, c2, b, |s + t|, r, o) || DataByte(v2, dm, r, o) == DataByte(v0, dm, r, o)
    {
      HitPrefix(dm, c1, c2, b, |s|, |t|, r, o);
      HitLater(dm, c2, b, |s|, |t|, r, o);
    }
  }

  // A change of FAT entries alone, as nextcl() makes it, is a write of nothing.
  lemma WroteNothing(dm: DMD, v0: Volume, c0: seq<nat>, v1: Volume, c1: seq<nat>, b: nat)
    requires Grown(Fat(v0, dm), c0, Fat(v1, dm), c1) && OnlyFat(v0, v1, dm) && b <= Cap(dm, c1)
    ensures Wrote(dm, v0, c0, v1, c1, b, [])
  {
    hide FileRec, Fat, Grown;
  }

  // The bytes of a record from offset o on are consecutive bytes of the file.
  lemma RecordRun(dm: DMD, b: nat, i: nat)
    requires 0 < dm.recsiz && dm.RecByte(b) + i < dm.recsiz
    ensures dm.RecNum(b + i) == dm.RecNum(b) && dm.RecByte(b + i) == dm.RecByte(b) + i
  {
    hide Mul, Quo, Rem;
    Recompose(b, dm.recsiz);
    Decompose(dm.RecNum(b), dm.RecByte(b) + i, dm.recsiz);
  }

  // memcpy() into the buffer of the record that holds byte b.
  lemma WroteInRecord(dm: DMD, v: Volume, ch: seq<nat>, b: nat, s: seq<Byte>, r: nat)
    requires dm.LayoutOk() && dm.RecByte(b) + |s| <= dm.recsiz && b + |s| <= Cap(dm, ch)
    requires Addr(dm.drvnum, BtData, r) in v && |v[Addr(dm.drvnum, BtData, r)]| == dm.recsiz
    requires FileRec(dm, ch, dm.RecNum(b)) == r
    ensures Wrote(dm, v, ch, v[Addr(dm.drvnum, BtData, r) := Overlay(v[Addr(dm.drvnum, BtData, r)], dm.RecByte(b), s)],
                  ch, b, s)
  {
    hide FileRec, Mul, Quo, Rem;
    var a := Addr(dm.drvnum, BtData, r);
    var w := v[a := Overlay(v[a], dm.RecByte(b), s)];
    SameFat(dm, v, w);
    GrownRefl(Fat(v, dm), ch);
    forall i | 0 <= i < |s| ensures ByteAt(w, dm, ch, b + i) == s[i] {
      RecordRun(dm, b, i);
    }
    forall q: int, o: nat
      ensures Hit(dm, ch, b, |s|, q, o) || DataByte(w, dm, q, o) == DataByte(v, dm, q, o)
    {
      if q == r && dm.RecByte(b) <= o < dm.RecByte(b) + |s| {
        RecordRun(dm, b, o - dm.RecByte(b));
        assert At(dm, ch, b + (o - dm.RecByte(b)), q, o);
      }
    }
  }

  // The table depends on the FAT alone.
  lemma SameFat(dm: DMD, v: Volume, w: Volume)
    requires v.Keys == w.Keys && forall a :: a in v && a.drv == dm.drvnum && a.typ == BtFat ==> w[a] == v[a]
    ensures Fat(w, dm) == Fat(v, dm)
  {
    hide Decode;
    assert forall o :: FatByte(w, dm, o) == FatByte(v, dm, o);
  }

  // The records of a chain from record q on are the sectors from strt on.
  ghost predicate Contiguous(dm: DMD, ch: seq<nat>, q: nat, strt: nat, num: nat) {
    forall k :: q <= k < q + num ==> FileRec(dm, ch, k) == strt + (k - q)
  }

  // Byte i of a run that starts on a record boundary.
  lemma RunByte(dm: DMD, ch: seq<nat>, b: nat, i: nat, strt: nat, num: nat)
    requires dm.LayoutOk() && dm.RecByte(b) == 0 && i < Mul(num, dm.recsiz)
    requires Contiguous(dm, ch, dm.RecNum(b), strt, num)
    ensures dm.RecNum(i) < num
    ensures FileRec(dm, ch, dm.RecNum(b + i)) == strt + dm.RecNum(i) && dm.RecByte(b + i) == dm.RecByte(i)
  {
    hide FileRec, Mul, Quo, Rem;
    Recompose(b, dm.recsiz);
    QuoAdd(dm.RecNum(b), i, dm.recsiz);
    QuoBound(i, num, dm.recsiz);
  }

  // Byte o of record t of a run.
  lemma RunPlace(dm: DMD, ch: seq<nat>, b: nat, t: nat, o: nat, strt: nat, num: nat)
    requires dm.LayoutOk() && dm.RecByte(b) == 0 && t < num && o < dm.recsiz
    requires Contiguous(dm, ch, dm.RecNum(b), strt, num)
    ensures Mul(t, dm.recsiz) + o < Mul(num, dm.recsiz)
    ensures At(dm, ch, b + Mul(t, dm.recsiz) + o, strt + t, o)
  {
    hide FileRec, Mul, Quo, Rem;
    var i := Mul(t, dm.recsiz) + o;
    Decompose(t, o, dm.recsiz);
    QuoBound(i, num, dm.recsiz);
    RunByte(dm, ch, b, i, strt, num);
    assert b + i == b + Mul(t, dm.recsiz) + o;
  }

  ghost predicate RunThere(dm: DMD, v: Volume, strt: nat, num: nat) {
    forall r: nat :: strt <= r < strt + num ==>
      Addr(dm.drvnum, BtData, r) in v && |v[Addr(dm.drvnum, BtData, r)]| == dm.recsiz
  }

  lemma RunBytes(dm: DMD, v: Volume, ch: seq<nat>, b: nat, s: seq<Byte>, strt: nat, num: nat, i: nat)
    requires dm.LayoutOk() && dm.RecByte(b) == 0 && |s| == Mul(num, dm.recsiz) && i < |s|
    requires RunThere(dm, v, strt, num) && Contiguous(dm, ch, dm.RecNum(b), strt, num)
    ensures ByteAt(BulkVol(v, dm.drvnum, strt, num, s, dm.recsiz), dm, ch, b + i) == s[i]
  {
    hide FileRec, Mul, Quo, Rem, Contiguous;
    RunByte(dm, ch, b, i, strt, num);
    Recompose(i, dm.recsiz);
    assert Addr(dm.drvnum, BtData, strt + dm.RecNum(i)) in v;
  }

  // usrio() on a contiguous run writes exactly those bytes of the file.
  lemma WroteRun(dm: DMD, v: Volume, ch: seq<nat>, b: nat, s: seq<Byte>, strt: nat, num: nat)
    requires dm.LayoutOk() && dm.RecByte(b) == 0 && |s| == Mul(num, dm.recsiz) && b + |s| <= Cap(dm, ch)
    requires RunThere(dm, v, strt, num) && Contiguous(dm, ch, dm.RecNum(b), strt, num)
    ensures Wrote(dm, v, ch, BulkVol(v, dm.drvnum, strt, num, s, dm.recsiz), ch, b, s)
  {
    hide FileRec, Mul, Quo, Rem, Contiguous;
    var w := BulkVol(v, dm.drvnum, strt, num, s, dm.recsiz);
    SameFat(dm, v, w);
    GrownRefl(Fat(v, dm), ch);
    forall i | 0 <= i < |s| ensures ByteAt(w, dm, ch, b + i) == s[i] {
      RunBytes(dm, v, ch, b, s, strt, num, i);
    }
    forall q: int, o: nat
      ensures Hit(dm, ch, b, |s|, q, o) || DataByte(w, dm, q, o) == DataByte(v, dm, q, o)
    {
      if strt <= q < strt + num && o < dm.recsiz {
        RunPlace(dm, ch, b, q - strt, o, strt, num);
      }
    }
  }

  // A transfer of n bytes at file position b, between the file and the user's memory at uo.
  ghost predicate Transferred(wrt: bool, dm: DMD, v0: Volume, c0: seq<nat>, v1: Volume, c1: seq<nat>,
                        b: nat, u0: seq<Byte>, u1: seq<Byte>, uo: nat, n: nat) {
    && |u1| == |u0| && uo + n <= |u0| && b + n <= Cap(dm, c1)
    && if wrt then u1 == u0 && Wrote(dm, v0, c0, v1, c1, b, u0[uo..uo + n])
       else v1 == v0 && c1 == c0 && Filled(dm, v1, c1, b, u0, u1, uo, n)
  }

  ghost predicate Filled(dm: DMD, v: Volume, ch: seq<nat>, b: nat, u0: seq<Byte>, u1: seq<Byte>, uo: nat, n: nat)
    requires |u1| == |u0|
  {
    forall i :: 0 <= i < |u0| ==> u1[i] == if uo <= i < uo + n then ByteAt(v, dm, ch, b + (i - uo)) else u0[i]
  }

  lemma MovedTrans(wrt: bool, dm: DMD, v0: Volume, c0: seq<nat>, v1: Volume, c1: seq<nat>, v2: Volume, c2: seq<nat>,
                   b: nat, u0: seq<Byte>, u1: seq<Byte>, u2: seq<Byte>, uo: nat, n: nat, m: nat)
    requires dm.LayoutOk() && dm.SizesOk() && GoodChain(dm, c2)
    requires Transferred(wrt, dm, v0, c0, v1, c1, b, u0, u1, uo, n)
    requires Transferred(wrt, dm, v1, c1, v2, c2, b + n, u1, u2, uo + n, m)
    requires |Fat(v1, dm)| <= 0xfff8 && exists st :: IsChain(Fat(v1, dm), st, c1)
    ensures Transferred(wrt, dm, v0, c0, v2, c2, b, u0, u2, uo, n + m)
  {
    hide Wrote, ByteAt, Fat, DMD.SizesOk, Cap, IsChain, GoodChain;
    if wrt {
      WroteTrans(dm, v0, c0, v1, c1, v2, c2, b, u0[uo..uo + n], u0[uo + n..uo + n + m]);
      assert u0[uo..uo + n] + u0[uo + n..uo + n + m] == u0[uo..uo + n + m];
    }
  }

  lemma MovedNothing(wrt: bool, dm: DMD, v0: Volume, c0: seq<nat>, v1: Volume, c1: seq<nat>, b: nat, u: seq<Byte>, uo: nat)
    requires Grown(Fat(v0, dm), c0, Fat(v1, dm), c1) && OnlyFat(v0, v1, dm)
    requires wrt || (v1 == v0 && c1 == c0)
    requires b <= Cap(dm, c1) && uo <= |u|
    ensures Transferred(wrt, dm, v0, c0, v1, c1, b, u, u, uo, 0)
  {
    hide Grown, Fat, OnlyFat, Cap, Wrote;
    WroteNothing(dm, v0, c0, v1, c1, b);
    assert u[uo..uo + 0] == [];
  }

  // Where offset x in chain element k is, and how far the record and the cluster reach.
  lemma Place(dm: DMD, ch: seq<nat>, k: nat, x: nat)
    requires dm.LayoutOk() && dm.SizesOk() && GoodChain(dm, ch) && k < |ch| && x < dm.clsizb
    ensures dm.RecNum(x) < dm.clsiz && dm.RecByte(x) < dm.recsiz
    ensures dm.RecByte(Mul(k, dm.clsizb) + x) == dm.RecByte(x)
    ensures dm.RecNum(Mul(k, dm.clsizb) + x) == Mul(k, dm.clsiz) + dm.RecNum(x)
    ensures FileRec(dm, ch, dm.RecNum(Mul(k, dm.clsizb) + x)) == Cl2Rec(ch[k], dm) + dm.RecNum(x) < dm.datlen
    ensures x - dm.RecByte(x) + dm.recsiz <= dm.clsizb
    ensures Mul(k, dm.clsizb) + dm.clsizb == Mul(k + 1, dm.clsizb) <= Cap(dm, ch)
    ensures dm.RecByte(x) == 0 && 0 < x ==> 0 < dm.RecNum(x)
  {
    hide FileRec, Mul, Quo, Rem, DMD.SizesOk;
    Sizes(dm);
    InCluster(dm, ch, k, x);
    Recompose(x, dm.recsiz);
    MulMono(dm.RecNum(x), dm.clsiz, dm.recsiz);
    MulOne(dm.clsizb);
    MulOne(dm.recsiz);
    MulAdd(k, 1, dm.clsizb);
    MulMono(k + 1, |ch|, dm.clsizb);
  }

  // h records of one cluster, from offset x on.
  lemma ClusterRun(dm: DMD, ch: seq<nat>, k: nat, x: nat, h: nat)
    requires dm.LayoutOk() && dm.SizesOk() && GoodChain(dm, ch) && k < |ch| && x < dm.clsizb
    requires dm.RecByte(x) == 0 && dm.RecNum(x) + h <= dm.clsiz
    ensures Contiguous(dm, ch, dm.RecNum(Mul(k, dm.clsizb) + x), Cl2Rec(ch[k], dm) + dm.RecNum(x), h)
    ensures Cl2Rec(ch[k], dm) + dm.RecNum(x) + h <= dm.datlen
    ensures x + Mul(h, dm.recsiz) <= dm.clsizb
    ensures dm.RecNum(x) + h == dm.clsiz ==> x + Mul(h, dm.recsiz) == dm.clsizb
  {
    hide FileRec, Mul, Quo, Rem, DMD.SizesOk;
    Sizes(dm);
    Place(dm, ch, k, x);
    Recompose(x, dm.recsiz);
    MulAdd(dm.RecNum(x), h, dm.recsiz);
    MulMono(dm.RecNum(x) + h, dm.clsiz, dm.recsiz);
    MulMono(ch[k] - 2, dm.numcl, dm.clsiz);
    assert Mul(ch[k] - 2, dm.clsiz) + dm.clsiz <= dm.datlen;
    forall i | Mul(k, dm.clsiz) + dm.RecNum(x) <= i < Mul(k, dm.clsiz) + dm.RecNum(x) + h
      ensures FileRec(dm, ch, i) == Cl2Rec(ch[k], dm) + (i - Mul(k, dm.clsiz))
    {
      RecordOf(dm, ch, k, i - Mul(k, dm.clsiz));
    }
  }

  lemma RecordOf(dm: DMD, ch: seq<nat>, k: nat, y: nat)
    requires k < |ch| && y < dm.clsiz && 2 <= ch[k]
    ensures FileRec(dm, ch, Mul(k, dm.clsiz) + y) == Cl2Rec(ch[k], dm) + y
  {
    hide Mul, Quo, Rem;
    Decompose(k, y, dm.clsiz);
  }

  // A cluster boundary.
  lemma Boundary(dm: DMD, j: nat)
    requires dm.LayoutOk() && dm.SizesOk()
    ensures dm.RecNum(Mul(j, dm.clsizb)) == Mul(j, dm.clsiz) && dm.RecByte(Mul(j, dm.clsizb)) == 0
    ensures dm.RecNum(dm.clsizb) == dm.clsiz && dm.RecByte(dm.clsizb) == 0
  {
    hide Mul, Quo, Rem, DMD.SizesOk;
    Sizes(dm);
    MulMul(j, dm.clsiz, dm.recsiz);
    Decompose(Mul(j, dm.clsiz), 0, dm.recsiz);
    Decompose(dm.clsiz, 0, dm.recsiz);
  }

  // Clusters j .. j + m of the chain are next to each other on the disk, from record strt on.
  ghost predicate Adjacent(dm: DMD, ch: seq<nat>, j: nat, m: nat, strt: nat) {
    j + m <= |ch| && forall k :: j <= k < j + m ==> 2 <= ch[k] && Cl2Rec(ch[k], dm) == strt + Mul(k - j, dm.clsiz)
  }

  lemma AdjacentRun(dm: DMD, ch: seq<nat>, j: nat, m: nat, strt: nat)
    requires dm.LayoutOk() && dm.SizesOk() && GoodChain(dm, ch) && 0 < m && Adjacent(dm, ch, j, m, strt)
    ensures Contiguous(dm, ch, Mul(j, dm.clsiz), strt, Mul(m, dm.clsiz))
    ensures strt + Mul(m, dm.clsiz) <= dm.datlen
    ensures Mul(Mul(m, dm.clsiz), dm.recsiz) == Mul(m, dm.clsizb) >= dm.clsizb > 0
    ensures Mul(j, dm.clsizb) + Mul(m, dm.clsizb) == Mul(j + m, dm.clsizb) <= Cap(dm, ch)
  {
    hide FileRec, Mul, Quo, Rem, DMD.SizesOk;
    Sizes(dm);
    MulMul(m, dm.clsiz, dm.recsiz);
    MulPos(m, dm.clsizb);
    MulAdd(j, m, dm.clsizb);
    MulMono(j + m, |ch|, dm.clsizb);
    LastCluster(dm, ch, j, m, strt);
    forall k | Mul(j, dm.clsiz) <= k < Mul(j, dm.clsiz) + Mul(m, dm.clsiz)
      ensures FileRec(dm, ch, k) == strt + (k - Mul(j, dm.clsiz))
    {
      var i := k - Mul(j, dm.clsiz);
      QuoBound(i, m, dm.clsiz);
      Recompose(i, dm.clsiz);
      MulAdd(j, Quo(i, dm.clsiz), dm.clsiz);
      RecordOf(dm, ch, j + Quo(i, dm.clsiz), Rem(i, dm.clsiz));
    }
  }

  lemma LastCluster(dm: DMD, ch: seq<nat>, j: nat, m: nat, strt: nat)
    requires dm.SizesOk() && GoodChain(dm, ch) && 0 < m && Adjacent(dm, ch, j, m, strt)
    ensures strt + Mul(m, dm.clsiz) <= dm.datlen
  {
    hide Mul;
    MulOne(dm.clsiz);
    MulAdd(m - 1, 1, dm.clsiz);
    assert Cl2Rec(ch[j + m - 1], dm) == strt + Mul(m - 1, dm.clsiz);
    MulMono(ch[j + m - 1] - 2, dm.numcl, dm.clsiz);
  }

  // One more cluster joins a run when its first record follows the run.
  lemma AdjacentNext(dm: DMD, ch: seq<nat>, j: nat, m: nat, strt: nat)
    requires Adjacent(dm, ch, j, m, strt) && j + m < |ch| && 2 <= ch[j + m]
    requires Cl2Rec(ch[j + m], dm) == strt + Mul(m, dm.clsiz)
    ensures Adjacent(dm, ch, j, m + 1, strt)
  {
    hide Mul;
  }

  lemma AdjacentPrefix(dm: DMD, c0: seq<nat>, c1: seq<nat>, j: nat, m: nat, strt: nat)
    requires c0 <= c1 && Adjacent(dm, c0, j, m, strt)
    ensures Adjacent(dm, c1, j, m, strt)
  {
    hide Mul;
    assert forall k :: j <= k < j + m ==> c1[k] == c0[k];
  }

  lemma AdjacentNone(dm: DMD, ch: seq<nat>, j: nat, strt: nat)
    requires j <= |ch|
    ensures Adjacent(dm, ch, j, 0, strt)
  {
  }

  // The first n bytes of a file.
  ghost function Content(vol: Volume, dm: DMD, ch: seq<nat>, n: nat): (s: seq<Byte>)
    ensures |s| == n
  {
    seq(n, i requires 0 <= i < n => ByteAt(vol, dm, ch, i))
  }

  // A byte of a file in plain numbers: the o-th of the r-th record of the k-th cluster of the chain;
  // data records are counted from cluster 2.
  lemma ContentByte(vol: Volume, dm: DMD, ch: seq<nat>, n: nat, i: nat, k: nat, r: nat, o: nat, rec: nat)
    requires k < |ch| && 2 <= ch[k] && r < dm.clsiz && o < dm.recsiz && i < n
    requires i == (k * dm.clsiz + r) * dm.recsiz + o && rec == (ch[k] - 2) * dm.clsiz + r
    ensures Addr(dm.drvnum, BtData, rec) in vol && o < |vol[Addr(dm.drvnum, BtData, rec)]| ==>
      Content(vol, dm, ch, n)[i] == vol[Addr(dm.drvnum, BtData, rec)][o]
  {
    hide Mul, Quo, Rem, Content;
    var q := Mul(k, dm.clsiz) + r;
    MulIsProduct(k, dm.clsiz);
    MulIsProduct(q, dm.recsiz);
    MulIsProduct(ch[k] - 2, dm.clsiz);
    PlaceOfByte(vol, dm, ch, n, i, k, r, o, q);
  }

  lemma PlaceOfByte(vol: Volume, dm: DMD, ch: seq<nat>, n: nat, i: nat, k: nat, r: nat, o: nat, q: nat)
    requires k < |ch| && 2 <= ch[k] && r < dm.clsiz && o < dm.recsiz && i < n
    requires q == Mul(k, dm.clsiz) + r && i == Mul(q, dm.recsiz) + o
    ensures Content(vol, dm, ch, n)[i] == DataByte(vol, dm, Mul(ch[k] - 2, dm.clsiz) + r, o)
  {
    hide Mul, Quo, Rem, Content, DataByte;
    Decompose(q, o, dm.recsiz);
    Decompose(k, r, dm.clsiz);
    ContentAt(vol, dm, ch, n, i);
  }

  lemma ContentAt(vol: Volume, dm: DMD, ch: seq<nat>, n: nat, i: nat)
    requires i < n
    ensures Content(vol, dm, ch, n)[i] == DataByte(vol, dm, FileRec(dm, ch, dm.RecNum(i)), dm.RecByte(i))
  {
  }

  // A write replaces or extends exactly its range of the contents.
  lemma WroteContent(dm: DMD, v0: Volume, c0: seq<nat>, v1: Volume, c1: seq<nat>, b: nat, s: seq<Byte>, n0: nat, n1: nat)
    requires dm.LayoutOk() && dm.SizesOk() && GoodChain(dm, c1)
    requires Wrote(dm, v0, c0, v1, c1, b, s) && b <= n0 <= Cap(dm, c0)
    requires n1 == if b + |s| < n0 then n0 else b + |s|
    ensures Content(v1, dm, c1, n1) ==
      Content(v0, dm, c0, n0)[..b] + s + (if b + |s| < n0 then Content(v0, dm, c0, n0)[b + |s|..] else [])
  {
    hide DMD.SizesOk, FileRec, DataByte, Fat, Cap, GoodChain, Grown;
    WrotePrefix(dm, v0, c0, v1, c1, b, s);
    CapMono(dm, c0, c1);
    forall i | 0 <= i < n1
      ensures ByteAt(v1, dm, c1, i) == if b <= i < b + |s| then s[i - b] else ByteAt(v0, dm, c0, i)
    {
      if b <= i < b + |s| {
        assert b + (i - b) == i;
      } else {
        NotHit(dm, c1, i, b, |s|);
        AtPrefix(dm, c0, c1, i);
      }
    }
  }

  lemma WrotePrefix(dm: DMD, v0: Volume, c0: seq<nat>, v1: Volume, c1: seq<nat>, b: nat, s: seq<Byte>)
    requires Wrote(dm, v0, c0, v1, c1, b, s)
    ensures c0 <= c1
  {
  }

  // A write leaves every other file as it was: its chain, and every byte of it.
  lemma WroteOthers(dm: DMD, v0: Volume, c0: seq<nat>, v1: Volume, c1: seq<nat>, b: nat, s: seq<Byte>,
                    start: int, other: seq<nat>, n: nat)
    requires dm.LayoutOk() && dm.SizesOk() && GoodChain(dm, c1) && |Fat(v0, dm)| <= 0xfff8
    requires Wrote(dm, v0, c0, v1, c1, b, s)
    requires IsChain(Fat(v0, dm), start, other) && Apart(c0, other) && n <= Cap(dm, other)
    ensures IsChain(Fat(v1, dm), start, other) && Apart(c1, other)
    ensures Content(v1, dm, other, n) == Content(v0, dm, other, n)
  {
    hide DMD.SizesOk, FileRec, DataByte, Fat, Cap, Grown, IsChain;
    GrownOthers(Fat(v0, dm), c0, Fat(v1, dm), c1, start, other);
    OtherGood(dm, v0, start, other);
    forall i | 0 <= i < n
      ensures ByteAt(v1, dm, other, i) == ByteAt(v0, dm, other, i)
    {
      OtherNotHit(dm, c1, other, b, |s|, i);
    }
  }

  lemma OtherGood(dm: DMD, v: Volume, start: int, other: seq<nat>)
    requires |Fat(v, dm)| <= 0xfff8 && IsChain(Fat(v, dm), start, other)
    ensures GoodChain(dm, other)
  {
    hide Fat;
    ChainDistinct(Fat(v, dm), start, other);
  }

  lemma OtherNotHit(dm: DMD, ch: seq<nat>, other: seq<nat>, b: nat, n: nat, i: nat)
    requires dm.LayoutOk() && dm.SizesOk() && GoodChain(dm, ch) && GoodChain(dm, other) && Apart(ch, other)
    requires b + n <= Cap(dm, ch) && i < Cap(dm, other)
    ensures !Hit(dm, ch, b, n, FileRec(dm, other, dm.RecNum(i)), dm.RecByte(i))
  {
    hide DMD.SizesOk, FileRec, Cap, GoodChain, Apart;
    var r, o := FileRec(dm, other, dm.RecNum(i)), dm.RecByte(i);
    if Hit(dm, ch, b, n, r, o) {
      var k: nat :| b <= k < b + n && At(dm, ch, k, r, o);
      ApartPlaces(dm, ch, other, k, i);
      assert false;
    }
  }

  // Bytes of files with disjoint chains are in different clusters.
  lemma ApartPlaces(dm: DMD, ch: seq<nat>, other: seq<nat>, k: nat, i: nat)
    requires dm.LayoutOk() && dm.SizesOk() && GoodChain(dm, ch) && GoodChain(dm, other) && Apart(ch, other)
    requires k < Cap(dm, ch) && i < Cap(dm, other)
    ensures FileRec(dm, ch, dm.RecNum(k)) != FileRec(dm, other, dm.RecNum(i))
  {
    hide Mul, Quo, Rem, DMD.SizesOk, Cap;
    Sizes(dm);
    ByteCluster(dm, ch, k);
    ByteCluster(dm, other, i);
    var a, x := Quo(k, dm.clsizb), Rem(k, dm.clsizb);
    var d, y := Quo(i, dm.clsizb), Rem(i, dm.clsizb);
    InCluster(dm, ch, a, x);
    InCluster(dm, other, d, y);
    Decompose(ch[a] - 2, dm.RecNum(x), dm.clsiz);
    Decompose(other[d] - 2, dm.RecNum(y), dm.clsiz);
  }
}

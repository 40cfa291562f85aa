// FAT entries (bdos/fsfat.c): packed 12-bit or little-endian 16-bit words, read and written
// one byte at a time through the sector cache.
module FatTable {
  import opened Bytes
  import opened Shift
  import opened Media
  import opened BufferCache

  type Word = x: int | 0 <= x < 0x10000

  function Swpw(f: Word): Word { f % 256 * 256 + f / 256 }

  // *buf++ << 8 | *buf
  function Glue(hi: Byte, lo: Byte): Word { hi * 256 + lo }

  predicate EndOfChain(a: int) { 0xfff8 <= a <= 0xffff }

  // Byte offset of a cluster's entry in the FAT.
  function Offset(dm: DMD, cl: nat): nat { if dm.m16 then 2 * cl else cl + cl / 2 }

  // The entry that two consecutive FAT bytes give.
  function Decode(m16: bool, cl: nat, lo: Byte, hi: Byte): Word {
    var f := lo + 256 * hi;
    if m16 then f
    else
      var x := if cl % 2 == 1 then f / 16 else f % 0x1000;
      if 0xff8 <= x then ENDOFCHAIN else x
  }

  // What clfix() stores, as getrealcl() will read it back.
  function Normal(dm: DMD, link: Word): Word {
    if dm.m16 then link else if 0xff8 <= link % 0x1000 then ENDOFCHAIN else link % 0x1000
  }

  ghost function FatByte(vol: Volume, dm: DMD, o: nat): Byte {
    var a := Addr(dm.drvnum, BtFat, dm.RecNum(o));
    if a in vol && dm.RecByte(o) < |vol[a]| then vol[a][dm.RecByte(o)] else 0
  }

  ghost function Entry(vol: Volume, dm: DMD, cl: nat): Word {
    Decode(dm.m16, cl, FatByte(vol, dm, Offset(dm, cl)), FatByte(vol, dm, Offset(dm, cl) + 1))
  }

  // The FAT as a table of numbers.
  ghost function Fat(vol: Volume, dm: DMD): (f: seq<Word>)
    ensures |f| == dm.numcl + 2
  {
    seq(dm.numcl + 2, cl requires 0 <= cl => Entry(vol, dm, cl))
  }

  ghost predicate Mounted(c: Cache, dm: DMD)
    reads c
  {
    c.Valid() && dm.drvnum in c.drvtbl && c.drvtbl[dm.drvnum] == dm && dm.LayoutOk() && dm.SizesOk()
  }

  // Everything but the drive's FAT is the same.
  ghost predicate OnlyFat(v: Volume, w: Volume, dm: DMD) {
    && v.Keys == w.Keys
    && forall a :: a in v && !(a.drv == dm.drvnum && a.typ == BtFat) ==> w[a] == v[a]
  }

  ghost predicate HasFatByte(vol: Volume, dm: DMD, o: nat) {
    0 < dm.recsiz &&
    var a := Addr(dm.drvnum, BtFat, dm.RecNum(o));
    a in vol && |vol[a]| == dm.recsiz
  }

  ghost function SetFatByte(vol: Volume, dm: DMD, o: nat, x: Byte): Volume
    requires HasFatByte(vol, dm, o)
  {
    var a := Addr(dm.drvnum, BtFat, dm.RecNum(o));
    vol[a := Overlay(vol[a], dm.RecByte(o), [x])]
  }

  lemma FatByteSet(vol: Volume, dm: DMD, o: nat, x: Byte, i: nat)
    requires HasFatByte(vol, dm, o)
    ensures FatByte(SetFatByte(vol, dm, o, x), dm, i) == if i == o then x else FatByte(vol, dm, i)
    ensures HasFatByte(vol, dm, i) ==> HasFatByte(SetFatByte(vol, dm, o, x), dm, i)
    ensures OnlyFat(vol, SetFatByte(vol, dm, o, x), dm)
  {
    if dm.RecNum(i) == dm.RecNum(o) && dm.RecByte(i) == dm.RecByte(o) {
      QuoRemUnique(i, o, dm.recsiz);
    }
  }

  lemma OffsetInFat(dm: DMD, cl: nat)
    requires 0 < dm.recsiz && dm.SizesOk() && cl < dm.numcl + 2
    ensures Offset(dm, cl) + 1 < dm.fatlen
    ensures dm.RecNum(Offset(dm, cl)) < dm.fsiz && dm.RecNum(Offset(dm, cl) + 1) < dm.fsiz
  {
    var o := Offset(dm, cl);
    QuoBound(o, dm.fsiz, dm.recsiz);
    QuoBound(o + 1, dm.fsiz, dm.recsiz);
  }

  lemma {:induction false} EvenOffset(o: nat, n: nat)
    requires 0 < n && n % 2 == 0 && o % 2 == 0
    ensures Rem(o, n) % 2 == 0
  {
    if n <= o {
      EvenOffset(o - n, n);
    }
  }

  // Two different entries share at most the byte between an even cluster and its successor.
  lemma EntryBytesApart(dm: DMD, cl: nat, other: nat)
    requires cl != other
    ensures Offset(dm, other) != Offset(dm, cl)
    ensures Offset(dm, other) == Offset(dm, cl) + 1 ==> !dm.m16 && cl % 2 == 0 && other == cl + 1
    ensures Offset(dm, other) + 1 == Offset(dm, cl) ==> !dm.m16 && cl % 2 == 1 && other == cl - 1
  {
  }

  // Writing the two bytes of an entry.
  ghost function SetPair(vol: Volume, dm: DMD, o: nat, lo: Byte, hi: Byte): Volume
    requires HasFatByte(vol, dm, o) && HasFatByte(SetFatByte(vol, dm, o, lo), dm, o + 1)
  {
    SetFatByte(SetFatByte(vol, dm, o, lo), dm, o + 1, hi)
  }

  lemma PairSet(vol: Volume, dm: DMD, o: nat, lo: Byte, hi: Byte, i: nat)
    requires HasFatByte(vol, dm, o) && HasFatByte(vol, dm, o + 1)
    ensures HasFatByte(SetFatByte(vol, dm, o, lo), dm, o + 1)
    ensures FatByte(SetPair(vol, dm, o, lo, hi), dm, i)
      == if i == o then lo else if i == o + 1 then hi else FatByte(vol, dm, i)
    ensures OnlyFat(vol, SetPair(vol, dm, o, lo, hi), dm)
  {
    FatByteSet(vol, dm, o, lo, o + 1);
    FatByteSet(vol, dm, o, lo, i);
    FatByteSet(SetFatByte(vol, dm, o, lo), dm, o + 1, hi, i);
  }

  // The word clfix() writes over an entry's two bytes, in memory order of a 12-bit entry.
  function Merge12(cl: nat, link: Word, f: Word): Word {
    if cl % 2 == 1 then f % 16 + link * 16 % 0x10000 else f / 0x1000 * 0x1000 + link % 0x1000
  }

  lemma OddWord(a: nat, k: nat)
    requires a < 16 && k < 0x1000
    ensures (a + 16 * k) / 16 == k && (a + 16 * k) % 256 % 16 == a
  {
    assert (a + 16 * k) % 256 == a + 16 * (k % 16);
  }

  lemma EvenWord(e: nat, k: nat)
    requires e < 16 && k < 0x1000
    ensures (0x1000 * e + k) % 0x1000 == k && (0x1000 * e + k) / 256 / 16 == e
  {
    assert (0x1000 * e + k) / 256 == 16 * e + k / 256;
  }

  lemma Shift4(link: Word)
    ensures link * 16 % 0x10000 == 16 * (link % 0x1000)
  {
    assert link * 16 == 0x10000 * (link / 0x1000) + 16 * (link % 0x1000);
  }

  lemma Merge12Own(cl: nat, link: Word, f: Word)
    ensures var g := Merge12(cl, link, f);
      Decode(false, cl, g % 256, g / 256) == if 0xff8 <= link % 0x1000 then ENDOFCHAIN else link % 0x1000
  {
    var g := Merge12(cl, link, f);
    assert g == g % 256 + 256 * (g / 256);
    if cl % 2 == 1 {
      Shift4(link);
      OddWord(f % 16, link % 0x1000);
    } else {
      EvenWord(f / 0x1000, link % 0x1000);
    }
  }

  // The nibble that belongs to the neighbour survives.
  lemma Merge12Neighbour(cl: nat, link: Word, lo: Byte, hi: Byte)
    ensures var g := Merge12(cl, link, lo + 256 * hi);
      if cl % 2 == 1 then g % 256 % 16 == lo % 16 else g / 256 / 16 == hi / 16
  {
    var f := lo + 256 * hi;
    if cl % 2 == 1 {
      Shift4(link);
      OddWord(f % 16, link % 0x1000);
      assert f % 16 == lo % 16;
    } else {
      EvenWord(f / 0x1000, link % 0x1000);
      assert f / 0x1000 == hi / 16;
    }
  }

  lemma DecodeLow(cl: nat, lo: Byte, hi: Byte, hi': Byte)
    requires cl % 2 == 0 && hi % 16 == hi' % 16
    ensures Decode(false, cl, lo, hi) == Decode(false, cl, lo, hi')
  {
    assert (lo + 256 * hi) % 0x1000 == lo + 256 * (hi % 16);
    assert (lo + 256 * hi') % 0x1000 == lo + 256 * (hi' % 16);
  }

  lemma DecodeHigh(cl: nat, lo: Byte, lo': Byte, hi: Byte)
    requires cl % 2 == 1 && lo / 16 == lo' / 16
    ensures Decode(false, cl, lo, hi) == Decode(false, cl, lo', hi)
  {
    assert (lo + 256 * hi) / 16 == lo / 16 + 16 * hi;
    assert (lo' + 256 * hi) / 16 == lo' / 16 + 16 * hi;
  }

  // What clfix() leaves in the two bytes of an entry.
  function NewPair(dm: DMD, cl: nat, link: Word, f: Word): Word {
    if dm.m16 then link else Merge12(cl, link, f)
  }

  lemma OwnDecoded(dm: DMD, cl: nat, link: Word, f: Word)
    ensures var g := NewPair(dm, cl, link, f);
      Decode(dm.m16, cl, g % 256, g / 256) == Normal(dm, link)
  {
    if !dm.m16 {
      Merge12Own(cl, link, f);
    }
  }

  // An entry that shares a byte with the one being written decodes as before.
  lemma SharedDecoded(dm: DMD, cl: nat, link: Word, lo: Byte, hi: Byte, far: Byte)
    requires !dm.m16
    ensures var g := NewPair(dm, cl, link, lo + 256 * hi);
      && (cl % 2 == 0 ==> Decode(false, cl + 1, g / 256, far) == Decode(false, cl + 1, hi, far))
      && (cl % 2 == 1 ==> Decode(false, cl - 1, far, g % 256) == Decode(false, cl - 1, far, lo))
  {
    var g := NewPair(dm, cl, link, lo + 256 * hi);
    Merge12Neighbour(cl, link, lo, hi);
    if cl % 2 == 0 {
      DecodeHigh(cl + 1, hi, g / 256, far);
    } else {
      DecodeLow(cl - 1, far, lo, g % 256);
    }
  }

  lemma EntrySetOwn(vol: Volume, dm: DMD, cl: nat, link: Word, f: Word)
    requires HasFatByte(vol, dm, Offset(dm, cl)) && HasFatByte(vol, dm, Offset(dm, cl) + 1)
    ensures var o := Offset(dm, cl);
      var g := NewPair(dm, cl, link, f);
      && HasFatByte(SetFatByte(vol, dm, o, g % 256), dm, o + 1)
      && Entry(SetPair(vol, dm, o, g % 256, g / 256), dm, cl) == Normal(dm, link)
  {
    var o := Offset(dm, cl);
    var g := NewPair(dm, cl, link, f);
    PairSet(vol, dm, o, g % 256, g / 256, o);
    PairSet(vol, dm, o, g % 256, g / 256, o + 1);
    OwnDecoded(dm, cl, link, f);
  }

  // clfix() changes exactly one entry of the table, packed neighbours included.
  lemma EntrySet(vol: Volume, dm: DMD, cl: nat, link: Word, f: Word, other: nat)
    requires HasFatByte(vol, dm, Offset(dm, cl)) && HasFatByte(vol, dm, Offset(dm, cl) + 1)
    requires f == FatByte(vol, dm, Offset(dm, cl)) + 256 * FatByte(vol, dm, Offset(dm, cl) + 1)
    ensures var o := Offset(dm, cl);
      var g := NewPair(dm, cl, link, f);
      && HasFatByte(SetFatByte(vol, dm, o, g % 256), dm, o + 1)
      && Entry(SetPair(vol, dm, o, g % 256, g / 256), dm, other)
         == if other == cl then Normal(dm, link) else Entry(vol, dm, other)
  {
    hide Decode, NewPair, Offset, FatByte, SetFatByte, Normal;
    var o, p := Offset(dm, cl), Offset(dm, other);
    var g := NewPair(dm, cl, link, f);
    if other == cl {
      EntrySetOwn(vol, dm, cl, link, f);
    } else {
      PairSet(vol, dm, o, g % 256, g / 256, p);
      PairSet(vol, dm, o, g % 256, g / 256, p + 1);
      EntryBytesApart(dm, cl, other);
      if p == o + 1 {
        SharedDecoded(dm, cl, link, FatByte(vol, dm, o), FatByte(vol, dm, o + 1), FatByte(vol, dm, p + 1));
      } else if p + 1 == o {
        SharedDecoded(dm, cl, link, FatByte(vol, dm, o), FatByte(vol, dm, o + 1), FatByte(vol, dm, p));
      }
    }
  }

  lemma RecordThere(c: Cache, dm: DMD, t: BufTyp, r: nat)
    requires Mounted(c, dm) && r < dm.Records(t)
    ensures 0 < dm.recsiz
    ensures Addr(dm.drvnum, t, r) in c.vol && |c.vol[Addr(dm.drvnum, t, r)]| == dm.recsiz
  {
    assert dm.LayoutOk();
    assert InRange(c.drvtbl, Addr(dm.drvnum, t, r));
  }

  lemma FatBytesThere(c: Cache, dm: DMD, cl: nat)
    requires Mounted(c, dm) && cl < dm.numcl + 2
    ensures HasFatByte(c.vol, dm, Offset(dm, cl)) && HasFatByte(c.vol, dm, Offset(dm, cl) + 1)
    ensures dm.RecNum(Offset(dm, cl)) < dm.fsiz && dm.RecNum(Offset(dm, cl) + 1) < dm.fsiz
  {
    hide CacheOk, DMD.SizesOk, Offset;
    OffsetInFat(dm, cl);
    FatByteThere(c, dm, Offset(dm, cl), dm.RecNum(Offset(dm, cl)));
    FatByteThere(c, dm, Offset(dm, cl) + 1, dm.RecNum(Offset(dm, cl) + 1));
  }

  lemma FatByteThere(c: Cache, dm: DMD, o: nat, r: nat)
    requires Mounted(c, dm) && r < dm.fsiz && r == dm.RecNum(o)
    ensures HasFatByte(c.vol, dm, o)
  {
    hide CacheOk, DMD.SizesOk;
    RecordThere(c, dm, BtFat, r);
  }

  // Two consecutive FAT bytes, the second possibly in the next record.
  method ReadPair(c: Cache, dm: DMD, recnum: nat, offset: nat, ghost o: nat) returns (b0: Byte, b1: Byte)
    requires Mounted(c, dm) && 0 < dm.recsiz && recnum == dm.RecNum(o) && offset == dm.RecByte(o)
    requires dm.RecNum(o) < dm.fsiz && dm.RecNum(o + 1) < dm.fsiz
    modifies c`disk, c`bufl
    ensures Mounted(c, dm)
    ensures b0 == FatByte(c.vol, dm, o) && b1 == FatByte(c.vol, dm, o + 1)
  {
    hide CacheOk, DMD.SizesOk;
    QuoNext(o, dm.recsiz);
    var buf := c.GetRec(recnum, dm, BtFat, false);
    b0 := buf[offset];
    if dm.recsiz - offset == 1 {    // content spans FAT sectors
      buf := c.GetRec(recnum + 1, dm, BtFat, false);
      b1 := buf[0];
    } else {
      b1 := buf[offset + 1];
    }
  }

  method WriteByte(c: Cache, dm: DMD, recnum: nat, offset: nat, x: Byte, ghost o: nat)
    requires Mounted(c, dm) && recnum < dm.fsiz && offset < dm.recsiz
    requires recnum == dm.RecNum(o) && offset == dm.RecByte(o)
    modifies c
    ensures Mounted(c, dm) && HasFatByte(old(c.vol), dm, o)
    ensures c.vol == SetFatByte(old(c.vol), dm, o, x)
  {
    hide CacheOk, DMD.SizesOk;
    var buf := c.GetRec(recnum, dm, BtFat, true);
    c.Poke(BtFat, offset, [x]);
  }

  // getrealcl(): the table entry.
  method GetRealCl(c: Cache, cl: nat, dm: DMD) returns (r: Word)
    requires Mounted(c, dm) && cl < dm.numcl + 2
    modifies c`disk, c`bufl
    ensures Mounted(c, dm) && r == Fat(c.vol, dm)[cl]
    ensures dm.m16 ==> r % 256 == FatByte(c.vol, dm, 2 * cl) && r / 256 == FatByte(c.vol, dm, 2 * cl + 1)
    ensures !dm.m16 ==>
      var k := cl / 2;
      var b0, b1, b2 := FatByte(c.vol, dm, 3 * k), FatByte(c.vol, dm, 3 * k + 1), FatByte(c.vol, dm, 3 * k + 2);
      var f := if cl % 2 == 0 then b0 + 256 * (b1 % 16) else b1 / 16 + 16 * b2;
      r == if f >= 0xff8 then 0xffff else f
  {
    hide CacheOk, DMD.SizesOk, Offset, HasFatByte, FatByte, Glue, Swpw;
    FatBytesThere(c, dm, cl);
    EntryBytes(c.vol, dm, cl);
    var offset := Offset(dm, cl);
    var b0, b1 := ReadPair(c, dm, dm.RecNum(offset), dm.RecByte(offset), offset);
    var f := Swpw(Glue(b0, b1));
    SwapGlued(b0, b1);
    if dm.m16 {
      return f;
    }
    if cl % 2 == 1 {
      r := f / 16;
    } else {
      r := f % 0x1000;
    }
    if 0xff8 <= r {
      r := ENDOFCHAIN;
    }
  }

  // The entry on the bytes of the FAT: two bytes, the low one first, or a byte and a half, three
  // bytes for a pair of clusters.
  lemma EntryBytes(vol: Volume, dm: DMD, cl: nat)
    requires cl < dm.numcl + 2
    ensures var r := Fat(vol, dm)[cl];
            && (dm.m16 ==> r % 256 == FatByte(vol, dm, 2 * cl) && r / 256 == FatByte(vol, dm, 2 * cl + 1))
            && (!dm.m16 ==>
                 (var k := cl / 2;
                  var b0, b1, b2 := FatByte(vol, dm, 3 * k), FatByte(vol, dm, 3 * k + 1), FatByte(vol, dm, 3 * k + 2);
                  var f := if cl % 2 == 0 then b0 + 256 * (b1 % 16) else b1 / 16 + 16 * b2;
                  r == if f >= 0xff8 then 0xffff else f))
  {
    hide FatByte, Decode;
    var o := Offset(dm, cl);
    DecodeIs(dm.m16, cl, FatByte(vol, dm, o), FatByte(vol, dm, o + 1));
    assert !dm.m16 ==> o == 3 * (cl / 2) + cl % 2;
  }

  lemma DecodeIs(m16: bool, cl: nat, lo: Byte, hi: Byte)
    ensures m16 ==> Decode(m16, cl, lo, hi) % 256 == lo && Decode(m16, cl, lo, hi) / 256 == hi
    ensures !m16 ==>
      var f := if cl % 2 == 0 then lo + 256 * (hi % 16) else lo / 16 + 16 * hi;
      Decode(m16, cl, lo, hi) == if f >= 0xff8 then 0xffff else f
  {
    var f: int := lo + 256 * hi;
    assert f % 0x1000 == lo + 256 * (hi % 16);
    assert f / 16 == lo / 16 + 16 * hi;
  }

  // The bytes of the FAT after clfix() of an entry.
  ghost predicate BytesFixed(v: Volume, w: Volume, dm: DMD, cl: nat, link: Word) {
    var k, f := cl / 2, link % 0x1000;
    && (dm.m16 ==> FatByte(w, dm, 2 * cl) == link % 256 && FatByte(w, dm, 2 * cl + 1) == link / 256)
    && (dm.m16 ==> forall i: nat :: i / 2 != cl ==> FatByte(w, dm, i) == FatByte(v, dm, i))
    && (!dm.m16 && cl % 2 == 0 ==>
         FatByte(w, dm, 3 * k) == f % 256 && FatByte(w, dm, 3 * k + 2) == FatByte(v, dm, 3 * k + 2) &&
         FatByte(w, dm, 3 * k + 1) == f / 256 + 16 * (FatByte(v, dm, 3 * k + 1) / 16))
    && (!dm.m16 && cl % 2 == 1 ==>
         FatByte(w, dm, 3 * k) == FatByte(v, dm, 3 * k) && FatByte(w, dm, 3 * k + 2) == f / 16 &&
         FatByte(w, dm, 3 * k + 1) == FatByte(v, dm, 3 * k + 1) % 16 + 16 * (f % 16))
    && (!dm.m16 ==> forall i: nat :: i / 3 != k ==> FatByte(w, dm, i) == FatByte(v, dm, i))
  }

  lemma SetBytes(vol: Volume, dm: DMD, cl: nat, link: Word)
    requires HasFatByte(vol, dm, Offset(dm, cl)) && HasFatByte(vol, dm, Offset(dm, cl) + 1)
    ensures var o := Offset(dm, cl);
      var g := NewPair(dm, cl, link, FatByte(vol, dm, o) + 256 * FatByte(vol, dm, o + 1));
      && HasFatByte(SetFatByte(vol, dm, o, g % 256), dm, o + 1)
      && BytesFixed(vol, SetPair(vol, dm, o, g % 256, g / 256), dm, cl, link)
  {
    hide FatByte, SetFatByte, SetPair, Offset, HasFatByte, NewPair;
    var o := Offset(dm, cl);
    var lo, hi := FatByte(vol, dm, o), FatByte(vol, dm, o + 1);
    var f: Word := lo + 256 * hi as int;
    var g := NewPair(dm, cl, link, f);
    PairSet(vol, dm, o, g % 256, g / 256, o);
    var w := SetPair(vol, dm, o, g % 256, g / 256);
    forall i: nat ensures FatByte(w, dm, i) == if i == o then g % 256 else if i == o + 1 then g / 256 else FatByte(vol, dm, i) {
      PairSet(vol, dm, o, g % 256, g / 256, i);
    }
    PairBytes(dm, cl, link, lo, hi);
  }

  // The two bytes that clfix() stores, and where.
  lemma PairBytes(dm: DMD, cl: nat, link: Word, lo: Byte, hi: Byte)
    ensures var g, f := NewPair(dm, cl, link, lo + 256 * hi), link % 0x1000;
            if dm.m16 then Offset(dm, cl) == 2 * cl && g == link
            else if cl % 2 == 0 then Offset(dm, cl) == 3 * (cl / 2) && g % 256 == f % 256 && g / 256 == f / 256 + 16 * (hi / 16)
            else Offset(dm, cl) == 3 * (cl / 2) + 1 && g % 256 == lo % 16 + 16 * (f % 16) && g / 256 == f / 16
  {
    hide Merge12;
    if !dm.m16 {
      if cl % 2 == 1 {
        OddBytes(cl, link, lo, hi);
      } else {
        EvenBytes(cl, link, lo, hi);
      }
    }
  }

  lemma OddBytes(cl: nat, link: Word, lo: Byte, hi: Byte)
    requires cl % 2 == 1
    ensures var g, k := Merge12(cl, link, lo + 256 * hi), link % 0x1000; g % 256 == lo % 16 + 16 * (k % 16) && g / 256 == k / 16
  {
    var k := link % 0x1000;
    Shift4(link);
    assert (lo + 256 * hi) % 16 == lo % 16;
    assert lo % 16 + 16 * k == (lo % 16 + 16 * (k % 16)) + 256 * (k / 16);
  }

  lemma EvenBytes(cl: nat, link: Word, lo: Byte, hi: Byte)
    requires cl % 2 == 0
    ensures var g, k := Merge12(cl, link, lo + 256 * hi), link % 0x1000; g % 256 == k % 256 && g / 256 == k / 256 + 16 * (hi / 16)
  {
    var k := link % 0x1000;
    assert (lo + 256 * hi) / 0x1000 == hi / 16;
    assert 0x1000 * (hi / 16) + k == k % 256 + 256 * (k / 256 + 16 * (hi / 16));
  }

  lemma SwapGlued(a: Byte, b: Byte)
    ensures Swpw(Glue(a, b)) == a + 256 * b
  {
  }

  // clfix(): set one table entry; the rest of the volume is untouched.
  method ClFix(c: Cache, cl: nat, link: Word, dm: DMD)
    requires Mounted(c, dm) && cl < dm.numcl + 2
    modifies c
    ensures Mounted(c, dm) && OnlyFat(old(c.vol), c.vol, dm)
    ensures Fat(c.vol, dm) == Fat(old(c.vol), dm)[cl := Normal(dm, link)]
    ensures BytesFixed(old(c.vol), c.vol, dm, cl, link)
  {
    hide CacheOk, DMD.SizesOk, Offset, HasFatByte, SetFatByte, SetPair, Fat, Normal, Merge12, Swpw, BytesFixed;
    FatBytesThere(c, dm, cl);
    FatSet(c.vol, dm, cl, link);
    SetBytes(c.vol, dm, cl, link);
    var offset := Offset(dm, cl);
    var g := link;
    if !dm.m16 {
      var b0, b1 := ReadPair(c, dm, dm.RecNum(offset), dm.RecByte(offset), offset);
      SwapGlued(b0, b1);
      g := Merge12(cl, link, Swpw(Glue(b0, b1)));
    }
    WritePair(c, dm, dm.RecNum(offset), dm.RecByte(offset), g % 256, g / 256, offset);
  }

  // Store an entry's bytes, the second possibly in the next record.
  method WritePair(c: Cache, dm: DMD, recnum: nat, offset: nat, b0: Byte, b1: Byte, ghost o: nat)
    requires Mounted(c, dm) && recnum == dm.RecNum(o) && offset == dm.RecByte(o)
    requires dm.RecNum(o) < dm.fsiz && dm.RecNum(o + 1) < dm.fsiz
    modifies c
    ensures Mounted(c, dm)
    ensures HasFatByte(old(c.vol), dm, o) && HasFatByte(SetFatByte(old(c.vol), dm, o, b0), dm, o + 1)
    ensures c.vol == SetPair(old(c.vol), dm, o, b0, b1)
  {
    hide CacheOk, DMD.SizesOk;
    QuoNext(o, dm.recsiz);
    WriteByte(c, dm, recnum, offset, b0, o);
    if dm.recsiz - offset == 1 {    // content spans FAT sectors
      WriteByte(c, dm, recnum + 1, 0, b1, o + 1);
    } else {
      WriteByte(c, dm, recnum, offset + 1, b1, o + 1);
    }
  }

  lemma FatSet(vol: Volume, dm: DMD, cl: nat, link: Word)
    requires HasFatByte(vol, dm, Offset(dm, cl)) && HasFatByte(vol, dm, Offset(dm, cl) + 1) && cl < dm.numcl + 2
    ensures var o := Offset(dm, cl);
      var g := NewPair(dm, cl, link, FatByte(vol, dm, o) + 256 * FatByte(vol, dm, o + 1));
      && HasFatByte(SetFatByte(vol, dm, o, g % 256), dm, o + 1)
      && Fat(SetPair(vol, dm, o, g % 256, g / 256), dm) == Fat(vol, dm)[cl := Normal(dm, link)]
      && OnlyFat(vol, SetPair(vol, dm, o, g % 256, g / 256), dm)
  {
    hide Decode, NewPair, Offset, FatByte, SetFatByte, Normal, Entry;
    var o := Offset(dm, cl);
    var f := FatByte(vol, dm, o) + 256 * FatByte(vol, dm, o + 1);
    var g := NewPair(dm, cl, link, f);
    PairSet(vol, dm, o, g % 256, g / 256, o);
    var w := SetPair(vol, dm, o, g % 256, g / 256);
    forall other | 0 <= other < dm.numcl + 2
      ensures Entry(w, dm, other) == if other == cl then Normal(dm, link) else Entry(vol, dm, other)
    {
      EntrySet(vol, dm, cl, link, f, other);
    }
  }
}

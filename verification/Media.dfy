// The media layer: sectors, drive media blocks (DMD) and the address of a
// logical record.  A record is reached through its region (FAT, root directory
// or data area) and its number in that region; log_media fixes where each
// region starts on the drive.
module Media {
  import opened Bytes
  import opened Shift

  type Sector = seq<Byte>

  datatype BufTyp = BtFat | BtRoot | BtData

  // Address of a record as getrec() sees it.
  datatype Addr = Addr(drv: nat, typ: BufTyp, rec: nat)

  // The largest number of records in one transfer (16-bit MAXINT).
  const CNTMAX := 0x7FFF

  const FREECLUSTER := 0
  const ENDOFCHAIN := 0xffff

  // Drive media block.  Record and cluster sizes are powers of two, so the shifts
  // and masks that log_media derives from them are written as / and % here.
  // fatlen and datlen are the sizes of the FAT in bytes and of the data area in records.
  datatype DMD = DMD(drvnum: nat, fatrec: nat, rootrec: nat, datrec: nat,
                     fsiz: nat, fatlen: nat, rdlen: nat, datlen: nat,
                     clsiz: nat, clsizb: nat, recsiz: nat, numcl: nat, m16: bool, m1fat: bool)
  {
    // The regions do not overlap, and a second FAT has room below the first.
    predicate LayoutOk() {
      && 0 < recsiz
      && (m1fat || fsiz <= fatrec)
      && rootrec == fatrec + fsiz
      && rootrec + rdlen <= datrec
    }

    // The FAT has an entry for every cluster, and no cluster number can be mistaken for an
    // end marker.
    predicate SizesOk() {
      && Products()
      && recsiz % 2 == 0
      && 0 < clsiz <= CNTMAX && clsizb < 0x10000
      && (if m16 then numcl + 2 <= 0xfff8 && 2 * (numcl + 2) <= fatlen
          else numcl + 2 <= 0xff8 && (numcl + 1) + (numcl + 1) / 2 + 2 <= fatlen)
    }

    predicate Products() {
      && fatlen == Mul(fsiz, recsiz)
      && clsizb == Mul(clsiz, recsiz)
      && datlen == Mul(numcl, clsiz)
    }

    // First sector of a region (m_recoff).
    function RecOff(t: BufTyp): nat {
      match t
      case BtFat => fatrec
      case BtRoot => rootrec
      case BtData => datrec
    }

    // Number of records in a region.
    function Records(t: BufTyp): nat {
      match t
      case BtFat => fsiz
      case BtRoot => rdlen
      case BtData => datlen
    }

    // o >> m_rblog and o & m_rbm: the record a byte is in, and its offset there.
    function RecNum(o: nat): nat { Quo(o, recsiz) }

    function RecByte(o: nat): nat { Rem(o, recsiz) }

    function SectorCount(): nat { datrec + datlen }
  }

  type DriveTable = map<nat, DMD>
  type Disks = map<nat, seq<Sector>>
  type Volume = imap<Addr, Sector>

  ghost predicate TableOk(t: DriveTable) {
    forall d :: d in t ==> t[d].LayoutOk() && t[d].drvnum == d
  }

  predicate InRange(t: DriveTable, a: Addr) {
    a.drv in t && a.rec < t[a.drv].Records(a.typ)
  }

  function SectorOf(t: DriveTable, a: Addr): nat
    requires InRange(t, a)
  {
    t[a.drv].RecOff(a.typ) + a.rec
  }

  ghost predicate DisksOk(t: DriveTable, disk: Disks) {
    && disk.Keys == t.Keys
    && (forall d :: d in t ==> |disk[d]| == t[d].SectorCount())
    && (forall d, s :: d in t && 0 <= s < |disk[d]| ==> |disk[d][s]| == t[d].recsiz)
  }

  // The address space of an uncached disk.
  ghost predicate VolumeOk(t: DriveTable, vol: Volume) {
    && (forall a :: a in vol <==> InRange(t, a))
    && (forall a :: a in vol ==> |vol[a]| == t[a.drv].recsiz)
  }

  lemma SectorInDisk(t: DriveTable, a: Addr)
    requires TableOk(t) && InRange(t, a)
    ensures SectorOf(t, a) < t[a.drv].SectorCount()
  {
  }

  // Different records of one drive live in different sectors, and none of them in the
  // first FAT copy.
  lemma SectorsDistinct(t: DriveTable, a: Addr, b: Addr)
    requires TableOk(t) && InRange(t, a) && InRange(t, b) && a.drv == b.drv
    ensures SectorOf(t, a) == SectorOf(t, b) ==> a == b
    ensures !t[a.drv].m1fat && a.typ == BtFat ==> SectorOf(t, a) - t[a.drv].fsiz != SectorOf(t, b)
  {
  }
}

// The descriptor pool (bdos/osmem.c): memory descriptors come from blocks of three slots, and the
// blocks from a fixed area with a list of freed blocks in front of it.
module OsMem {
  import opened Lists

  const NUM_OSM_BLOCKS := 118
  const BLOCK_WORDS := 33                              // with the control word
  const LENOSM := BLOCK_WORDS * NUM_OSM_BLOCKS
  const MDS_PER_BLOCK := 3

  // A pointer to a memory descriptor: NULL, the one set up at boot, or a slot of a block.
  datatype Desc = Null | Boot | Slot(blk: nat, slot: nat)

  // The index words of a block: the slot's own number when used, -1 when not.
  predicate IndexOk(e: seq<int>) {
    |e| == MDS_PER_BLOCK && forall s :: 0 <= s < MDS_PER_BLOCK ==> e[s] == s || e[s] == -1
  }

  const FREE := [-1, -1, -1]

  function Avail(e: seq<int>): (n: nat)
    requires |e| == MDS_PER_BLOCK
    ensures n <= MDS_PER_BLOCK
  {
    (if e[0] < 0 then 1 else 0) + (if e[1] < 0 then 1 else 0) + (if e[2] < 0 then 1 else 0)
  }

  // The free slots among the first i.
  function AvailTo(e: seq<int>, i: nat): (n: nat)
    requires i <= |e|
    ensures n <= i
  {
    if i == 0 then 0 else AvailTo(e, i - 1) + if e[i - 1] < 0 then 1 else 0
  }

  lemma AvailIs(e: seq<int>)
    requires |e| == MDS_PER_BLOCK
    ensures AvailTo(e, MDS_PER_BLOCK) == Avail(e)
  {
    assert AvailTo(e, 2) == AvailTo(e, 1) + if e[1] < 0 then 1 else 0;
  }

  // The descriptor is handed out.
  predicate Live(index: seq<seq<int>>, d: Desc) {
    d.Slot? && d.blk < |index| && d.slot < |index[d.blk]| && index[d.blk][d.slot] >= 0
  }

  // Blocks with both used and free slots are on the chain; wholly free ones are on the free list
  // or held by someone else; full ones are nowhere.
  ghost predicate BlocksOk(index: seq<seq<int>>, root: seq<nat>, mdb: seq<nat>, other: set<nat>) {
    && Distinct(root) && Distinct(mdb)
    && (forall b :: b in other || b in root || b in mdb ==> b < |index|)
    && (forall b :: 0 <= b < |index| ==>
         && IndexOk(index[b])
         && (b in mdb <==> 0 < Avail(index[b]) < MDS_PER_BLOCK)
         && (b in root || b in other <==> Avail(index[b]) == MDS_PER_BLOCK)
         && !(b in root && b in other))
  }

  class OsPool {
    var osmptr: int
    var osmlen: int
    var root: seq<nat>
    var mdb: seq<nat>
    var index: seq<seq<int>>
    ghost var other: set<nat>

    ghost predicate Valid()
      reads this
    {
      && 0 <= osmlen && osmptr + osmlen == LENOSM && osmptr == BLOCK_WORDS * |index|
      && BlocksOk(index, root, mdb, other)
    }

    // No slot and no block is left.
    predicate NoDesc()
      reads this
    {
      mdb == [] && root == [] && |index| == NUM_OSM_BLOCKS
    }

    // osmem_init().
    constructor ()
      ensures Valid() && index == [] && other == {}
    {
      osmptr, osmlen := 0, LENOSM;
      root, mdb, index, other := [], [], [], {};
    }

    // getosm() for one block: the next one off the area, -1 when it is used up.
    method GetOsm() returns (b: int)
      requires Valid()
      modifies this`osmptr, this`osmlen, this`index
      ensures 0 <= osmlen && osmptr + osmlen == LENOSM && osmptr == BLOCK_WORDS * |index|
      ensures |old(index)| == NUM_OSM_BLOCKS ==> b == -1 && index == old(index)
      ensures |old(index)| < NUM_OSM_BLOCKS ==> b == |old(index)| && index == old(index) + [FREE]
    {
      if BLOCK_WORDS > osmlen {
        return -1;
      }
      b := |index|;
      osmptr, osmlen := osmptr + BLOCK_WORDS, osmlen - BLOCK_WORDS;
      index := index + [FREE];
    }

    // xmgetblk(): a free block, from the list or off the area, -1 when there is none.  The block
    // goes to some other user of the pool until an MDBLOCK is made of it.
    method XmGetBlk() returns (b: int)
      requires Valid()
      modifies this
      ensures Valid() && mdb == old(mdb)
      ensures b == -1 <==> old(root) == [] && |old(index)| == NUM_OSM_BLOCKS
      ensures b == -1 ==> index == old(index) && root == old(root) && other == old(other)
      ensures b != -1 ==> 0 <= b < |index| && b !in old(other) && b !in old(mdb) && other == old(other) + {b}
      ensures b != -1 ==> b !in root && Avail(index[b]) == MDS_PER_BLOCK
      ensures b != -1 && b < |old(index)| ==> b in old(root) && index == old(index)
      ensures b != -1 && b >= |old(index)| ==> index == old(index) + [FREE]
    {
      hide BlocksOk;
      if root != [] {
        TakeRoot(index, root, mdb, other);
        b := root[0];
        root := root[1..];
      } else {
        NewBlock(index, root, mdb, other);
        b := GetOsm();
        if b < 0 {
          return;
        }
      }
      other := other + {b};
    }

    // xmfreblk(): the block goes to the head of the free list.
    method XmFreBlk(b: nat)
      requires Valid() && b in other
      modifies this`root, this`other
      ensures Valid() && root == [b] + old(root) && other == old(other) - {b}
    {
      DistinctCons(b, root);
      root := [b] + root;
      other := other - {b};
    }

    // unlink_mdblock(): the block leaves the chain, -1 when it is not on it.
    method UnlinkMdblock(b: nat) returns (r: int)
      requires Distinct(mdb)
      modifies this`mdb
      ensures r == if b in old(mdb) then 0 else -1
      ensures Distinct(mdb) && b !in mdb && forall c :: c != b ==> (c in mdb <==> c in old(mdb))
    {
      var i := 0;
      while i < |mdb|
        invariant 0 <= i <= |mdb| && mdb == old(mdb) && b !in mdb[..i]
      {
        if mdb[i] == b {
          ghost var m := mdb;
          mdb := mdb[..i] + mdb[i + 1..];
          assert m == m[..i] + [m[i]] + m[i + 1..];
          return 0;
        }
        i := i + 1;
      }
      assert mdb[..i] == mdb;
      r := -1;
    }

    // xmgetmd(): a descriptor that is not in use; NULL only when no slot and no block is left.
    method XmGetMd() returns (md: Desc)
      requires Valid()
      modifies this
      ensures Valid() && other == old(other)
      ensures md == Null <==> old(NoDesc())
      ensures md == Null ==> index == old(index) && root == old(root) && mdb == old(mdb)
      ensures md != Null ==> !Live(old(index), md) && Live(index, md)
      ensures forall d :: d != md ==> (Live(index, d) <==> Live(old(index), d))
    {
      var b := Partial();
      if b < 0 {
        return Null;
      }
      ghost var index0, e := index, index[b];
      var i, avail := 0, 0;
      md := Null;
      while i < MDS_PER_BLOCK
        invariant 0 <= i <= MDS_PER_BLOCK && b < |index| == |index0|
        invariant md == Null ==> index == index0 && avail == 0 && AvailTo(e, i) == 0
        invariant md != Null ==> md.Slot? && md.blk == b && md.slot < i && e[md.slot] < 0
        invariant md != Null ==> index == index0[b := e[md.slot := md.slot]] && AvailTo(e, i) == avail + 1
        modifies this`index
      {
        if index[b][i] < 0 {
          if md == Null {
            index := index[b := index[b][i := i]];
            md := Slot(b, i);
          } else {
            avail := avail + 1;
          }
        }
        i := i + 1;
      }
      AvailIs(e);
      ghost var chain := mdb;
      if avail == 0 {
        var r := UnlinkMdblock(b);
      }
      ChainSet(index0, root, chain, other, b, index[b], mdb);
    }

    // xmfremd(): the slot is free again.  A block that gets its first free slot goes on the chain,
    // and one with no used slot left goes to the free list.
    method XmFreMd(md: Desc)
      requires Valid() && Live(index, md)
      modifies this
      ensures Valid() && other == old(other) && |index| == |old(index)|
      ensures forall d :: Live(index, d) <==> (Live(old(index), d) && d != md)
    {
      var i := index[md.blk][md.slot];
      if i < 0 || i >= MDS_PER_BLOCK {
        return;
      }
      var b := md.blk;
      ghost var index0, chain := index, mdb;
      index := index[b := index[b][i := -1]];
      var avail := 0;
      i := 0;
      while i < MDS_PER_BLOCK
        invariant 0 <= i <= MDS_PER_BLOCK && avail == AvailTo(index[b], i)
      {
        if index[b][i] < 0 {
          avail := avail + 1;
        }
        i := i + 1;
      }
      AvailIs(index[b]);
      if avail == 3 {
        var r := UnlinkMdblock(b);
        SetFree(index0, root, chain, other, b, index[b], mdb);
        if r == 0 {
          other := other + {b};
          XmFreBlk(b);
        }
      } else if avail == 1 {
        mdb := [b] + mdb;
        SetPartial(index0, root, chain, other, b, index[b], mdb);
      } else {
        SetPartial(index0, root, chain, other, b, index[b], mdb);
      }
    }

    // The start of xmgetmd(): the head of the chain, which becomes a new block when it is empty.
    method Partial() returns (b: int)
      requires Valid()
      modifies this
      ensures other == old(other) && osmlen >= 0 && osmptr + osmlen == LENOSM && osmptr == BLOCK_WORDS * |index|
      ensures b == -1 <==> old(NoDesc())
      ensures b == -1 ==> Valid() && index == old(index) && root == old(root) && mdb == old(mdb)
      ensures b != -1 ==> 0 <= b < |index| && b in mdb && ChainOk(index, root, mdb, other, b) && Avail(index[b]) > 0
      ensures forall d :: Live(index, d) <==> Live(old(index), d)
    {
      if mdb != [] {
        b := mdb[0];
        assert b in mdb;
        return;
      }
      b := XmGetBlk();
      if b < 0 {
        return;
      }
      other := other - {b};
      index := index[b := FREE];
      mdb := [b];
    }
  }

  // BlocksOk but for the block b, which is on the chain.
  ghost predicate ChainOk(index: seq<seq<int>>, root: seq<nat>, mdb: seq<nat>, other: set<nat>, b: nat) {
    && Distinct(root) && Distinct(mdb) && b in mdb && b !in root && b !in other && b < |index| && IndexOk(index[b])
    && (forall c :: c in other || c in root || c in mdb ==> c < |index|)
    && (forall c :: 0 <= c < |index| && c != b ==>
         && IndexOk(index[c])
         && (c in mdb <==> 0 < Avail(index[c]) < MDS_PER_BLOCK)
         && (c in root || c in other <==> Avail(index[c]) == MDS_PER_BLOCK)
         && !(c in root && c in other))
  }

  // The head of the free list is a wholly free block that nobody has.
  lemma TakeRoot(index: seq<seq<int>>, root: seq<nat>, mdb: seq<nat>, other: set<nat>)
    requires BlocksOk(index, root, mdb, other) && root != []
    ensures var b := root[0];
            && b < |index| && b !in other && b !in mdb && b !in root[1..] && |index[b]| == MDS_PER_BLOCK
            && Avail(index[b]) == MDS_PER_BLOCK && BlocksOk(index, root[1..], mdb, other + {b})
  {
    var b, r := root[0], root[1..];
    assert b in root;
    assert forall i :: 0 <= i < |r| ==> r[i] == root[i + 1] != b;
    assert forall c :: c in root <==> c == b || c in r;
  }

  // So is a block fresh off the area.
  lemma NewBlock(index: seq<seq<int>>, root: seq<nat>, mdb: seq<nat>, other: set<nat>)
    requires BlocksOk(index, root, mdb, other)
    ensures |index| !in other && |index| !in mdb && |index| !in root && Avail(FREE) == MDS_PER_BLOCK
    ensures BlocksOk(index + [FREE], root, mdb, other + {|index|})
  {
    assert IndexOk(FREE);
  }

  // The block b of the chain has new slots, and left the chain if it is full.
  lemma ChainSet(index: seq<seq<int>>, root: seq<nat>, mdb: seq<nat>, other: set<nat>, b: nat, e: seq<int>, mdb': seq<nat>)
    requires ChainOk(index, root, mdb, other, b) && IndexOk(e) && Avail(e) < MDS_PER_BLOCK
    requires Distinct(mdb') && (b in mdb' <==> Avail(e) > 0) && forall c :: c != b ==> (c in mdb' <==> c in mdb)
    ensures BlocksOk(index[b := e], root, mdb', other)
  {
  }

  // A slot of the block b was freed, and others are used.
  lemma SetPartial(index: seq<seq<int>>, root: seq<nat>, mdb: seq<nat>, other: set<nat>, b: nat, e: seq<int>, mdb': seq<nat>)
    requires BlocksOk(index, root, mdb, other) && b < |index| && Avail(index[b]) < MDS_PER_BLOCK
    requires IndexOk(e) && 0 < Avail(e) < MDS_PER_BLOCK
    requires mdb' == if b in mdb then mdb else [b] + mdb
    ensures BlocksOk(index[b := e], root, mdb', other)
  {
    if b !in mdb {
      DistinctCons(b, mdb);
    }
    assert forall c :: c in mdb' <==> c == b || c in mdb;
  }

  // The last slot of the block b was freed, and it left the chain.
  lemma SetFree(index: seq<seq<int>>, root: seq<nat>, mdb: seq<nat>, other: set<nat>, b: nat, e: seq<int>, mdb': seq<nat>)
    requires BlocksOk(index, root, mdb, other) && b < |index| && 0 < Avail(index[b]) < MDS_PER_BLOCK
    requires IndexOk(e) && Avail(e) == MDS_PER_BLOCK
    requires Distinct(mdb') && b !in mdb' && forall c :: c != b ==> (c in mdb' <==> c in mdb)
    ensures BlocksOk(index[b := e], root, mdb', other + {b})
  {
  }

  // The blocks that hold a descriptor.
  ghost function MdBlocks(index: seq<seq<int>>): set<nat> {
    set b: nat | b < |index| && |index[b]| == MDS_PER_BLOCK && Avail(index[b]) < MDS_PER_BLOCK
  }

  // Every block carved off the area is on the free list, holds descriptors, or is someone else's.
  lemma BlocksCount(index: seq<seq<int>>, root: seq<nat>, mdb: seq<nat>, other: set<nat>)
    requires BlocksOk(index, root, mdb, other)
    ensures |index| == |root| + |MdBlocks(index)| + |other|
  {
    var r, m := Elements(root), MdBlocks(index);
    DistinctSize(root);
    BelowIs(|index|);
    assert Below(|index|) == r + m + other;
    assert r !! m && r !! other && m !! other;
  }
}

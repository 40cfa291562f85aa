// The ST-RAM pool (bdos/iumem.c, bdos/umem.c and its clients in bdos/proc.c): first fit with a
// sorted, coalesced free list.
module UserMem {
  import opened OsMem
  import opened MemLists
  import opened Lists

  const E_OK := 0
  const ERR := -1
  const EIMBA := -40
  const EGSBF := -67
  const NULL := 0

  const MX_STRAM := 0
  const MX_TTRAM := 1
  const MX_PREFSTRAM := 2
  const MX_PREFTTRAM := 3

  // The allocated list without an owner's blocks.
  function NotOwned(l: seq<MD>, pd: int): seq<MD> {
    if l == [] then [] else (if l[0].own == pd then [] else [l[0]]) + NotOwned(l[1..], pd)
  }

  // Where a block with this start is in a list, its length when there is none.
  function FindStart(l: seq<MD>, a: int): (i: nat)
    ensures i <= |l| && (i < |l| ==> l[i].start == a)
    ensures forall k :: 0 <= k < i ==> l[k].start != a
  {
    if l == [] || l[0].start == a then 0 else FindStart(l[1..], a) + 1
  }

  lemma {:induction false} FindIs(l: seq<MD>, a: int, i: nat)
    requires i <= |l| && (i < |l| ==> l[i].start == a) && forall k :: 0 <= k < i ==> l[k].start != a
    ensures FindStart(l, a) == i
  {
    if i > 0 {
      FindIs(l[1..], a, i - 1);
    }
  }

  lemma {:induction false} NotOwnedRm(l: seq<MD>, i: nat, pd: int)
    requires i < |l| && l[i].own == pd
    ensures NotOwned(Cut(l, i), pd) == NotOwned(l, pd)
  {
    if i > 0 {
      NotOwnedRm(l[1..], i - 1, pd);
      assert Cut(l, i)[0] == l[0] && Cut(l, i)[1..] == Cut(l[1..], i - 1);
    } else {
      assert Cut(l, 0) == l[1..];
    }
  }

  lemma {:induction false} NotOwnedAll(l: seq<MD>, pd: int)
    requires forall i :: 0 <= i < |l| ==> l[i].own != pd
    ensures NotOwned(l, pd) == l
  {
    if l != [] {
      NotOwnedAll(l[1..], pd);
    }
  }

  // A block just allocated heads what the other owners leave and is none of its own owner's rest.
  lemma NotOwnedFront(l: seq<MD>, m: MD)
    ensures NotOwned([m] + l, m.own) == NotOwned(l, m.own)
    ensures forall pd :: pd != m.own ==> NotOwned([m] + l, pd) == [m] + NotOwned(l, pd)
  {
    assert ([m] + l)[1..] == l;
  }

  // Every block of the other owners, and no block of this one.
  lemma {:induction false} NotOwnedIs(l: seq<MD>, pd: int, m: MD)
    ensures m in NotOwned(l, pd) <==> (m in l && m.own != pd)
  {
    if l != [] {
      NotOwnedIs(l[1..], pd, m);
      assert m in l <==> m == l[0] || m in l[1..];
    }
  }

  class UserPool {
    const pool: OsPool
    const lo: int
    const hi: int
    const mask: int
    var mfl: seq<MD>
    var mal: seq<MD>
    var run: int

    ghost predicate Valid()
      reads this`mfl, this`mal, pool
    {
      && mask < lo < hi <= MAXLONG && (mask == 1 || mask == 3) && pool.Valid()
      && ListsOk(mfl, mal, pool.index, lo, hi, mask) && Ascending(mfl)
    }

    // umem_init() on the one free block set up at boot, with an OS pool of its own.
    constructor (lo: int, hi: int, mask: int)
      requires mask < lo < hi <= MAXLONG && (mask == 1 || mask == 3) && Even(mask, lo) && Even(mask, hi - lo)
      ensures Valid() && mal == [] && mfl == [MD(Boot, lo, hi - lo, 0)] && fresh(pool)
    {
      var p := new OsPool();
      pool := p;
      this.lo, this.hi, this.mask := lo, hi, mask;
      mfl, mal, run := [MD(Boot, lo, hi - lo, 0)], [], 0;
      new;
      OneBlock(lo, hi, mask, mfl[0]);
    }

    // ffit(-1): the largest free block.
    method FfitMax() returns (maxval: int)
      ensures maxval == MaxFree(mfl)
    {
      maxval := 0;
      var i := 0;
      while i < |mfl|
        invariant 0 <= i <= |mfl| && maxval == MaxFree(mfl[..i])
      {
        assert mfl[..i + 1][..i] == mfl[..i];
        if mfl[i].length > maxval {
          maxval := mfl[i].length;
        }
        i := i + 1;
      }
      assert mfl[..i] == mfl;
    }

    // ffit(): the lowest free block that is large enough goes to the head of the allocated list,
    // cut to size when it is larger.  NULL, with nothing changed, when there is none or no
    // descriptor is left for the rest.
    method Ffit(amount0: int) returns (start: int)
      requires Valid() && 0 < amount0 <= MAXLONG - mask
      modifies this`mfl, this`mal, pool
      ensures Valid()
      ensures start == NULL ==> mfl == old(mfl) && mal == old(mal) && pool.index == old(pool.index)
      ensures start == NULL <==>
        var i, a := FirstFit(old(mfl), Round32(mask, amount0)), Round32(mask, amount0);
        i == |old(mfl)| || (old(mfl)[i].length != a && old(pool.NoDesc()))
      ensures start != NULL ==>
        var i, a := FirstFit(old(mfl), Round32(mask, amount0)), Round32(mask, amount0);
        && start == old(mfl)[i].start && mal == Front(old(mfl), old(mal), i, a, run)
        && (old(mfl)[i].length == a ==> mfl == Cut(old(mfl), i) && pool.index == old(pool.index))
        && (old(mfl)[i].length != a ==> exists d: Desc :: mfl == Remainder(old(mfl), i, a, d))
      ensures start != NULL ==>
        var i, a := FirstFit(old(mfl), Round32(mask, amount0)), Round32(mask, amount0);
        && mal == [MD(old(mfl)[i].desc, start, a, run)] + old(mal)
        && (a < old(mfl)[i].length ==>
             (mfl[i].start == start + a && mfl[i].length == old(mfl)[i].length - a && mfl[i].own == 0 &&
              mfl[..i] == old(mfl)[..i] && mfl[i + 1..] == old(mfl)[i + 1..]))
      ensures start != NULL ==>
        (mal != [] && NotOwned(mal, run) == NotOwned(old(mal), run) &&
         forall pd :: pd != run ==> NotOwned(mal, pd) == [mal[0]] + NotOwned(old(mal), pd))
    {
      hide ListsOk, Ascending, Even, Round32, BlocksOk, Live, HandedOut, NotOwned;
      if mfl == [] {
        return NULL;
      }
      var amount := Round32(mask, amount0);
      RoundUp(mask, amount0);
      var i := 0;
      while i < |mfl| && mfl[i].length < amount
        invariant 0 <= i <= |mfl| && forall k :: 0 <= k < i ==> mfl[k].length < amount
      {
        i := i + 1;
      }
      FitIs(mfl, amount, i);
      if i == |mfl| {
        return NULL;
      }
      var q := mfl[i];
      BlockLow(mfl, mal, pool.index, lo, hi, mask, i);
      if q.length == amount {
        TakenWhole(mfl, mal, pool.index, lo, hi, mask, i, run);
        mfl := Cut(mfl, i);
      } else {
        ghost var index := pool.index;
        var p1 := pool.XmGetMd();
        if p1 == Null {
          return NULL;
        }
        HandedOutIs(index, pool.index, p1);
        TakenPart(mfl, mal, index, lo, hi, mask, i, amount, run, p1, pool.index);
        mfl := mfl[i := MD(p1, q.start + amount, q.length - amount, 0)];
      }
      NotOwnedFront(mal, q.(length := amount, own := run));
      mal := [q.(length := amount, own := run)] + mal;
      start := q.start;
    }

    // freeit(): the allocated block with this start goes back to the free list, joined to the
    // free blocks it touches.
    method FreeIt(mstart: int)
      requires Valid()
      modifies this`mfl, this`mal, pool
      ensures Valid()
      ensures var k := FindStart(old(mal), mstart);
              if k == |old(mal)| then mal == old(mal) && mfl == old(mfl) && pool.index == old(pool.index)
              else mal == Cut(old(mal), k)
    {
      hide ListsOk, Ascending, Even, BlocksOk, Near, Live, Join, Put;
      var k := 0;
      while k < |mal| && mal[k].start != mstart
        invariant 0 <= k <= |mal| && forall i :: 0 <= i < k ==> mal[i].start != mstart
      {
        k := k + 1;
      }
      FindIs(mal, mstart, k);
      if k == |mal| {
        return;
      }
      var p := mal[k];
      var j := 0;
      while j < |mfl| && p.start > mfl[j].start
        invariant 0 <= j <= |mfl| && forall i :: 0 <= i < j ==> mfl[i].start < p.start
      {
        j := j + 1;
      }
      InsertPlace(mfl, mal, pool.index, lo, hi, mask, k, j);
      mal := Cut(mal, k);
      mfl := Put(mfl, j, p);
      Coalesce(j);
    }

    // The end of freeit(): the j-th free block is joined to its neighbours where it touches them.
    method Coalesce(j: nat)
      requires mask < lo < hi <= MAXLONG && (mask == 1 || mask == 3) && pool.Valid()
      requires ListsOk(mfl, mal, pool.index, lo, hi, mask) && Near(mfl, j, true, true)
      modifies this`mfl, pool
      ensures Valid()
    {
      hide ListsOk, Ascending, Even, BlocksOk, Near, Live, GivenBack, Cut;
      ghost var f, index := mfl, pool.index;
      NearBound(mfl, j);
      if j + 1 < |mfl| {
        JoinUpNear(mfl, j);
        if mfl[j].start + mfl[j].length == mfl[j + 1].start {
          var d := mfl[j + 1].desc;
          mfl := Cut(mfl, j + 1)[j := mfl[j].(length := mfl[j].length + mfl[j + 1].length)];
          Joined(f, mal, index, lo, hi, mask, j, index);
          pool.XmFreMd(d);
          GivenBackIs(index, pool.index, d);
          Joined(f, mal, index, lo, hi, mask, j, pool.index);
        }
      } else {
        NearTop(mfl, j);
      }
      f, index := mfl, pool.index;
      NearBound(mfl, j);
      if j > 0 {
        JoinDownNear(mfl, j);
        ghost var i: nat := j - 1;
        if mfl[j - 1].start + mfl[j - 1].length == mfl[j].start {
          var d := mfl[j].desc;
          mfl := Cut(mfl, j)[j - 1 := mfl[j - 1].(length := mfl[j - 1].length + mfl[j].length)];
          Joined(f, mal, index, lo, hi, mask, i, index);
          pool.XmFreMd(d);
          GivenBackIs(index, pool.index, d);
          Joined(f, mal, index, lo, hi, mask, i, pool.index);
        }
      } else {
        NearDone(mfl, j);
      }
    }

    // shrinkit(): the block keeps its first newlen bytes, the rest goes back to the free list; -1
    // when no descriptor is left.
    method ShrinkIt(k: nat, newlen: int) returns (r: int)
      requires Valid() && k < |mal| && 0 < newlen < mal[k].length && Even(mask, newlen)
      modifies this`mfl, this`mal, pool
      ensures Valid()
      ensures r == if old(pool.NoDesc()) then -1 else 0
      ensures r == -1 ==> mfl == old(mfl) && mal == old(mal)
      ensures r == 0 ==> mal == old(mal)[k := old(mal)[k].(length := newlen)]
    {
      hide ListsOk, Ascending, Even, BlocksOk, Live, HandedOut;
      ghost var index, l := pool.index, mal;
      var f := pool.XmGetMd();
      if f == Null {
        return -1;
      }
      HandedOutIs(index, pool.index, f);
      ShrunkOk(mfl, mal, index, lo, hi, mask, k, newlen, f, pool.index);
      var m := mal[k];
      mal := mal[k := m.(length := newlen)];
      mal := [MD(f, m.start + newlen, m.length - newlen, 0)] + mal;
      assert Cut(mal, 0) == l[k := m.(length := newlen)];
      FreeIt(m.start + newlen);
      r := 0;
    }

    // find_mpb() and the search of the allocated list.
    method Find(addr: int) returns (found: bool, k: nat)
      requires Valid()
      ensures k == FindStart(mal, addr) && found == (k < |mal|)
    {
      hide ListsOk, Ascending, Even;
      NoneOutside(mfl, mal, pool.index, lo, hi, mask, addr);
      k := 0;
      if addr < lo || addr >= hi {
        found, k := false, |mal|;
        return;
      }
      while k < |mal| && mal[k].start != addr
        invariant 0 <= k <= |mal| && forall i :: 0 <= i < k ==> mal[i].start != addr
      {
        k := k + 1;
      }
      FindIs(mal, addr, k);
      found := k < |mal|;
    }

    // xmxalloc() without alternate RAM.
    method XmxAlloc(amount: int, mode0: int) returns (r: int)
      requires Valid() && -MAXLONG - 1 <= amount <= MAXLONG - mask
      modifies this`mfl, this`mal, pool
      ensures Valid()
      ensures amount == -1 ==> r == if mode0 % 4 != MX_TTRAM then MaxFree(mfl) else NULL
      ensures amount <= 0 || r == NULL || mode0 % 4 == MX_TTRAM ==> mfl == old(mfl) && mal == old(mal)
      ensures amount > 0 && r != NULL ==>
        (mal != [] && mal[0].start == r && mal[0].length == Round32(mask, amount) >= amount && mal[1..] == old(mal) &&
         mal[0].own == run)
      ensures amount > 0 && r != NULL ==>
        (mal != [] && NotOwned(mal, run) == NotOwned(old(mal), run) &&
         forall pd :: pd != run ==> NotOwned(mal, pd) == [mal[0]] + NotOwned(old(mal), pd))
      ensures amount > 0 && mode0 % 4 != MX_TTRAM && Round32(mask, amount) <= MaxFree(old(mfl)) && !old(pool.NoDesc()) ==> r != NULL
    {
      hide ListsOk, Ascending, Even, BlocksOk, Round32, NotOwned;
      var mode := mode0 % 4;
      if amount == -1 {
        if mode == MX_STRAM || mode == MX_PREFSTRAM || mode == MX_PREFTTRAM {
          r := FfitMax();
        } else {
          r := NULL;
        }
        return;
      }
      if amount <= 0 {
        return NULL;
      }
      RoundUp(mask, amount);
      AnyFits(mfl, Round32(mask, amount));
      BlocksLow(mfl, mal, pool.index, lo, hi, mask);
      if mode == MX_STRAM || mode == MX_PREFSTRAM || mode == MX_PREFTTRAM {
        r := Ffit(amount);
      } else {
        r := NULL;
      }
    }

    // xmfree().
    method XmFree(addr: int) returns (r: int)
      requires Valid()
      modifies this`mfl, this`mal, pool
      ensures Valid()
      ensures var k := FindStart(old(mal), addr);
              if k < |old(mal)| then r == E_OK && mal == Cut(old(mal), k)
              else r == EIMBA && mal == old(mal) && mfl == old(mfl)
    {
      var found, k := Find(addr);
      if !found {
        return EIMBA;
      }
      FreeIt(mal[k].start);
      r := E_OK;
    }

    // xsetblk(): the block shrinks to the rounded length.
    method XSetBlk(blk: int, len0: int) returns (r: int)
      requires Valid() && -mask <= len0 <= MAXLONG - mask
      modifies this`mfl, this`mal, pool
      ensures Valid()
      ensures var k, len := FindStart(old(mal), blk), Round32(mask, len0);
              if k == |old(mal)| then r == EIMBA && mal == old(mal) && mfl == old(mfl)
              else if old(mal)[k].length < len then r == EGSBF && mal == old(mal) && mfl == old(mfl)
              else if old(mal)[k].length == len then r == E_OK && mal == old(mal) && mfl == old(mfl)
              else if len == 0 then r == E_OK && mal == Cut(old(mal), k)
              else if old(pool.NoDesc()) then r == ERR && mal == old(mal) && mfl == old(mfl)
              else r == E_OK && mal == old(mal)[k := old(mal)[k].(length := len)]
    {
      hide ListsOk, Ascending, Even, BlocksOk, Round32;
      var found, k := Find(blk);
      if !found {
        return EIMBA;
      }
      RoundUp(mask, len0);
      var len := Round32(mask, len0);
      if mal[k].length < len {
        return EGSBF;
      }
      if mal[k].length == len {
        return E_OK;
      }
      if len == 0 {
        FreeIt(mal[k].start);
        return E_OK;
      }
      var s := ShrinkIt(k, len);
      if s < 0 {
        return ERR;
      }
      r := E_OK;
    }

    // free_all_owned(): one owner's blocks go, and no other; the list changes under the loop.
    method FreeAllOwned(pd: int)
      requires Valid()
      modifies this`mfl, this`mal, pool
      ensures Valid() && mal == NotOwned(old(mal), pd)
    {
      hide ListsOk, Ascending, Even, BlocksOk;
      var i := 0;
      while i < |mal|
        invariant 0 <= i <= |mal| && Valid()
        invariant NotOwned(mal, pd) == NotOwned(old(mal), pd)
        invariant forall k :: 0 <= k < i ==> mal[k].own != pd
        decreases |mal| - i
      {
        var m := mal[i];
        if m.own == pd {
          NotOwnedRm(mal, i, pd);
          OnlyStart(mfl, mal, pool.index, lo, hi, mask, i);
          FreeIt(m.start);
        } else {
          i := i + 1;
        }
      }
      NotOwnedAll(mal, pd);
    }

    // alloc_tpa() without alternate RAM: the largest free block, when it is large enough.  Its
    // allocation cannot fail.
    method AllocTpa(needed: int) returns (start: int, avail: int)
      requires Valid() && needed > 0
      modifies this`mfl, this`mal, pool
      ensures Valid()
      ensures if MaxFree(old(mfl)) < needed then start == NULL && mfl == old(mfl) && mal == old(mal)
              else start != NULL && avail == MaxFree(old(mfl)) && mal != [] && mal[1..] == old(mal) &&
                   mal[0].start == start && mal[0].length == avail && mal[0].own == run && pool.index == old(pool.index)
      ensures start != NULL ==>
        (mal != [] && NotOwned(mal, run) == NotOwned(old(mal), run) &&
         forall pd :: pd != run ==> NotOwned(mal, pd) == [mal[0]] + NotOwned(old(mal), pd))
    {
      hide ListsOk, Ascending, Even, BlocksOk, Round32, NotOwned;
      avail := FfitMax();
      if avail < needed {
        return NULL, avail;
      }
      MaxEven(mfl, mal, pool.index, lo, hi, mask);
      MaxFits(mfl);
      RoundUp(mask, avail);
      BlocksLow(mfl, mal, pool.index, lo, hi, mask);
      start := Ffit(avail);
    }
  }

  // No block starts outside the region.
  lemma NoneOutside(mfl: seq<MD>, mal: seq<MD>, index: seq<seq<int>>, lo: int, hi: int, mask: int, a: int)
    requires ListsOk(mfl, mal, index, lo, hi, mask)
    ensures a < lo || a >= hi ==> FindStart(mal, a) == |mal|
  {
    var k := FindStart(mal, a);
    if k < |mal| {
      InRegion(mfl, mal, lo, hi, mal, k);
    }
  }

  lemma AnyFits(l: seq<MD>, amount: int)
    requires 0 < amount
    ensures amount <= MaxFree(l) ==> FirstFit(l, amount) < |l|
  {
    if amount <= MaxFree(l) {
      var k :| 0 <= k < |l| && l[k].length == MaxFree(l);
      assert FirstFit(l, amount) <= k;
    }
  }

  lemma BlocksLow(mfl: seq<MD>, mal: seq<MD>, index: seq<seq<int>>, lo: int, hi: int, mask: int)
    requires ListsOk(mfl, mal, index, lo, hi, mask)
    ensures forall i :: 0 <= i < |mfl| ==> lo <= mfl[i].start
  {
    forall i | 0 <= i < |mfl| ensures lo <= mfl[i].start {
      BlockLow(mfl, mal, index, lo, hi, mask, i);
    }
  }

  lemma OnlyStart(mfl: seq<MD>, mal: seq<MD>, index: seq<seq<int>>, lo: int, hi: int, mask: int, i: nat)
    requires ListsOk(mfl, mal, index, lo, hi, mask) && i < |mal|
    ensures FindStart(mal, mal[i].start) == i
  {
    forall k | 0 <= k < i ensures mal[k].start != mal[i].start {
      StartsDiffer(mfl, mal, lo, hi, k, i);
    }
    FindIs(mal, mal[i].start, i);
  }

  lemma MaxEven(mfl: seq<MD>, mal: seq<MD>, index: seq<seq<int>>, lo: int, hi: int, mask: int)
    requires ListsOk(mfl, mal, index, lo, hi, mask) && mask < lo < hi <= MAXLONG && MaxFree(mfl) > 0
    ensures Even(mask, MaxFree(mfl)) && MaxFree(mfl) <= MAXLONG - mask
  {
    var k :| 0 <= k < |mfl| && mfl[k].length == MaxFree(mfl);
    InRegion(mfl, mal, lo, hi, mfl, k);
  }

  lemma {:induction false} FitIs(l: seq<MD>, amount: int, i: nat)
    requires i <= |l| && (i < |l| ==> l[i].length >= amount) && forall k :: 0 <= k < i ==> l[k].length < amount
    ensures FirstFit(l, amount) == i
  {
    if i > 0 {
      FitIs(l[1..], amount, i - 1);
    }
  }

  lemma OneBlock(lo: int, hi: int, mask: int, m: MD)
    requires lo < hi && Even(mask, lo) && Even(mask, hi - lo) && m == MD(Boot, lo, hi - lo, 0)
    ensures ListsOk([m], [], [], lo, hi, mask) && Ascending([m])
  {
    forall a: int, d: Desc ensures Covers([m], a) == Bit(m.Has(a)) && Uses([m], d) == Bit(d == Boot) {
      OneCount(m, a, d);
    }
    assert forall a: int {:trigger Covers([m], a)} :: Covers([m], a) == Bit(m.Has(a));
    assert forall d: Desc {:trigger Uses([m], d)} :: Uses([m], d) == Bit(d == Boot);
  }

  lemma BlockLow(mfl: seq<MD>, mal: seq<MD>, index: seq<seq<int>>, lo: int, hi: int, mask: int, i: nat)
    requires ListsOk(mfl, mal, index, lo, hi, mask) && i < |mfl|
    ensures lo <= mfl[i].start
  {
    InRegion(mfl, mal, lo, hi, mfl, i);
  }

  lemma HandedOutIs(index: seq<seq<int>>, index': seq<seq<int>>, d: Desc)
    requires !Live(index, d) && Live(index', d) && forall e :: e != d ==> (Live(index', e) <==> Live(index, e))
    ensures HandedOut(index, index', d)
  {
  }

  lemma GivenBackIs(index: seq<seq<int>>, index': seq<seq<int>>, d: Desc)
    requires forall e :: Live(index', e) <==> (Live(index, e) && e != d)
    ensures GivenBack(index, index', d)
  {
  }

  lemma InsertPlace(mfl: seq<MD>, mal: seq<MD>, index: seq<seq<int>>, lo: int, hi: int, mask: int, k: nat, j: nat)
    requires ListsOk(mfl, mal, index, lo, hi, mask) && Ascending(mfl) && k < |mal| && j <= |mfl|
    requires forall i :: 0 <= i < j ==> mfl[i].start < mal[k].start
    requires j < |mfl| ==> mal[k].start <= mfl[j].start
    ensures ListsOk(Put(mfl, j, mal[k]), Cut(mal, k), index, lo, hi, mask)
    ensures Near(Put(mfl, j, mal[k]), j, true, true)
  {
    Inserted(mfl, mal, index, lo, hi, mask, k, j);
    InsertedNear(mfl, mal, lo, hi, k, j);
  }

  lemma NearBound(l: seq<MD>, j: nat)
    ensures Near(l, j, true, true) || Near(l, j, true, false) ==> j < |l|
  {
  }

  lemma NearTop(l: seq<MD>, j: nat)
    requires Near(l, j, true, true) && j + 1 == |l|
    ensures Near(l, j, true, false)
  {
  }
}

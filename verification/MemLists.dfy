// The free and allocated lists of a memory pool (bdos/iumem.c), on values.
module MemLists {
  import opened OsMem
  import opened Lists

  datatype MD = MD(desc: Desc, start: int, length: int, own: int)
  {
    function End(): int {
      start + length
    }

    predicate Has(a: int) {
      start <= a < start + length
    }
  }

  function Bit(b: bool): nat {
    if b then 1 else 0
  }

  // How many blocks of a list hold an address, and how many use a descriptor.
  function Covers(l: seq<MD>, a: int): nat {
    if l == [] then 0 else Bit(l[0].Has(a)) + Covers(l[1..], a)
  }

  function Uses(l: seq<MD>, d: Desc): nat {
    if l == [] then 0 else Bit(l[0].desc == d) + Uses(l[1..], d)
  }

  // Both lists together tile the region, without an empty block.
  ghost predicate Tiled(mfl: seq<MD>, mal: seq<MD>, lo: int, hi: int) {
    && (forall a: int {:trigger Covers(mfl, a)} {:trigger Covers(mal, a)} ::
          Covers(mfl, a) + Covers(mal, a) == Bit(lo <= a < hi))
    && (forall i :: 0 <= i < |mfl| ==> mfl[i].length > 0)
    && (forall i :: 0 <= i < |mal| ==> mal[i].length > 0)
  }

  // The descriptors in the lists are the live ones of the pool and the one set up at boot, each
  // used once.
  ghost predicate Handles(mfl: seq<MD>, mal: seq<MD>, index: seq<seq<int>>) {
    forall d: Desc {:trigger Uses(mfl, d)} {:trigger Uses(mal, d)} {:trigger Live(index, d)} ::
      Uses(mfl, d) + Uses(mal, d) == Bit(d == Boot || Live(index, d))
  }

  // The descriptor set up at boot always describes the lowest block.
  ghost predicate BootLow(l: seq<MD>, lo: int) {
    forall i :: 0 <= i < |l| ==> (l[i].desc == Boot <==> l[i].start == lo)
  }

  // malloc_align_stram is 1 or 3.
  function Times(mask: int, q: int): int {
    if mask == 3 then 4 * q else 2 * q
  }

  // x is a multiple of 4 or of 2.
  ghost predicate Even(mask: int, x: int) {
    exists q: int :: Times(mask, q) == x
  }

  ghost predicate Aligned(l: seq<MD>, mask: int) {
    forall i :: 0 <= i < |l| ==> Even(mask, l[i].start) && Even(mask, l[i].length)
  }

  // In ascending order, no two neighbours touching.
  ghost predicate Ascending(l: seq<MD>) {
    forall i, j :: 0 <= i < j < |l| ==> l[i].End() < l[j].start
  }

  ghost predicate ListsOk(mfl: seq<MD>, mal: seq<MD>, index: seq<seq<int>>, lo: int, hi: int, mask: int) {
    && Tiled(mfl, mal, lo, hi) && Handles(mfl, mal, index)
    && BootLow(mfl, lo) && BootLow(mal, lo) && Aligned(mfl, mask) && Aligned(mal, mask)
  }

  lemma {:induction false} ConcatCounts(l: seq<MD>, m: seq<MD>, a: int, d: Desc)
    ensures Covers(l + m, a) == Covers(l, a) + Covers(m, a)
    ensures Uses(l + m, d) == Uses(l, d) + Uses(m, d)
  {
    if l == [] {
      assert l + m == m;
    } else {
      assert (l + m)[1..] == l[1..] + m;
      ConcatCounts(l[1..], m, a, d);
    }
  }

  lemma OneCount(m: MD, a: int, d: Desc)
    ensures Covers([m], a) == Bit(m.Has(a)) && Uses([m], d) == Bit(m.desc == d)
  {
    assert [m][1..] == [];
  }

  lemma InsCounts(l: seq<MD>, i: nat, m: MD, a: int, d: Desc)
    requires i <= |l|
    ensures Covers(Put(l, i, m), a) == Covers(l, a) + Bit(m.Has(a))
    ensures Uses(Put(l, i, m), d) == Uses(l, d) + Bit(m.desc == d)
  {
    OneCount(m, a, d);
    ConcatCounts(l[..i], [m], a, d);
    ConcatCounts(l[..i] + [m], l[i..], a, d);
    ConcatCounts(l[..i], l[i..], a, d);
    assert l == l[..i] + l[i..];
  }

  lemma RmCounts(l: seq<MD>, i: nat, a: int, d: Desc)
    requires i < |l|
    ensures Covers(l, a) == Covers(Cut(l, i), a) + Bit(l[i].Has(a))
    ensures Uses(l, d) == Uses(Cut(l, i), d) + Bit(l[i].desc == d)
  {
    InsCounts(Cut(l, i), i, l[i], a, d);
    assert Put(Cut(l, i), i, l[i]) == l;
  }

  lemma SetCounts(l: seq<MD>, i: nat, m: MD, a: int, d: Desc)
    requires i < |l|
    ensures Covers(l[i := m], a) + Bit(l[i].Has(a)) == Covers(l, a) + Bit(m.Has(a))
    ensures Uses(l[i := m], d) + Bit(l[i].desc == d) == Uses(l, d) + Bit(m.desc == d)
  {
    RmCounts(l, i, a, d);
    RmCounts(l[i := m], i, a, d);
    assert Cut(l[i := m], i) == Cut(l, i);
  }

  lemma HasCounts(l: seq<MD>, i: nat, a: int, d: Desc)
    requires i < |l|
    ensures l[i].Has(a) ==> Covers(l, a) >= 1
    ensures l[i].desc == d ==> Uses(l, d) >= 1
  {
    RmCounts(l, i, a, d);
  }

  // Every block lies in the region.
  lemma InRegion(mfl: seq<MD>, mal: seq<MD>, lo: int, hi: int, l: seq<MD>, i: nat)
    requires Tiled(mfl, mal, lo, hi) && (l == mfl || l == mal) && i < |l|
    ensures lo <= l[i].start < l[i].End() <= hi
  {
    HasCounts(l, i, l[i].start, Boot);
    HasCounts(l, i, l[i].End() - 1, Boot);
    assert Covers(mfl, l[i].start) >= 0 && Covers(mfl, l[i].End() - 1) >= 0;
  }

  // A free and an allocated block do not meet.
  lemma FreeApart(mfl: seq<MD>, mal: seq<MD>, lo: int, hi: int, i: nat, k: nat)
    requires Tiled(mfl, mal, lo, hi) && i < |mfl| && k < |mal|
    ensures mfl[i].End() <= mal[k].start || mal[k].End() <= mfl[i].start
  {
    var a := if mfl[i].start < mal[k].start then mal[k].start else mfl[i].start;
    HasCounts(mfl, i, a, Boot);
    HasCounts(mal, k, a, Boot);
    assert Covers(mfl, a) + Covers(mal, a) <= 1;
  }

  // Two allocated blocks have different starts.
  lemma StartsDiffer(mfl: seq<MD>, mal: seq<MD>, lo: int, hi: int, i: nat, k: nat)
    requires Tiled(mfl, mal, lo, hi) && i < k < |mal|
    ensures mal[i].start != mal[k].start
  {
    var a := mal[i].start;
    RmCounts(mal, i, a, Boot);
    HasCounts(Cut(mal, i), k - 1, a, Boot);
    assert Covers(mfl, a) + Covers(mal, a) <= 1;
  }

  // A descriptor in a list is the boot one or live.
  lemma ListHandle(mfl: seq<MD>, mal: seq<MD>, index: seq<seq<int>>, l: seq<MD>, i: nat)
    requires Handles(mfl, mal, index) && (l == mfl || l == mal) && i < |l|
    ensures l[i].desc == Boot || Live(index, l[i].desc)
  {
    HasCounts(l, i, 0, l[i].desc);
    assert Uses(mfl, l[i].desc) >= 0;
  }

  // The free list is in order but for its j-th block, which may touch its neighbours.
  ghost predicate Near(l: seq<MD>, j: nat, below: bool, above: bool) {
    && j < |l|
    && (forall i, k :: 0 <= i < k < |l| && k != j && i != j ==> l[i].End() < l[k].start)
    && (forall i :: 0 <= i < j ==> l[i].End() <= l[j].start && (i + 1 < j || !below ==> l[i].End() < l[j].start))
    && (forall k :: j < k < |l| ==> l[j].End() <= l[k].start && (j + 1 < k || !above ==> l[j].End() < l[k].start))
  }

  // freeit(): a block of the allocated list goes to its place in the free list.
  lemma Inserted(mfl: seq<MD>, mal: seq<MD>, index: seq<seq<int>>, lo: int, hi: int, mask: int, k: nat, j: nat)
    requires ListsOk(mfl, mal, index, lo, hi, mask) && k < |mal| && j <= |mfl|
    ensures ListsOk(Put(mfl, j, mal[k]), Cut(mal, k), index, lo, hi, mask)
  {
    MovedTiles(mfl, mal, lo, hi, k, j);
    MovedHandles(mfl, mal, index, k, j);
  }

  lemma MovedTiles(mfl: seq<MD>, mal: seq<MD>, lo: int, hi: int, k: nat, j: nat)
    requires Tiled(mfl, mal, lo, hi) && k < |mal| && j <= |mfl|
    ensures Tiled(Put(mfl, j, mal[k]), Cut(mal, k), lo, hi)
  {
    forall a: int ensures Covers(Put(mfl, j, mal[k]), a) + Covers(Cut(mal, k), a) == Bit(lo <= a < hi) {
      InsCounts(mfl, j, mal[k], a, Boot);
      RmCounts(mal, k, a, Boot);
    }
  }

  lemma MovedHandles(mfl: seq<MD>, mal: seq<MD>, index: seq<seq<int>>, k: nat, j: nat)
    requires Handles(mfl, mal, index) && k < |mal| && j <= |mfl|
    ensures Handles(Put(mfl, j, mal[k]), Cut(mal, k), index)
  {
    forall d: Desc ensures Uses(Put(mfl, j, mal[k]), d) + Uses(Cut(mal, k), d) == Bit(d == Boot || Live(index, d)) {
      InsCounts(mfl, j, mal[k], 0, d);
      RmCounts(mal, k, 0, d);
    }
  }

  lemma InsertedNear(mfl: seq<MD>, mal: seq<MD>, lo: int, hi: int, k: nat, j: nat)
    requires Tiled(mfl, mal, lo, hi) && Ascending(mfl) && k < |mal| && j <= |mfl|
    requires forall i :: 0 <= i < j ==> mfl[i].start < mal[k].start
    requires j < |mfl| ==> mal[k].start <= mfl[j].start
    ensures Near(Put(mfl, j, mal[k]), j, true, true)
  {
    hide Tiled, Near, Ascending;
    forall i | 0 <= i < |mfl|
      ensures mfl[i].End() <= mal[k].start || mal[k].End() <= mfl[i].start
      ensures mfl[i].start < mfl[i].End() && mal[k].start < mal[k].End()
    {
      FreeApart(mfl, mal, lo, hi, i, k);
      InRegion(mfl, mal, lo, hi, mfl, i);
      InRegion(mfl, mal, lo, hi, mal, k);
    }
    InsNear(mfl, j, mal[k]);
  }

  lemma InsNear(l: seq<MD>, j: nat, m: MD)
    requires Ascending(l) && j <= |l|
    requires forall i :: 0 <= i < |l| ==>
      (l[i].End() <= m.start || m.End() <= l[i].start) && l[i].start < l[i].End() && m.start < m.End()
    requires forall i :: 0 <= i < j ==> l[i].start < m.start
    requires j < |l| ==> m.start <= l[j].start
    ensures Near(Put(l, j, m), j, true, true)
  {
    hide Put;
    var f := Put(l, j, m);
    PutIn(l, j, m);
    forall i, k | 0 <= i < k < |f| && i != j && k != j ensures f[i].End() < f[k].start {
      var p, q := if i < j then i else i - 1, if k < j then k else k - 1;
      assert l[p].End() < l[q].start;
    }
    forall i | 0 <= i < j ensures l[i].End() <= m.start && (i + 1 < j ==> l[i].End() < m.start) {
      assert i + 1 < j ==> l[i].End() < l[j - 1].start;
    }
    forall i | j <= i < |l| ensures m.End() <= l[i].start && (j < i ==> m.End() < l[i].start) {
      assert j < i ==> l[j].End() < l[i].start;
    }
  }

  // The descriptor d was given back.
  ghost predicate GivenBack(index: seq<seq<int>>, index': seq<seq<int>>, d: Desc) {
    forall e: Desc {:trigger Live(index', e)} {:trigger Live(index, e)} :: Live(index', e) <==> (Live(index, e) && e != d)
  }

  // Two touching free blocks become one.
  function Join(l: seq<MD>, j: nat): seq<MD>
    requires j + 1 < |l|
  {
    Cut(l, j + 1)[j := l[j].(length := l[j].length + l[j + 1].length)]
  }

  lemma JoinCounts(l: seq<MD>, j: nat, a: int, d: Desc)
    requires j + 1 < |l| && l[j].End() == l[j + 1].start && l[j].length > 0 && l[j + 1].length > 0
    ensures Covers(Join(l, j), a) == Covers(l, a)
    ensures Uses(Join(l, j), d) + Bit(d == l[j + 1].desc) == Uses(l, d)
  {
    RmCounts(l, j + 1, a, d);
    SetCounts(Cut(l, j + 1), j, l[j].(length := l[j].length + l[j + 1].length), a, d);
  }

  // Joining keeps the lists in order, and never gives back the boot descriptor.
  lemma Joined(mfl: seq<MD>, mal: seq<MD>, index: seq<seq<int>>, lo: int, hi: int, mask: int, j: nat, index': seq<seq<int>>)
    requires ListsOk(mfl, mal, index, lo, hi, mask) && j + 1 < |mfl| && mfl[j].End() == mfl[j + 1].start
    ensures Live(index, mfl[j + 1].desc)
    ensures GivenBack(index, index', mfl[j + 1].desc) ==> ListsOk(Join(mfl, j), mal, index', lo, hi, mask)
  {
    hide Tiled, Handles, Even;
    InRegion(mfl, mal, lo, hi, mfl, j);
    InRegion(mfl, mal, lo, hi, mfl, j + 1);
    ListHandle(mfl, mal, index, mfl, j + 1);
    JoinTiles(mfl, mal, lo, hi, j);
    EvenSum(mask, mfl[j].length, mfl[j + 1].length);
    if GivenBack(index, index', mfl[j + 1].desc) {
      JoinHandles(mfl, mal, index, j, index');
    }
    assert BootLow(Join(mfl, j), lo) && Aligned(Join(mfl, j), mask);
  }

  lemma JoinTiles(mfl: seq<MD>, mal: seq<MD>, lo: int, hi: int, j: nat)
    requires Tiled(mfl, mal, lo, hi) && j + 1 < |mfl| && mfl[j].End() == mfl[j + 1].start
    ensures Tiled(Join(mfl, j), mal, lo, hi)
  {
    forall a: int ensures Covers(Join(mfl, j), a) + Covers(mal, a) == Bit(lo <= a < hi) {
      JoinCounts(mfl, j, a, Boot);
    }
  }

  lemma JoinHandles(mfl: seq<MD>, mal: seq<MD>, index: seq<seq<int>>, j: nat, index': seq<seq<int>>)
    requires Handles(mfl, mal, index) && j + 1 < |mfl| && mfl[j].End() == mfl[j + 1].start
    requires mfl[j].length > 0 && mfl[j + 1].length > 0
    requires mfl[j + 1].desc != Boot && GivenBack(index, index', mfl[j + 1].desc)
    ensures Handles(Join(mfl, j), mal, index')
  {
    forall d: Desc ensures Uses(Join(mfl, j), d) + Uses(mal, d) == Bit(d == Boot || Live(index', d)) {
      JoinCounts(mfl, j, 0, d);
      HasCounts(mfl, j + 1, 0, mfl[j + 1].desc);
    }
  }

  // The order after a join upwards, and after one downwards.
  lemma JoinUpNear(l: seq<MD>, j: nat)
    requires Near(l, j, true, true) && j + 1 < |l|
    ensures l[j].End() == l[j + 1].start ==> Near(Join(l, j), j, true, false)
    ensures l[j].End() != l[j + 1].start ==> Near(l, j, true, false)
  {
  }

  lemma JoinDownNear(l: seq<MD>, j: nat)
    requires Near(l, j, true, false) && 0 < j
    ensures l[j - 1].End() == l[j].start ==> Ascending(Join(l, j - 1))
    ensures l[j - 1].End() != l[j].start ==> Ascending(l)
  {
  }

  lemma NearDone(l: seq<MD>, j: nat)
    requires Near(l, j, true, false) && j == 0
    ensures Ascending(l)
  {
  }

  // The new descriptor d is live.
  ghost predicate HandedOut(index: seq<seq<int>>, index': seq<seq<int>>, d: Desc) {
    && d.Slot? && !Live(index, d)
    && forall e: Desc {:trigger Live(index', e)} {:trigger Live(index, e)} :: Live(index', e) <==> (Live(index, e) || e == d)
  }

  // Two pairs of lists hold the same memory; the second uses the descriptors of the first and,
  // if extra, d as well.
  ghost predicate SameMemory(mfl: seq<MD>, mal: seq<MD>, f: seq<MD>, l: seq<MD>) {
    forall a: int {:trigger Covers(f, a)} {:trigger Covers(l, a)} ::
      Covers(f, a) + Covers(l, a) == Covers(mfl, a) + Covers(mal, a)
  }

  ghost predicate SameUses(mfl: seq<MD>, mal: seq<MD>, f: seq<MD>, l: seq<MD>, d: Desc, extra: bool) {
    forall e: Desc {:trigger Uses(f, e)} {:trigger Uses(l, e)} ::
      Uses(f, e) + Uses(l, e) == Uses(mfl, e) + Uses(mal, e) + Bit(extra && e == d)
  }

  // ffit(): a free block is taken whole.
  lemma TakenWhole(mfl: seq<MD>, mal: seq<MD>, index: seq<seq<int>>, lo: int, hi: int, mask: int, i: nat, run: int)
    requires ListsOk(mfl, mal, index, lo, hi, mask) && Ascending(mfl) && i < |mfl|
    ensures ListsOk(Cut(mfl, i), [mfl[i].(own := run)] + mal, index, lo, hi, mask) && Ascending(Cut(mfl, i))
  {
    hide Tiled, Handles, SameMemory, SameUses;
    var f, l := Cut(mfl, i), [mfl[i].(own := run)] + mal;
    InRegion(mfl, mal, lo, hi, mfl, i);
    WholeCounts(mfl, mal, i, run);
    CutTiled(mfl, mal, lo, hi, f, l);
    WholeHandles(mfl, mal, index, f, l);
  }

  lemma WholeCounts(mfl: seq<MD>, mal: seq<MD>, i: nat, run: int)
    requires i < |mfl|
    ensures SameMemory(mfl, mal, Cut(mfl, i), [mfl[i].(own := run)] + mal)
    ensures SameUses(mfl, mal, Cut(mfl, i), [mfl[i].(own := run)] + mal, Boot, false)
  {
    var m := mfl[i].(own := run);
    assert Put(mal, 0, m) == [m] + mal;
    forall a: int ensures Covers(Cut(mfl, i), a) + Covers([m] + mal, a) == Covers(mfl, a) + Covers(mal, a) {
      RmCounts(mfl, i, a, Boot);
      InsCounts(mal, 0, m, a, Boot);
    }
    forall d: Desc ensures Uses(Cut(mfl, i), d) + Uses([m] + mal, d) == Uses(mfl, d) + Uses(mal, d) {
      RmCounts(mfl, i, 0, d);
      InsCounts(mal, 0, m, 0, d);
    }
  }

  lemma WholeHandles(mfl: seq<MD>, mal: seq<MD>, index: seq<seq<int>>, f: seq<MD>, l: seq<MD>)
    requires Handles(mfl, mal, index) && SameUses(mfl, mal, f, l, Boot, false)
    ensures Handles(f, l, index)
  {
  }

  // ffit() and shrinkit(): a block is cut in two, the upper part under a new descriptor.  The
  // cut is at len; the lists l with the block in and r with the two parts count the same.
  lemma CutCounts(m: MD, len: int, d: Desc, own: int, own': int, a: int, e: Desc)
    requires 0 < len < m.length
    ensures var p, q := m.(length := len, own := own), MD(d, m.start + len, m.length - len, own');
            && Bit(p.Has(a)) + Bit(q.Has(a)) == Bit(m.Has(a))
            && Bit(p.desc == e) + Bit(q.desc == e) == Bit(m.desc == e) + Bit(e == d)
  {
  }

  // The free list and the allocated list after ffit() cut the i-th free block at amount.
  function Remainder(mfl: seq<MD>, i: nat, amount: int, d: Desc): seq<MD>
    requires i < |mfl|
  {
    mfl[i := MD(d, mfl[i].start + amount, mfl[i].length - amount, 0)]
  }

  function Front(mfl: seq<MD>, mal: seq<MD>, i: nat, amount: int, run: int): seq<MD>
    requires i < |mfl|
  {
    [mfl[i].(length := amount, own := run)] + mal
  }

  lemma TakenPart(mfl: seq<MD>, mal: seq<MD>, index: seq<seq<int>>, lo: int, hi: int, mask: int, i: nat, amount: int,
                  run: int, d: Desc, index': seq<seq<int>>)
    requires ListsOk(mfl, mal, index, lo, hi, mask) && Ascending(mfl) && i < |mfl|
    requires 0 < amount < mfl[i].length && Even(mask, amount) && HandedOut(index, index', d)
    ensures ListsOk(Remainder(mfl, i, amount, d), Front(mfl, mal, i, amount, run), index', lo, hi, mask)
    ensures Ascending(Remainder(mfl, i, amount, d))
  {
    hide Tiled, Handles, SameMemory, SameUses, BootLow, Aligned, Ascending, Even;
    var f, l := Remainder(mfl, i, amount, d), Front(mfl, mal, i, amount, run);
    PartCounts(mfl, mal, i, amount, run, d);
    InRegion(mfl, mal, lo, hi, mfl, i);
    PartShape(mfl, mal, lo, mask, i, amount, run, d);
    CutTiled(mfl, mal, lo, hi, f, l);
    CutHandles(mfl, mal, index, f, l, d, index');
  }

  lemma EvenSum(mask: int, a: int, b: int)
    requires Even(mask, a) && Even(mask, b)
    ensures Even(mask, a + b) && Even(mask, a - b)
  {
    var p: int :| Times(mask, p) == a;
    var q: int :| Times(mask, q) == b;
    assert Times(mask, p + q) == a + b && Times(mask, p - q) == a - b;
  }

  // The cut leaves the order, the alignment and the place of the boot descriptor as they were.
  lemma PartShape(mfl: seq<MD>, mal: seq<MD>, lo: int, mask: int, i: nat, amount: int, run: int, d: Desc)
    requires Ascending(mfl) && i < |mfl| && 0 < amount < mfl[i].length && lo <= mfl[i].start && d.Slot?
    requires BootLow(mfl, lo) && BootLow(mal, lo) && Aligned(mfl, mask) && Aligned(mal, mask) && Even(mask, amount)
    ensures var f, l := Remainder(mfl, i, amount, d), Front(mfl, mal, i, amount, run);
            && Ascending(f) && BootLow(f, lo) && BootLow(l, lo) && Aligned(f, mask) && Aligned(l, mask)
            && (forall k :: 0 <= k < |f| ==> f[k].length > 0 || f[k] in mfl)
            && (forall k :: 0 <= k < |l| ==> l[k].length > 0 || l[k] in mal)
  {
    hide Even;
    EvenSum(mask, mfl[i].start, amount);
    EvenSum(mask, mfl[i].length, amount);
    assert forall k :: 0 <= k < |mal| ==> Front(mfl, mal, i, amount, run)[k + 1] == mal[k];
  }

  lemma PartCounts(mfl: seq<MD>, mal: seq<MD>, i: nat, amount: int, run: int, d: Desc)
    requires i < |mfl| && 0 < amount < mfl[i].length
    ensures SameMemory(mfl, mal, Remainder(mfl, i, amount, d), Front(mfl, mal, i, amount, run))
    ensures SameUses(mfl, mal, Remainder(mfl, i, amount, d), Front(mfl, mal, i, amount, run), d, true)
  {
    var f, l := Remainder(mfl, i, amount, d), Front(mfl, mal, i, amount, run);
    assert Put(mal, 0, l[0]) == l;
    forall a: int ensures Covers(f, a) + Covers(l, a) == Covers(mfl, a) + Covers(mal, a) {
      CutCounts(mfl[i], amount, d, run, 0, a, Boot);
      SetCounts(mfl, i, f[i], a, Boot);
      InsCounts(mal, 0, l[0], a, Boot);
    }
    forall e: Desc ensures Uses(f, e) + Uses(l, e) == Uses(mfl, e) + Uses(mal, e) + Bit(e == d) {
      CutCounts(mfl[i], amount, d, run, 0, 0, e);
      SetCounts(mfl, i, f[i], 0, e);
      InsCounts(mal, 0, l[0], 0, e);
    }
  }

  lemma CutTiled(mfl: seq<MD>, mal: seq<MD>, lo: int, hi: int, f: seq<MD>, l: seq<MD>)
    requires Tiled(mfl, mal, lo, hi) && SameMemory(mfl, mal, f, l)
    requires forall k :: 0 <= k < |f| ==> f[k].length > 0 || f[k] in mfl
    requires forall k :: 0 <= k < |l| ==> l[k].length > 0 || l[k] in mal
    ensures Tiled(f, l, lo, hi)
  {
  }

  lemma CutHandles(mfl: seq<MD>, mal: seq<MD>, index: seq<seq<int>>, f: seq<MD>, l: seq<MD>, d: Desc, index': seq<seq<int>>)
    requires Handles(mfl, mal, index) && HandedOut(index, index', d) && SameUses(mfl, mal, f, l, d, true)
    ensures Handles(f, l, index')
  {
  }

  // The allocated list after shrinkit() cut its k-th block at newlen.
  function Shrunk(mal: seq<MD>, k: nat, newlen: int, d: Desc): seq<MD>
    requires k < |mal|
  {
    [MD(d, mal[k].start + newlen, mal[k].length - newlen, 0)] + mal[k := mal[k].(length := newlen)]
  }

  lemma ShrunkOk(mfl: seq<MD>, mal: seq<MD>, index: seq<seq<int>>, lo: int, hi: int, mask: int, k: nat, newlen: int,
                 d: Desc, index': seq<seq<int>>)
    requires ListsOk(mfl, mal, index, lo, hi, mask) && k < |mal|
    requires 0 < newlen < mal[k].length && Even(mask, newlen) && HandedOut(index, index', d)
    ensures ListsOk(mfl, Shrunk(mal, k, newlen, d), index', lo, hi, mask)
  {
    hide Tiled, Handles, SameMemory, SameUses, BootLow, Aligned, Even;
    ShrunkCounts(mfl, mal, k, newlen, d);
    InRegion(mfl, mal, lo, hi, mal, k);
    ShrunkShape(mal, lo, mask, k, newlen, d);
    CutTiled(mfl, mal, lo, hi, mfl, Shrunk(mal, k, newlen, d));
    CutHandles(mfl, mal, index, mfl, Shrunk(mal, k, newlen, d), d, index');
  }

  lemma ShrunkShape(mal: seq<MD>, lo: int, mask: int, k: nat, newlen: int, d: Desc)
    requires k < |mal| && 0 < newlen < mal[k].length && lo <= mal[k].start && d.Slot?
    requires BootLow(mal, lo) && Aligned(mal, mask) && Even(mask, newlen)
    ensures var l := Shrunk(mal, k, newlen, d);
            && BootLow(l, lo) && Aligned(l, mask) && (forall i :: 0 <= i < |l| ==> l[i].length > 0 || l[i] in mal)
  {
    hide Even;
    EvenSum(mask, mal[k].start, newlen);
    EvenSum(mask, mal[k].length, newlen);
    var l := Shrunk(mal, k, newlen, d);
    assert forall i :: 0 <= i < |mal| && i != k ==> l[i + 1] == mal[i];
  }

  lemma ShrunkCounts(mfl: seq<MD>, mal: seq<MD>, k: nat, newlen: int, d: Desc)
    requires k < |mal| && 0 < newlen < mal[k].length
    ensures SameMemory(mfl, mal, mfl, Shrunk(mal, k, newlen, d))
    ensures SameUses(mfl, mal, mfl, Shrunk(mal, k, newlen, d), d, true)
  {
    var l, m := Shrunk(mal, k, newlen, d), mal[k := mal[k].(length := newlen)];
    assert Put(m, 0, l[0]) == l;
    forall a: int ensures Covers(l, a) == Covers(mal, a) {
      CutCounts(mal[k], newlen, d, mal[k].own, 0, a, Boot);
      SetCounts(mal, k, m[k], a, Boot);
      InsCounts(m, 0, l[0], a, Boot);
    }
    forall e: Desc ensures Uses(l, e) == Uses(mal, e) + Bit(e == d) {
      CutCounts(mal[k], newlen, d, mal[k].own, 0, 0, e);
      SetCounts(mal, k, m[k], 0, e);
      InsCounts(m, 0, l[0], 0, e);
    }
  }

  // A cut leaves the lists in order exactly when the new length lies strictly inside the block.
  lemma ShrunkOnlyIf(mfl: seq<MD>, mal: seq<MD>, lo: int, hi: int, k: nat, newlen: int, d: Desc)
    requires Tiled(mfl, mal, lo, hi) && k < |mal|
    ensures Tiled(mfl, Shrunk(mal, k, newlen, d), lo, hi) <==> 0 < newlen < mal[k].length
  {
    var l := Shrunk(mal, k, newlen, d);
    if 0 < newlen < mal[k].length {
      ShrunkCounts(mfl, mal, k, newlen, d);
      CutTiled(mfl, mal, lo, hi, mfl, l);
    } else {
      assert l[0].length == mal[k].length - newlen && l[k + 1].length == newlen;
    }
  }

  // The first free block that is large enough.
  function FirstFit(l: seq<MD>, amount: int): (i: nat)
    ensures i <= |l| && (i < |l| ==> l[i].length >= amount)
    ensures forall k :: 0 <= k < i ==> l[k].length < amount
  {
    if l == [] || l[0].length >= amount then 0 else FirstFit(l[1..], amount) + 1
  }

  // It is the lowest one, as the free list ascends.
  lemma FirstIsLowest(l: seq<MD>, amount: int, k: nat)
    requires Ascending(l) && (forall i :: 0 <= i < |l| ==> l[i].length > 0) && k < |l| && l[k].length >= amount
    ensures FirstFit(l, amount) < |l| && l[FirstFit(l, amount)].start <= l[k].start
  {
    assert FirstFit(l, amount) <= k;
  }

  // The length of the largest free block, 0 when there is none.
  function MaxFree(l: seq<MD>): (m: int)
    ensures m >= 0 && forall k :: 0 <= k < |l| ==> l[k].length <= m
    ensures m > 0 ==> exists k :: 0 <= k < |l| && l[k].length == m
  {
    if l == [] then 0
    else
      var n := |l| - 1;
      var m := MaxFree(l[..n]);
      if l[n].length > m then l[n].length else m
  }

  // Asking for the largest size finds a block of exactly that size.
  lemma MaxFits(l: seq<MD>)
    requires MaxFree(l) > 0
    ensures FirstFit(l, MaxFree(l)) < |l| && l[FirstFit(l, MaxFree(l))].length == MaxFree(l)
  {
    var k :| 0 <= k < |l| && l[k].length == MaxFree(l);
    assert FirstFit(l, MaxFree(l)) <= k;
  }

  const MAXLONG := 0x7fff_ffff

  // & ~mask on an unsigned number.
  function Down(mask: int, u: int): int {
    Times(mask, if mask == 3 then u / 4 else u / 2)
  }

  // (x + mask) & ~mask on 32 bits.
  function Round32(mask: int, x: int): int {
    var v := Down(mask, (x + mask) % 0x1_0000_0000);
    if v > MAXLONG then v - 0x1_0000_0000 else v
  }

  lemma DownIs(mask: int, u: int, c: int)
    requires (mask == 1 || mask == 3) && Even(mask, c)
    ensures Even(mask, Down(mask, u)) && u - mask <= Down(mask, u) <= u
    ensures u >= c ==> Down(mask, u) >= c
    ensures u == c + mask ==> Down(mask, u) == c
  {
    var q: int :| Times(mask, q) == c;
  }

  // Rounding up works unless it runs over the end of a LONG; then it gives a negative size.
  lemma RoundUp(mask: int, x: int)
    requires (mask == 1 || mask == 3) && -MAXLONG - 1 <= x <= MAXLONG
    ensures Even(mask, Round32(mask, x)) && Round32(mask, x) % (if mask == 3 then 4 else 2) == 0
    ensures Round32(mask, x) >= 0 <==> -mask <= x <= MAXLONG - mask
    ensures -mask <= x <= MAXLONG - mask ==> x <= Round32(mask, x) <= x + mask
    ensures -mask <= x <= MAXLONG - mask && Even(mask, x) ==> Round32(mask, x) == x
  {
    hide Even, Down;
    var y := x + mask;
    var u := if y < 0 then y + 0x1_0000_0000 else y;
    assert u == y % 0x1_0000_0000;
    assert Even(mask, 0x8000_0000) && Even(mask, 0x1_0000_0000) && Even(mask, 0) by { Evens(mask); }
    DownIs(mask, u, 0x8000_0000);
    DownIs(mask, u, 0);
    EvenSum(mask, Down(mask, u), 0x1_0000_0000);
    if Even(mask, x) {
      DownIs(mask, u, x);
    }
    EvenIs(mask, Round32(mask, x));
  }

  // Sizes and addresses are multiples of 4 bytes, or of 2.
  lemma EvenIs(mask: int, x: int)
    requires mask == 1 || mask == 3
    ensures Even(mask, x) <==> x % (if mask == 3 then 4 else 2) == 0
  {
    var d := if mask == 3 then 4 else 2;
    if x % d == 0 {
      assert Times(mask, x / d) == x;
    }
  }

  lemma Evens(mask: int)
    ensures Even(mask, 0x8000_0000) && Even(mask, 0x1_0000_0000) && Even(mask, 0)
  {
    var q := if mask == 3 then 0x2000_0000 else 0x4000_0000;
    assert Times(mask, q) == 0x8000_0000 && Times(mask, 2 * q) == 0x1_0000_0000 && Times(mask, 0) == 0;
  }

  // Some block of a list holds an address that is counted.
  lemma {:induction false} Holder(l: seq<MD>, a: int) returns (k: nat)
    requires Covers(l, a) > 0
    ensures k < |l| && l[k].start <= a < l[k].start + l[k].length
  {
    if l[0].Has(a) {
      k := 0;
    } else {
      k := Holder(l[1..], a);
      k := k + 1;
    }
  }

  lemma BlocksApart(l: seq<MD>, i: nat, k: nat)
    requires i < k < |l| && l[i].length > 0 && l[k].length > 0
    requires forall a: int :: Covers(l, a) <= 1
    requires forall d: Desc :: Uses(l, d) <= 1
    ensures l[i].start + l[i].length <= l[k].start || l[k].start + l[k].length <= l[i].start
    ensures l[i].desc != l[k].desc
  {
    var a := if l[i].start < l[k].start then l[k].start else l[i].start;
    RmCounts(l, i, a, l[i].desc);
    HasCounts(Cut(l, i), k - 1, a, l[i].desc);
    assert Covers(l, a) <= 1 && Uses(l, l[i].desc) <= 1;
  }

  // What the invariant of a pool says of its blocks, free and allocated: they are apart and
  // hold just the addresses of the region, in units of the alignment; no two share a descriptor; no two free ones touch.
  lemma ListsAre(mfl: seq<MD>, mal: seq<MD>, index: seq<seq<int>>, lo: int, hi: int, mask: int, a: int)
    requires ListsOk(mfl, mal, index, lo, hi, mask) && Ascending(mfl) && (mask == 1 || mask == 3)
    ensures var l, d := mfl + mal, if mask == 3 then 4 else 2;
            && (lo <= a < hi <==> exists k :: 0 <= k < |l| && l[k].start <= a < l[k].start + l[k].length)
            && (forall k :: 0 <= k < |l| ==> l[k].length > 0 && l[k].start % d == 0 && l[k].length % d == 0)
            && (forall i, k :: 0 <= i < k < |l| ==>
                  (l[i].start + l[i].length <= l[k].start || l[k].start + l[k].length <= l[i].start))
            && (forall i, k :: 0 <= i < k < |l| ==> l[i].desc != l[k].desc)
            && (forall k :: 0 <= k < |l| ==> l[k].desc == Boot || Live(index, l[k].desc))
    ensures forall i, k :: 0 <= i < k < |mfl| ==> mfl[i].start + mfl[i].length < mfl[k].start
  {
    hide Even, Live, BootLow;
    var l := mfl + mal;
    forall k | 0 <= k < |l| ensures l[k].length > 0 && (l[k].desc == Boot || Live(index, l[k].desc)) {
      var m, i := if k < |mfl| then mfl else mal, if k < |mfl| then k else k - |mfl|;
      ListHandle(mfl, mal, index, m, i);
    }
    forall k | 0 <= k < |l| ensures l[k].start % (mask + 1) == 0 && l[k].length % (mask + 1) == 0 {
      EvenIs(mask, l[k].start);
      EvenIs(mask, l[k].length);
    }
    forall a: int ensures Covers(l, a) == Bit(lo <= a < hi) {
      ConcatCounts(mfl, mal, a, Boot);
      assert Covers(mfl, a) >= 0;
    }
    forall d: Desc ensures Uses(l, d) <= 1 {
      ConcatCounts(mfl, mal, 0, d);
      assert Uses(mfl, d) >= 0;
    }
    assert Covers(l, a) == Bit(lo <= a < hi);
    if lo <= a < hi {
      var k := Holder(l, a);
    }
    forall k | 0 <= k < |l| && l[k].start <= a < l[k].start + l[k].length ensures lo <= a < hi {
      HasCounts(l, k, a, Boot);
    }
    forall i, k | 0 <= i < k < |l|
      ensures l[i].start + l[i].length <= l[k].start || l[k].start + l[k].length <= l[i].start
      ensures l[i].desc != l[k].desc
    {
      BlocksApart(l, i, k);
    }
  }

  lemma {:induction false} CoversNone(l: seq<MD>, a: int)
    requires forall i :: 0 <= i < |l| ==> !l[i].Has(a)
    ensures Covers(l, a) == 0
  {
    if l != [] {
      CoversNone(l[1..], a);
    }
  }

  ghost predicate Solid(l: seq<MD>) {
    forall i :: 0 <= i < |l| ==> l[i].length > 0
  }

  lemma HeadBelow(l: seq<MD>, m: seq<MD>)
    requires Ascending(l) && Ascending(m) && Solid(l) && Solid(m) && l != []
    requires forall a: int :: Covers(l, a) == Covers(m, a)
    ensures m != [] && m[0].start <= l[0].start
    ensures m[0].start == l[0].start ==> m[0].End() <= l[0].End()
  {
    var a, b := l[0].start, l[0].End();
    HasCounts(l, 0, a, Boot);
    CoversNone(l, b);
    assert Covers(m, a) == Covers(l, a) && Covers(m, b) == Covers(l, b);
    if forall i :: 0 <= i < |m| ==> !m[i].Has(a) {
      CoversNone(m, a);
      assert false;
    }
    HasCounts(m, 0, b, Boot);
  }

  // The free list is determined by which memory is free.
  lemma {:induction false} Canonical(l: seq<MD>, m: seq<MD>)
    requires Ascending(l) && Ascending(m) && Solid(l) && Solid(m)
    requires forall a: int :: Covers(l, a) == Covers(m, a)
    ensures |l| == |m| && forall i :: 0 <= i < |l| ==> l[i].start == m[i].start && l[i].length == m[i].length
  {
    if m != [] {
      HeadBelow(m, l);
    }
    if l != [] {
      HeadBelow(l, m);
      forall a: int ensures Covers(l[1..], a) == Covers(m[1..], a) {
        assert Covers(l, a) == Covers(m, a);
      }
      Canonical(l[1..], m[1..]);
      assert forall i :: 0 < i < |l| ==> l[i] == l[1..][i - 1];
      assert forall i :: 0 < i < |m| ==> m[i] == m[1..][i - 1];
    }
  }

  // ffit() leaves the lists in order exactly when the rounded amount lies strictly inside the
  // block it cuts.
  lemma TakenOnlyIf(mfl: seq<MD>, mal: seq<MD>, lo: int, hi: int, i: nat, amount: int, run: int, d: Desc)
    requires Tiled(mfl, mal, lo, hi) && i < |mfl|
    ensures Tiled(Remainder(mfl, i, amount, d), Front(mfl, mal, i, amount, run), lo, hi) <==> 0 < amount < mfl[i].length
  {
    var f, l := Remainder(mfl, i, amount, d), Front(mfl, mal, i, amount, run);
    if 0 < amount < mfl[i].length {
      PartCounts(mfl, mal, i, amount, run, d);
      CutTiled(mfl, mal, lo, hi, f, l);
    } else {
      assert f[i].length == mfl[i].length - amount && l[0].length == amount;
    }
  }

  // A request within the alignment of the largest LONG is rounded to a negative size, which the
  // first free block satisfies: the cut then spoils the lists.
  lemma TooLarge(mfl: seq<MD>, mal: seq<MD>, lo: int, hi: int, mask: int, amount: int, run: int, d: Desc)
    requires Tiled(mfl, mal, lo, hi) && mfl != [] && (mask == 1 || mask == 3) && MAXLONG - mask < amount <= MAXLONG
    ensures var a := Round32(mask, amount);
            a < 0 && FirstFit(mfl, a) == 0 &&
            !Tiled(Remainder(mfl, 0, a, d), Front(mfl, mal, 0, a, run), lo, hi)
  {
    RoundUp(mask, amount);
    TakenOnlyIf(mfl, mal, lo, hi, 0, Round32(mask, amount), run, d);
  }
}

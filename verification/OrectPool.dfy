// The nodes of the rectangle lists (aes/gemwrect.c): a free pool and one list per window.
module OrectPool {
  import opened Rects
  import opened Lists
  import opened Pools

  // The rectangles in a list's nodes.
  function Values(g: seq<Rect>, ids: seq<nat>): (rs: seq<Rect>)
    ensures |rs| == |ids|
  {
    seq(|ids|, i requires 0 <= i < |ids| => if ids[i] < |g| then g[ids[i]] else Rect(0, 0, 0, 0))
  }

  lemma ValuesSame(g: seq<Rect>, g': seq<Rect>, ids: seq<nat>)
    requires |g| == |g'| && forall i :: 0 <= i < |ids| && ids[i] < |g| ==> g'[ids[i]] == g[ids[i]]
    ensures Values(g', ids) == Values(g, ids)
  {
  }

  // brkrct() under way: the pieces of the first sides are linked before the i-th node of the
  // list, from nodes off the pool.
  ghost predicate Linking(g0: seq<Rect>, rul0: seq<nat>, lists0: seq<seq<nat>>,
                          g: seq<Rect>, rul: seq<nat>, lists: seq<seq<nat>>,
                          new_: Rect, wh: nat, i: nat, sides: nat)
  {
    && wh < |lists0| && i < |lists0[wh]| && lists0[wh][i] < |g0| && |g| == |g0|
    && var p, l := Pieces(new_, g0[lists0[wh][i]], sides), lists0[wh];
       && |p| <= |rul0| && rul == rul0[|p|..] && lists == lists0[wh := l[..i] + rul0[..|p|] + l[i..]]
       && Values(g, rul0[..|p|]) == p
       && (forall n :: 0 <= n < |g| && n !in rul0[..|p|] ==> g[n] == g0[n])
  }

  lemma LinkingStart(g: seq<Rect>, rul: seq<nat>, lists: seq<seq<nat>>, new_: Rect, wh: nat, i: nat)
    requires wh < |lists| && i < |lists[wh]| && lists[wh][i] < |g|
    ensures Linking(g, rul, lists, g, rul, lists, new_, wh, i, 0)
  {
    assert lists[wh][..i] + rul[..0] + lists[wh][i..] == lists[wh];
  }

  // One side: nothing to do, or one more piece at place k of the list.
  lemma LinkingStep(g0: seq<Rect>, rul0: seq<nat>, lists0: seq<seq<nat>>,
                    g: seq<Rect>, rul: seq<nat>, lists: seq<seq<nat>>,
                    new_: Rect, wh: nat, i: nat, sides: nat, old_: Rect)
    requires Conserved(rul0, lists0, |g0|) && Linking(g0, rul0, lists0, g, rul, lists, new_, wh, i, sides)
    requires old_ == g0[lists0[wh][i]]
    ensures g[lists0[wh][i]] == old_
    ensures |Pieces(new_, old_, sides + 1)| ==
            if HavePiece(sides, new_, old_) then |Pieces(new_, old_, sides)| + 1 else |Pieces(new_, old_, sides)|
    ensures !HavePiece(sides, new_, old_) ==> Linking(g0, rul0, lists0, g, rul, lists, new_, wh, i, sides + 1)
    ensures HavePiece(sides, new_, old_) && rul != [] ==>
      (wh < |lists| && i + |Pieces(new_, old_, sides)| <= |lists[wh]| && rul[0] < |g| &&
       Linking(g0, rul0, lists0, g[rul[0] := Piece(sides, new_, old_)], rul[1..],
         lists[wh := Put(lists[wh], i + |Pieces(new_, old_, sides)|, rul[0])], new_, wh, i, sides + 1))
  {
    PoolFacts(rul0, lists0, |g0|);
    var k := |Pieces(new_, old_, sides)|;
    assert lists0[wh][i] !in rul0[..k];
    if HavePiece(sides, new_, old_) && rul != [] {
      LinkedOne(g0, rul0, lists0, g, rul, lists, new_, wh, i, sides, old_, k);
    }
  }

  lemma LinkedOne(g0: seq<Rect>, rul0: seq<nat>, lists0: seq<seq<nat>>,
                  g: seq<Rect>, rul: seq<nat>, lists: seq<seq<nat>>,
                  new_: Rect, wh: nat, i: nat, sides: nat, old_: Rect, k: nat)
    requires Conserved(rul0, lists0, |g0|) && Linking(g0, rul0, lists0, g, rul, lists, new_, wh, i, sides)
    requires old_ == g0[lists0[wh][i]] && HavePiece(sides, new_, old_) && rul != [] && k == |Pieces(new_, old_, sides)|
    ensures i + k <= |lists[wh]| && rul[0] < |g|
    ensures Linking(g0, rul0, lists0, g[rul[0] := Piece(sides, new_, old_)], rul[1..],
              lists[wh := Put(lists[wh], i + k, rul[0])], new_, wh, i, sides + 1)
  {
    PoolFacts(rul0, lists0, |g0|);
    var l := lists0[wh];
    var q := Piece(sides, new_, old_);
    assert rul0[..k + 1] == rul0[..k] + [rul[0]];
    assert Put(lists[wh], i + k, rul[0]) == l[..i] + rul0[..k + 1] + l[i..];
    assert lists0[wh := Put(lists[wh], i + k, rul[0])] == lists[wh := Put(lists[wh], i + k, rul[0])];
    ValuesSame(g, g[rul[0] := q], rul0[..k]);
    assert Values(g[rul[0] := q], rul0[..k + 1]) == Values(g[rul[0] := q], rul0[..k]) + [q];
  }

  // The list after brkrct(), with the old node given back.
  lemma LinkingDone(g0: seq<Rect>, rul0: seq<nat>, lists0: seq<seq<nat>>,
                    g: seq<Rect>, rul: seq<nat>, lists: seq<seq<nat>>, new_: Rect, wh: nat, i: nat, k: nat, l: seq<nat>)
    requires Conserved(rul0, lists0, |g0|) && Linking(g0, rul0, lists0, g, rul, lists, new_, wh, i, 4)
    requires new_.Crosses(g0[lists0[wh][i]]) && k == |Pieces(new_, g0[lists0[wh][i]], 4)|
    requires wh < |lists| && i + k < |lists[wh]| && l == lists[wh][..i + k] + lists[wh][i + k + 1..]
    ensures lists[wh][i + k] == lists0[wh][i]
    ensures Values(g, l) == Values(g0, lists0[wh])[..i] + Break(new_, g0[lists0[wh][i]]) + Values(g0, lists0[wh])[i + 1..]
    ensures Conserved([lists0[wh][i]] + rul, lists[wh := l], |g|)
    ensures forall w :: 0 <= w < |lists0| && w != wh ==> lists[w] == lists0[w] && Values(g, lists[w]) == Values(g0, lists0[w])
  {
    hide Pieces, Values, Conserved, new_.Crosses;
    var l0 := lists0[wh];
    assert lists[wh] == l0[..i] + rul0[..k] + l0[i..];
    assert l == l0[..i] + rul0[..k] + l0[i + 1..];
    LinkedMoves(rul0, lists0, |g0|, wh, i, k, rul, l);
    assert lists0[wh := l] == lists[wh := l];
    LinkedValues(g0, rul0, lists0, g, wh, i, k, l);
  }

  lemma LinkingSize(g0: seq<Rect>, rul0: seq<nat>, lists0: seq<seq<nat>>,
                    g: seq<Rect>, rul: seq<nat>, lists: seq<seq<nat>>, new_: Rect, wh: nat, i: nat, k: nat)
    requires Linking(g0, rul0, lists0, g, rul, lists, new_, wh, i, 4) && k == |Pieces(new_, g0[lists0[wh][i]], 4)|
    ensures wh < |lists| && i + k < |lists[wh]|
  {
  }

  lemma LinkedMoves(rul0: seq<nat>, lists0: seq<seq<nat>>, n: nat, wh: nat, i: nat, k: nat, rul: seq<nat>, l: seq<nat>)
    requires Conserved(rul0, lists0, n) && wh < |lists0| && i < |lists0[wh]| && k <= |rul0| && rul == rul0[k..]
    requires l == lists0[wh][..i] + rul0[..k] + lists0[wh][i + 1..]
    ensures Conserved([lists0[wh][i]] + rul, lists0[wh := l], n)
  {
    hide Conserved;
    var l0 := lists0[wh];
    assert l0 == l0[..i] + [l0[i]] + l0[i + 1..];
    assert rul0 == rul0[..k] + rul;
    MoveNodes(rul0, lists0, n, wh, [l0[i]] + rul, l);
  }

  lemma LinkedValues(g0: seq<Rect>, rul0: seq<nat>, lists0: seq<seq<nat>>, g: seq<Rect>, wh: nat, i: nat, k: nat, l: seq<nat>)
    requires Conserved(rul0, lists0, |g0|) && wh < |lists0| && i < |lists0[wh]| && k <= |rul0| && |g| == |g0|
    requires l == lists0[wh][..i] + rul0[..k] + lists0[wh][i + 1..]
    requires forall n :: 0 <= n < |g| && n !in rul0[..k] ==> g[n] == g0[n]
    ensures Values(g, l) == Values(g0, lists0[wh])[..i] + Values(g, rul0[..k]) + Values(g0, lists0[wh])[i + 1..]
    ensures forall w :: 0 <= w < |lists0| && w != wh ==> Values(g, lists0[w]) == Values(g0, lists0[w])
  {
    PoolFacts(rul0, lists0, |g0|);
    forall w | 0 <= w < |lists0| ensures Values(g, lists0[w]) == Values(g0, lists0[w]) {
      ValuesSame(g0, g, lists0[w]);
    }
    assert Values(g, l) == Values(g, lists0[wh])[..i] + Values(g, rul0[..k]) + Values(g, lists0[wh])[i + 1..];
  }

  // Giving up half way loses no node.
  lemma LinkingKeeps(g0: seq<Rect>, rul0: seq<nat>, lists0: seq<seq<nat>>,
                     g: seq<Rect>, rul: seq<nat>, lists: seq<seq<nat>>, new_: Rect, wh: nat, i: nat, sides: nat)
    requires Conserved(rul0, lists0, |g0|) && Linking(g0, rul0, lists0, g, rul, lists, new_, wh, i, sides)
    ensures Conserved(rul, lists, |g|)
  {
    var l, k := lists0[wh], |Pieces(new_, g0[lists0[wh][i]], sides)|;
    assert rul0 == rul0[..k] + rul;
    assert l == l[..i] + l[i..];
    MoveNodes(rul0, lists0, |g0|, wh, rul, l[..i] + rul0[..k] + l[i..]);
  }
}

// The windows' visible rectangles (aes/gemwrect.c, driven by aes/gemwmlib.c).
module WinRects {
  import opened Bounds
  import opened Rects
  import opened Visible
  import opened Lists
  import opened Pools
  import opened OrectPool
  import opened ObjTree
  import opened TreeEdit
  import opened TreeFind

  const DESKWH := 0
  const NUM_WIN := 16
  const NUM_ORECT := NUM_WIN * 10
  const DROP_SHADOW_SIZE := 2

  // w_getsize() of WS_TRUE: the window with its shadow.
  function TrueSize(o: Obj): Rect {
    if o.w != 0 && o.h != 0 then Rect(o.x, o.y, o.w + DROP_SHADOW_SIZE, o.h + DROP_SHADOW_SIZE)
    else Rect(o.x, o.y, o.w, o.h)
  }

  // The rectangles of every window's list.
  function Views(g: seq<Rect>, lists: seq<seq<nat>>): (v: seq<seq<Rect>>)
    ensures |v| == |lists|
  {
    seq(|lists|, w requires 0 <= w < |lists| => Values(g, lists[w]))
  }

  // Only the list of wh changed.
  ghost predicate OnlyView(v: seq<seq<Rect>>, v': seq<seq<Rect>>, wh: nat) {
    |v'| == |v| && forall w :: 0 <= w < |v| && w != wh ==> v'[w] == v[w]
  }

  lemma ViewAt(g: seq<Rect>, lists: seq<seq<nat>>, w: nat, i: nat)
    requires w < |lists| && i < |lists[w]| && lists[w][i] < |g|
    ensures |Views(g, lists)[w]| == |lists[w]| && Views(g, lists)[w][i] == g[lists[w][i]]
    ensures Views(g, lists)[w] == Values(g, lists[w]) && OnlyView(Views(g, lists), Views(g, lists), w)
  {
  }

  // Giving up half way leaves the other lists alone.
  lemma LinkingViews(g0: seq<Rect>, rul0: seq<nat>, lists0: seq<seq<nat>>,
                     g: seq<Rect>, rul: seq<nat>, lists: seq<seq<nat>>, new_: Rect, wh: nat, i: nat, sides: nat)
    requires Conserved(rul0, lists0, |g0|) && Linking(g0, rul0, lists0, g, rul, lists, new_, wh, i, sides)
    ensures OnlyView(Views(g0, lists0), Views(g, lists), wh)
  {
    PoolFacts(rul0, lists0, |g0|);
    forall w | 0 <= w < |lists0| && w != wh ensures Values(g, lists[w]) == Values(g0, lists0[w]) {
      ValuesSame(g0, g, lists0[w]);
    }
  }

  lemma DoneViews(g0: seq<Rect>, lists0: seq<seq<nat>>, g: seq<Rect>, lists: seq<seq<nat>>, wh: nat, l: seq<nat>)
    requires wh < |lists0| && |lists| == |lists0|
    requires forall w :: 0 <= w < |lists0| && w != wh ==> lists[w] == lists0[w] && Values(g, lists[w]) == Values(g0, lists0[w])
    ensures OnlyView(Views(g0, lists0), Views(g, lists[wh := l]), wh)
    ensures Views(g, lists[wh := l])[wh] == Values(g, l) && Views(g0, lists0)[wh] == Values(g0, lists0[wh])
  {
  }

  class Screen {
    const tree: array<Obj>
    const olist: array<Rect>
    var rul: seq<nat>
    var rlist: seq<seq<nat>>
    var broken: seq<bool>
    var isopen: seq<bool>
    var inuse: seq<bool>
    var wtop: int
    ghost var kids: seq<seq<nat>>
    ghost var rank: seq<nat>

    ghost predicate PoolOk()
      reads this`rul, this`rlist, this`broken
    {
      olist.Length == NUM_ORECT && |rlist| == NUM_WIN && |broken| == NUM_WIN && Conserved(rul, rlist, NUM_ORECT)
    }

    ghost function View(): (v: seq<seq<Rect>>)
      reads this`rlist, olist
      ensures |v| == |rlist|
    {
      Views(olist[..], rlist)
    }

    // wm_init() with or_start(): every node but the desktop's one is in the pool, no window is open.
    constructor (screen: Rect, full: Rect)
      ensures Valid() && Stack() == [DESKWH] && wtop == NIL && fresh(tree) && fresh(olist)
      ensures View()[DESKWH] == [full] && TrueSize(tree[DESKWH]) == TrueSize(Resize(tree[DESKWH], screen))
      ensures |isopen| == |inuse| == |rlist| == NUM_WIN && inuse[DESKWH]
      ensures forall w :: 0 < w < NUM_WIN ==> !isopen[w] && !inuse[w] && rlist[w] == [] && tree[w].next == NIL
    {
      hide Conserved, Values, Views, Forest.Ok, WindowTree, Order, Flags, Ranks;
      tree := new Obj[NUM_WIN](i => NewObj());
      olist := new Rect[NUM_ORECT](i => Rect(0, 0, 0, 0));
      rul := [];
      rlist, kids := seq(NUM_WIN, _ => []), seq(NUM_WIN, _ => []);
      broken, isopen := seq(NUM_WIN, _ => false), seq(NUM_WIN, _ => false);
      inuse := seq(NUM_WIN, w => w == DESKWH);
      wtop, rank := NIL, Ranks();
      new;
      OrStart();
      ViewSize(olist[..], rlist, DESKWH);
      FromPool(olist[..], rul, rlist, DESKWH, full);
      var po := GetOrect();
      olist[po] := full;
      rlist := rlist[DESKWH := [po]];
      NoWindows(Tree());
      tree[DESKWH] := Resize(tree[DESKWH], screen);
      ResizeOk(Forest(seq(NUM_WIN, _ => NewObj()), kids, rank), DESKWH, screen, Tree());
    }

    // or_start(): all the nodes go to the pool.
    method OrStart()
      requires |rlist| == NUM_WIN && forall w :: 0 <= w < NUM_WIN ==> rlist[w] == []
      modifies this`rul
      ensures rul != [] && Conserved(rul, rlist, NUM_ORECT)
    {
      hide Conserved;
      rul := [];
      var i: nat := 0;
      NoneHeld(rlist);
      while i < NUM_ORECT
        invariant i <= NUM_ORECT && Conserved(rul, rlist, i) && (i > 0 ==> rul != [])
      {
        OneMore(rul, rlist, i);
        rul := [i] + rul;
        i := i + 1;
      }
    }

    // get_orect(): the head of the pool, -1 when there is none.
    method GetOrect() returns (po: int)
      modifies this`rul
      ensures old(rul) == [] ==> po == -1 && rul == []
      ensures old(rul) != [] ==> po == old(rul)[0] && rul == old(rul)[1..]
    {
      if rul == [] {
        return -1;
      }
      po := rul[0];
      rul := rul[1..];
    }

    // brkrct(): the i-th rectangle of a list is replaced by what the new one leaves of it; n is
    // the place after its pieces.  It stops when the pool runs out.
    method BrkRct(new_: Rect, wh: nat, i: nat) returns (ok: bool, hit: bool, n: nat)
      requires PoolOk() && wh < NUM_WIN && i < |rlist[wh]|
      modifies this`rul, this`rlist, olist
      ensures PoolOk() && (!ok ==> rul == [])
      ensures OnlyView(old(View()), View(), wh)
      ensures ok ==> hit == new_.Crosses(old(View()[wh][i]))
      ensures ok && !hit ==> View() == old(View()) && n == i
      ensures ok && hit ==>
        (n == i + |Break(new_, old(View()[wh][i]))| &&
         View()[wh] == old(View()[wh])[..i] + Break(new_, old(View()[wh][i])) + old(View()[wh])[i + 1..])
    {
      hide Linking, Conserved, Pieces, Values, Views, OnlyView, new_.Crosses, HavePiece;
      ok, hit, n := true, false, i;
      PoolFacts(rul, rlist, NUM_ORECT);
      var r := rlist[wh][i];
      var old_ := olist[r];
      ViewAt(olist[..], rlist, wh, i);
      if new_.Crosses(old_) {
        hit := true;
        ghost var g0, rul0, lists0 := olist[..], rul, rlist;
        LinkingStart(g0, rul0, lists0, new_, wh, i);
        var side: nat, k: nat := 0, 0;
        while side < 4
          invariant side <= 4 && |rlist| == NUM_WIN && ok
          invariant Linking(g0, rul0, lists0, olist[..], rul, rlist, new_, wh, i, side)
          invariant k == |Pieces(new_, old_, side)|
          modifies this`rul, this`rlist, olist
        {
          LinkingStep(g0, rul0, lists0, olist[..], rul, rlist, new_, wh, i, side, old_);
          if HavePiece(side, new_, olist[r]) {
            ghost var g, l, u := olist[..], rlist, rul;
            var po := GetOrect();
            if po < 0 {
              LinkingViews(g0, rul0, lists0, olist[..], rul, rlist, new_, wh, i, side);
              LinkingKeeps(g0, rul0, lists0, olist[..], rul, rlist, new_, wh, i, side);
              return false, hit, n;
            }
            olist[po] := Piece(side, new_, olist[r]);
            rlist := rlist[wh := Put(rlist[wh], i + k, po)];
            k := k + 1;
            assert olist[..] == g[po := Piece(side, new_, old_)];
          }
          side := side + 1;
        }
        LinkingSize(g0, rul0, lists0, olist[..], rul, rlist, new_, wh, i, k);
        ghost var lists, l := rlist, rlist[wh][..i + k] + rlist[wh][i + k + 1..];
        LinkingDone(g0, rul0, lists0, olist[..], rul, rlist, new_, wh, i, k, l);
        DoneViews(g0, lists0, olist[..], lists, wh, l);
        rlist := rlist[wh := rlist[wh][..i + k] + rlist[wh][i + k + 1..]];
        rul := [r] + rul;
        n := i + k;
      }
    }
  
    // mkrect(): one window's list is broken by the new rectangle, and its flag records a hit.
    method MkRect(new_: Rect, wh: nat) returns (ok: bool)
      requires PoolOk() && wh < NUM_WIN
      modifies this`rul, this`rlist, this`broken, olist
      ensures PoolOk() && (!ok ==> rul == [])
      ensures ok ==> Mked(old(View()), old(broken), View(), broken, new_, wh)
    {
      hide Conserved, Values, Views, new_.Crosses, Break, BreakAll, Broke, Mking, Mked, OnlyView;
      ghost var v0, b0, d: nat := View(), broken, 0;
      ok := true;
      var i: nat := 0;
      MkStart(v0, b0, new_, wh);
      ViewSize(olist[..], rlist, wh);
      while i < |rlist[wh]|
        invariant PoolOk() && ok && Mking(v0, b0, View(), broken, new_, wh, d, i)
        invariant wh < |View()| && |rlist[wh]| == |View()[wh]| && d <= |v0[wh]|
        decreases |v0[wh]| - d
        modifies this`rul, this`rlist, this`broken, olist
      {
        ghost var v, b, n := View(), broken, i;
        MkLeft(v0, b0, v, b, new_, wh, d, i);
        var hit;
        ok, hit, i := BrkRct(new_, wh, i);
        if !ok {
          return;
        }
        if hit {
          broken := broken[wh := true];
        } else {
          i := i + 1;
        }
        MkStep(v0, b0, v, b, View(), broken, new_, wh, d, n, hit, i);
        d := d + 1;
        ViewSize(olist[..], rlist, wh);
      }
      MkDone(v0, b0, View(), broken, new_, wh, d, i);
    }

    ghost function Tree(): Forest
      reads this`kids, this`rank, tree
    {
      Forest(tree[..], kids, rank)
    }

    ghost predicate TreeOk()
      reads this`kids, this`rank, tree
    {
      tree.Length == NUM_WIN && WindowTree(Tree())
    }

    // The desktop and the open windows, bottom first.
    ghost function Stack(): seq<nat>
      reads this`kids, this`rank, tree
      requires TreeOk()
    {
      Order(Tree())
    }

    // The walk of newrect(): mkrect() for the m windows below wh.
    method EveryMkRect(wh: nat, mkrect: Rect, ghost m: nat) returns (ok: bool)
      requires PoolOk() && TreeOk() && wh < NUM_WIN && m == Place(Stack(), wh)
      modifies this`rul, this`rlist, this`broken, olist
      ensures PoolOk() && (!ok ==> rul == [])
      ensures ok ==> MkedBelow(old(View()), old(broken), View(), broken, Stack(), m, mkrect)
    {
      hide Conserved, Values, Views, BreakAll, Broke, Order, WindowTree, Place, Shallow;
      ghost var v0, b0, order := View(), broken, Stack();
      ok := true;
      TreeFacts(Tree());
      WindowWalk(Tree(), wh);
      var inside, log := EveryObj(Forest(tree[..], kids, rank), ROOT, wh, 0, 0, MAX_DEPTH);
      assert inside;
      OrderFacts(Tree());
      var k: nat := 0;
      while k < |log|
        invariant k <= |log| && PoolOk() && ok && |v0| == |b0| == NUM_WIN
        invariant MkedBelow(v0, b0, View(), broken, order, k, mkrect)
      {
        ghost var v1, b1 := View(), broken;
        ok := MkRect(mkrect, log[k].obj);
        if !ok {
          return;
        }
        MkedNext(v0, b0, v1, b1, View(), broken, order, k, mkrect);
        k := k + 1;
      }
    }

    // newrect(): a window's list is made anew, and the lists of the windows below it in the tree
    // are broken by it; m windows come before it.
    method NewRect(wh: nat, ghost m: nat) returns (ok: bool)
      requires PoolOk() && TreeOk() && wh < NUM_WIN && m == Place(Stack(), wh)
      modifies this`rul, this`rlist, this`broken, olist
      ensures PoolOk() && (!ok ==> rul == [])
      ensures ok ==> NewDone(old(View()), old(broken), View(), broken, old(Stack()), m, wh, TrueSize(tree[wh]))
    {
      hide Conserved, Values, Views, BreakAll, Broke, Order, WindowTree, Place;
      ghost var v, b, order := View(), broken, Stack();
      var r0 := rlist[wh];
      DumpList(olist[..], rul, rlist, NUM_ORECT, wh);
      if r0 != [] {
        rul := r0 + rul;
      }
      rlist := rlist[wh := []];
      broken := broken[wh := false];
      ok := true;
      var mkrect := TrueSize(tree[wh]);
      if !(mkrect.w != 0 && mkrect.h != 0) {
        return;
      }
      ghost var v0, b0 := View(), broken;
      ok := EveryMkRect(wh, mkrect, m);
      if !ok {
        return;
      }
      ghost var v1 := View();
      MkedNotHere(v0, b0, View(), broken, order, m, mkrect, wh);
      FromPool(olist[..], rul, rlist, wh, mkrect);
      var new_ := GetOrect();
      if new_ < 0 {
        ok := false;
        return;
      }
      olist[new_] := TrueSize(tree[wh]);
      rlist := rlist[wh := [new_]];
      NewDoneIs(v, b, v1, broken, View(), order, m, wh, mkrect);
    }

    // The sweep of draw_change(): newrect() for the desktop and every window, bottom first.
    method Sweep() returns (ok: bool)
      requires PoolOk() && TreeOk()
      modifies this`rul, this`rlist, this`broken, olist
      ensures PoolOk() && (!ok ==> rul == [])
      ensures ok ==> Swept(View(), broken, Stack(), Sizes(tree[..], Stack()), |Stack()|)
      ensures ok ==> forall w: nat :: w < NUM_WIN && w !in Stack() ==> View()[w] == old(View()[w])
    {
      hide Conserved, Values, Views, BreakAll, Broke, Order, WindowTree, Place, NewDone, Swept, Shallow;
      ghost var v0, order, t := View(), Stack(), Sizes(tree[..], Stack());
      TreeFacts(Tree());
      WindowWalk(Tree(), NIL);
      var inside, log := EveryObj(Forest(tree[..], kids, rank), ROOT, NIL, 0, 0, MAX_DEPTH);
      assert inside;
      OrderFacts(Tree());
      SweptNone(View(), broken, order, t);
      ok := true;
      var k: nat := 0;
      while k < |log|
        invariant k <= |log| && PoolOk() && ok
        invariant Swept(View(), broken, order, t, k)
        invariant forall w: nat :: w < NUM_WIN && w !in order ==> View()[w] == v0[w]
      {
        ghost var v, b := View(), broken;
        ok := NewRect(log[k].obj, k);
        if !ok {
          return;
        }
        SweptNext(v, b, View(), broken, order, t, k);
        NewDoneOthers(v, b, View(), broken, order, k, t[k]);
        k := k + 1;
      }
    }

    // The open windows are the desktop's children, and gl_wtop is the last of them.
    ghost predicate FlagsOk()
      reads this`isopen, this`inuse, this`wtop, this`kids, this`rank
    {
      |isopen| == NUM_WIN && |inuse| == NUM_WIN && Flags(isopen, wtop, kids, rank)
    }

    ghost predicate Valid()
      reads this, tree, olist
    {
      PoolOk() && TreeOk() && FlagsOk()
    }

    // The lists and flags are those of the windows as they are now.
    ghost predicate Current()
      reads this`rlist, this`broken, this`kids, this`rank, tree, olist
      requires TreeOk()
    {
      Swept(View(), broken, Stack(), Sizes(tree[..], Stack()), |Stack()|)
    }

    // draw_change() up to the redrawing: the new size, and for an open window the sweep.
    method DrawChange(wh: nat, pt: Rect) returns (ok: bool)
      requires PoolOk() && TreeOk() && |isopen| == NUM_WIN && wh < NUM_WIN
      modifies this`rul, this`rlist, this`broken, this`wtop, olist, tree
      ensures PoolOk() && TreeOk() && (!ok ==> rul == []) && Stack() == old(Stack())
      ensures tree[..] == old(tree[..])[wh := Resize(old(tree[wh]), pt)]
      ensures !isopen[wh] ==> ok && View() == old(View()) && broken == old(broken) && rlist == old(rlist) && wtop == old(wtop)
      ensures !isopen[wh] && wh !in Stack() && old(Current()) ==> Current()
      ensures isopen[wh] && ok ==> Current() && wtop == tree[ROOT].tail
    {
      hide Conserved, Values, Views, Swept, WindowTree, Order;
      tree[wh] := Resize(tree[wh], pt);
      ResizeOk(old(Tree()), wh, pt, Tree());
      if !isopen[wh] {
        SizesOf(old(tree[..]), tree[..], Stack(), wh);
        return true;
      }
      ok := Sweep();
      wtop := tree[ROOT].tail;
    }

    // get_pwin(): the handle is that of a window in use.
    predicate InUse(wh: int)
      reads this`inuse
    {
      0 <= wh < NUM_WIN && wh < |inuse| && inuse[wh]
    }

    // wm_create(): the lowest handle not in use, with no size; -1 when there is none.
    method WmCreate() returns (i: int)
      requires Valid()
      modifies this`inuse, tree
      ensures |inuse| == NUM_WIN
      ensures i == -1 ==> (forall w :: 0 <= w < NUM_WIN ==> inuse[w]) && inuse == old(inuse) && tree[..] == old(tree[..])
      ensures i != -1 ==> 0 <= i < NUM_WIN && !old(inuse[i]) && (forall w :: 0 <= w < i ==> inuse[w])
      ensures i != -1 ==> inuse == old(inuse)[i := true] && tree[..] == old(tree[..])[i := Resize(old(tree[i]), Rect(0, 0, 0, 0))]
      ensures i > 0 && !isopen[i] ==> Valid() && Stack() == old(Stack()) && (old(Current()) ==> Current())
    {
      hide Conserved, Views, Swept, WindowTree, Flags, Order, Forest.Ok, Sizes;
      i := 0;
      while i < NUM_WIN && inuse[i]
        invariant 0 <= i <= NUM_WIN && forall w :: 0 <= w < i ==> inuse[w]
      {
        i := i + 1;
      }
      if i == NUM_WIN {
        return -1;
      }
      if i > 0 && !isopen[i] {
        NotOpen(Tree(), isopen, wtop, i);
      }
      inuse := inuse[i := true];
      tree[i] := Resize(tree[i], Rect(0, 0, 0, 0));
      ResizeOk(old(Tree()), i, Rect(0, 0, 0, 0), Tree());
      SizesOf(old(tree[..]), tree[..], Stack(), i);
    }

    // wm_open(): a window in use that is not open goes on top with the size asked for.
    method WmOpen(wh: int, pt: Rect) returns (r: bool, ok: bool)
      requires Valid() && wh != DESKWH
      modifies this`rul, this`rlist, this`broken, this`wtop, this`isopen, this`kids, olist, tree
      ensures r == (InUse(wh) && !old(isopen)[wh])
      ensures !r ==> ok && Valid() && Stack() == old(Stack()) && View() == old(View()) && tree[..] == old(tree[..])
      ensures r && ok ==> Valid() && Current() && isopen[wh] && wtop == wh
      ensures r && ok ==> Stack() == old(Stack()) + [wh] && Placed(old(tree[..]), tree[..], wh, pt)
      ensures !ok ==> rul == []
    {
      hide Conserved, View, Current, Swept, Sizes, OnlyLinks, WindowTree, Loose, Flags, Placed, Order, Forest.Ok;
      if !InUse(wh) || isopen[wh] {
        return false, true;
      }
      ghost var f := Tree();
      FlagsOpen(f, isopen, wtop, wh);
      isopen := isopen[wh := true];
      ObAdd(tree, kids, rank, ROOT, wh);
      kids := kids[ROOT := kids[ROOT] + [wh]];
      ghost var t := tree[..];
      NewTree(f, Tree(), kids[ROOT]);
      ok := DrawChange(wh, pt);
      PlacedIs(f.t, t, tree[..], wh, pt);
      TailIsTop(Tree());
      r := true;
    }

    // wm_close(): an open window leaves the screen.
    method WmClose(wh: int) returns (r: bool, ok: bool)
      requires Valid()
      modifies this`rul, this`rlist, this`broken, this`wtop, this`isopen, this`kids, olist, tree
      ensures r == (InUse(wh) && old(isopen)[wh])
      ensures !r ==> ok && Valid() && Stack() == old(Stack()) && View() == old(View()) && tree[..] == old(tree[..])
      ensures r && ok ==> Valid() && Current() && !isopen[wh] && wh in old(Stack())
      ensures r && ok ==> Stack() == Without(old(Stack()), wh)
      ensures r && ok ==> Placed(old(tree[..]), tree[..], wh, Rect(0, 0, 0, 0))
      ensures !ok ==> rul == []
    {
      hide Conserved, View, Current, Swept, Sizes, OnlyLinks, WindowTree, Cut, Flags, Placed, Order, Forest.Ok, Without;
      if !InUse(wh) || !isopen[wh] {
        return false, true;
      }
      ghost var f := Tree();
      ghost var i := FlagsClose(f, isopen, wtop, wh);
      var n := ObDelete(tree, kids, rank, wh, ROOT, i);
      kids := kids[ROOT := Cut(kids[ROOT], i)];
      ghost var t := tree[..];
      NewTree(f, Tree(), kids[ROOT]);
      ok := DrawChange(wh, Rect(0, 0, 0, 0));
      PlacedIs(f.t, t, tree[..], wh, Rect(0, 0, 0, 0));
      TailIsTop(Tree());
      isopen := isopen[wh := false];
      r := true;
    }

    // wm_set() of the top window, for any window in use.  Only the present top window is kept from
    // wm_mktop().  An open window is moved to the top.  For one that is not open get_par() follows
    // stale links: either out of the tree, where inside is false, or to an open window, and then
    // the window is on the screen without being open.
    method WmTop(wh: nat) returns (inside: bool, ok: bool)
      requires Valid() && InUse(wh)
      modifies this`rul, this`rlist, this`broken, this`wtop, this`kids, olist, tree
      ensures old(isopen)[wh] || wh == DESKWH ==> inside
      ensures inside && ok ==> (Valid() <==> old(isopen)[wh] || wh == DESKWH)
      ensures !isopen[wh] && wh != DESKWH ==>
        (inside <==> LeadsIn(old(tree[..]), wh, old(kids[ROOT])))
      ensures inside && ok && isopen[wh] ==> wtop == wh && (wh != old(wtop) || old(Current()) ==> Current())
      ensures inside && ok && wh != DESKWH ==> TreeOk() && Stack() == Without(old(Stack()), wh) + [wh]
      ensures inside && ok ==> forall w: nat :: w < NUM_WIN ==> TrueSize(tree[w]) == TrueSize(old(tree[w]))
    {
      hide Conserved, View, Current, Swept, Sizes, OnlyLinks, WindowTree, Cut, Flags, Order, Forest.Ok, Without;
      inside, ok := true, true;
      if wh == DESKWH {
        TopDesk(wh);
      } else if isopen[wh] {
        ok := TopOpen(wh);
      } else {
        NotOpen(Tree(), isopen, wtop, wh);
        WithoutNone(Stack(), wh);
        inside := TopStray(wh);
      }
    }

    // wm_mktop() of an open window behind its guard.
    method TopOpen(wh: nat) returns (ok: bool)
      requires Valid() && wh < NUM_WIN && isopen[wh]
      modifies this`rul, this`rlist, this`broken, this`wtop, this`kids, olist, tree
      ensures ok ==> Valid() && wtop == wh
      ensures ok ==> Stack() == Without(old(Stack()), wh) + [wh]
      ensures ok ==> forall w: nat :: w < NUM_WIN ==> TrueSize(tree[w]) == TrueSize(old(tree[w]))
      ensures ok && (wh != old(wtop) || old(Current())) ==> Current()
    {
      hide Conserved, View, Current, Swept, Sizes, OnlyLinks, WindowTree, Cut, Flags, Order, Forest.Ok, Without, Moved;
      ghost var f := Tree();
      ghost var i := FlagsClose(f, isopen, wtop, wh);
      FlagsTop(f, isopen, wtop, wh, i);
      ok := true;
      if wh != wtop {
        var r, inside := ObOrder(tree, kids, rank, wh, NIL, ROOT, i);
        kids := kids[ROOT := Moved(kids[ROOT], i, NIL)];
        NewTree(f, Tree(), kids[ROOT]);
        ghost var t := tree[..];
        var pt := Rect(tree[wh].x, tree[wh].y, tree[wh].w, tree[wh].h);
        ok := DrawChange(wh, pt);
        TailIsTop(Tree());
        assert tree[..] == t;
      }
    }

    // wm_mktop() of the desktop changes nothing.
    method TopDesk(wh: nat)
      requires Valid() && wh == DESKWH
      modifies this`rul, this`rlist, this`broken, this`wtop, olist, tree
      ensures Valid() && Stack() == old(Stack()) && tree[..] == old(tree[..]) && View() == old(View()) && !isopen[wh]
    {
      hide Conserved, Views, Swept, WindowTree, Cut, Order, Forest.Ok, Sizes;
      TreeFacts(Tree());
      var r, inside := ObOrder(tree, kids, rank, wh, NIL, 0, 0);
      var pt := Rect(tree[wh].x, tree[wh].y, tree[wh].w, tree[wh].h);
      var ok := DrawChange(wh, pt);
    }

    // wm_mktop() of a window in use that is not open.
    method TopStray(wh: nat) returns (inside: bool)
      requires Valid() && DESKWH < wh < NUM_WIN && !isopen[wh]
      modifies this`rul, this`rlist, this`broken, this`wtop, this`kids, olist, tree
      ensures inside <==> LeadsIn(old(tree[..]), wh, old(kids[ROOT]))
      ensures inside ==> TreeOk() && Stack() == old(Stack()) + [wh] && !FlagsOk() && View() == old(View())
      ensures inside ==> forall w: nat :: w < NUM_WIN ==> TrueSize(tree[w]) == TrueSize(old(tree[w]))
    {
      hide Conserved, Views, Swept, OnlyLinks, WindowTree, Loose, Order, Forest.Ok, Flags, LeadsIn;
      var parent := StrayParent(wh);
      inside := parent == ROOT;
      if inside {
        ghost var f := Tree();
        FlagsOpen(f, isopen, wtop, wh);
        var prev := GetPrev(Forest(tree[..], kids, rank), parent, wh);
        NoChild(f, wh);
        var c := tree[parent].tail;
        ListFacts(f, ROOT);
        LooseFacts(f, ROOT, wh);
        SplicedIsPut(f, ROOT, |kids[ROOT]|, wh, c);
        Splice(tree, ROOT, wh, c);
        PutOk(f, ROOT, |kids[ROOT]|, wh, tree[..]);
        PutLast(kids[ROOT], wh);
        kids := kids[ROOT := kids[ROOT] + [wh]];
        NewTree(f, Tree(), kids[ROOT]);
        NotFlags(isopen, wtop, kids, rank, wh);
        var pt := Rect(tree[wh].x, tree[wh].y, tree[wh].w, tree[wh].h);
        var ok := DrawChange(wh, pt);
      }
    }

    // get_par() on a window that is not open: the desktop when the links lead to an open window, and
    // NIL when they lead out of the tree, or round in a circle that the code would not leave.
    method StrayParent(wh: nat) returns (parent: int)
      requires Valid() && DESKWH < wh < NUM_WIN && !isopen[wh]
      ensures parent == ROOT || parent == NIL
      ensures parent == ROOT <==> LeadsIn(tree[..], wh, kids[ROOT])
      ensures parent == ROOT ==> kids[ROOT] != []
    {
      hide Conserved, Views, Swept, Cut, Order, Forest.Ok, Flags, WindowTree;
      ghost var f := Tree();
      FlagsOpen(f, isopen, wtop, wh);
      ghost var l := kids[ROOT];
      StrayStart(f, isopen, wtop, wh);
      var o: nat, seen: set<int> := wh, {};
      ghost var k: nat, i := 0, -1;
      while true
        invariant o < NUM_WIN && o == LeadsTo(f.t, wh, k) && seen <= Handles() && wh in seen + {o}
        invariant i < 0 ==> o !in seen && o !in l && StrayPath(f.t, l, seen, o)
        invariant i >= 0 ==> i < |l| && l[i] == o && forall j :: i <= j < |l| ==> l[j] !in seen
        decreases if i < 0 then 1 else 0, if i < 0 then Handles() - seen else {}, |l| - i
      {
        var next := tree[o].next;
        StrayStep(f, isopen, wtop, o, i);
        if next < 0 || next >= NUM_WIN {
          Nowhere(f.t, l, seen, o, wh);
          return NIL;
        }
        if tree[next].tail == o {
          assert LeadsTo(f.t, wh, k) in l;
          return next;
        }
        if next in seen + {o} {
          Nowhere(f.t, l, seen, o, wh);
          return NIL;
        }
        seen := seen + {o};
        o, k := next, k + 1;
        if i >= 0 {
          i := i + 1;
        } else if o in l {
          i :| 0 <= i < |l| && l[i] == o;
        }
      }
    }

    // wm_set() of the current size, for any window in use.
    method WmSetCurr(wh: nat, pt: Rect) returns (ok: bool)
      requires Valid() && DESKWH < wh < NUM_WIN && InUse(wh)
      modifies this`rul, this`rlist, this`broken, this`wtop, olist, tree
      ensures ok ==> Valid() && Stack() == old(Stack()) && Placed(old(tree[..]), tree[..], wh, pt)
      ensures !isopen[wh] ==> ok && View() == old(View()) && isopen == old(isopen)
      ensures !ok ==> rul == []
      ensures ok && (isopen[wh] || old(Current())) ==> Current()
    {
      hide Conserved, View, Current, Swept, Sizes, WindowTree, Flags, Placed, Order, Forest.Ok;
      ghost var f := Tree();
      if !isopen[wh] {
        NotOpen(f, isopen, wtop, wh);
      }
      TopIs(f, isopen, wtop);
      ok := DrawChange(wh, pt);
      PlacedIs(f.t, f.t, tree[..], wh, pt);
      TailIsTop(Tree());
    }

    // wm_delete(): the window is closed if need be, and its rectangles go back to the pool,
    // unless it was given a size without ever being opened.
    method WmDelete(wh: int, screen: Rect) returns (r: bool, ok: bool)
      requires Valid() && wh != DESKWH
      modifies this`rul, this`rlist, this`broken, this`wtop, this`isopen, this`inuse, this`kids, olist, tree
      ensures r == old(InUse(wh))
      ensures !r ==> ok && Valid() && Stack() == old(Stack()) && View() == old(View()) && tree[..] == old(tree[..])
      ensures r && ok ==> Valid() && !InUse(wh) && !isopen[wh] && Stack() == Without(old(Stack()), wh)
      ensures r && ok ==> Placed(old(tree[..]), tree[..], wh, screen)
      ensures r && ok && (old(isopen)[wh] || (old(Current()) && !Sized(TrueSize(old(tree[..])[wh])))) ==> Current()
      ensures r && ok ==> (rlist[wh] == [] <==> (old(isopen)[wh] || !Sized(TrueSize(old(tree[..])[wh]))))
      ensures !ok ==> rul == []
      ensures r && ok && !old(isopen)[wh] ==> Punched(old(View()), View(), Stack(), TrueSize(old(tree[..])[wh]))
    {
      hide Conserved, Views, Swept, Sizes, WindowTree, Flags, Placed, Order, Forest.Ok, NewDone, Place, Without, Punched;
      if !InUse(wh) {
        return false, true;
      }
      ghost var t := tree[..];
      r, ok := true, true;
      if isopen[wh] {
        var r';
        r', ok := WmClose(wh);
        if !ok {
          return;
        }
      }
      NotOpen(Tree(), isopen, wtop, wh);
      ghost var f, v, b := Tree(), View(), broken;
      WithoutNone(Order(f), wh);
      ok := NewRect(wh, |Stack()|);
      if !ok {
        return;
      }
      ViewSize(olist[..], rlist, wh);
      PlacedZero(t, f.t, wh);
      NewDoneHere(v, b, View(), broken, Order(f), wh, TrueSize(tree[wh]), Sizes(f.t, Order(f)));
      NewDonePunched(v, b, View(), broken, Order(f), wh, TrueSize(tree[wh]));
      tree[wh] := Resize(tree[wh], screen);
      ResizeOk(f, wh, screen, Tree());
      SizesOf(f.t, tree[..], Order(f), wh);
      PlacedAgain(t, f.t, tree[..], wh, screen);
      inuse := inuse[wh := false];
    }
  }

  function Handles(): set<int> {
    set w | InTree(w) && 0 <= w < NUM_WIN
  }

  predicate InTree(w: int) {
    0 <= w < NUM_WIN
  }

  // Where k next links lead from n.
  function LeadsTo(t: seq<Obj>, n: int, k: nat): int {
    if k == 0 then n
    else
      var m := LeadsTo(t, n, k - 1);
      if 0 <= m < |t| then t[m].next else NIL
  }

  // They lead to an open window.
  ghost predicate LeadsIn(t: seq<Obj>, n: int, l: seq<nat>) {
    exists k: nat :: LeadsTo(t, n, k) in l
  }

  // The links from the objects seen lead to one of them or to o, and none is an open window.
  ghost predicate StrayPath(t: seq<Obj>, l: seq<nat>, seen: set<int>, o: int) {
    forall m :: m in seen ==> 0 <= m < |t| && m !in l && t[m].next in seen + {o}
  }

  // Links that lead out of the tree or back never come to an open window.
  lemma Nowhere(t: seq<Obj>, l: seq<nat>, seen: set<int>, o: nat, wh: int)
    requires o < |t| && wh in seen + {o} && forall i :: 0 <= i < |l| ==> l[i] < |t|
    requires t[o].next < 0 || t[o].next >= |t| || t[o].next in seen + {o}
    ensures StrayPath(t, l, seen, o) && o !in l ==> !LeadsIn(t, wh, l)
  {
    if StrayPath(t, l, seen, o) && o !in l {
      forall k: nat ensures LeadsTo(t, wh, k) !in l {
        StaysOut(t, l, seen, o, wh, k);
      }
    }
  }

  lemma {:induction false} StaysOut(t: seq<Obj>, l: seq<nat>, seen: set<int>, o: nat, wh: int, k: nat)
    requires o < |t| && wh in seen + {o} && StrayPath(t, l, seen, o) && o !in l && forall i :: 0 <= i < |l| ==> l[i] < |t|
    requires t[o].next < 0 || t[o].next >= |t| || t[o].next in seen + {o}
    ensures LeadsTo(t, wh, k) in seen + {o} + {t[o].next, NIL} && LeadsTo(t, wh, k) !in l
  {
    if k > 0 {
      StaysOut(t, l, seen, o, wh, k - 1);
    }
  }

  lemma StrayStart(f: Forest, isopen: seq<bool>, wtop: int, wh: nat)
    requires WindowTree(f) && Flags(isopen, wtop, f.kids, f.rank) && DESKWH < wh < NUM_WIN && !isopen[wh]
    ensures |f.kids| == NUM_WIN && wh !in f.kids[ROOT] && StrayPath(f.t, f.kids[ROOT], {}, wh)
  {
  }

  // get_par() stops at the last open window, and nowhere before.
  lemma StrayStep(f: Forest, isopen: seq<bool>, wtop: int, o: nat, i: int)
    requires WindowTree(f) && Flags(isopen, wtop, f.kids, f.rank) && o < NUM_WIN && i < |f.kids[ROOT]|
    requires if i < 0 then o !in f.kids[ROOT] else f.kids[ROOT][i] == o
    ensures |f.t| == NUM_WIN && forall k :: 0 <= k < |f.kids[ROOT]| ==> f.kids[ROOT][k] < NUM_WIN
    ensures var next := f.t[o].next;
            if i < 0 then (0 <= next < NUM_WIN ==> f.t[next].tail != o)
            else if i + 1 < |f.kids[ROOT]| then next == f.kids[ROOT][i + 1] && f.t[next].tail != o && next != o
            else next == ROOT && f.t[ROOT].tail == o
    ensures forall j, k :: 0 <= j < k < |f.kids[ROOT]| ==> f.kids[ROOT][j] != f.kids[ROOT][k]
  {
    TreeFacts(f);
    ListFacts(f, ROOT);
    var next := f.t[o].next;
    if i >= 0 {
      NextSibling(f, ROOT, i, o);
    }
    if 0 < next < NUM_WIN {
      ListFacts(f, next);
    }
  }

  lemma NoChild(f: Forest, wh: nat)
    requires f.Ok() && Loose(f, ROOT, wh)
    ensures forall i: nat :: !f.Child(ROOT, i, wh)
  {
  }

  lemma PutLast(l: seq<nat>, n: nat)
    ensures Put(l, |l|, n) == l + [n]
  {
  }

  lemma NotFlags(isopen: seq<bool>, wtop: int, kids: seq<seq<nat>>, rank: seq<nat>, wh: nat)
    requires DESKWH < wh < NUM_WIN == |isopen| && !isopen[wh] && |kids| == NUM_WIN && wh in kids[ROOT]
    ensures !Flags(isopen, wtop, kids, rank)
  {
  }

  lemma WithoutNone(order: seq<nat>, wh: nat)
    requires Place(order, wh) == |order|
    ensures Without(order, wh) == order
  {
  }

  lemma PlacedAgain(t: seq<Obj>, u: seq<Obj>, t': seq<Obj>, wh: nat, pt: Rect)
    requires wh < |t| && (u == t || Placed(t, u, wh, Rect(0, 0, 0, 0))) && |u| == |t| && t' == u[wh := Resize(u[wh], pt)]
    ensures Placed(t, t', wh, pt)
  {
  }

  lemma PlacedZero(t: seq<Obj>, u: seq<Obj>, wh: nat)
    ensures Placed(t, u, wh, Rect(0, 0, 0, 0)) ==> !Sized(TrueSize(u[wh]))
  {
  }

  // newrect() on a window that is not in the tree.
  lemma NewDoneHere(v: seq<seq<Rect>>, b: seq<bool>, v': seq<seq<Rect>>, b': seq<bool>, order: seq<nat>, wh: nat,
                    t: Rect, ts: seq<Rect>)
    requires NewDone(v, b, v', b', order, |order|, wh, t) && wh !in order
    ensures |v'[wh]| == 0 <==> !Sized(t)
    ensures !Sized(t) && Swept(v, b, order, ts, |order|) ==> Swept(v', b', order, ts, |order|)
  {
  }

  // A size was cut out of the lists of all windows.
  ghost predicate Punched(v: seq<seq<Rect>>, v': seq<seq<Rect>>, order: seq<nat>, t: Rect) {
    |v'| == |v| && forall i {:trigger order[i]} :: 0 <= i < |order| && order[i] < |v| ==>
      v'[order[i]] == if Sized(t) then BreakAll(t, v[order[i]]) else v[order[i]]
  }

  lemma NewDonePunched(v: seq<seq<Rect>>, b: seq<bool>, v': seq<seq<Rect>>, b': seq<bool>, order: seq<nat>, wh: nat, t: Rect)
    requires NewDone(v, b, v', b', order, |order|, wh, t) && wh !in order
    ensures Punched(v, v', order, t)
  {
    assert order[..|order|] == order;
  }

  // The hole left by the deletion of a window with a size that was never opened: none of the lists
  // has a point of it, though the windows there are as they were.
  lemma {:induction false} HoleIs(v: seq<seq<Rect>>, b: seq<bool>, v': seq<seq<Rect>>, order: seq<nat>, sizes: seq<Rect>,
                                  n: nat, t: Rect, px: int, py: int)
    requires Swept(v, b, order, sizes, |order|) && n <= |order| && t.Solid() && Punched(v, v', order, t)
    ensures Owners(v', order, n, px, py) == if t.Has(px, py) then 0 else Owners(v, order, n, px, py)
  {
    hide ListOf, BreakAll, Count, Flag;
    if n > 0 {
      HoleIs(v, b, v', order, sizes, n - 1, t, px, py);
      assert v[order[n - 1]] == ListOf(sizes, n - 1, |order|);
      BreakAllCuts(t, v[order[n - 1]], px, py);
    }
  }

  lemma NotOpen(f: Forest, isopen: seq<bool>, wtop: int, wh: nat)
    requires WindowTree(f) && Flags(isopen, wtop, f.kids, f.rank) && 0 < wh < NUM_WIN && !isopen[wh]
    ensures wh !in Order(f) && Place(Order(f), wh) == |Order(f)|
  {
  }

  lemma TopIs(f: Forest, isopen: seq<bool>, wtop: int)
    requires WindowTree(f) && Flags(isopen, wtop, f.kids, f.rank)
    ensures wtop == f.t[ROOT].tail
  {
    TailIsTop(f);
  }

  // An open window other than gl_wtop is not the only one.
  lemma FlagsTop(f: Forest, isopen: seq<bool>, wtop: int, wh: nat, i: nat)
    requires WindowTree(f) && Flags(isopen, wtop, f.kids, f.rank) && f.Child(ROOT, i, wh)
    ensures wh == wtop ==> Without(Order(f), wh) + [wh] == Order(f)
    ensures wh != wtop ==> |f.kids[ROOT]| > 1 && [ROOT] + Moved(f.kids[ROOT], i, NIL) == Without(Order(f), wh) + [wh]
    ensures wh != wtop ==> var m := Moved(f.kids[ROOT], i, NIL); m != [] && m[|m| - 1] == wh
    ensures wh != wtop ==> Flags(isopen, wh, f.kids[ROOT := Moved(f.kids[ROOT], i, NIL)], f.rank)
  {
    hide Forest.Ok, Moved, Flags;
    TreeFacts(f);
    CutOrder(f, i);
    PlaceIs(f, i);
    var l := f.kids[ROOT];
    TopList(Order(f), l, i);
    TopFlags(l, i, isopen, wtop, f.kids, f.rank);
  }

  lemma TopList(o: seq<nat>, l: seq<nat>, i: nat)
    requires o == [ROOT] + l && i < |l| && [ROOT] + Cut(l, i) == Cut(o, i + 1)
    ensures [ROOT] + Moved(l, i, NIL) == Cut(o, i + 1) + [l[i]]
    ensures i + 1 == |l| ==> Cut(o, i + 1) + [l[i]] == o
  {
  }

  lemma TopFlags(l: seq<nat>, i: nat, isopen: seq<bool>, wtop: int, kids: seq<seq<nat>>, rank: seq<nat>)
    requires Flags(isopen, wtop, kids, rank) && l == kids[ROOT] && i < |l|
    requires forall j, k :: 0 <= j < k < |l| ==> l[j] != l[k]
    ensures var m := Moved(l, i, NIL); m != [] && m[|m| - 1] == l[i] && Flags(isopen, l[i], kids[ROOT := m], rank)
    ensures wtop == l[i] <==> i + 1 == |l|
  {
    var k := Cut(l, i);
    assert Moved(l, i, NIL) == k + [l[i]];
    forall w: nat ensures w in k + [l[i]] <==> w in l {
      if w != l[i] {
        InCut(l, i, w);
      }
    }
  }

  // The open windows are the desktop's children, and gl_wtop is the last of them.
  ghost predicate Flags(isopen: seq<bool>, wtop: int, kids: seq<seq<nat>>, rank: seq<nat>) {
    && |isopen| == NUM_WIN && |kids| == NUM_WIN && rank == Ranks()
    && !isopen[DESKWH] && (forall w: nat :: 0 < w < NUM_WIN ==> (isopen[w] <==> w in kids[ROOT]))
    && wtop == if kids[ROOT] == [] then NIL else kids[ROOT][|kids[ROOT]| - 1]
  }

  // The list without a window.
  ghost function Without(l: seq<nat>, wh: int): seq<nat> {
    var m := Place(l, wh);
    if m < |l| then Cut(l, m) else l
  }

  lemma FlagsOpen(f: Forest, isopen: seq<bool>, wtop: int, wh: nat)
    requires WindowTree(f) && Flags(isopen, wtop, f.kids, f.rank)
    requires 0 < wh < NUM_WIN && !isopen[wh]
    ensures f.Ok() && |f.kids| == |f.t| == NUM_WIN && Loose(f, ROOT, wh)
    ensures Flags(isopen[wh := true], wh, f.kids[ROOT := f.kids[ROOT] + [wh]], f.rank)
    ensures [ROOT] + (f.kids[ROOT] + [wh]) == Order(f) + [wh]
  {
  }

  lemma FlagsClose(f: Forest, isopen: seq<bool>, wtop: int, wh: nat) returns (i: nat)
    requires WindowTree(f) && Flags(isopen, wtop, f.kids, f.rank)
    requires wh < NUM_WIN && isopen[wh]
    ensures f.Ok() && |f.kids| == |f.t| == NUM_WIN && f.Child(ROOT, i, wh) && wh != ROOT && wh in Order(f)
    ensures var l := Cut(f.kids[ROOT], i);
            Flags(isopen[wh := false], if l == [] then NIL else l[|l| - 1], f.kids[ROOT := l], f.rank)
            && [ROOT] + l == Without(Order(f), wh)
  {
    hide Forest.Ok;
    TreeFacts(f);
    i :| i < |f.kids[ROOT]| && f.kids[ROOT][i] == wh;
    CutOrder(f, i);
    CutFlags(f.kids[ROOT], i, isopen, wtop, f.kids, f.rank, wh);
    assert Order(f)[i + 1] == wh;
    assert Order(f)[Place(Order(f), wh)] == wh;
    PlaceIs(f, i);
  }

  lemma PlaceIs(f: Forest, i: nat)
    requires WindowTree(f) && i < |f.kids[ROOT]|
    ensures Place(Order(f), f.kids[ROOT][i]) == i + 1 && f.kids[ROOT][i] != ROOT
  {
    OrderFacts(f);
    assert Order(f)[i + 1] == f.kids[ROOT][i] && Order(f)[0] == ROOT;
  }

  lemma CutFlags(l: seq<nat>, i: nat, isopen: seq<bool>, wtop: int, kids: seq<seq<nat>>, rank: seq<nat>, wh: nat)
    requires Flags(isopen, wtop, kids, rank) && l == kids[ROOT] && i < |l| && l[i] == wh < NUM_WIN
    requires wh !in Cut(l, i)
    ensures var k := Cut(l, i); Flags(isopen[wh := false], if k == [] then NIL else k[|k| - 1], kids[ROOT := k], rank)
  {
    forall w: nat | w != wh ensures w in Cut(l, i) <==> w in l {
      InCut(l, i, w);
    }
  }

  lemma InCut(l: seq<nat>, i: nat, w: nat)
    requires i < |l| && w != l[i]
    ensures w in Cut(l, i) <==> w in l
  {
    assert l == l[..i] + [l[i]] + l[i + 1..];
  }

  // A window has a new place, and the others keep theirs.
  ghost predicate Placed(t: seq<Obj>, t': seq<Obj>, wh: nat, pt: Rect) {
    && |t'| == |t| && wh < |t| && Rect(t'[wh].x, t'[wh].y, t'[wh].w, t'[wh].h) == pt
    && forall w :: 0 <= w < |t| && w != wh ==> TrueSize(t'[w]) == TrueSize(t[w])
  }

  lemma PlacedIs(t: seq<Obj>, u: seq<Obj>, t': seq<Obj>, wh: nat, pt: Rect)
    requires |u| == |t| && wh < |t| && t' == u[wh := Resize(u[wh], pt)]
    requires forall w :: 0 <= w < |t| ==> TrueSize(u[w]) == TrueSize(t[w])
    ensures Placed(t, t', wh, pt)
  {
  }

  lemma CutOrder(f: Forest, i: nat)
    requires WindowTree(f) && i < |f.kids[ROOT]|
    ensures [ROOT] + Cut(f.kids[ROOT], i) == Cut(Order(f), i + 1) && Order(f)[i + 1] == f.kids[ROOT][i]
    ensures f.kids[ROOT][i] !in Cut(f.kids[ROOT], i)
  {
    hide Forest.Ok;
    TreeFacts(f);
    OrderFacts(f);
    CutList(f.kids[ROOT], Order(f), i);
  }

  lemma CutList(l: seq<nat>, o: seq<nat>, i: nat)
    requires i < |l| && o == [ROOT] + l && forall j, k :: 0 <= j < k < |o| ==> o[j] != o[k]
    ensures [ROOT] + Cut(l, i) == Cut(o, i + 1) && o[i + 1] == l[i] && l[i] !in Cut(l, i)
  {
    assert forall k :: 0 <= k < |l| ==> o[k + 1] == l[k];
    assert forall k :: 0 <= k < |Cut(l, i)| ==> Cut(l, i)[k] == l[if k < i then k else k + 1];
  }

  // A window that is not in the tree has no bearing on the windows that are.
  lemma SizesOf(t: seq<Obj>, t': seq<Obj>, order: seq<nat>, wh: nat)
    requires |t'| == |t| && forall w :: 0 <= w < |t| && w != wh ==> t'[w] == t[w]
    ensures wh !in order ==> Sizes(t', order) == Sizes(t, order)
  {
  }

  // The window tree after an edit of the desktop's children.
  lemma NewTree(f: Forest, g: Forest, l: seq<nat>)
    requires WindowTree(f) && g.Ok() && g.kids == f.kids[ROOT := l] && OnlyLinks(f.t, g.t, ROOT, f.kids[ROOT], l)
    ensures WindowTree(g) && Order(g) == [ROOT] + l
    ensures forall w :: 0 <= w < NUM_WIN ==> TrueSize(g.t[w]) == TrueSize(f.t[w])
  {
  }

  lemma TailIsTop(f: Forest)
    requires WindowTree(f)
    ensures f.t[ROOT].tail == if f.kids[ROOT] == [] then NIL else f.kids[ROOT][|f.kids[ROOT]| - 1]
  {
    ListFacts(f, ROOT);
  }

  function NewObj(): Obj {
    Obj(NIL, NIL, NIL, 0, 0, 0, 0, false)
  }

  lemma NoWindows(f: Forest)
    requires f.t == seq(NUM_WIN, _ => NewObj()) && f.kids == seq(NUM_WIN, _ => []) && f.rank == Ranks()
    ensures WindowTree(f) && Order(f) == [DESKWH] && Flags(seq(NUM_WIN, _ => false), NIL, f.kids, f.rank)
  {
    forall p: nat | p < |f.t| ensures f.ListOk(p) {
    }
  }

  function Resize(o: Obj, pt: Rect): Obj {
    o.(x := pt.x, y := pt.y, w := pt.w, h := pt.h)
  }

  ghost function Ranks(): seq<nat> {
    [1] + seq(NUM_WIN - 1, _ => 0)
  }

  lemma ResizeOk(f: Forest, wh: nat, pt: Rect, g: Forest)
    requires WindowTree(f) && wh < NUM_WIN
    requires g == Forest(f.t[wh := Resize(f.t[wh], pt)], f.kids, f.rank)
    ensures WindowTree(g) && Order(g) == Order(f)
  {
    hide f.ListOk, f.Ranked, f.Unshared;
    forall p: nat | p < |g.t| ensures g.ListOk(p) {
      assert f.ListOk(p);
      ResizedList(f, wh, pt, g, p);
    }
    assert g.Ranked() && g.Unshared() by { SameKids(f, g); }
  }

  lemma ResizedList(f: Forest, wh: nat, pt: Rect, g: Forest, p: nat)
    requires |f.kids| == |f.t| && p < |f.t| && wh < |f.t| && f.ListOk(p)
    requires g == Forest(f.t[wh := Resize(f.t[wh], pt)], f.kids, f.rank)
    ensures g.ListOk(p)
  {
  }

  lemma SameKids(f: Forest, g: Forest)
    requires |f.kids| == |f.t| == |f.rank| && |g.t| == |f.t| && g.kids == f.kids && g.rank == f.rank
    requires f.Ranked() && f.Unshared()
    ensures g.Ranked() && g.Unshared()
  {
  }

  // One level of windows under the desktop.
  ghost predicate WindowTree(f: Forest) {
    && f.Ok() && |f.t| == NUM_WIN && !f.t[ROOT].hidden
    && forall w :: 0 < w < NUM_WIN ==> f.kids[w] == []
  }

  ghost function Order(f: Forest): (o: seq<nat>)
    requires WindowTree(f)
    ensures |o| > 0
  {
    [ROOT] + f.kids[ROOT]
  }

  // Where a window is in the order, or how long that is when it is not there.
  ghost function Place(order: seq<nat>, wh: int): (m: nat)
    ensures m <= |order| && (m < |order| ==> order[m] == wh)
    ensures forall k :: 0 <= k < m ==> order[k] != wh
  {
    if order == [] || order[0] == wh then 0 else Place(order[1..], wh) + 1
  }

  lemma ViewSize(g: seq<Rect>, lists: seq<seq<nat>>, w: nat)
    requires w < |lists|
    ensures |Views(g, lists)[w]| == |lists[w]|
  {
  }

  lemma BreakNone(new_: Rect, rs: seq<Rect>)
    ensures BreakAll(new_, rs[..0]) == [] && !Broke(new_, rs[..0])
  {
  }

  // One more rectangle of a list is broken, or left alone.
  lemma BreakOne(new_: Rect, rs: seq<Rect>, d: nat, now: seq<Rect>)
    requires d < |rs| && now == BreakAll(new_, rs[..d]) + rs[d..]
    ensures var i := |BreakAll(new_, rs[..d])|;
            && now[i] == rs[d] && BreakAll(new_, rs[..d + 1]) == BreakAll(new_, rs[..d]) + Break(new_, rs[d])
            && (Broke(new_, rs[..d + 1]) <==> (Broke(new_, rs[..d]) || new_.Crosses(rs[d])))
            && now[..i] + Break(new_, rs[d]) + now[i + 1..] == BreakAll(new_, rs[..d + 1]) + rs[d + 1..]
            && (!new_.Crosses(rs[d]) ==> now == BreakAll(new_, rs[..d + 1]) + rs[d + 1..] && |Break(new_, rs[d])| == 1)
  {
    hide new_.Crosses, BreakAll, Broke;
    BreakPrefix(new_, rs, d);
    BrokePrefix(new_, rs, d);
    var a, p := BreakAll(new_, rs[..d]), Break(new_, rs[d]);
    assert now == a + [rs[d]] + rs[d + 1..];
    assert now[..|a|] == a && now[|a| + 1..] == rs[d + 1..];
  }

  lemma BreakPrefix(new_: Rect, rs: seq<Rect>, d: nat)
    requires d < |rs|
    ensures BreakAll(new_, rs[..d + 1]) == BreakAll(new_, rs[..d]) + Break(new_, rs[d])
  {
    hide Break;
    assert rs[..d + 1] == rs[..d] + [rs[d]];
    BreakAllConcat(new_, rs[..d], [rs[d]]);
    assert [rs[d]][1..] == [];
    assert BreakAll(new_, [rs[d]]) == Break(new_, rs[d]) + BreakAll(new_, []);
  }

  lemma BrokePrefix(new_: Rect, rs: seq<Rect>, d: nat)
    requires d < |rs|
    ensures Broke(new_, rs[..d + 1]) <==> (Broke(new_, rs[..d]) || new_.Crosses(rs[d]))
  {
    hide new_.Crosses;
    var a, b := rs[..d], rs[..d + 1];
    assert b[d] == rs[d] && forall k :: 0 <= k < d ==> b[k] == a[k];
    if Broke(new_, b) {
      var k :| 0 <= k < |b| && new_.Crosses(b[k]);
      assert k < d ==> new_.Crosses(a[k]);
    }
    if Broke(new_, a) {
      var k :| 0 <= k < |a| && new_.Crosses(a[k]);
      assert new_.Crosses(b[k]);
    }
  }

  // mkrect() under way: the first d rectangles of the list are done, and the next is the i-th.
  ghost predicate Mking(v0: seq<seq<Rect>>, b0: seq<bool>, v: seq<seq<Rect>>, b: seq<bool>, new_: Rect, wh: nat,
                        d: nat, i: nat)
  {
    && wh < |v0| && |b0| == |v0| && OnlyView(v0, v, wh) && d <= |v0[wh]|
    && v[wh] == BreakAll(new_, v0[wh][..d]) + v0[wh][d..] && i == |BreakAll(new_, v0[wh][..d])|
    && b == b0[wh := b0[wh] || Broke(new_, v0[wh][..d])]
  }

  lemma MkStart(v: seq<seq<Rect>>, b: seq<bool>, new_: Rect, wh: nat)
    requires wh < |v| == |b|
    ensures Mking(v, b, v, b, new_, wh, 0, 0)
  {
    BreakNone(new_, v[wh]);
  }

  lemma MkLeft(v0: seq<seq<Rect>>, b0: seq<bool>, v: seq<seq<Rect>>, b: seq<bool>, new_: Rect, wh: nat, d: nat, i: nat)
    requires Mking(v0, b0, v, b, new_, wh, d, i) && wh < |v| && i < |v[wh]|
    ensures d < |v0[wh]|
  {
  }

  lemma MkStep(v0: seq<seq<Rect>>, b0: seq<bool>, v: seq<seq<Rect>>, b: seq<bool>, v': seq<seq<Rect>>, b': seq<bool>,
               new_: Rect, wh: nat, d: nat, i: nat, hit: bool, n: nat)
    requires Mking(v0, b0, v, b, new_, wh, d, i) && wh < |v| && i < |v[wh]| && d < |v0[wh]|
    requires OnlyView(v, v', wh) && hit == new_.Crosses(v[wh][i])
    requires b' == if hit then b[wh := true] else b
    requires !hit ==> v' == v && n == i + 1
    requires hit ==> n == i + |Break(new_, v[wh][i])| && v'[wh] == v[wh][..i] + Break(new_, v[wh][i]) + v[wh][i + 1..]
    ensures Mking(v0, b0, v', b', new_, wh, d + 1, n)
  {
    hide new_.Crosses, Break, BreakAll, Broke;
    BreakOne(new_, v0[wh], d, v[wh]);
  }

  lemma MkDone(v0: seq<seq<Rect>>, b0: seq<bool>, v: seq<seq<Rect>>, b: seq<bool>, new_: Rect, wh: nat, d: nat, i: nat)
    requires Mking(v0, b0, v, b, new_, wh, d, i) && wh < |v| && i >= |v[wh]|
    ensures Mked(v0, b0, v, b, new_, wh)
  {
    assert v0[wh][..d] == v0[wh];
  }

  // What mkrect() does to the lists and flags.
  ghost predicate Mked(v: seq<seq<Rect>>, b: seq<bool>, v': seq<seq<Rect>>, b': seq<bool>, new_: Rect, wh: nat) {
    && wh < |v| && |b| == |v| && OnlyView(v, v', wh)
    && v'[wh] == BreakAll(new_, v[wh]) && b' == b[wh := b[wh] || Broke(new_, v[wh])]
  }

  lemma OrderFacts(f: Forest)
    requires WindowTree(f)
    ensures forall i :: 0 <= i < |Order(f)| ==> Order(f)[i] < NUM_WIN
    ensures forall i, j :: 0 <= i < j < |Order(f)| ==> Order(f)[i] != Order(f)[j]
  {
    assert f.Unshared() && f.Ranked();
  }

  // The walk over the window tree.
  lemma {:induction false} KidsWalk(f: Forest, i: nat, x: int, y: int, k: nat)
    requires WindowTree(f) && i <= |f.kids[ROOT]|
    ensures |PreList(f, ROOT, i, x, y, 2, MAX_DEPTH)| == |f.kids[ROOT]| - i
    ensures k < |f.kids[ROOT]| - i ==>
      var v := PreList(f, ROOT, i, x, y, 2, MAX_DEPTH)[k]; v.obj == f.kids[ROOT][i + k] && v.depth == 2
    decreases |f.kids[ROOT]| - i
  {
    if i < |f.kids[ROOT]| {
      var c := f.kids[ROOT][i];
      assert f.Child(ROOT, i, c) && 0 < c;
      PreLeafList(f, c, x, y);
      KidsWalk(f, i + 1, x, y, if k > 0 then k - 1 else 0);
    }
  }

  lemma PreLeafList(f: Forest, c: nat, x: int, y: int)
    requires WindowTree(f) && 0 < c < NUM_WIN
    ensures var v := Pre(f, c, x, y, 2, MAX_DEPTH); |v| == 1 && v[0].obj == c && v[0].depth == 2
  {
    HeadChild(f, c);
    PreLeaf(f, c, x, y, 2, MAX_DEPTH);
  }

  lemma FullWalk(f: Forest, k: nat)
    requires WindowTree(f)
    ensures |Pre(f, ROOT, 0, 0, 1, MAX_DEPTH)| == |Order(f)|
    ensures k < |Order(f)| ==> var v := Pre(f, ROOT, 0, 0, 1, MAX_DEPTH)[k]; v.obj == Order(f)[k] && v.depth <= 2
  {
    KidsWalk(f, 0, f.t[ROOT].x, f.t[ROOT].y, if k > 0 then k - 1 else 0);
  }

  lemma WindowWalk(f: Forest, last: int)
    requires WindowTree(f)
    ensures var log := Until(Pre(f, ROOT, 0, 0, 1, MAX_DEPTH), last);
            && Shallow(log) && |log| == Place(Order(f), last)
            && (forall k :: 0 <= k < |log| ==> log[k].obj == Order(f)[k] && log[k].obj < NUM_WIN)
            && (last < 0 ==> |log| == |Order(f)|)
    ensures forall k :: 0 <= k < |Order(f)| ==> Place(Order(f), Order(f)[k]) == k
  {
    hide WindowTree, Order, Pre, Until, f.Ok;
    TreeFacts(f);
    var full, order := Pre(f, ROOT, 0, 0, 1, MAX_DEPTH), Order(f);
    OrderFacts(f);
    forall k: nat ensures |full| == |order| && (k < |order| ==> full[k].obj == order[k] && full[k].depth <= 2) {
      FullWalk(f, k);
    }
    WalkLength(full, order, last);
    forall k | 0 <= k < |order| ensures Place(order, order[k]) == k {
      assert order[Place(order, order[k])] == order[k];
    }
  }

  lemma TreeFacts(f: Forest)
    requires WindowTree(f)
    ensures f.Ok() && |f.t| == |f.kids| == NUM_WIN
    ensures forall i, j :: 0 <= i < j < |f.kids[ROOT]| ==> f.kids[ROOT][i] != f.kids[ROOT][j]
  {
  }

  lemma {:induction false} WalkLength(full: seq<Visit>, order: seq<nat>, last: int)
    requires |full| == |order| && forall k :: 0 <= k < |order| ==> full[k].obj == order[k]
    ensures |Until(full, last)| == Place(order, last)
    ensures forall k :: 0 <= k < |Until(full, last)| ==> Until(full, last)[k].obj == order[k]
  {
    if full != [] && full[0].obj != last {
      WalkLength(full[1..], order[1..], last);
    }
  }

  // The true sizes of the windows in the order.
  function Sizes(t: seq<Obj>, order: seq<nat>): (r: seq<Rect>)
    ensures |r| == |order|
  {
    seq(|order|, i requires 0 <= i < |order| => if order[i] < |t| then TrueSize(t[order[i]]) else Rect(0, 0, 0, 0))
  }

  // mkrect() was called for the first k windows.
  ghost predicate MkedBelow(v0: seq<seq<Rect>>, b0: seq<bool>, v: seq<seq<Rect>>, b: seq<bool>,
                            order: seq<nat>, k: nat, new_: Rect)
  {
    && |v| == |v0| == |b| == |b0| && k <= |order|
    && forall w {:trigger v[w]} {:trigger b[w]} :: 0 <= w < |v| ==>
         if w in order[..k] then v[w] == BreakAll(new_, v0[w]) && b[w] == (b0[w] || Broke(new_, v0[w]))
         else v[w] == v0[w] && b[w] == b0[w]
  }

  // newrect() on the m windows below wh and on wh itself.
  ghost predicate NewDone(v0: seq<seq<Rect>>, b0: seq<bool>, v: seq<seq<Rect>>, b: seq<bool>,
                          order: seq<nat>, m: nat, wh: nat, t: Rect)
  {
    && |v| == |v0| == |b| == |b0| && m <= |order| && wh < |v|
    && v[wh] == Whole(t) && !b[wh]
    && forall w {:trigger v[w]} {:trigger b[w]} :: 0 <= w < |v| && w != wh ==>
         if w in order[..m] && Sized(t) then v[w] == BreakAll(t, v0[w]) && b[w] == (b0[w] || Broke(t, v0[w]))
         else v[w] == v0[w] && b[w] == b0[w]
  }

  // The first k windows of the order have been through newrect().
  ghost predicate Swept(v: seq<seq<Rect>>, b: seq<bool>, order: seq<nat>, t: seq<Rect>, k: nat) {
    && |t| == |order| && |b| == |v| && k <= |t|
    && forall j {:trigger order[j]} :: 0 <= j < k ==>
         order[j] < |v| && v[order[j]] == ListOf(t, j, k) && (b[order[j]] <==> Flag(t, j, k))
  }

  // A list given back to the pool.
  lemma DumpList(g: seq<Rect>, rul: seq<nat>, lists: seq<seq<nat>>, n: nat, wh: nat)
    requires Conserved(rul, lists, n) && wh < |lists|
    ensures Conserved(lists[wh] + rul, lists[wh := []], n) && [] + rul == rul
    ensures Views(g, lists[wh := []]) == Views(g, lists)[wh := []]
  {
    MoveNodes(rul, lists, n, wh, lists[wh] + rul, []);
  }

  // The head of the pool becomes the one node of an empty list.
  lemma FromPool(g: seq<Rect>, rul: seq<nat>, lists: seq<seq<nat>>, wh: nat, r: Rect)
    requires Conserved(rul, lists, |g|) && wh < |lists| && |Views(g, lists)[wh]| == 0
    ensures rul != [] ==>
      (rul[0] < |g| && Conserved(rul[1..], lists[wh := [rul[0]]], |g|) &&
       Views(g[rul[0] := r], lists[wh := [rul[0]]]) == Views(g, lists)[wh := [r]])
  {
    if rul != [] {
      PoolFacts(rul, lists, |g|);
      assert rul == [rul[0]] + rul[1..];
      MoveNodes(rul, lists, |g|, wh, rul[1..], [rul[0]]);
      forall w | 0 <= w < |lists| && w != wh ensures Values(g[rul[0] := r], lists[w]) == Values(g, lists[w]) {
        ValuesSame(g, g[rul[0] := r], lists[w]);
      }
      assert Values(g[rul[0] := r], [rul[0]]) == [r];
    }
  }

  lemma MkedNext(v0: seq<seq<Rect>>, b0: seq<bool>, v: seq<seq<Rect>>, b: seq<bool>, v': seq<seq<Rect>>, b': seq<bool>,
                 order: seq<nat>, k: nat, new_: Rect)
    requires MkedBelow(v0, b0, v, b, order, k, new_) && k < |order| && order[k] < |v|
    requires forall i, j :: 0 <= i < j < |order| ==> order[i] != order[j]
    requires Mked(v, b, v', b', new_, order[k])
    ensures MkedBelow(v0, b0, v', b', order, k + 1, new_)
  {
    assert order[..k + 1] == order[..k] + [order[k]];
    assert order[k] !in order[..k];
  }

  // newrect() from its parts: the list dumped, those below broken, the new node linked.
  lemma NewDoneIs(v: seq<seq<Rect>>, b: seq<bool>, v1: seq<seq<Rect>>, b1: seq<bool>, v2: seq<seq<Rect>>,
                  order: seq<nat>, m: nat, wh: nat, t: Rect)
    requires wh < |v| == |b| && Sized(t) && m == Place(order, wh)
    requires MkedBelow(v[wh := []], b[wh := false], v1, b1, order, m, t)
    requires v2 == v1[wh := [t]]
    ensures NewDone(v, b, v2, b1, order, m, wh, t)
  {
    assert wh !in order[..m];
  }

  lemma MkedNotHere(v0: seq<seq<Rect>>, b0: seq<bool>, v: seq<seq<Rect>>, b: seq<bool>,
                    order: seq<nat>, m: nat, new_: Rect, wh: nat)
    requires MkedBelow(v0, b0, v, b, order, m, new_) && m == Place(order, wh) && wh < |v0|
    ensures v[wh] == v0[wh]
  {
    assert wh !in order[..m];
  }

  lemma SweptNext(v: seq<seq<Rect>>, b: seq<bool>, v': seq<seq<Rect>>, b': seq<bool>, order: seq<nat>, t: seq<Rect>, k: nat)
    requires Swept(v, b, order, t, k) && k < |t| && order[k] < |v|
    requires forall i, j :: 0 <= i < j < |order| ==> order[i] != order[j]
    requires NewDone(v, b, v', b', order, k, order[k], t[k])
    ensures Swept(v', b', order, t, k + 1)
  {
    forall j {:trigger order[j]} | 0 <= j < k + 1
      ensures v'[order[j]] == ListOf(t, j, k + 1) && (b'[order[j]] <==> Flag(t, j, k + 1))
    {
      if j < k {
        assert order[..k][j] == order[j];
      }
    }
  }

  lemma SweptNone(v: seq<seq<Rect>>, b: seq<bool>, order: seq<nat>, t: seq<Rect>)
    requires |t| == |order| && |b| == |v|
    ensures Swept(v, b, order, t, 0)
  {
  }

  lemma NewDoneOthers(v: seq<seq<Rect>>, b: seq<bool>, v': seq<seq<Rect>>, b': seq<bool>, order: seq<nat>, k: nat, t: Rect)
    requires k < |order| && order[k] < |v| && NewDone(v, b, v', b', order, k, order[k], t)
    ensures |v'| == |v| && forall w: nat :: w < |v| && w !in order ==> v'[w] == v[w]
  {
  }

  // How many rectangles of the first n windows' lists hold a point.
  ghost function Owners(v: seq<seq<Rect>>, order: seq<nat>, n: nat, px: int, py: int): nat
    requires n <= |order|
  {
    if n == 0 then 0
    else Owners(v, order, n - 1, px, py) + if order[n - 1] < |v| then Count(v[order[n - 1]], px, py) else 0
  }

  lemma {:induction false} OwnersTotal(v: seq<seq<Rect>>, b: seq<bool>, order: seq<nat>, t: seq<Rect>, n: nat, px: int, py: int)
    requires Swept(v, b, order, t, |order|) && n <= |order|
    ensures Owners(v, order, n, px, py) == Total(t, n, px, py)
  {
    if n > 0 {
      OwnersTotal(v, b, order, t, n - 1, px, py);
      assert v[order[n - 1]] == ListOf(t, n - 1, |order|);
    }
  }

  // After a sweep the lists split up the screen: a point of some window is in exactly one
  // rectangle of all the lists, which belongs to the topmost window there; a window is flagged
  // as broken exactly when one above overlaps it.
  lemma Partition(v: seq<seq<Rect>>, b: seq<bool>, order: seq<nat>, t: seq<Rect>, px: int, py: int)
    requires Swept(v, b, order, t, |order|) && Tame(t)
    ensures forall i: nat {:trigger order[i]} :: i < |order| ==>
      order[i] < |v| && Count(v[order[i]], px, py) == (if Topmost(t, i, |t|, px, py) then 1 else 0)
    ensures Sane(t) ==> forall i: nat {:trigger order[i]} :: i < |order| ==>
      order[i] < |b| && (b[order[i]] <==> Overlapped(t, i, |t|))
    ensures Sane(t) ==> forall i: nat {:trigger order[i]} :: i < |order| ==>
      order[i] < |b| &&
      (b[order[i]] <==>
       exists k, qx: int, qy: int {:trigger t[k].Has(qx, qy)} :: i < k < |t| && t[i].Has(qx, qy) && t[k].Has(qx, qy))
    ensures Owners(v, order, |order|, px, py) == if exists i :: 0 <= i < |t| && t[i].Has(px, py) then 1 else 0
  {
    forall i: nat {:trigger order[i]} | i < |order|
      ensures order[i] < |v| && Count(v[order[i]], px, py) == (if Topmost(t, i, |t|, px, py) then 1 else 0)
      ensures Sane(t) ==> (b[order[i]] <==> Overlapped(t, i, |t|))
      ensures Sane(t) ==>
        (Overlapped(t, i, |t|) <==>
         exists k, qx: int, qy: int {:trigger t[k].Has(qx, qy)} :: i < k < |t| && t[i].Has(qx, qy) && t[k].Has(qx, qy))
    {
      ListIsTopmost(t, i, |t|, px, py);
      if Sane(t) {
        FlagIsOverlapped(t, i, |t|);
        SharedPoint(t, i);
      }
    }
    OwnersTotal(v, b, order, t, |order|, px, py);
    ExactlyOnce(t, |t|, px, py);
    if i: nat :| i < |t| && t[i].Has(px, py) {
      var j := SomeTopmost(t, i, px, py);
    }
  }

  // On the screen's own objects: a window's list holds a point once when its box, with a shadow
  // of two pixels to the right and below, holds it and none of a window above does; otherwise the
  // list does not hold it.
  lemma OwnerIs(t: seq<Obj>, order: seq<nat>, v: seq<seq<Rect>>, b: seq<bool>, i: nat, px: int, py: int)
    requires Swept(v, b, order, Sizes(t, order), |order|) && Tame(Sizes(t, order)) && i < |order|
    requires forall k :: 0 <= k < |order| ==> order[k] < |t|
    ensures order[i] < |v|
    ensures var o := t[order[i]];
            Count(v[order[i]], px, py) ==
            if o.w != 0 && o.h != 0 && o.x <= px < o.x + o.w + 2 && o.y <= py < o.y + o.h + 2 &&
               !exists k {:trigger order[k]} :: i < k < |order| &&
                 t[order[k]].w != 0 && t[order[k]].h != 0 &&
                 t[order[k]].x <= px < t[order[k]].x + t[order[k]].w + 2 &&
                 t[order[k]].y <= py < t[order[k]].y + t[order[k]].h + 2
            then 1 else 0
  {
    hide Swept, Tame;
    var r := Sizes(t, order);
    Partition(v, b, order, r, px, py);
    assert order[i] < |v| && Count(v[order[i]], px, py) == (if Topmost(r, i, |r|, px, py) then 1 else 0);
    forall k | 0 <= k < |order|
      ensures r[k].Has(px, py) <==>
        (t[order[k]].w != 0 && t[order[k]].h != 0 &&
         t[order[k]].x <= px < t[order[k]].x + t[order[k]].w + 2 &&
         t[order[k]].y <= py < t[order[k]].y + t[order[k]].h + 2)
    {
    }
  }

  // rc_intersect().
  function Meet(p: Rect, q: Rect): Rect {
    var x, y := Max(q.x, p.x), Max(q.y, p.y);
    Rect(x, y, Min(q.x + q.w, p.x + p.w) - x, Min(q.y + q.h, p.y + p.h) - y)
  }

  // The parts of a list that fall into pt, from the i-th on.
  function Owned(rs: seq<Rect>, i: nat, pt: Rect): seq<Rect>
    requires i <= |rs|
    decreases |rs| - i
  {
    if i == |rs| then []
    else (if Meet(pt, rs[i]).Solid() then [Meet(pt, rs[i])] else []) + Owned(rs, i + 1, pt)
  }

  // The rectangles handed out one by one are the visible part of pt, each point once.
  lemma {:induction false} OwnedCount(rs: seq<Rect>, i: nat, pt: Rect, px: int, py: int)
    requires i <= |rs|
    ensures Count(Owned(rs, i, pt), px, py) == if pt.Has(px, py) then Count(rs[i..], px, py) else 0
    decreases |rs| - i
  {
    if i < |rs| {
      OwnedCount(rs, i + 1, pt, px, py);
      assert rs[i..][1..] == rs[i + 1..];
      var m := Meet(pt, rs[i]);
      assert m.Has(px, py) <==> (pt.Has(px, py) && rs[i].Has(px, py));
      CountConcat(if m.Solid() then [m] else [], Owned(rs, i + 1, pt), px, py);
      assert [m][1..] == [];
    }
  }

  // w_owns(): the next part of a window's list that falls into pt, from place po; the size is
  // zero when there is none.
  method WOwns(s: Screen, wh: nat, po: nat, pt: Rect) returns (rnext: nat, out: Rect)
    requires s.PoolOk() && wh < NUM_WIN && po <= |s.rlist[wh]|
    ensures rnext <= |s.rlist[wh]| == |s.View()[wh]|
    ensures var o := Owned(s.View()[wh], po, pt);
            if o == [] then out.w == 0 && out.h == 0
            else out == o[0] && po < rnext && Owned(s.View()[wh], rnext, pt) == o[1..]
  {
    PoolFacts(s.rul, s.rlist, NUM_ORECT);
    ViewSize(s.olist[..], s.rlist, wh);
    rnext, out := po, Rect(0, 0, 0, 0);
    while rnext < |s.rlist[wh]|
      invariant po <= rnext <= |s.rlist[wh]|
      invariant Owned(s.View()[wh], rnext, pt) == Owned(s.View()[wh], po, pt)
    {
      ViewAt(s.olist[..], s.rlist, wh, rnext);
      out := Meet(pt, s.olist[s.rlist[wh][rnext]]);
      rnext := rnext + 1;
      if out.w > 0 && out.h > 0 {
        return;
      }
    }
    out := out.(w := 0, h := 0);
  }

  // A window created and not opened cannot be topped: get_par() reads beyond the tree at once.
  method TopOfNew(screen: Rect, full: Rect) returns (inside: bool)
    ensures !inside
  {
    hide Conserved, Views, Swept, WindowTree, Flags, Order, Forest.Ok, Sizes, Screen.Current;
    var s := new Screen(screen, full);
    assert !s.inuse[1];
    var wh := s.WmCreate();
    StrayStart(s.Tree(), s.isopen, s.wtop, wh);
    StrayStep(s.Tree(), s.isopen, s.wtop, wh, -1);
    Nowhere(s.tree[..], s.kids[ROOT], {}, wh, wh);
    var ok;
    inside, ok := s.WmTop(wh);
  }

  // A window created, sized and deleted without being opened leaves a hole in the desktop.
  method DeleteOfNew(full: Rect, pt: Rect) returns (s: Screen, ok: bool)
    requires pt.Solid() && full.Solid()
    ensures !ok ==> s.rul == []
    ensures ok ==> s.Valid() && s.Stack() == [DESKWH]
    ensures ok ==> forall px: int, py: int {:trigger Count(s.View()[DESKWH], px, py)} ::
      Count(s.View()[DESKWH], px, py) ==
      if (full.x <= px < full.x + full.w && full.y <= py < full.y + full.h &&
          !(pt.x <= px < pt.x + pt.w + 2 && pt.y <= py < pt.y + pt.h + 2)) then 1 else 0
  {
    hide Conserved, Views, Swept, WindowTree, Flags, Order, Forest.Ok, Sizes, Screen.Current, Without, BreakAll;
    s := new Screen(full, full);
    assert !s.inuse[1];
    var wh := s.WmCreate();
    ok := s.WmSetCurr(wh, pt);
    NotOpen(s.Tree(), s.isopen, s.wtop, wh);
    WithoutNone(s.Stack(), wh);
    ghost var v := s.View();
    var r;
    r, ok := s.WmDelete(wh, full);
    if ok {
      assert s.Stack()[0] == DESKWH;
      forall px: int, py: int
        ensures Count(s.View()[DESKWH], px, py) ==
          if full.Has(px, py) && !Shadowed(pt).Has(px, py) then 1 else 0
      {
        BreakAllCuts(Shadowed(pt), [full], px, py);
        assert [full][1..] == [];
      }
    }
  }

  function Shadowed(pt: Rect): Rect {
    Rect(pt.x, pt.y, pt.w + DROP_SHADOW_SIZE, pt.h + DROP_SHADOW_SIZE)
  }
}

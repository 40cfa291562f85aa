// Rectangles broken up by a covering rectangle (aes/gemwrect.c), on values.
module Rects {
  import opened Bounds

  datatype Rect = Rect(x: int, y: int, w: int, h: int)
  {
    predicate Has(px: int, py: int) {
      x <= px < x + w && y <= py < y + h
    }

    predicate Solid() {
      w > 0 && h > 0
    }

    // The two rectangles overlap, as brkrct() tests it.
    predicate Crosses(r: Rect) {
      x < r.x + r.w && x + w > r.x && y < r.y + r.h && y + h > r.y
    }
  }

  const TOP := 0
  const LEFT := 1
  const RIGHT := 2
  const BOTTOM := 3

  // brkrct(): whether the old rectangle sticks out on a side.
  predicate HavePiece(side: nat, new_: Rect, old_: Rect) {
    if side == TOP then new_.y > old_.y
    else if side == LEFT then new_.x > old_.x
    else if side == RIGHT then new_.x + new_.w < old_.x + old_.w
    else new_.y + new_.h < old_.y + old_.h
  }

  // mkpiece(): the part of the old rectangle on that side of the new one.
  function Piece(side: nat, new_: Rect, old_: Rect): Rect {
    var y := Max(old_.y, new_.y);
    var h := Min(old_.y + old_.h, new_.y + new_.h) - y;
    if side == TOP then Rect(old_.x, old_.y, old_.w, new_.y - old_.y)
    else if side == LEFT then Rect(old_.x, y, new_.x - old_.x, h)
    else if side == RIGHT then Rect(new_.x + new_.w, y, old_.x + old_.w - (new_.x + new_.w), h)
    else Rect(old_.x, new_.y + new_.h, old_.w, old_.y + old_.h - (new_.y + new_.h))
  }

  // The pieces on the first sides, in the order brkrct() links them.
  function Pieces(new_: Rect, old_: Rect, sides: nat): (p: seq<Rect>)
    ensures |p| <= sides
  {
    if sides == 0 then []
    else
      Pieces(new_, old_, sides - 1) +
      if HavePiece(sides - 1, new_, old_) then [Piece(sides - 1, new_, old_)] else []
  }

  function Break(new_: Rect, old_: Rect): seq<Rect> {
    if new_.Crosses(old_) then Pieces(new_, old_, 4) else [old_]
  }

  function BreakAll(new_: Rect, rs: seq<Rect>): seq<Rect> {
    if rs == [] then [] else Break(new_, rs[0]) + BreakAll(new_, rs[1..])
  }

  // Some rectangle of the list is overlapped.
  predicate Broke(new_: Rect, rs: seq<Rect>) {
    exists i :: 0 <= i < |rs| && new_.Crosses(rs[i])
  }

  // How many rectangles of a list hold a point.
  function Count(rs: seq<Rect>, px: int, py: int): nat {
    if rs == [] then 0 else (if rs[0].Has(px, py) then 1 else 0) + Count(rs[1..], px, py)
  }

  predicate AllSolid(rs: seq<Rect>) {
    forall i :: 0 <= i < |rs| ==> rs[i].Solid()
  }

  lemma {:induction false} CountConcat(a: seq<Rect>, b: seq<Rect>, px: int, py: int)
    ensures Count(a + b, px, py) == Count(a, px, py) + Count(b, px, py)
  {
    if a == [] {
      assert a + b == b;
    } else {
      assert (a + b)[1..] == a[1..] + b;
      CountConcat(a[1..], b, px, py);
    }
  }

  lemma {:induction false} CountZero(rs: seq<Rect>, px: int, py: int)
    ensures Count(rs, px, py) == 0 <==> (forall i :: 0 <= i < |rs| ==> !rs[i].Has(px, py))
  {
    if rs != [] {
      CountZero(rs[1..], px, py);
      assert forall i :: 0 < i < |rs| ==> rs[i] == rs[1..][i - 1];
    }
  }

  // The pieces of an overlapped rectangle are not empty, lie apart, and cover exactly what the
  // new rectangle leaves of it.
  lemma PiecesSplit(new_: Rect, old_: Rect, px: int, py: int)
    requires new_.Crosses(old_) && new_.Solid() && old_.Solid()
    ensures |Pieces(new_, old_, 4)| <= 4 && AllSolid(Pieces(new_, old_, 4))
    ensures Count(Pieces(new_, old_, 4), px, py) == if old_.Has(px, py) && !new_.Has(px, py) then 1 else 0
  {
    hide Pieces, Piece, HavePiece, Count, new_.Crosses;
    PiecesCount(new_, old_, 4, px, py);
    assert SideCount(new_, old_, 1, px, py) == if OnSide(0, new_, old_, px, py) then 1 else 0;
    assert SideCount(new_, old_, 2, px, py) ==
      SideCount(new_, old_, 1, px, py) + if OnSide(1, new_, old_, px, py) then 1 else 0;
    SidesMeet(new_, old_, px, py);
    PiecesSolid(new_, old_, 4);
  }

  // The point is in the piece of that side.
  predicate OnSide(side: nat, new_: Rect, old_: Rect, px: int, py: int) {
    HavePiece(side, new_, old_) && Piece(side, new_, old_).Has(px, py)
  }

  // Which points each piece holds.
  lemma SidesMeet(new_: Rect, old_: Rect, px: int, py: int)
    requires new_.Crosses(old_) && new_.Solid() && old_.Solid()
    ensures OnSide(TOP, new_, old_, px, py) <==> (old_.Has(px, py) && py < new_.y)
    ensures OnSide(LEFT, new_, old_, px, py) <==> (old_.Has(px, py) && new_.y <= py < new_.y + new_.h && px < new_.x)
    ensures OnSide(RIGHT, new_, old_, px, py) <==>
      (old_.Has(px, py) && new_.y <= py < new_.y + new_.h && new_.x + new_.w <= px)
    ensures OnSide(BOTTOM, new_, old_, px, py) <==> (old_.Has(px, py) && new_.y + new_.h <= py)
  {
  }

  // How many of the first sides' pieces hold the point.
  function SideCount(new_: Rect, old_: Rect, sides: nat, px: int, py: int): nat {
    if sides == 0 then 0
    else
      SideCount(new_, old_, sides - 1, px, py) +
      if OnSide(sides - 1, new_, old_, px, py) then 1 else 0
  }

  lemma {:induction false} PiecesCount(new_: Rect, old_: Rect, sides: nat, px: int, py: int)
    ensures Count(Pieces(new_, old_, sides), px, py) == SideCount(new_, old_, sides, px, py)
  {
    if sides > 0 {
      PiecesCount(new_, old_, sides - 1, px, py);
      var p := Piece(sides - 1, new_, old_);
      CountConcat(Pieces(new_, old_, sides - 1), [p], px, py);
      assert [p][1..] == [];
      assert Pieces(new_, old_, sides - 1) + [] == Pieces(new_, old_, sides - 1);
    }
  }

  lemma {:induction false} PiecesSolid(new_: Rect, old_: Rect, sides: nat)
    requires new_.Crosses(old_) && new_.Solid() && old_.Solid() && sides <= 4
    ensures AllSolid(Pieces(new_, old_, sides))
  {
    if sides > 0 {
      PiecesSolid(new_, old_, sides - 1);
      if HavePiece(sides - 1, new_, old_) {
        PieceSolid(new_, old_, sides - 1);
      } else {
        assert Pieces(new_, old_, sides) == Pieces(new_, old_, sides - 1);
      }
    }
  }

  lemma PieceSolid(new_: Rect, old_: Rect, side: nat)
    requires new_.Crosses(old_) && new_.Solid() && old_.Solid() && side < 4 && HavePiece(side, new_, old_)
    ensures Piece(side, new_, old_).Solid()
  {
  }

  lemma {:induction false} BreakAllConcat(new_: Rect, a: seq<Rect>, b: seq<Rect>)
    ensures BreakAll(new_, a + b) == BreakAll(new_, a) + BreakAll(new_, b)
  {
    if a == [] {
      assert a + b == b;
    } else {
      assert (a + b)[1..] == a[1..] + b;
      BreakAllConcat(new_, a[1..], b);
    }
  }

  // An empty rectangle, though it may have a negative size, leaves only empty pieces.
  lemma PiecesNone(new_: Rect, old_: Rect, px: int, py: int)
    requires new_.Crosses(old_) && !old_.Solid()
    ensures Count(Pieces(new_, old_, 4), px, py) == 0
  {
    PiecesCount(new_, old_, 4, px, py);
    assert !OnSide(TOP, new_, old_, px, py) && !OnSide(LEFT, new_, old_, px, py);
    assert !OnSide(RIGHT, new_, old_, px, py) && !OnSide(BOTTOM, new_, old_, px, py);
    FourSides(new_, old_, px, py);
  }

  lemma FourSides(new_: Rect, old_: Rect, px: int, py: int)
    ensures SideCount(new_, old_, 4, px, py) ==
      (if OnSide(TOP, new_, old_, px, py) then 1 else 0) + (if OnSide(LEFT, new_, old_, px, py) then 1 else 0) +
      (if OnSide(RIGHT, new_, old_, px, py) then 1 else 0) + if OnSide(BOTTOM, new_, old_, px, py) then 1 else 0
  {
    hide OnSide;
    assert SideCount(new_, old_, 1, px, py) == if OnSide(TOP, new_, old_, px, py) then 1 else 0;
    assert SideCount(new_, old_, 2, px, py) == SideCount(new_, old_, 1, px, py) + if OnSide(LEFT, new_, old_, px, py) then 1 else 0;
  }

  // A new rectangle with a negative size leaves pieces that overlap each other.
  lemma PiecesTwice(new_: Rect, old_: Rect) returns (px: int, py: int)
    requires new_.Crosses(old_) && old_.Solid() && new_.w != 0 && new_.h != 0 && !new_.Solid()
    ensures Count(Pieces(new_, old_, 4), px, py) >= 2
  {
    if new_.h < 0 {
      px, py := old_.x, new_.y + new_.h;
      assert OnSide(TOP, new_, old_, px, py) && OnSide(BOTTOM, new_, old_, px, py);
    } else {
      px, py := new_.x + new_.w, Max(old_.y, new_.y);
      assert OnSide(LEFT, new_, old_, px, py) && OnSide(RIGHT, new_, old_, px, py);
    }
    PiecesCount(new_, old_, 4, px, py);
    FourSides(new_, old_, px, py);
  }

  // Breaking a list takes the new rectangle out of it, and out of it only.
  lemma {:induction false} BreakAllCuts(new_: Rect, rs: seq<Rect>, px: int, py: int)
    requires new_.Solid()
    ensures AllSolid(rs) ==> AllSolid(BreakAll(new_, rs))
    ensures Count(BreakAll(new_, rs), px, py) == if new_.Has(px, py) then 0 else Count(rs, px, py)
  {
    if rs != [] {
      BreakAllCuts(new_, rs[1..], px, py);
      CountConcat(Break(new_, rs[0]), BreakAll(new_, rs[1..]), px, py);
      assert [rs[0]][1..] == [];
      BreakCuts(new_, rs[0], px, py);
    }
  }

  lemma BreakCuts(new_: Rect, old_: Rect, px: int, py: int)
    requires new_.Solid()
    ensures old_.Solid() ==> AllSolid(Break(new_, old_))
    ensures Count(Break(new_, old_), px, py) == if old_.Has(px, py) && !new_.Has(px, py) then 1 else 0
  {
    assert [old_][1..] == [];
    if new_.Crosses(old_) {
      if old_.Solid() {
        PiecesSplit(new_, old_, px, py);
      } else {
        PiecesNone(new_, old_, px, py);
      }
    }
  }

  // It crosses no rectangle of the list that is not empty.
  predicate Spares(new_: Rect, rs: seq<Rect>) {
    forall i :: 0 <= i < |rs| && rs[i].Solid() ==> !new_.Crosses(rs[i])
  }

  lemma {:induction false} BreakAllSpares(new_: Rect, rs: seq<Rect>, px: int, py: int)
    requires Spares(new_, rs)
    ensures Count(BreakAll(new_, rs), px, py) == Count(rs, px, py)
  {
    if rs != [] {
      assert rs[0].Solid() ==> !new_.Crosses(rs[0]);
      forall i | 0 <= i < |rs[1..]| && rs[1..][i].Solid() ensures !new_.Crosses(rs[1..][i]) {
        assert rs[1..][i] == rs[i + 1];
      }
      BreakAllSpares(new_, rs[1..], px, py);
      CountConcat(Break(new_, rs[0]), BreakAll(new_, rs[1..]), px, py);
      assert [rs[0]][1..] == [];
      if new_.Crosses(rs[0]) {
        PiecesNone(new_, rs[0], px, py);
      }
    }
  }

  // One with a negative size that crosses another leaves some point twice.
  lemma {:induction false} BreakAllTwice(new_: Rect, rs: seq<Rect>) returns (px: int, py: int)
    requires !Spares(new_, rs) && new_.w != 0 && new_.h != 0 && !new_.Solid()
    ensures Count(BreakAll(new_, rs), px, py) >= 2
  {
    if rs[0].Solid() && new_.Crosses(rs[0]) {
      px, py := PiecesTwice(new_, rs[0]);
    } else {
      var i :| 0 <= i < |rs| && rs[i].Solid() && new_.Crosses(rs[i]);
      assert rs[1..][i - 1] == rs[i];
      px, py := BreakAllTwice(new_, rs[1..]);
    }
    CountConcat(Break(new_, rs[0]), BreakAll(new_, rs[1..]), px, py);
  }

  lemma {:induction false} BreakAllMisses(new_: Rect, rs: seq<Rect>)
    requires !Broke(new_, rs)
    ensures BreakAll(new_, rs) == rs
  {
    if rs != [] {
      assert !new_.Crosses(rs[0]);
      forall i | 0 <= i < |rs[1..]| ensures !new_.Crosses(rs[1..][i]) {
        assert rs[1..][i] == rs[i + 1];
      }
      BreakAllMisses(new_, rs[1..]);
    }
  }

  // Two solid rectangles overlap exactly when they share a point.
  lemma CrossesAt(a: Rect, b: Rect) returns (px: int, py: int)
    requires a.Solid() && b.Solid()
    ensures a.Crosses(b) <==> (a.Has(px, py) && b.Has(px, py))
  {
    px, py := Max(a.x, b.x), Max(a.y, b.y);
  }
}

// The lists after a sweep over the windows from the bottom up.
module Visible {
  import opened Bounds
  import opened Rects

  // A window's list broken by those of the windows from lo to hi that have a size; t holds the
  // windows' rectangles, bottom first.
  ghost function Cover(rs: seq<Rect>, t: seq<Rect>, lo: nat, hi: nat): seq<Rect>
    requires hi <= |t|
    decreases hi
  {
    if lo >= hi then rs
    else
      var c := Cover(rs, t, lo, hi - 1);
      if Sized(t[hi - 1]) then BreakAll(t[hi - 1], c) else c
  }

  predicate Sized(r: Rect) {
    r.w != 0 && r.h != 0
  }

  function Whole(r: Rect): seq<Rect> {
    if Sized(r) then [r] else []
  }

  // The list of the i-th window once those below hi are swept.
  ghost function ListOf(t: seq<Rect>, i: nat, hi: nat): seq<Rect>
    requires i < hi <= |t|
  {
    Cover(Whole(t[i]), t, i + 1, hi)
  }

  // Some window from lo to hi overlaps the i-th one.
  ghost predicate Overlapped(t: seq<Rect>, i: nat, hi: nat)
    requires i < hi <= |t|
  {
    exists k {:trigger t[k]} :: i < k < hi && Sized(t[k]) && Sized(t[i]) && t[k].Crosses(t[i])
  }

  // The flag VF_BROKEN of the i-th window once those below hi are swept.
  ghost predicate Flag(t: seq<Rect>, i: nat, hi: nat)
    requires i < hi <= |t|
    decreases hi
  {
    hi > i + 1 && (Flag(t, i, hi - 1) || (Sized(t[hi - 1]) && Broke(t[hi - 1], ListOf(t, i, hi - 1))))
  }

  predicate Sane(t: seq<Rect>) {
    forall i :: 0 <= i < |t| ==> t[i].w >= 0 && t[i].h >= 0
  }

  // The i-th window is the topmost of those below hi at the point.
  ghost predicate Topmost(t: seq<Rect>, i: nat, hi: nat, px: int, py: int)
    requires i < hi <= |t|
  {
    t[i].Has(px, py) && forall k {:trigger t[k]} :: i < k < hi ==> !t[k].Has(px, py)
  }

  // No window of a negative size crosses what is left of one below it when it is swept.
  ghost predicate Tame(t: seq<Rect>) {
    forall i, j {:trigger t[i], t[j]} :: 0 <= i < j < |t| && Sized(t[j]) && !t[j].Solid() ==> Spares(t[j], ListOf(t, i, j))
  }

  lemma SaneIsTame(t: seq<Rect>)
    ensures Sane(t) ==> Tame(t)
  {
    assert Sane(t) ==> forall j :: 0 <= j < |t| && Sized(t[j]) ==> t[j].Solid();
  }

  // A window's list holds each point once where the window is topmost, and no other point.
  lemma {:induction false} ListIsTopmost(t: seq<Rect>, i: nat, hi: nat, px: int, py: int)
    requires Tame(t) && i < hi <= |t|
    ensures Sane(t) ==> AllSolid(ListOf(t, i, hi))
    ensures Count(ListOf(t, i, hi), px, py) == if Topmost(t, i, hi, px, py) then 1 else 0
    decreases hi
  {
    if hi == i + 1 {
      assert [t[i]][1..] == [];
    } else {
      ListIsTopmost(t, i, hi - 1, px, py);
      if t[hi - 1].Solid() {
        BreakAllCuts(t[hi - 1], ListOf(t, i, hi - 1), px, py);
      } else if Sized(t[hi - 1]) {
        assert Spares(t[hi - 1], ListOf(t, i, hi - 1));
        BreakAllSpares(t[hi - 1], ListOf(t, i, hi - 1), px, py);
      }
    }
  }

  // All through a sweep the lists are those of the topmost windows.
  ghost predicate SplitUp(t: seq<Rect>) {
    forall i: nat, hi: nat, px: int, py: int :: i < hi <= |t| ==>
      Count(ListOf(t, i, hi), px, py) == if Topmost(t, i, hi, px, py) then 1 else 0
  }

  // This holds exactly for windows that are tame.
  lemma SplitUpIff(t: seq<Rect>)
    ensures SplitUp(t) <==> Tame(t)
  {
    if Tame(t) {
      forall i: nat, hi: nat, px: int, py: int | i < hi <= |t|
        ensures Count(ListOf(t, i, hi), px, py) == if Topmost(t, i, hi, px, py) then 1 else 0
      {
        ListIsTopmost(t, i, hi, px, py);
      }
    } else {
      var i: nat, j: nat :| i < j < |t| && Sized(t[j]) && !t[j].Solid() && !Spares(t[j], ListOf(t, i, j));
      var px, py := BreakAllTwice(t[j], ListOf(t, i, j));
      assert ListOf(t, i, j + 1) == BreakAll(t[j], ListOf(t, i, j));
    }
  }

  // A window is flagged as broken exactly when some window above overlaps it; otherwise its list
  // is the window itself.
  lemma {:induction false} FlagIsOverlapped(t: seq<Rect>, i: nat, hi: nat)
    requires Sane(t) && i < hi <= |t|
    ensures Flag(t, i, hi) <==> Overlapped(t, i, hi)
    ensures !Flag(t, i, hi) ==> ListOf(t, i, hi) == Whole(t[i])
    decreases hi
  {
    if hi > i + 1 {
      FlagIsOverlapped(t, i, hi - 1);
      var r, l := t[hi - 1], ListOf(t, i, hi - 1);
      if Sized(r) {
        if Broke(r, l) {
          BrokeOverlaps(t, i, hi - 1, r);
        } else {
          BreakAllMisses(r, l);
        }
        assert r.Crosses(t[i]) && Sized(t[i]) && !Flag(t, i, hi - 1) ==> r.Crosses(l[0]);
      }
      assert Overlapped(t, i, hi) <==> (Overlapped(t, i, hi - 1) || (Sized(r) && Sized(t[i]) && r.Crosses(t[i])));
    }
  }

  // Overlapping is having a point in common.
  lemma SharedPoint(t: seq<Rect>, i: nat)
    requires Sane(t) && i < |t|
    ensures Overlapped(t, i, |t|) <==>
      exists k, px: int, py: int {:trigger t[k].Has(px, py)} :: i < k < |t| && t[i].Has(px, py) && t[k].Has(px, py)
  {
    if Overlapped(t, i, |t|) {
      var k :| i < k < |t| && Sized(t[k]) && Sized(t[i]) && t[k].Crosses(t[i]);
      var px, py := Max(t[i].x, t[k].x), Max(t[i].y, t[k].y);
      assert t[i].Has(px, py) && t[k].Has(px, py);
    }
  }

  lemma BrokeOverlaps(t: seq<Rect>, i: nat, hi: nat, r: Rect)
    requires Sane(t) && i < hi <= |t| && r.Solid() && Broke(r, ListOf(t, i, hi))
    ensures Sized(t[i]) && r.Crosses(t[i])
  {
    var l := ListOf(t, i, hi);
    var k :| 0 <= k < |l| && r.Crosses(l[k]);
    SaneIsTame(t);
    ListIsTopmost(t, i, hi, 0, 0);
    var px, py := CrossesAt(r, l[k]);
    ListIsTopmost(t, i, hi, px, py);
    CountZero(l, px, py);
  }

  // Over all windows of the tree.
  ghost function Total(t: seq<Rect>, n: nat, px: int, py: int): nat
    requires n <= |t|
  {
    if n == 0 then 0 else Total(t, n - 1, px, py) + Count(ListOf(t, n - 1, |t|), px, py)
  }

  // Every point of the screen of windows lies in exactly one rectangle of all the lists, and it
  // is one of the topmost window there.
  lemma {:induction false} ExactlyOnce(t: seq<Rect>, n: nat, px: int, py: int)
    requires Tame(t) && n <= |t|
    ensures Total(t, n, px, py) <= 1
    ensures Total(t, n, px, py) == 1 <==> exists i: nat :: i < n && Topmost(t, i, |t|, px, py)
  {
    if n > 0 {
      ExactlyOnce(t, n - 1, px, py);
      ListIsTopmost(t, n - 1, |t|, px, py);
      assert forall i: nat :: i < n - 1 && Topmost(t, i, |t|, px, py) ==> !t[n - 1].Has(px, py);
    }
  }

  // Some window is topmost wherever there is a window.
  lemma {:induction false} SomeTopmost(t: seq<Rect>, i: nat, px: int, py: int) returns (j: nat)
    requires i < |t| && t[i].Has(px, py)
    ensures i <= j < |t| && Topmost(t, j, |t|, px, py)
    decreases |t| - i
  {
    j := i;
    if k: nat :| i < k < |t| && t[k].Has(px, py) {
      j := SomeTopmost(t, k, px, py);
    }
  }
}

// ob_find() and the search for a previous sibling.
module TreeFind {
  import opened ObjTree
  import opened TreeWalk

  // The point lies in the object's box, at (x, y), and the object is not hidden.
  predicate Hit(f: Forest, n: nat, x: int, y: int, mx: int, my: int)
    requires n < |f.t|
  {
    !f.t[n].hidden && x <= mx < x + f.t[n].w && y <= my < y + f.t[n].h
  }

  // The last of p's first k children that is hit, with p at (x, y).
  ghost function LastHit(f: Forest, p: nat, k: nat, x: int, y: int, mx: int, my: int): (i: int)
    requires f.Ok() && p < |f.t| && k <= |f.kids[p]|
    ensures -1 <= i < k
  {
    if k == 0 then -1
    else
      var c := f.kids[p][k - 1];
      if Hit(f, c, x + f.t[c].x, y + f.t[c].y, mx, my) then k - 1 else LastHit(f, p, k - 1, x, y, mx, my)
  }

  // From an object that is hit at (x, y), keep entering the last child that is hit.
  ghost function FindIn(f: Forest, n: nat, x: int, y: int, depth: int, mx: int, my: int): (r: nat)
    requires f.Ok() && n < |f.t|
    ensures r < |f.t|
    decreases f.rank[n]
  {
    var i := LastHit(f, n, |f.kids[n]|, x, y, mx, my);
    if depth == 0 || i < 0 then n
    else var c := f.kids[n][i]; FindIn(f, c, x + f.t[c].x, y + f.t[c].y, depth - 1, mx, my)
  }

  // What ob_find() looks for.
  ghost function Found(f: Forest, start: nat, depth: int, mx: int, my: int): int
    requires f.Ok() && start < |f.t| && f.Rooted(start)
  {
    var (x, y) := f.Off(start);
    if Hit(f, start, x, y, mx, my) then FindIn(f, start, x, y, depth, mx, my) else NIL
  }

  // The object is visible and its box on the screen holds the point.
  ghost predicate Shows(f: Forest, n: nat, mx: int, my: int)
    requires f.Ok()
  {
    n < |f.t| && f.Rooted(n) && Hit(f, n, f.Off(n).0, f.Off(n).1, mx, my)
  }

  // No child of p behind the k-th does.
  ghost predicate LaterMiss(f: Forest, p: nat, k: int, mx: int, my: int)
    requires f.Ok()
  {
    forall j: nat, c: nat :: k < j && f.Child(p, j, c) ==> c < |f.t| && f.Rooted(c) && !Shows(f, c, mx, my)
  }

  // c is the last child of p that does.
  ghost predicate LastShown(f: Forest, p: nat, c: nat, mx: int, my: int)
    requires f.Ok()
  {
    Shows(f, c, mx, my) && exists k: nat :: f.Child(p, k, c) && LaterMiss(f, p, k, mx, my)
  }

  lemma LastHitIs(f: Forest, p: nat, mx: int, my: int)
    requires f.Ok() && p < |f.t| && f.Rooted(p)
    ensures var k := LastHit(f, p, |f.kids[p]|, f.Off(p).0, f.Off(p).1, mx, my);
            && LaterMiss(f, p, k, mx, my)
            && (k >= 0 ==>
                 var c := f.kids[p][k];
                 && LastShown(f, p, c, mx, my) && f.rank[c] < f.rank[p]
                 && f.Off(c) == (f.Off(p).0 + f.t[c].x, f.Off(p).1 + f.t[c].y))
  {
    hide f.Rooted, f.Off, Hit, LastHit;
    var k := LastHit(f, p, |f.kids[p]|, f.Off(p).0, f.Off(p).1, mx, my);
    forall j: nat, c: nat | f.Child(p, j, c) && k <= j
      ensures c < |f.t| && f.Rooted(c) && f.rank[c] < f.rank[p] && (Shows(f, c, mx, my) <==> k == j)
      ensures f.Off(c) == (f.Off(p).0 + f.t[c].x, f.Off(p).1 + f.t[c].y)
    {
      OneParent(f, p, j, c);
      LastHitAt(f, p, j, |f.kids[p]|, f.Off(p).0, f.Off(p).1, mx, my);
    }
    if k >= 0 {
      assert f.Child(p, k, f.kids[p][k]);
    }
  }

  // The way down from n that keeps to the last child showing the point.
  ghost predicate Way(f: Forest, path: seq<nat>, depth: int, mx: int, my: int)
    requires f.Ok()
  {
    && path != [] && (depth >= 0 ==> |path| <= depth + 1) && Shows(f, path[0], mx, my)
    && (forall i :: 0 <= i < |path| - 1 ==> LastShown(f, path[i], path[i + 1], mx, my))
    && (|path| != depth + 1 ==> LaterMiss(f, path[|path| - 1], -1, mx, my))
  }

  lemma WayDown(f: Forest, n: nat, path: seq<nat>, depth: int, mx: int, my: int)
    requires f.Ok() && Way(f, path, depth - 1, mx, my) && depth != 0
    requires Shows(f, n, mx, my) && LastShown(f, n, path[0], mx, my)
    ensures Way(f, [n] + path, depth, mx, my)
  {
    hide f.Ok, LaterMiss, Shows, LastShown;
    var w := [n] + path;
    forall i | 0 <= i < |w| - 1 ensures LastShown(f, w[i], w[i + 1], mx, my) {
      if i > 0 {
        assert w[i] == path[i - 1] && w[i + 1] == path[i];
      }
    }
  }

  lemma {:induction false} FindInWay(f: Forest, n: nat, depth: int, mx: int, my: int) returns (path: seq<nat>)
    requires f.Ok() && n < |f.t| && f.Rooted(n) && Shows(f, n, mx, my)
    ensures Way(f, path, depth, mx, my)
    ensures path[0] == n && path[|path| - 1] == FindIn(f, n, f.Off(n).0, f.Off(n).1, depth, mx, my)
    decreases f.rank[n]
  {
    hide f.Ok, f.Rooted, f.Off, LastHit, Hit, LaterMiss, LastShown;
    path := [n];
    SameSize(f);
    LastHitIs(f, n, mx, my);
    var i := LastHit(f, n, |f.kids[n]|, f.Off(n).0, f.Off(n).1, mx, my);
    if depth != 0 && i >= 0 {
      var c := f.kids[n][i];
      assert Shows(f, c, mx, my) by { ShownLast(f, n, c, mx, my); }
      path := FindInWay(f, c, depth - 1, mx, my);
      WayDown(f, n, path, depth, mx, my);
      path := [n] + path;
    }
  }

  lemma ShownLast(f: Forest, p: nat, c: nat, mx: int, my: int)
    requires f.Ok() && LastShown(f, p, c, mx, my)
    ensures Shows(f, c, mx, my) && exists k: nat :: f.Child(p, k, c) && LaterMiss(f, p, k, mx, my)
  {
  }

  // The i-th step of a way goes to the child with the index ks[i].
  ghost predicate Led(f: Forest, path: seq<nat>, ks: seq<nat>, i: nat, mx: int, my: int)
    requires f.Ok() && i < |ks| < |path|
  {
    f.Child(path[i], ks[i], path[i + 1]) && LaterMiss(f, path[i], ks[i], mx, my) && Shows(f, path[i + 1], mx, my)
  }

  lemma {:induction false} WayIndexes(f: Forest, path: seq<nat>, mx: int, my: int) returns (ks: seq<nat>)
    requires f.Ok() && path != []
    requires forall i :: 0 <= i < |path| - 1 ==> LastShown(f, path[i], path[i + 1], mx, my)
    ensures |ks| == |path| - 1
    ensures forall i :: 0 <= i < |ks| ==> Led(f, path, ks, i, mx, my)
  {
    hide f.Ok, LaterMiss, Shows;
    ks := [];
    if |path| > 1 {
      var t := path[1..];
      forall i | 0 <= i < |t| - 1 ensures LastShown(f, t[i], t[i + 1], mx, my) {
        assert t[i] == path[i + 1] && t[i + 1] == path[i + 2];
      }
      var rest := WayIndexes(f, t, mx, my);
      assert LastShown(f, path[0], path[1], mx, my);
      var k: nat :| f.Child(path[0], k, path[1]) && LaterMiss(f, path[0], k, mx, my);
      ks := [k] + rest;
      forall i | 0 <= i < |ks| ensures Led(f, path, ks, i, mx, my) {
        if i > 0 {
          assert Led(f, t, rest, i - 1, mx, my) && ks[i] == rest[i - 1] && t[i - 1] == path[i] && t[i] == path[i + 1];
        }
      }
    }
  }

  // One object of a way from ob_find()'s start.
  lemma OnWay(f: Forest, path: seq<nat>, ks: seq<nat>, i: nat, depth: int, mx: int, my: int)
    requires f.Ok() && Way(f, path, depth, mx, my) && |ks| == |path| - 1 && i < |path|
    requires forall k :: 0 <= k < |ks| ==> Led(f, path, ks, k, mx, my)
    ensures Shows(f, path[i], mx, my)
    ensures i < |ks| ==> f.Child(path[i], ks[i], path[i + 1])
    ensures forall j: nat, c: nat :: f.Child(path[i], j, c) && (if i < |ks| then ks[i] < j else |ks| != depth) ==>
      c < |f.t| && f.Rooted(c) && !Shows(f, c, mx, my)
  {
    hide f.Ok, f.Child, Shows;
    if i > 0 {
      assert Led(f, path, ks, i - 1, mx, my);
    }
    if i < |ks| {
      assert Led(f, path, ks, i, mx, my);
    }
  }

  // What ob_find() returns: NIL when the start is hidden or its box misses the point; otherwise
  // the end of a way down on which every object is visible and holds the point in its box, and
  // the later children of each are hidden or miss it; so do all children of the last one, unless
  // the depth is used up.
  lemma FoundIs(f: Forest, start: nat, depth: int, mx: int, my: int) returns (path: seq<nat>, ks: seq<nat>)
    requires f.Ok() && start < |f.t| && f.Rooted(start)
    ensures Found(f, start, depth, mx, my) == NIL <==>
      (f.t[start].hidden || mx < f.Off(start).0 || f.Off(start).0 + f.t[start].w <= mx ||
       my < f.Off(start).1 || f.Off(start).1 + f.t[start].h <= my)
    ensures Found(f, start, depth, mx, my) != NIL ==>
      (|path| == |ks| + 1 && path[0] == start && path[|ks|] == Found(f, start, depth, mx, my) &&
       (depth >= 0 ==> |ks| <= depth))
    ensures Found(f, start, depth, mx, my) != NIL ==> forall i :: 0 <= i < |path| ==>
      (path[i] < |f.t| == |f.kids| && f.Rooted(path[i]) && !f.t[path[i]].hidden &&
       f.Off(path[i]).0 <= mx < f.Off(path[i]).0 + f.t[path[i]].w &&
       f.Off(path[i]).1 <= my < f.Off(path[i]).1 + f.t[path[i]].h)
    ensures Found(f, start, depth, mx, my) != NIL ==> forall i :: 0 <= i < |ks| ==>
      (path[i] < |f.kids| && ks[i] < |f.kids[path[i]]| && f.kids[path[i]][ks[i]] == path[i + 1])
    ensures Found(f, start, depth, mx, my) != NIL ==>
      forall i, j {:trigger f.kids[path[i]][j]} ::
        (0 <= i < |path| && path[i] < |f.kids| && 0 <= j < |f.kids[path[i]]| &&
         (if i < |ks| then ks[i] < j else |ks| != depth)) ==>
        (f.kids[path[i]][j] < |f.t| && f.Rooted(f.kids[path[i]][j]) &&
         (f.t[f.kids[path[i]][j]].hidden ||
          mx < f.Off(f.kids[path[i]][j]).0 || f.Off(f.kids[path[i]][j]).0 + f.t[f.kids[path[i]][j]].w <= mx ||
          my < f.Off(f.kids[path[i]][j]).1 || f.Off(f.kids[path[i]][j]).1 + f.t[f.kids[path[i]][j]].h <= my))
  {
    hide f.Ok, f.Rooted, f.Off, f.Child, LastHit, FindIn, LaterMiss, LastShown, Way, Led;
    path, ks := [], [];
    if Shows(f, start, mx, my) {
      path := FindInWay(f, start, depth, mx, my);
      WayIs(f, path, depth, mx, my);
      ks := WayIndexes(f, path, mx, my);
      SameSize(f);
      forall i | 0 <= i < |ks|
        ensures path[i] < |f.kids| && ks[i] < |f.kids[path[i]]| && f.kids[path[i]][ks[i]] == path[i + 1]
      {
        OnWay(f, path, ks, i, depth, mx, my);
        ChildIs(f, path[i]);
      }
      forall i | 0 <= i < |path| ensures Shows(f, path[i], mx, my)
        ensures forall j {:trigger f.kids[path[i]][j]} ::
          0 <= j < |f.kids[path[i]]| && (if i < |ks| then ks[i] < j else |ks| != depth) ==>
          (f.kids[path[i]][j] < |f.t| && f.Rooted(f.kids[path[i]][j]) && !Shows(f, f.kids[path[i]][j], mx, my))
      {
        OnWay(f, path, ks, i, depth, mx, my);
        ChildIs(f, path[i]);
      }
    }
  }

  lemma WayIs(f: Forest, path: seq<nat>, depth: int, mx: int, my: int)
    requires f.Ok() && Way(f, path, depth, mx, my)
    ensures path != [] && (depth >= 0 ==> |path| <= depth + 1)
    ensures forall i :: 0 <= i < |path| - 1 ==> LastShown(f, path[i], path[i + 1], mx, my)
  {
  }

  lemma ChildIs(f: Forest, p: nat)
    ensures forall k: nat, c: nat :: f.Child(p, k, c) ==> p < |f.kids| && k < |f.kids[p]| && f.kids[p][k] == c
    ensures p < |f.kids| ==> forall k: nat :: k < |f.kids[p]| ==> f.Child(p, k, f.kids[p][k])
  {
  }

  lemma NextSibling(f: Forest, p: nat, i: nat, n: nat)
    requires f.Ok() && f.Child(p, i, n)
    ensures p < |f.t| && n < |f.t| && f.t[n].next == f.Next(p, i) && f.Next(p, i) < |f.t|
    ensures f.t[n].next == p <==> i + 1 == |f.kids[p]|
    ensures i + 1 < |f.kids[p]| ==> f.Child(p, i + 1, f.Next(p, i))
  {
    assert f.ListOk(p);
  }

  lemma OneChild(f: Forest, p: nat, n: nat)
    requires f.Ok()
    ensures forall i: nat, j: nat :: f.Child(p, i, n) && f.Child(p, j, n) ==> i == j
  {
  }

  // get_prev(): the sibling before a child of the parent, NIL for the first one and for others.
  method GetPrev(f: Forest, parent: nat, obj: nat) returns (r: int)
    requires f.Ok() && parent < |f.t| && |f.kids[parent]| > 0 && obj != parent
    ensures forall i: nat :: f.Child(parent, i, obj) ==> r == if i == 0 then NIL else f.kids[parent][i - 1]
    ensures r != NIL ==> exists i: nat :: f.Child(parent, i, obj)
  {
    hide f.Ok;
    HeadChild(f, parent);
    var pobj: nat := f.t[parent].head;
    OneChild(f, parent, obj);
    if pobj == obj {
      return NIL;
    }
    ghost var k: nat := 0;
    while true
      invariant f.Child(parent, k, pobj)
      invariant forall j :: 0 <= j <= k ==> f.kids[parent][j] != obj
      decreases |f.kids[parent]| - k
    {
      NextSibling(f, parent, k, pobj);
      var nobj: nat := f.t[pobj].next;
      if nobj == obj {
        return pobj;
      }
      if nobj == parent {
        return NIL;
      }
      pobj, k := nobj, k + 1;
    }
  }

  // The search is at p, at (x, y), with the children from k on looked at and none of them hit.
  ghost predicate Looking(f: Forest, p: nat, k: nat, x: int, y: int, depth: int, mx: int, my: int, goal: int)
    requires f.Ok()
  {
    && p < |f.t| && k <= |f.kids[p]| && depth != 0
    && LastHit(f, p, k, x, y, mx, my) == LastHit(f, p, |f.kids[p]|, x, y, mx, my)
    && goal == FindIn(f, p, x, y, depth, mx, my)
  }

  // One object is looked at: entered when it is hit, passed over when not.
  lemma LookAt(f: Forest, p: nat, k: nat, c: nat, x: int, y: int, depth: int, mx: int, my: int, goal: int)
    requires f.Ok() && Looking(f, p, k, x, y, depth, mx, my, goal) && k > 0 && f.Child(p, k - 1, c)
    ensures c < |f.t| && f.rank[c] < f.rank[p]
    ensures var cx, cy := x + f.t[c].x, y + f.t[c].y;
            if Hit(f, c, cx, cy, mx, my) then goal == FindIn(f, c, cx, cy, depth - 1, mx, my)
            else Looking(f, p, k - 1, x, y, depth, mx, my, goal)
  {
  }

  // With no child left the search ends; otherwise it enters at the tail.
  lemma LookIn(f: Forest, n: nat, x: int, y: int, depth: int, mx: int, my: int)
    requires f.Ok() && n < |f.t|
    ensures var goal := FindIn(f, n, x, y, depth, mx, my);
            if depth == 0 || f.t[n].tail == NIL then goal == n
            else Looking(f, n, |f.kids[n]|, x, y, depth, mx, my, goal) && f.t[n].tail >= 0 && |f.kids[n]| > 0 &&
                 f.Child(n, |f.kids[n]| - 1, f.t[n].tail)
  {
    assert f.ListOk(n);
  }

  lemma LookedAll(f: Forest, p: nat, x: int, y: int, depth: int, mx: int, my: int, goal: int)
    requires f.Ok() && Looking(f, p, 0, x, y, depth, mx, my, goal)
    ensures goal == p
  {
  }

  lemma SameSize(f: Forest)
    requires f.Ok()
    ensures |f.kids| == |f.t| == |f.rank|
    ensures forall p: nat, k: nat, n: nat :: f.Child(p, k, n) ==> n < |f.t| && n != p
  {
  }

  lemma GoalIs(f: Forest, start: nat, depth: int, mx: int, my: int)
    requires f.Ok() && start < |f.t| && f.Rooted(start)
    ensures var r := Found(f, start, depth, mx, my);
            && (r == NIL <==>
                 (f.t[start].hidden || mx < f.Off(start).0 || f.Off(start).0 + f.t[start].w <= mx ||
                  my < f.Off(start).1 || f.Off(start).1 + f.t[start].h <= my))
            && (r != NIL ==>
                 (0 <= r < |f.t| && f.Rooted(r) && !f.t[r].hidden &&
                  f.Off(r).0 <= mx < f.Off(r).0 + f.t[r].w && f.Off(r).1 <= my < f.Off(r).1 + f.t[r].h))
            && ((r != NIL && depth < 0) ==>
                 forall c: nat, j: nat :: f.Child(r, j, c) ==>
                   (c < |f.t| && f.Rooted(c) &&
                    (f.t[c].hidden || mx < f.Off(c).0 || f.Off(c).0 + f.t[c].w <= mx ||
                     my < f.Off(c).1 || f.Off(c).1 + f.t[c].h <= my)))
  {
    hide f.Ok, f.Rooted, f.Off, f.Child, Found;
    var path, ks := FoundIs(f, start, depth, mx, my);
    var r := Found(f, start, depth, mx, my);
    if r != NIL {
      assert path[|ks|] == r;
      ChildIs(f, r);
    }
  }

  // ob_find(): the object under a point, to a depth below the start; the loop walks each child
  // list from its tail backwards.
  method ObFind(f: Forest, start: nat, depth0: int, mx: int, my: int) returns (lastfound: int)
    requires f.Ok() && start < |f.t| && f.Rooted(start)
    ensures lastfound == Found(f, start, depth0, mx, my)
    ensures lastfound == NIL <==>
      (f.t[start].hidden || mx < f.Off(start).0 || f.Off(start).0 + f.t[start].w <= mx ||
       my < f.Off(start).1 || f.Off(start).1 + f.t[start].h <= my)
    ensures lastfound != NIL ==>
      (0 <= lastfound < |f.t| && f.Rooted(lastfound) && !f.t[lastfound].hidden &&
       f.Off(lastfound).0 <= mx < f.Off(lastfound).0 + f.t[lastfound].w &&
       f.Off(lastfound).1 <= my < f.Off(lastfound).1 + f.t[lastfound].h)
    ensures (lastfound != NIL && depth0 < 0) ==>
      forall c: nat, j: nat :: f.Child(lastfound, j, c) ==>
        (c < |f.t| && f.Rooted(c) &&
         (f.t[c].hidden || mx < f.Off(c).0 || f.Off(c).0 + f.t[c].w <= mx ||
          my < f.Off(c).1 || f.Off(c).1 + f.t[c].h <= my))
  {
    hide f.Ok, f.Rooted, f.Off, Looking, FindIn, LastHit, Hit;
    lastfound := NIL;
    var ox, oy, depth := 0, 0, depth0;
    ParentPlace(f, start);
    if start != ROOT {
      var parent := GetPar(f, start);
      ox, oy := ObOffset(f, parent);
    }
    var done, dosibs, currobj: nat := false, false, start;
    ghost var k: nat, j: nat, dp, goal := 0, 1, 0, Found(f, start, depth, mx, my);
    GoalIs(f, start, depth, mx, my);
    SameSize(f);
    while !done
      invariant currobj < |f.t|
      invariant done ==> lastfound == goal
      invariant !done && lastfound == NIL ==>
        (!dosibs && currobj == start && depth == depth0 && f.Off(start) == (ox + f.t[start].x, oy + f.t[start].y))
      invariant lastfound == NIL || 0 <= lastfound < |f.t|
      invariant lastfound != NIL && !done ==> dosibs
      invariant !done && lastfound != NIL ==>
        (j == k + 1 && depth == dp - 1 && f.Child(lastfound, k, currobj) &&
         Looking(f, lastfound, j, ox, oy, dp, mx, my, goal))
      decreases !done, if lastfound == NIL then Top(f.rank) + 1 else f.rank[lastfound], k
    {
      var tx, ty := ox + f.t[currobj].x, oy + f.t[currobj].y;
      if lastfound != NIL {
        LookAt(f, lastfound, j, currobj, ox, oy, dp, mx, my, goal);
      } else {
        TopBounds(f.rank, currobj);
      }
      if Hit(f, currobj, tx, ty, mx, my) {
        lastfound := currobj;
        LookIn(f, currobj, tx, ty, depth, mx, my);
        var childobj := f.t[currobj].tail;
        if childobj != NIL && depth != 0 {
          j, dp := |f.kids[currobj]|, depth;
          k := j - 1;
          currobj := childobj;
          depth := depth - 1;
          ox, oy, dosibs := tx, ty, true;
        } else {
          done := true;
        }
      } else if dosibs && lastfound != NIL {
        var prev := GetPrev(f, lastfound, currobj);
        if prev == NIL {
          LookedAll(f, lastfound, ox, oy, dp, mx, my, goal);
          done := true;
        } else {
          currobj, j, k := prev, k, k - 1;
          assert f.Child(lastfound, k, currobj);
        }
      } else {
        done := true;
      }
    }
  }

  // Every object lies within its parent, as ob_find() relies on.
  ghost predicate Nested(f: Forest) {
    forall p: nat, i: nat, c: nat :: f.Child(p, i, c) && p < |f.t| && c < |f.t| ==>
      && 0 <= f.t[c].x && f.t[c].x + f.t[c].w <= f.t[p].w
      && 0 <= f.t[c].y && f.t[c].y + f.t[c].h <= f.t[p].h
  }

  predicate HitBy(f: Forest, v: Visit, mx: int, my: int) {
    v.obj < |f.t| && Hit(f, v.obj, v.x, v.y, mx, my)
  }

  // The object drawn last at the point.
  function LastDrawn(f: Forest, v: seq<Visit>, mx: int, my: int): int {
    if v == [] then NIL
    else
      var r := LastDrawn(f, v[1..], mx, my);
      if r == NIL && HitBy(f, v[0], mx, my) then v[0].obj else r
  }

  lemma {:induction false} LastDrawnConcat(f: Forest, u: seq<Visit>, v: seq<Visit>, mx: int, my: int)
    ensures LastDrawn(f, u + v, mx, my) ==
            if LastDrawn(f, v, mx, my) != NIL then LastDrawn(f, v, mx, my) else LastDrawn(f, u, mx, my)
  {
    if u == [] {
      assert u + v == v;
    } else {
      assert (u + v)[1..] == u[1..] + v;
      LastDrawnConcat(f, u[1..], v, mx, my);
    }
  }

  // The object reached from n, if n is hit.
  ghost function Reached(f: Forest, n: nat, x: int, y: int, depth: int, mx: int, my: int): int
    requires f.Ok() && n < |f.t|
  {
    if Hit(f, n, x, y, mx, my) then FindIn(f, n, x, y, depth, mx, my) else NIL
  }

  lemma {:induction false} NoneHit(f: Forest, p: nat, k: nat, x: int, y: int, mx: int, my: int)
    requires f.Ok() && Nested(f) && p < |f.t| && k <= |f.kids[p]| && !f.t[p].hidden
    requires !Hit(f, p, x, y, mx, my)
    ensures LastHit(f, p, k, x, y, mx, my) == -1
  {
    if k > 0 {
      assert f.Child(p, k - 1, f.kids[p][k - 1]);
      NoneHit(f, p, k - 1, x, y, mx, my);
    }
  }

  // The last drawn object of a subtree is the one ob_find() reaches.
  lemma {:induction false} PreReaches(f: Forest, n: nat, ax: int, ay: int, d: nat, maxdep: int, mx: int, my: int)
    requires f.Ok() && Nested(f) && n < |f.t| && d <= maxdep + 1
    ensures LastDrawn(f, Pre(f, n, ax, ay, d, maxdep), mx, my) ==
            Reached(f, n, ax + f.t[n].x, ay + f.t[n].y, maxdep + 1 - d, mx, my)
    decreases f.rank[n], |f.kids[n]| + 1
  {
    hide f.Ok, Nested, Hit, PreList;
    var x, y := ax + f.t[n].x, ay + f.t[n].y;
    var self := [Visit(n, x, y, d)];
    assert self[1..] == [];
    SameSize(f);
    if !f.t[n].hidden && d <= maxdep {
      PreListReaches(f, n, 0, x, y, d + 1, maxdep, mx, my);
      LastDrawnConcat(f, self, PreList(f, n, 0, x, y, d + 1, maxdep), mx, my);
      if !Hit(f, n, x, y, mx, my) {
        NoneHit(f, n, |f.kids[n]|, x, y, mx, my);
      }
    } else {
      assert Pre(f, n, ax, ay, d, maxdep) == self;
      if f.t[n].hidden {
        HiddenMisses(f, n, x, y, mx, my);
      }
    }
  }

  lemma HiddenMisses(f: Forest, n: nat, x: int, y: int, mx: int, my: int)
    requires n < |f.t| && f.t[n].hidden
    ensures !Hit(f, n, x, y, mx, my)
  {
  }

  lemma {:induction false} PreListReaches(f: Forest, p: nat, i: nat, x: int, y: int, d: nat, maxdep: int, mx: int, my: int)
    requires f.Ok() && Nested(f) && p < |f.t| && i <= |f.kids[p]| && d <= maxdep + 1
    ensures var k := LastHit(f, p, |f.kids[p]|, x, y, mx, my);
            LastDrawn(f, PreList(f, p, i, x, y, d, maxdep), mx, my) ==
            if k < i then NIL
            else FindIn(f, f.kids[p][k], x + f.t[f.kids[p][k]].x, y + f.t[f.kids[p][k]].y, maxdep + 1 - d, mx, my)
    decreases f.rank[p], |f.kids[p]| - i
  {
    hide Nested, Hit, Pre, FindIn;
    if i < |f.kids[p]| {
      var c := f.kids[p][i];
      PreReaches(f, c, x, y, d, maxdep, mx, my);
      PreListReaches(f, p, i + 1, x, y, d, maxdep, mx, my);
      LastDrawnConcat(f, Pre(f, c, x, y, d, maxdep), PreList(f, p, i + 1, x, y, d, maxdep), mx, my);
      LastHitAt(f, p, i, |f.kids[p]|, x, y, mx, my);
    }
  }

  lemma {:induction false} LastHitAt(f: Forest, p: nat, i: nat, k: nat, x: int, y: int, mx: int, my: int)
    requires f.Ok() && p < |f.t| && i < k <= |f.kids[p]|
    ensures f.kids[p][i] < |f.t|
    ensures LastHit(f, p, k, x, y, mx, my) == i ==>
      Hit(f, f.kids[p][i], x + f.t[f.kids[p][i]].x, y + f.t[f.kids[p][i]].y, mx, my)
    ensures LastHit(f, p, k, x, y, mx, my) < i ==>
      !Hit(f, f.kids[p][i], x + f.t[f.kids[p][i]].x, y + f.t[f.kids[p][i]].y, mx, my)
  {
    if i + 1 < k {
      LastHitAt(f, p, i, k - 1, x, y, mx, my);
    }
  }

  // What is found under a point is what a full draw to the same depth puts there last.
  lemma FindsLastDrawn(f: Forest, depth: nat, mx: int, my: int)
    requires f.Ok() && Nested(f)
    ensures Found(f, ROOT, depth, mx, my) == LastDrawn(f, Pre(f, ROOT, 0, 0, 1, depth), mx, my)
  {
    PreReaches(f, ROOT, 0, 0, 1, depth, mx, my);
  }
}

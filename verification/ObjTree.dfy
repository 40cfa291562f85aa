// Object trees (aes/gemobjop.c and aes/gemoblib.c): an array of objects threaded through
// next, head and tail, where the last child's next is its parent.
module ObjTree {
  const ROOT := 0
  const NIL := -1
  const MAX_DEPTH := 8

  datatype Obj = Obj(next: int, head: int, tail: int, x: int, y: int, w: int, h: int, hidden: bool)

  // An array of objects with the child list of each; rank falls from parent to child.
  datatype Forest = Forest(t: seq<Obj>, ghost kids: seq<seq<nat>>, ghost rank: seq<nat>)
  {
    ghost predicate Ok() {
      && |kids| == |t| && |rank| == |t| && 0 < |t|
      && (forall p :: 0 <= p < |t| ==> ListOk(p))
      && Ranked() && Unshared()
    }

    // The root is nobody's child, and no object is below itself.
    ghost predicate Ranked()
      requires |kids| == |t| == |rank|
    {
      forall p, i :: 0 <= p < |t| && 0 <= i < |kids[p]| ==>
        0 < kids[p][i] < |t| && rank[kids[p][i]] < rank[p]
    }

    // No object occurs twice in the child lists.
    ghost predicate Unshared() {
      forall p: nat, q: nat, i: nat, j: nat {:trigger kids[p][i], kids[q][j]} ::
        (p < |kids| && q < |kids| && i < |kids[p]| && j < |kids[q]| && kids[p][i] == kids[q][j]) ==>
        (p == q && i == j)
    }

    // head, tail and the next links spell out the child list of p.
    ghost predicate ListOk(p: nat)
      requires p < |t| && |kids| == |t|
    {
      && (if |kids[p]| == 0 then t[p].head == NIL && t[p].tail == NIL
          else t[p].head == kids[p][0] && t[p].tail == kids[p][|kids[p]| - 1])
      && (forall i :: 0 <= i < |kids[p]| ==> kids[p][i] < |t| && t[kids[p][i]].next == Next(p, i))
    }

    // What the next link of p's i-th child holds.
    ghost function Next(p: nat, i: nat): nat
      requires p < |kids| && i < |kids[p]|
    {
      if i + 1 < |kids[p]| then kids[p][i + 1] else p
    }

    ghost predicate Child(p: nat, i: nat, n: nat) {
      p < |kids| && i < |kids[p]| && kids[p][i] == n
    }

    ghost predicate HasParent(n: nat) {
      exists p: nat, i: nat :: Child(p, i, n)
    }

    ghost function Par(n: nat): (p: nat)
      requires HasParent(n)
      ensures exists i: nat :: Child(p, i, n)
    {
      var p: nat, i: nat :| Child(p, i, n);
      p
    }

    // n hangs below the root.
    ghost predicate Rooted(n: nat)
      requires Ok() && n < |t|
      decreases Top(rank) - rank[n]
    {
      TopBounds(rank, n);
      n == ROOT || (HasParent(n) && (Up(n); Rooted(Par(n))))
    }

    lemma Up(n: nat)
      requires Ok() && n < |t| && HasParent(n)
      ensures Par(n) < |t| && rank[n] < rank[Par(n)] <= Top(rank) && n != ROOT
    {
      TopBounds(rank, Par(n));
    }

    // Where the object sits on the screen: its own offset and those of all its ancestors.
    ghost function Off(n: nat): (o: (int, int))
      requires Ok() && n < |t| && Rooted(n)
      decreases Top(rank) - rank[n]
    {
      if n == ROOT then (t[n].x, t[n].y)
      else Up(n); var o := Off(Par(n)); (t[n].x + o.0, t[n].y + o.1)
    }
  }

  ghost function Top(s: seq<nat>): nat {
    if s == [] then 0 else var m := Top(s[1..]); if s[0] > m then s[0] else m
  }

  lemma {:induction false} TopBounds(s: seq<nat>, k: nat)
    requires k < |s|
    ensures s[k] <= Top(s)
  {
    if k > 0 {
      TopBounds(s[1..], k - 1);
      assert s[1..][k - 1] == s[k];
    }
  }

  lemma OneParent(f: Forest, p: nat, i: nat, n: nat)
    requires f.Ok() && f.Child(p, i, n)
    ensures f.HasParent(n) && f.Par(n) == p && p < |f.t| && n < |f.t| && n != ROOT
    ensures f.rank[n] < f.rank[p]
    ensures f.Rooted(p) ==> (f.Rooted(n) && f.Off(n) == (f.t[n].x + f.Off(p).0, f.t[n].y + f.Off(p).1))
  {
  }

  // The tail test of get_par() and everyobj(): the next object is the parent exactly when its
  // tail points back.
  lemma TailTest(f: Forest, p: nat, i: nat, n: nat)
    requires f.Ok() && f.Child(p, i, n)
    ensures n < |f.t| && p < |f.t| && f.t[n].next == f.Next(p, i) && f.Next(p, i) < |f.t|
    ensures f.t[f.Next(p, i)].tail == n <==> i + 1 == |f.kids[p]|
  {
    assert f.ListOk(p);
    if i + 1 < |f.kids[p]| {
      var m := f.kids[p][i + 1];
      assert f.ListOk(m);
      if |f.kids[m]| > 0 {
        assert f.kids[m][|f.kids[m]| - 1] != f.kids[p][i];
      }
    }
  }

  // get_par(): the parent of an object of a tree, NIL for the root.
  method GetPar(f: Forest, obj: nat) returns (r: int)
    requires f.Ok() && (obj == ROOT || f.HasParent(obj))
    ensures r == if obj == ROOT then NIL else f.Par(obj)
  {
    if obj == ROOT {
      return NIL;
    }
    var o: nat := obj;
    ghost var p := f.Par(obj);
    ghost var k: nat :| f.Child(p, k, obj);
    while true
      invariant f.Child(p, k, o)
      decreases |f.kids[p]| - k
    {
      TailTest(f, p, k, o);
      var next: nat := f.t[o].next;
      if f.t[next].tail == o {
        return next;
      }
      o, k := next, k + 1;
    }
  }

  lemma OffIs(f: Forest, n: nat)
    requires f.Ok() && n < |f.t| && f.Rooted(n)
    ensures |f.rank| == |f.t|
    ensures n == ROOT ==> f.Off(n) == (f.t[n].x, f.t[n].y)
    ensures forall p: nat, i: nat :: f.Child(p, i, n) && p < |f.t| && f.Rooted(p) ==>
      f.Off(n) == (f.t[n].x + f.Off(p).0, f.t[n].y + f.Off(p).1)
  {
    hide f.Ok, f.Rooted, f.Off, f.Child;
    forall p: nat, i: nat | f.Child(p, i, n)
      ensures p < |f.t| && (f.Rooted(p) ==> f.Off(n) == (f.t[n].x + f.Off(p).0, f.t[n].y + f.Off(p).1))
    {
      OneParent(f, p, i, n);
    }
    SameRanks(f);
    if n == ROOT {
      OffRoot(f);
    }
  }

  lemma SameRanks(f: Forest)
    requires f.Ok()
    ensures |f.rank| == |f.t|
  {
  }

  lemma OffRoot(f: Forest)
    requires f.Ok() && f.Rooted(ROOT)
    ensures f.Off(ROOT) == (f.t[ROOT].x, f.t[ROOT].y)
  {
  }

  lemma OffUp(f: Forest, n: nat)
    requires f.Ok() && n < |f.t| && f.Rooted(n) && n != ROOT
    ensures f.HasParent(n) && f.Par(n) < |f.t| && f.rank[n] < f.rank[f.Par(n)] <= Top(f.rank) && f.Rooted(f.Par(n))
    ensures f.Off(n) == (f.t[n].x + f.Off(f.Par(n)).0, f.t[n].y + f.Off(f.Par(n)).1)
  {
    f.Up(n);
  }

  // ob_offset(): climbing with get_par() adds up the offsets on the path to the root.
  method ObOffset(f: Forest, obj: nat) returns (x: int, y: int)
    requires f.Ok() && obj < |f.t| && f.Rooted(obj)
    ensures (x, y) == f.Off(obj)
    ensures obj == ROOT ==> x == f.t[obj].x && y == f.t[obj].y
    ensures forall p: nat, i: nat :: f.Child(p, i, obj) && p < |f.t| && f.Rooted(p) ==>
      (x == f.t[obj].x + f.Off(p).0 && y == f.t[obj].y + f.Off(p).1)
  {
    hide f.Ok, f.Rooted, f.Child;
    OffIs(f, obj);
    x, y := f.t[obj].x, f.t[obj].y;
    var o: nat := obj;
    while o != ROOT
      invariant o < |f.t| && f.Rooted(o)
      invariant (x - f.t[o].x + f.Off(o).0, y - f.t[o].y + f.Off(o).1) == f.Off(obj)
      decreases Top(f.rank) - f.rank[o]
    {
      OffUp(f, o);
      o := GetPar(f, o);
      x, y := x + f.t[o].x, y + f.t[o].y;
    }
  }

  // One call of the routine handed to everyobj(), and the index of its place in x[] and y[].
  datatype Visit = Visit(obj: nat, x: int, y: int, depth: nat)

  // The preorder walk of the subtree at n, whose parent sits at (ax, ay): the children of a
  // hidden object and those past the depth limit are left out.
  ghost function Pre(f: Forest, n: nat, ax: int, ay: int, d: nat, maxdep: int): (v: seq<Visit>)
    requires f.Ok() && n < |f.t|
    ensures |v| > 0 && v[0] == Visit(n, ax + f.t[n].x, ay + f.t[n].y, d)
    decreases f.rank[n], |f.kids[n]| + 1
  {
    var x, y := ax + f.t[n].x, ay + f.t[n].y;
    [Visit(n, x, y, d)] + if !f.t[n].hidden && d <= maxdep then PreList(f, n, 0, x, y, d + 1, maxdep) else []
  }

  // The walks of the children of p from the i-th on.
  ghost function PreList(f: Forest, p: nat, i: nat, x: int, y: int, d: nat, maxdep: int): seq<Visit>
    requires f.Ok() && p < |f.t| && i <= |f.kids[p]|
    decreases f.rank[p], |f.kids[p]| - i
  {
    if i == |f.kids[p]| then []
    else Pre(f, f.kids[p][i], x, y, d, maxdep) + PreList(f, p, i + 1, x, y, d, maxdep)
  }

  // The part of a walk before its first visit to the object last.
  function Until(v: seq<Visit>, last: int): (u: seq<Visit>)
    ensures |u| <= |v| && u == v[..|u|] && (forall k :: 0 <= k < |u| ==> u[k].obj != last)
    ensures |u| < |v| ==> v[|u|].obj == last
  {
    if v == [] || v[0].obj == last then [] else [v[0]] + Until(v[1..], last)
  }

  lemma {:induction false} UntilIs(v: seq<Visit>, last: int, u: seq<Visit>)
    requires |u| <= |v| && u == v[..|u|] && (forall k :: 0 <= k < |u| ==> u[k].obj != last)
    requires |u| < |v| ==> v[|u|].obj == last
    ensures u == Until(v, last)
  {
    if u != [] {
      assert u[0] == v[0];
      UntilIs(v[1..], last, u[1..]);
    }
  }

  // Where the walk is below its start: the current object is the i-th child of p, which is
  // at (x, y).
  datatype Ctx = Start(x: int, y: int) | In(p: nat, i: nat, x: int, y: int, up: Ctx)
  {
    function Depth(): (d: nat)
      ensures d >= 1 && (d == 1 <==> Start?)
    {
      if Start? then 1 else up.Depth() + 1
    }
  }

  // n is there, and every object above it is other than last.
  ghost predicate AtCtx(f: Forest, c: Ctx, n: nat, start: nat, last: int) {
    match c
    case Start(_, _) => n == start
    case In(p, i, _, _, up) => f.Child(p, i, n) && p < |f.t| && p != last && AtCtx(f, up, p, start, last)
  }

  // What is left to visit after the current object's subtree.
  ghost function After(f: Forest, c: Ctx, maxdep: int, n: nat, start: nat, last: int): seq<Visit>
    requires f.Ok() && AtCtx(f, c, n, start, last)
  {
    match c
    case Start(_, _) => []
    case In(p, i, x, y, up) =>
      PreList(f, p, i + 1, x, y, c.Depth(), maxdep) + After(f, up, maxdep, p, start, last)
  }

  // The coordinate arrays hold the positions of the objects above.
  ghost predicate Coords(c: Ctx, xs: seq<int>, ys: seq<int>) {
    && c.Depth() <= |xs| == |ys| && xs[c.Depth() - 1] == c.x && ys[c.Depth() - 1] == c.y
    && (c.In? ==> Coords(c.up, xs, ys))
  }

  lemma {:induction false} CoordsKept(c: Ctx, xs: seq<int>, ys: seq<int>, d: nat, x: int, y: int)
    requires Coords(c, xs, ys) && c.Depth() <= d < |xs|
    ensures Coords(c, xs[d := x], ys[d := y])
  {
    if c.In? {
      CoordsKept(c.up, xs, ys, d, x, y);
    }
  }

  // The object has children to walk.
  predicate Enters(f: Forest, n: nat, d: nat, maxdep: int)
    requires n < |f.t|
  {
    f.t[n].head != NIL && !f.t[n].hidden && d <= maxdep
  }

  lemma HeadChild(f: Forest, n: nat)
    requires f.Ok() && n < |f.t|
    ensures f.t[n].head == NIL <==> |f.kids[n]| == 0
    ensures |f.kids[n]| > 0 ==> (0 <= f.t[n].head < |f.t| && f.Child(n, 0, f.t[n].head))
  {
    assert f.ListOk(n);
  }

  lemma PreChild(f: Forest, n: nat, h: nat, ax: int, ay: int, d: nat, maxdep: int)
    requires f.Ok() && n < |f.t| && Enters(f, n, d, maxdep) && f.Child(n, 0, h)
    ensures var x, y := ax + f.t[n].x, ay + f.t[n].y;
            Pre(f, n, ax, ay, d, maxdep) ==
            [Visit(n, x, y, d)] + (Pre(f, h, x, y, d + 1, maxdep) + PreList(f, n, 1, x, y, d + 1, maxdep))
  {
  }

  lemma PreLeaf(f: Forest, n: nat, ax: int, ay: int, d: nat, maxdep: int)
    requires f.Ok() && n < |f.t| && !Enters(f, n, d, maxdep)
    ensures Pre(f, n, ax, ay, d, maxdep) == [Visit(n, ax + f.t[n].x, ay + f.t[n].y, d)]
  {
    HeadChild(f, n);
  }

  lemma GoChild(f: Forest, c: Ctx, n: nat, h: nat, x: int, y: int, maxdep: int, start: nat, last: int)
    requires f.Ok() && n < |f.t| && AtCtx(f, c, n, start, last) && n != last
    requires x == c.x + f.t[n].x && y == c.y + f.t[n].y
    requires Enters(f, n, c.Depth(), maxdep) && f.Child(n, 0, h)
    ensures AtCtx(f, In(n, 0, x, y, c), h, start, last)
    ensures Pre(f, n, c.x, c.y, c.Depth(), maxdep) + After(f, c, maxdep, n, start, last) ==
            [Visit(n, x, y, c.Depth())] + (Pre(f, h, x, y, In(n, 0, x, y, c).Depth(), maxdep) +
            After(f, In(n, 0, x, y, c), maxdep, h, start, last))
  {
    hide f.Ok, Pre, PreList;
    PreChild(f, n, h, c.x, c.y, c.Depth(), maxdep);
  }

  lemma GoSibling(f: Forest, p: nat, i: nat, x: int, y: int, up: Ctx, n: nat, maxdep: int, start: nat, last: int)
    requires f.Ok() && AtCtx(f, In(p, i, x, y, up), n, start, last)
    requires i + 1 < |f.kids[p]|
    ensures var m, c, c' := f.kids[p][i + 1], In(p, i, x, y, up), In(p, i + 1, x, y, up);
            && AtCtx(f, c', m, start, last)
            && After(f, c, maxdep, n, start, last) ==
               Pre(f, m, x, y, c'.Depth(), maxdep) + After(f, c', maxdep, m, start, last)
  {
  }

  lemma GoUp(f: Forest, p: nat, i: nat, x: int, y: int, up: Ctx, n: nat, maxdep: int, start: nat, last: int)
    requires f.Ok() && AtCtx(f, In(p, i, x, y, up), n, start, last)
    requires i + 1 == |f.kids[p]|
    ensures AtCtx(f, up, p, start, last)
    ensures After(f, In(p, i, x, y, up), maxdep, n, start, last) == After(f, up, maxdep, p, start, last)
  {
  }

  // The state of the walk: what was visited and what is left make up the whole preorder.
  ghost predicate Walk(f: Forest, full: seq<Visit>, log: seq<Visit>, child: bool, c: Ctx, maxdep: int,
                       n: int, start: nat, last: int)
  {
    && f.Ok() && 0 <= n < |f.t| && AtCtx(f, c, n, start, last)
    && (forall k :: 0 <= k < |log| ==> log[k].obj != last)
    && full == log + if child then Pre(f, n, c.x, c.y, c.Depth(), maxdep) + After(f, c, maxdep, n, start, last)
                     else After(f, c, maxdep, n, start, last)
  }

  lemma WalkStop(f: Forest, full: seq<Visit>, log: seq<Visit>, c: Ctx, maxdep: int, n: int, start: nat, last: int)
    requires Walk(f, full, log, true, c, maxdep, n, start, last)
    ensures |log| < |full|
    ensures n == last ==> log == Until(full, last)
    ensures n != last ==> IsNext(Until(full, last), log, c.Depth())
  {
    if n == last {
      UntilIs(full, last, log);
    } else {
      UntilLonger(full, last, log);
    }
  }

  // The calls made so far, and the depth of the one that comes next.
  ghost predicate IsNext(u: seq<Visit>, log: seq<Visit>, d: nat) {
    |log| < |u| && log == u[..|log|] && u[|log|].depth == d
  }

  lemma UntilLonger(v: seq<Visit>, last: int, log: seq<Visit>)
    requires |log| < |v| && log == v[..|log|] && forall k :: 0 <= k <= |log| ==> v[k].obj != last
    ensures |log| < |Until(v, last)| && log == Until(v, last)[..|log|] && Until(v, last)[|log|] == v[|log|]
  {
    var u := Until(v, last);
    assert |u| >= |v| || v[|u|].obj == last;
  }

  lemma WalkVisit(f: Forest, full: seq<Visit>, log: seq<Visit>, c: Ctx, maxdep: int, n: int, start: nat, last: int,
                  x: int, y: int)
    requires Walk(f, full, log, true, c, maxdep, n, start, last) && n != last
    requires x == c.x + f.t[n].x && y == c.y + f.t[n].y
    ensures Enters(f, n, c.Depth(), maxdep) ==>
      (c.Depth() <= maxdep && 0 <= f.t[n].head < |f.t| &&
       Walk(f, full, log + [Visit(n, x, y, c.Depth())], true, In(n, 0, x, y, c), maxdep, f.t[n].head, start, last))
    ensures !Enters(f, n, c.Depth(), maxdep) ==>
      Walk(f, full, log + [Visit(n, x, y, c.Depth())], false, c, maxdep, n, start, last)
  {
    hide f.Ok, Pre, PreList, After, AtCtx;
    if Enters(f, n, c.Depth(), maxdep) {
      HeadChild(f, n);
      var h: nat := f.t[n].head;
      GoChild(f, c, n, h, x, y, maxdep, start, last);
      var rest := Pre(f, h, x, y, In(n, 0, x, y, c).Depth(), maxdep) +
        After(f, In(n, 0, x, y, c), maxdep, h, start, last);
      assert log + ([Visit(n, x, y, c.Depth())] + rest) == log + [Visit(n, x, y, c.Depth())] + rest;
    } else {
      PreLeaf(f, n, c.x, c.y, c.Depth(), maxdep);
    }
  }

  // A sibling step either stops the walk, goes on to the next sibling, or climbs.
  lemma WalkNext(f: Forest, full: seq<Visit>, log: seq<Visit>, c: Ctx, maxdep: int, n: int, start: nat, last: int)
    requires Walk(f, full, log, false, c, maxdep, n, start, last)
    requires start == ROOT || (f.HasParent(start) && last == f.t[start].next)
    ensures f.t[n].next == last || n == ROOT ==> log == Until(full, last)
    ensures f.t[n].next != last && n != ROOT ==>
      (c.In? && 0 <= f.t[n].next < |f.t| &&
       if f.t[f.t[n].next].tail != n then Walk(f, full, log, true, c.(i := c.i + 1), maxdep, f.t[n].next, start, last)
       else Walk(f, full, log, false, c.up, maxdep, f.t[n].next, start, last))
  {
    match c
    case Start(_, _) =>
      UntilIs(full, last, log);
    case In(p, i, x, y, up) =>
      TailTest(f, p, i, n);
      if i + 1 < |f.kids[p]| {
        GoSibling(f, p, i, x, y, up, n, maxdep, start, last);
        if f.t[n].next == last {
          UntilIs(full, last, log);
        }
      } else {
        GoUp(f, p, i, x, y, up, n, maxdep, start, last);
      }
  }

  lemma WalkStart(f: Forest, full: seq<Visit>, maxdep: int, start: nat, last: int, x: int, y: int,
                  xs: seq<int>, ys: seq<int>)
    requires f.Ok() && start < |f.t| && full == Pre(f, start, x, y, 1, maxdep)
    requires |xs| == |ys| > 0 && xs[0] == x && ys[0] == y
    ensures Walk(f, full, [], true, Start(x, y), maxdep, start, start, last) && Coords(Start(x, y), xs, ys)
  {
  }

  lemma WalkBound(f: Forest, full: seq<Visit>, log: seq<Visit>, child: bool, c: Ctx, maxdep: int, n: int,
                  start: nat, last: int)
    requires Walk(f, full, log, child, c, maxdep, n, start, last)
    ensures |log| <= |full|
  {
  }

  lemma CoordsTop(c: Ctx, xs: seq<int>, ys: seq<int>)
    requires Coords(c, xs, ys)
    ensures c.Depth() <= |xs| == |ys| && xs[c.Depth() - 1] == c.x && ys[c.Depth() - 1] == c.y
    ensures c.In? ==> Coords(c.up, xs, ys)
  {
  }

  lemma CoordsIn(c: Ctx, p: nat, i: nat, xs: seq<int>, ys: seq<int>)
    requires Coords(c, xs, ys) && c.Depth() < |xs|
    ensures Coords(In(p, i, xs[c.Depth()], ys[c.Depth()], c), xs, ys)
  {
  }

  // Every call finds its place in x[] and y[].
  ghost predicate Shallow(u: seq<Visit>) {
    forall k :: 0 <= k < |u| ==> u[k].depth < MAX_DEPTH + 2
  }

  // everyobj(): the goto walk calls the routine in preorder up to the object last.  It starts at
  // the root, or at an object whose next link is last.  It stays inside its two arrays exactly
  // when no object it comes to lies too deep; inside says so, and the walk ends before the first
  // write past them.
  method EveryObj(f: Forest, start: nat, last: int, startx: int, starty: int, maxdep: int)
    returns (inside: bool, log: seq<Visit>)
    requires f.Ok() && start < |f.t|
    requires start == ROOT || (f.HasParent(start) && last == f.t[start].next)
    ensures inside <==> Shallow(Until(Pre(f, start, startx, starty, 1, maxdep), last))
    ensures inside ==> log == Until(Pre(f, start, startx, starty, 1, maxdep), last)
    ensures !inside ==> IsNext(Until(Pre(f, start, startx, starty, 1, maxdep), last), log, MAX_DEPTH + 2)
  {
    hide Walk, Coords, Pre, Until, Enters, IsNext;
    var xs, ys := new int[MAX_DEPTH + 2], new int[MAX_DEPTH + 2];
    xs[0], ys[0] := startx, starty;
    log := [];
    var o: nat, depth: nat, child := start, 1, true;
    ghost var c := Start(startx, starty);
    ghost var full := Pre(f, start, startx, starty, 1, maxdep);
    WalkStart(f, full, maxdep, start, last, startx, starty, xs[..], ys[..]);
    inside := true;
    while true
      invariant Walk(f, full, log, child, c, maxdep, o, start, last) && o < |f.t| && inside
      invariant Coords(c, xs[..], ys[..]) && depth == c.Depth() && Shallow(log)
      decreases |full| - |log|, if child then 0 else 1, depth
    {
      WalkBound(f, full, log, child, c, maxdep, o, start, last);
      CoordsTop(c, xs[..], ys[..]);
      if child {
        WalkStop(f, full, log, c, maxdep, o, start, last);
        if o == last {
          return;
        }
        if depth >= MAX_DEPTH + 2 {
          TooDeep(Until(full, last), log, depth);
          return false, log;
        }
        var x, y := xs[depth - 1] + f.t[o].x, ys[depth - 1] + f.t[o].y;
        CoordsKept(c, xs[..], ys[..], depth, x, y);
        xs[depth], ys[depth] := x, y;
        WalkVisit(f, full, log, c, maxdep, o, start, last, x, y);
        log := log + [Visit(o, x, y, depth)];
        if f.t[o].head != NIL && !f.t[o].hidden && depth <= maxdep {
          EntersIs(f, o, depth, maxdep);
          CoordsIn(c, o, 0, xs[..], ys[..]);
          c := In(o, 0, x, y, c);
          depth := depth + 1;
          o := f.t[o].head;
        } else {
          EntersIs(f, o, depth, maxdep);
          child := false;
        }
      } else {
        WalkNext(f, full, log, c, maxdep, o, start, last);
        var next := f.t[o].next;
        if next == last || o == ROOT {
          return;
        }
        if f.t[next].tail != o {
          CoordsIn(c.up, c.p, c.i + 1, xs[..], ys[..]);
          c := c.(i := c.i + 1);
          child := true;
        } else {
          c := c.up;
          depth := depth - 1;
        }
        o := next;
      }
    }
  }

  lemma EntersIs(f: Forest, n: nat, d: nat, maxdep: int)
    requires n < |f.t|
    ensures Enters(f, n, d, maxdep) <==> (f.t[n].head != NIL && !f.t[n].hidden && d <= maxdep)
  {
  }

  lemma TooDeep(u: seq<Visit>, log: seq<Visit>, d: nat)
    requires IsNext(u, log, d) && d >= MAX_DEPTH + 2
    ensures !Shallow(u)
  {
    assert u[|log|].depth == d;
  }
}

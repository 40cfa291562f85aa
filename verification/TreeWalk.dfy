// What the preorder of a walk holds.
module TreeWalk {
  import opened ObjTree

  // Steps from n up to the root.
  ghost function Level(f: Forest, n: nat): nat
    requires f.Ok() && n < |f.t| && f.Rooted(n)
    decreases Top(f.rank) - f.rank[n]
  {
    if n == ROOT then 0 else f.Up(n); Level(f, f.Par(n)) + 1
  }

  // The ancestor of n at a level.
  ghost function Anc(f: Forest, n: nat, level: nat): (a: nat)
    requires f.Ok() && n < |f.t| && f.Rooted(n)
    ensures a < |f.t|
    decreases Top(f.rank) - f.rank[n]
  {
    if n == ROOT || Level(f, n) <= level then n else f.Up(n); Anc(f, f.Par(n), level)
  }

  // n is drawn from the root: no object above it is hidden, and it is within the depth limit.
  ghost predicate Shown(f: Forest, n: nat, maxdep: int)
    requires f.Ok() && n < |f.t| && f.Rooted(n)
    decreases Top(f.rank) - f.rank[n]
  {
    n == ROOT || (f.Up(n); Shown(f, f.Par(n), maxdep) && !f.t[f.Par(n)].hidden && Level(f, n) <= maxdep)
  }

  // v is a visit to an object of the subtree at n, at its place on the screen.
  ghost predicate Seen(f: Forest, n: nat, v: Visit, maxdep: int)
    requires f.Ok() && n < |f.t| && f.Rooted(n)
  {
    && v.obj < |f.t| && f.Rooted(v.obj) && f.Off(v.obj) == (v.x, v.y)
    && Level(f, n) <= Level(f, v.obj) && Anc(f, v.obj, Level(f, n)) == n
    && v.depth == Level(f, v.obj) + 1 && (Shown(f, n, maxdep) ==> Shown(f, v.obj, maxdep))
  }

  lemma ChildFacts(f: Forest, p: nat, i: nat, n: nat, maxdep: int)
    requires f.Ok() && f.Child(p, i, n) && p < |f.t| && f.Rooted(p)
    ensures n < |f.t| && f.Rooted(n) && f.Par(n) == p && n != ROOT && Level(f, n) == Level(f, p) + 1
    ensures Shown(f, n, maxdep) <==> (Shown(f, p, maxdep) && !f.t[p].hidden && Level(f, n) <= maxdep)
    ensures f.Off(n) == (f.t[n].x + f.Off(p).0, f.t[n].y + f.Off(p).1)
  {
    OneParent(f, p, i, n);
  }

  lemma {:induction false} AncUp(f: Forest, n: nat, c: nat, p: nat)
    requires f.Ok() && n < |f.t| && f.Rooted(n) && c < |f.t| && f.Rooted(c) && p < |f.t| && f.Rooted(p)
    requires c != ROOT && f.Par(c) == p
    requires Level(f, c) <= Level(f, n) && Anc(f, n, Level(f, c)) == c
    ensures Anc(f, n, Level(f, p)) == p
    decreases Top(f.rank) - f.rank[n]
  {
    f.Up(c);
    if n != c {
      f.Up(n);
      AncUp(f, f.Par(n), c, p);
    }
  }

  // The place handed to the walk of n is the one of its parent.
  ghost predicate PlacedAt(f: Forest, n: nat, ax: int, ay: int, d: nat)
    requires f.Ok() && n < |f.t|
  {
    f.Rooted(n) && d == Level(f, n) + 1 && f.Off(n) == (ax + f.t[n].x, ay + f.t[n].y)
  }

  // The list walk of p's children: they are at (x, y) and shown when p is.
  ghost predicate PlacedList(f: Forest, p: nat, i: nat, x: int, y: int, d: nat, maxdep: int)
    requires f.Ok()
  {
    && p < |f.t| && i <= |f.kids[p]| && f.Rooted(p) && d == Level(f, p) + 2 && f.Off(p) == (x, y)
    && !f.t[p].hidden && d <= maxdep + 1
  }

  // v was seen in the subtree of one of p's children from the i-th on.
  ghost predicate SeenIn(f: Forest, p: nat, i: nat, v: Visit, maxdep: int)
    requires f.Ok() && p < |f.t|
  {
    exists j: nat, c: nat {:trigger f.Child(p, j, c)} ::
      i <= j && f.Child(p, j, c) && c < |f.t| && f.Rooted(c) && Seen(f, c, v, maxdep)
  }

  lemma FirstPlaced(f: Forest, p: nat, i: nat, x: int, y: int, d: nat, maxdep: int)
    requires f.Ok() && PlacedList(f, p, i, x, y, d, maxdep) && i < |f.kids[p]|
    ensures f.kids[p][i] < |f.t| && PlacedAt(f, f.kids[p][i], x, y, d)
  {
    ChildFacts(f, p, i, f.kids[p][i], maxdep);
  }

  lemma SeenUp(f: Forest, p: nat, i: nat, c: nat, v: Visit, d: nat, x: int, y: int, maxdep: int)
    requires f.Ok() && PlacedList(f, p, i, x, y, d, maxdep) && f.Child(p, i, c)
    requires c < |f.t| && f.Rooted(c) && Seen(f, c, v, maxdep)
    ensures Seen(f, p, v, maxdep) && SeenIn(f, p, i, v, maxdep)
  {
    hide f.Ok, f.Rooted, f.Off;
    ChildFacts(f, p, i, c, maxdep);
    AncUp(f, v.obj, c, p);
  }

  lemma SeenSelf(f: Forest, n: nat, ax: int, ay: int, d: nat, maxdep: int)
    requires f.Ok() && n < |f.t| && PlacedAt(f, n, ax, ay, d)
    ensures Seen(f, n, Visit(n, ax + f.t[n].x, ay + f.t[n].y, d), maxdep)
  {
  }

  // Everything visited is below the start, at its own offset on the screen.
  lemma {:induction false} PreSeen(f: Forest, n: nat, ax: int, ay: int, d: nat, maxdep: int, k: nat)
    requires f.Ok() && n < |f.t| && PlacedAt(f, n, ax, ay, d)
    requires k < |Pre(f, n, ax, ay, d, maxdep)|
    ensures Seen(f, n, Pre(f, n, ax, ay, d, maxdep)[k], maxdep)
    ensures k > 0 ==> SeenIn(f, n, 0, Pre(f, n, ax, ay, d, maxdep)[k], maxdep)
    decreases f.rank[n], |f.kids[n]| + 1
  {
    hide Seen, SeenIn, PreList, f.Ok, f.Rooted, f.Off, Level;
    if k == 0 {
      SeenSelf(f, n, ax, ay, d, maxdep);
    } else {
      var x, y := ax + f.t[n].x, ay + f.t[n].y;
      assert Pre(f, n, ax, ay, d, maxdep)[k] == PreList(f, n, 0, x, y, d + 1, maxdep)[k - 1];
      PreListSeen(f, n, 0, x, y, d + 1, maxdep, k - 1);
    }
  }

  lemma {:induction false} PreListSeen(f: Forest, p: nat, i: nat, x: int, y: int, d: nat, maxdep: int, k: nat)
    requires f.Ok() && PlacedList(f, p, i, x, y, d, maxdep)
    requires k < |PreList(f, p, i, x, y, d, maxdep)|
    ensures Seen(f, p, PreList(f, p, i, x, y, d, maxdep)[k], maxdep)
    ensures SeenIn(f, p, i, PreList(f, p, i, x, y, d, maxdep)[k], maxdep)
    decreases f.rank[p], |f.kids[p]| - i
  {
    hide Seen, Pre, f.Rooted, f.Off, Level;
    var c := f.kids[p][i];
    FirstPlaced(f, p, i, x, y, d, maxdep);
    var first := Pre(f, c, x, y, d, maxdep);
    if k < |first| {
      PreSeen(f, c, x, y, d, maxdep, k);
      SeenUp(f, p, i, c, first[k], d, x, y, maxdep);
    } else {
      PreListSeen(f, p, i + 1, x, y, d, maxdep, k - |first|);
    }
  }

  // Two subtrees of children of one parent have no object in common.
  lemma SubtreesApart(f: Forest, p: nat, i: nat, j: nat, b: nat, c: nat, v: Visit, w: Visit, maxdep: int)
    requires f.Ok() && p < |f.t| && f.Rooted(p) && f.Child(p, i, b) && f.Child(p, j, c) && i != j
    requires b < |f.t| && f.Rooted(b) && Seen(f, b, v, maxdep)
    requires c < |f.t| && f.Rooted(c) && Seen(f, c, w, maxdep)
    ensures v.obj != w.obj
  {
    ChildFacts(f, p, i, b, maxdep);
    ChildFacts(f, p, j, c, maxdep);
  }

  // No object is visited twice.
  lemma {:induction false} PreOnce(f: Forest, n: nat, ax: int, ay: int, d: nat, maxdep: int, k: nat, l: nat)
    requires f.Ok() && n < |f.t| && PlacedAt(f, n, ax, ay, d)
    requires k < l < |Pre(f, n, ax, ay, d, maxdep)|
    ensures Pre(f, n, ax, ay, d, maxdep)[k].obj != Pre(f, n, ax, ay, d, maxdep)[l].obj
    decreases f.rank[n], |f.kids[n]| + 1
  {
    hide Seen, PreList, f.Rooted, f.Off, Level;
    var x, y := ax + f.t[n].x, ay + f.t[n].y;
    var v := Pre(f, n, ax, ay, d, maxdep);
    if k == 0 {
      PreSeen(f, n, ax, ay, d, maxdep, l);
      BelowIsOther(f, n, v[l], maxdep);
    } else {
      PreListOnce(f, n, 0, x, y, d + 1, maxdep, k - 1, l - 1);
    }
  }

  lemma BelowIsOther(f: Forest, n: nat, v: Visit, maxdep: int)
    requires f.Ok() && n < |f.t| && f.Rooted(n) && SeenIn(f, n, 0, v, maxdep)
    ensures v.obj != n
  {
    var j: nat, c: nat :| f.Child(n, j, c) && c < |f.t| && f.Rooted(c) && Seen(f, c, v, maxdep);
    ChildFacts(f, n, j, c, maxdep);
  }

  lemma {:induction false} PreListOnce(f: Forest, p: nat, i: nat, x: int, y: int, d: nat, maxdep: int, k: nat, l: nat)
    requires f.Ok() && PlacedList(f, p, i, x, y, d, maxdep)
    requires k < l < |PreList(f, p, i, x, y, d, maxdep)|
    ensures PreList(f, p, i, x, y, d, maxdep)[k].obj != PreList(f, p, i, x, y, d, maxdep)[l].obj
    decreases f.rank[p], |f.kids[p]| - i
  {
    hide Seen, Pre, f.Rooted, f.Off, Level;
    var c := f.kids[p][i];
    FirstPlaced(f, p, i, x, y, d, maxdep);
    var first := Pre(f, c, x, y, d, maxdep);
    var n := |first|;
    if l < n {
      PreOnce(f, c, x, y, d, maxdep, k, l);
    } else if n <= k {
      PreListOnce(f, p, i + 1, x, y, d, maxdep, k - n, l - n);
    } else {
      PreSeen(f, c, x, y, d, maxdep, k);
      var w := PreList(f, p, i + 1, x, y, d, maxdep)[l - n];
      PreListSeen(f, p, i + 1, x, y, d, maxdep, l - n);
      var j: nat, b: nat :| i + 1 <= j && f.Child(p, j, b) && b < |f.t| && f.Rooted(b) && Seen(f, b, w, maxdep);
      SubtreesApart(f, p, i, j, c, b, first[k], w, maxdep);
    }
  }

  ghost predicate Visited(v: seq<Visit>, n: nat) {
    exists k :: 0 <= k < |v| && v[k].obj == n
  }

  lemma VisitedIn(u: seq<Visit>, v: seq<Visit>, n: nat)
    ensures Visited(u + v, n) <==> (Visited(u, n) || Visited(v, n))
  {
    if Visited(u, n) {
      var k :| 0 <= k < |u| && u[k].obj == n;
      assert (u + v)[k].obj == n;
    }
    if Visited(v, n) {
      var k :| 0 <= k < |v| && v[k].obj == n;
      assert (u + v)[|u| + k].obj == n;
    }
  }

  // A walked list visits each of its objects.
  lemma {:induction false} ListVisits(f: Forest, p: nat, i: nat, j: nat, x: int, y: int, d: nat, maxdep: int)
    requires f.Ok() && p < |f.t| && i <= j < |f.kids[p]|
    ensures Visited(PreList(f, p, i, x, y, d, maxdep), f.kids[p][j])
    decreases j - i
  {
    var first, rest := Pre(f, f.kids[p][i], x, y, d, maxdep), PreList(f, p, i + 1, x, y, d, maxdep);
    VisitedIn(first, rest, f.kids[p][j]);
    if i < j {
      ListVisits(f, p, i + 1, j, x, y, d, maxdep);
    } else {
      assert first[0].obj == f.kids[p][j];
    }
  }

  // When an object is visited and entered, its children are.
  lemma {:induction false} PreEnters(f: Forest, n: nat, ax: int, ay: int, d: nat, maxdep: int, q: nat, j: nat, m: nat)
    requires f.Ok() && n < |f.t| && PlacedAt(f, n, ax, ay, d)
    requires q < |f.t| && f.Rooted(q) && f.Child(q, j, m) && !f.t[q].hidden && Level(f, q) < maxdep
    requires Visited(Pre(f, n, ax, ay, d, maxdep), q)
    ensures Visited(Pre(f, n, ax, ay, d, maxdep), m)
    decreases f.rank[n], |f.kids[n]| + 1
  {
    hide PreList, f.Rooted, f.Off, Level;
    var x, y := ax + f.t[n].x, ay + f.t[n].y;
    if n == q {
      ListVisits(f, n, 0, j, x, y, d + 1, maxdep);
      VisitedIn([Visit(n, x, y, d)], PreList(f, n, 0, x, y, d + 1, maxdep), m);
    } else if !f.t[n].hidden && d <= maxdep {
      VisitedIn([Visit(n, x, y, d)], PreList(f, n, 0, x, y, d + 1, maxdep), q);
      PreListEnters(f, n, 0, x, y, d + 1, maxdep, q, j, m);
      VisitedIn([Visit(n, x, y, d)], PreList(f, n, 0, x, y, d + 1, maxdep), m);
    }
  }

  lemma {:induction false} PreListEnters(f: Forest, p: nat, i: nat, x: int, y: int, d: nat, maxdep: int,
                                         q: nat, j: nat, m: nat)
    requires f.Ok() && PlacedList(f, p, i, x, y, d, maxdep)
    requires q < |f.t| && f.Rooted(q) && f.Child(q, j, m) && !f.t[q].hidden && Level(f, q) < maxdep
    requires Visited(PreList(f, p, i, x, y, d, maxdep), q)
    ensures Visited(PreList(f, p, i, x, y, d, maxdep), m)
    decreases f.rank[p], |f.kids[p]| - i
  {
    hide Pre, f.Rooted, f.Off, Level;
    var c := f.kids[p][i];
    FirstPlaced(f, p, i, x, y, d, maxdep);
    var first, rest := Pre(f, c, x, y, d, maxdep), PreList(f, p, i + 1, x, y, d, maxdep);
    VisitedIn(first, rest, q);
    VisitedIn(first, rest, m);
    if Visited(first, q) {
      PreEnters(f, c, x, y, d, maxdep, q, j, m);
    } else {
      PreListEnters(f, p, i + 1, x, y, d, maxdep, q, j, m);
    }
  }

  // The walk from the root visits exactly the shown objects, each once and at its own offset.
  lemma {:induction false} WalkIsShown(f: Forest, n: nat, maxdep: int)
    requires f.Ok() && n < |f.t| && f.Rooted(n)
    ensures Visited(Pre(f, ROOT, 0, 0, 1, maxdep), n) <==> Shown(f, n, maxdep)
    decreases Top(f.rank) - f.rank[n]
  {
    var v := Pre(f, ROOT, 0, 0, 1, maxdep);
    if n == ROOT {
      assert v[0].obj == ROOT;
    } else {
      if Visited(v, n) {
        var k :| 0 <= k < |v| && v[k].obj == n;
        PreSeen(f, ROOT, 0, 0, 1, maxdep, k);
      }
      if Shown(f, n, maxdep) {
        f.Up(n);
        WalkIsShown(f, f.Par(n), maxdep);
        var j: nat :| f.Child(f.Par(n), j, n);
        PreEnters(f, ROOT, 0, 0, 1, maxdep, f.Par(n), j, n);
      }
    }
  }

  // The same calls, with the depth counted from elsewhere.
  function Raised(v: seq<Visit>, up: nat): (r: seq<Visit>)
    ensures |r| == |v|
  {
    seq(|v|, k requires 0 <= k < |v| => v[k].(depth := v[k].depth + up))
  }

  lemma RaisedConcat(u: seq<Visit>, v: seq<Visit>, up: nat)
    ensures Raised(u + v, up) == Raised(u, up) + Raised(v, up)
  {
  }

  // Counting levels from elsewhere changes no walk.
  lemma {:induction false} PreShift(f: Forest, n: nat, ax: int, ay: int, d: nat, maxdep: int, up: nat)
    requires f.Ok() && n < |f.t|
    ensures Pre(f, n, ax, ay, d + up, maxdep + up) == Raised(Pre(f, n, ax, ay, d, maxdep), up)
    decreases f.rank[n], |f.kids[n]| + 1
  {
    hide Raised, PreList;
    var x, y := ax + f.t[n].x, ay + f.t[n].y;
    var l := PreList(f, n, 0, x, y, d + 1, maxdep);
    RaisedOne(Visit(n, x, y, d), up);
    if !f.t[n].hidden && d <= maxdep {
      PreListShift(f, n, 0, x, y, d + 1, maxdep, up);
      RaisedConcat([Visit(n, x, y, d)], l, up);
      assert (d + 1) + up == (d + up) + 1;
    } else {
      assert Pre(f, n, ax, ay, d, maxdep) == [Visit(n, x, y, d)];
      assert Pre(f, n, ax, ay, d + up, maxdep + up) == [Visit(n, x, y, d + up)];
    }
  }

  lemma RaisedOne(v: Visit, up: nat)
    ensures Raised([v], up) == [v.(depth := v.depth + up)] && Raised([], up) == []
  {
  }

  lemma {:induction false} PreListShift(f: Forest, p: nat, i: nat, x: int, y: int, d: nat, maxdep: int, up: nat)
    requires f.Ok() && p < |f.t| && i <= |f.kids[p]|
    ensures PreList(f, p, i, x, y, d + up, maxdep + up) == Raised(PreList(f, p, i, x, y, d, maxdep), up)
    decreases f.rank[p], |f.kids[p]| - i
  {
    hide Raised, Pre;
    if i < |f.kids[p]| {
      PreShift(f, f.kids[p][i], x, y, d, maxdep, up);
      PreListShift(f, p, i + 1, x, y, d, maxdep, up);
      RaisedConcat(Pre(f, f.kids[p][i], x, y, d, maxdep), PreList(f, p, i + 1, x, y, d, maxdep), up);
    } else {
      RaisedOne(Visit(0, 0, 0, 0), up);
    }
  }

  // The object after n, its sibling or its parent, is not below n.
  lemma NextOutside(f: Forest, p: nat, i: nat, n: nat, v: Visit, maxdep: int)
    requires f.Ok() && p < |f.t| && f.Rooted(p) && f.Child(p, i, n) && n < |f.t| && f.Rooted(n)
    requires Seen(f, n, v, maxdep)
    ensures f.t[n].next != v.obj
  {
    TailTest(f, p, i, n);
    ChildFacts(f, p, i, n, maxdep);
    if i + 1 < |f.kids[p]| {
      ChildFacts(f, p, i + 1, f.kids[p][i + 1], maxdep);
    }
  }

  lemma ParentPlace(f: Forest, n: nat)
    requires f.Ok() && n < |f.t| && f.Rooted(n)
    ensures n == ROOT ==> f.Off(n) == (f.t[n].x, f.t[n].y)
    ensures n != ROOT ==> (f.HasParent(n) && f.Par(n) < |f.t| && f.Rooted(f.Par(n)) &&
      f.Off(n) == (f.t[n].x + f.Off(f.Par(n)).0, f.t[n].y + f.Off(f.Par(n)).1))
  {
    hide f.Ok;
    if n != ROOT {
      f.Up(n);
    }
  }

  // ob_draw(): everyobj() from any object of the tree visits its whole subtree, at the places the
  // walk from the root gives, unless an object to be drawn lies too deep for the arrays.
  method ObDraw(f: Forest, obj: nat, depth: int) returns (inside: bool, log: seq<Visit>)
    requires f.Ok() && obj < |f.t| && f.Rooted(obj)
    ensures inside <==> Shallow(Drawn(f, obj, depth))
    ensures inside ==> log == Drawn(f, obj, depth)
    ensures !inside ==> IsNext(Drawn(f, obj, depth), log, MAX_DEPTH + 2)
  {
    hide f.Rooted, f.Off, Level, Pre, Until, Seen, f.Ok, Shallow, IsNext, Drawn;
    ParentPlace(f, obj);
    var last := NIL;
    var pobj := GetPar(f, obj);
    if obj != ROOT {
      last := f.t[obj].next;
    }
    var sx, sy := 0, 0;
    if pobj != NIL {
      sx, sy := ObOffset(f, pobj);
    }
    inside, log := EveryObj(f, obj, last, sx, sy, depth);
    DrawsAll(f, obj, last, sx, sy, depth);
  }

  // The subtree of an object with everything at its place on the screen.
  ghost function Drawn(f: Forest, obj: nat, depth: int): seq<Visit>
    requires f.Ok() && obj < |f.t| && f.Rooted(obj)
  {
    Pre(f, obj, f.Off(obj).0 - f.t[obj].x, f.Off(obj).1 - f.t[obj].y, 1, depth)
  }

  lemma DrawsAll(f: Forest, obj: nat, last: int, sx: int, sy: int, depth: int)
    requires f.Ok() && obj < |f.t| && f.Rooted(obj)
    requires f.Off(obj) == (sx + f.t[obj].x, sy + f.t[obj].y)
    requires last == if obj == ROOT then NIL else f.t[obj].next
    ensures Until(Pre(f, obj, sx, sy, 1, depth), last) == Drawn(f, obj, depth)
  {
    hide Pre, Seen, f.Off, f.Ok;
    var v, k := Pre(f, obj, sx, sy, 1, depth), |Until(Pre(f, obj, sx, sy, 1, depth), last)|;
    if k < |v| {
      DrawnSeen(f, obj, sx, sy, depth, k);
      if obj != ROOT {
        f.Up(obj);
        var i: nat :| f.Child(f.Par(obj), i, obj);
        NextOutside(f, f.Par(obj), i, obj, v[k].(depth := v[k].depth + Level(f, obj)), depth + Level(f, obj));
      }
    }
  }

  // Each call of a draw is for an object of the subtree, at its own place, at the depth the two
  // levels differ by.
  lemma DrawnSeen(f: Forest, obj: nat, sx: int, sy: int, depth: int, k: nat)
    requires f.Ok() && obj < |f.t| && f.Rooted(obj) && f.Off(obj) == (sx + f.t[obj].x, sy + f.t[obj].y)
    requires k < |Pre(f, obj, sx, sy, 1, depth)|
    ensures var v, l := Pre(f, obj, sx, sy, 1, depth)[k], Level(f, obj);
            && Seen(f, obj, v.(depth := v.depth + l), depth + l) && l + v.depth == Level(f, v.obj) + 1
  {
    hide Pre, f.Off, f.Ok;
    var l := Level(f, obj);
    PreShift(f, obj, sx, sy, 1, depth, l);
    PreSeen(f, obj, sx, sy, l + 1, depth + l, k);
  }

  // A draw from the root fits exactly when no object it shows lies below level MAX_DEPTH.
  lemma RootFits(f: Forest, depth: int)
    requires f.Ok()
    ensures Shallow(Pre(f, ROOT, 0, 0, 1, depth)) <==>
            (forall n: nat :: n < |f.t| && f.Rooted(n) && Shown(f, n, depth) ==> Level(f, n) <= MAX_DEPTH)
  {
    hide Pre, f.Off;
    var v := Pre(f, ROOT, 0, 0, 1, depth);
    if Shallow(v) {
      forall n: nat | n < |f.t| && f.Rooted(n) && Shown(f, n, depth) ensures Level(f, n) <= MAX_DEPTH {
        WalkIsShown(f, n, depth);
        var k :| 0 <= k < |v| && v[k].obj == n;
        RootSeen(f, depth, k);
      }
    } else {
      var k :| 0 <= k < |v| && v[k].depth >= MAX_DEPTH + 2;
      RootSeen(f, depth, k);
      assert Level(f, v[k].obj) > MAX_DEPTH && Shown(f, v[k].obj, depth);
    }
  }

  lemma RootSeen(f: Forest, depth: int, k: nat)
    requires f.Ok() && k < |Pre(f, ROOT, 0, 0, 1, depth)|
    ensures var v := Pre(f, ROOT, 0, 0, 1, depth)[k];
            v.obj < |f.t| && f.Rooted(v.obj) && Shown(f, v.obj, depth) && v.depth == Level(f, v.obj) + 1
  {
    hide Pre;
    PreSeen(f, ROOT, 0, 0, 1, depth, k);
  }

  // With a depth up to MAX_DEPTH, as the AES itself asks for, every walk fits, whatever the tree.
  lemma AlwaysFits(f: Forest, start: nat, x: int, y: int, maxdep: int)
    requires f.Ok() && start < |f.t| && maxdep <= MAX_DEPTH
    ensures Shallow(Pre(f, start, x, y, 1, maxdep))
  {
    hide Pre, f.Ok;
    forall k | 0 <= k < |Pre(f, start, x, y, 1, maxdep)| ensures Pre(f, start, x, y, 1, maxdep)[k].depth < MAX_DEPTH + 2 {
      DepthAtMost(f, start, x, y, 1, maxdep, k);
    }
  }

  lemma {:induction false} DepthAtMost(f: Forest, n: nat, ax: int, ay: int, d: nat, maxdep: int, k: nat)
    requires f.Ok() && n < |f.t| && k < |Pre(f, n, ax, ay, d, maxdep)|
    ensures Pre(f, n, ax, ay, d, maxdep)[k].depth <= Deepest(d, maxdep)
    decreases f.rank[n], |f.kids[n]| + 1
  {
    if k > 0 {
      DepthsAtMost(f, n, 0, ax + f.t[n].x, ay + f.t[n].y, d + 1, maxdep, k - 1);
    }
  }

  function Deepest(d: nat, maxdep: int): int {
    if d <= maxdep then maxdep + 1 else d
  }

  lemma {:induction false} DepthsAtMost(f: Forest, p: nat, i: nat, x: int, y: int, d: nat, maxdep: int, k: nat)
    requires f.Ok() && p < |f.t| && i <= |f.kids[p]| && k < |PreList(f, p, i, x, y, d, maxdep)| && d <= maxdep + 1
    ensures PreList(f, p, i, x, y, d, maxdep)[k].depth <= maxdep + 1
    decreases f.rank[p], |f.kids[p]| - i
  {
    var first := Pre(f, f.kids[p][i], x, y, d, maxdep);
    if k < |first| {
      DepthAtMost(f, f.kids[p][i], x, y, d, maxdep, k);
    } else {
      DepthsAtMost(f, p, i + 1, x, y, d, maxdep, k - |first|);
    }
  }

  // Ten objects, each the only child of the one before.
  function Stalk(): seq<Obj> {
    seq(10, i requires 0 <= i < 10 => var c := if i < 9 then i + 1 else NIL; Obj(i - 1, c, c, 0, 0, 1, 1, false))
  }

  ghost function StalkForest(): Forest {
    Forest(Stalk(), seq(10, i requires 0 <= i < 10 => if i < 9 then [(i + 1) as nat] else []),
           seq(10, i requires 0 <= i < 10 => (9 - i) as nat))
  }

  lemma StalkOk()
    ensures StalkForest().Ok()
  {
    var f := StalkForest();
    forall p: nat | p < |f.t| ensures f.ListOk(p) {
    }
  }

  lemma {:induction false} StalkDeep(i: nat, ax: int, ay: int, depth: int)
    requires StalkForest().Ok() && i < 10 && depth >= 9
    ensures var v := Pre(StalkForest(), i, ax, ay, i + 1, depth); v[|v| - 1].depth == MAX_DEPTH + 2
    decreases 10 - i
  {
    var f := StalkForest();
    if i < 9 {
      StalkDeep(i + 1, ax, ay, depth);
      PreChild(f, i, i + 1, ax, ay, i + 1, depth);
      assert f.kids[i] == [i + 1] && PreList(f, i, 1, ax, ay, i + 2, depth) == [];
    } else {
      PreLeaf(f, i, ax, ay, i + 1, depth);
    }
  }

  // Drawn to a depth of 9 or more, as an application may ask for, they run past the arrays.
  lemma StalkFails(depth: int)
    requires depth >= MAX_DEPTH + 1
    ensures StalkForest().Ok() && !Shallow(Pre(StalkForest(), ROOT, 0, 0, 1, depth))
  {
    hide Pre;
    StalkOk();
    StalkDeep(ROOT, 0, 0, depth);
  }
}

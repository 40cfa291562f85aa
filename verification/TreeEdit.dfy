// Edits of an object tree in place (aes/gemoblib.c): the threading stays well formed, and only
// one child list changes.
module TreeEdit {
  import opened ObjTree
  import opened TreeFind
  import opened Lists

  // Only links were written: p's own head and tail, and next in objects of the two lists.
  ghost predicate OnlyLinks(t: seq<Obj>, t': seq<Obj>, p: nat, l: seq<nat>, l': seq<nat>) {
    && |t'| == |t|
    && forall n {:trigger t'[n]} {:trigger t[n]} :: 0 <= n < |t| ==>
         && t'[n] == t[n].(next := t'[n].next, head := t'[n].head, tail := t'[n].tail)
         && (n != p ==> t'[n].head == t[n].head && t'[n].tail == t[n].tail)
         && (n !in l && n !in l' ==> t'[n].next == t[n].next)
  }

  // The objects of l may be the children of p: each is so already or is nobody's child.
  ghost predicate Fits(f: Forest, p: nat, l: seq<nat>)
    requires f.Ok() && p < |f.t|
  {
    && (forall i :: 0 <= i < |l| ==> 0 < l[i] < |f.t| && f.rank[l[i]] < f.rank[p])
    && (forall i, j :: 0 <= i < j < |l| ==> l[i] != l[j])
    && (forall i: nat, q: nat, j: nat {:trigger l[i], f.Child(q, j, l[i])} ::
          i < |l| && f.Child(q, j, l[i]) ==> q == p)
  }

  // The forest after p's list was replaced.
  ghost function Relisted(f: Forest, t: seq<Obj>, p: nat, l: seq<nat>): Forest
    requires p < |f.kids|
  {
    Forest(t, f.kids[p := l], f.rank)
  }

  // The links spell out the new list.
  lemma ListHolds(f: Forest, t: seq<Obj>, p: nat, l: seq<nat>)
    requires p < |f.kids| == |t|
    requires if l == [] then t[p].head == NIL && t[p].tail == NIL else t[p].head == l[0] && t[p].tail == l[|l| - 1]
    requires forall k {:trigger l[k]} :: 0 <= k < |l| ==> l[k] < |t| && t[l[k]].next == Relisted(f, t, p, l).Next(p, k)
    ensures Relisted(f, t, p, l).ListOk(p)
  {
    assert Relisted(f, t, p, l).kids[p] == l;
  }

  lemma RelistOk(f: Forest, t: seq<Obj>, p: nat, l: seq<nat>)
    requires f.Ok() && p < |f.t| && Fits(f, p, l) && OnlyLinks(f.t, t, p, f.kids[p], l)
    requires Relisted(f, t, p, l).ListOk(p)
    ensures Relisted(f, t, p, l).Ok()
  {
    var g := Relisted(f, t, p, l);
    forall q: nat | q < |g.t| && q != p ensures g.ListOk(q) {
      OtherList(f, t, p, l, q);
    }
    RelistUnshared(f, p, l, g);
  }

  lemma OtherList(f: Forest, t: seq<Obj>, p: nat, l: seq<nat>, q: nat)
    requires f.Ok() && p < |f.t| && Fits(f, p, l) && OnlyLinks(f.t, t, p, f.kids[p], l)
    requires q < |f.t| && q != p
    ensures Relisted(f, t, p, l).ListOk(q)
  {
    assert f.ListOk(q);
    forall i | 0 <= i < |f.kids[q]| ensures f.kids[q][i] !in l && f.kids[q][i] !in f.kids[p] {
      assert f.Child(q, i, f.kids[q][i]);
    }
  }

  lemma RelistUnshared(f: Forest, p: nat, l: seq<nat>, g: Forest)
    requires f.Ok() && p < |f.t| && Fits(f, p, l) && g.kids == f.kids[p := l]
    ensures g.Unshared()
  {
    forall q: nat, r: nat, i: nat, j: nat {:trigger g.kids[q][i], g.kids[r][j]} |
      q < |g.kids| && r < |g.kids| && i < |g.kids[q]| && j < |g.kids[r]| && g.kids[q][i] == g.kids[r][j]
      ensures q == r && i == j
    {
      assert q != p ==> f.Child(q, i, g.kids[q][i]);
      assert r != p ==> f.Child(r, j, g.kids[r][j]);
    }
  }

  lemma CutFits(f: Forest, p: nat, i: nat, n: nat)
    requires f.Ok() && f.Child(p, i, n)
    ensures p < |f.t| && Fits(f, p, Cut(f.kids[p], i))
  {
    var l := Cut(f.kids[p], i);
    forall k | 0 <= k < |l| ensures f.Child(p, if k < i then k else k + 1, l[k]) {
    }
  }

  // Taking n out of p's list, in the links.
  lemma CutLinks(f: Forest, p: nat, i: nat, n: nat, t: seq<Obj>)
    requires f.Ok() && f.Child(p, i, n) && p < |f.t| && n < |f.t|
    requires t == DeletedLinks(f, p, i)
    ensures OnlyLinks(f.t, t, p, f.kids[p], Cut(f.kids[p], i)) && Relisted(f, t, p, Cut(f.kids[p], i)).ListOk(p)
    ensures t[n] == f.t[n]
  {
    hide f.Ok, OnlyLinks, DeletedLinks;
    CutFrame(f, p, i, t);
    CutEnds(f, p, i, n, t);
    var l: seq<nat> := Cut(f.kids[p], i);
    forall k {:trigger l[k]} | 0 <= k < |l| ensures l[k] < |t| && t[l[k]].next == Relisted(f, t, p, l).Next(p, k) {
      CutNext(f, p, i, t, k);
    }
    ListHolds(f, t, p, l);
  }

  lemma CutNext(f: Forest, p: nat, i: nat, t: seq<Obj>, k: nat)
    requires f.Ok() && p < |f.t| && i < |f.kids[p]| && t == DeletedLinks(f, p, i) && k < |Cut(f.kids[p], i)|
    ensures Cut(f.kids[p], i)[k] < |t|
    ensures t[Cut(f.kids[p], i)[k]].next == Relisted(f, t, p, Cut(f.kids[p], i)).Next(p, k)
  {
    hide f.Ok;
    ListFacts(f, p);
    var l := f.kids[p];
    var j := if k < i then k else k + 1;
    NextSibling(f, p, j, l[j]);
    assert Cut(l, i)[k] == l[j];
    assert l[j] != p && (i > 0 && j != i - 1 ==> l[j] != l[i - 1]);
  }

  lemma CutEnds(f: Forest, p: nat, i: nat, n: nat, t: seq<Obj>)
    requires f.Ok() && f.Child(p, i, n) && p < |f.t| && n < |f.t| && t == DeletedLinks(f, p, i)
    ensures |f.kids| == |f.t| == |t| && t[n] == f.t[n]
    ensures var l := Cut(f.kids[p], i);
            if |l| == 0 then t[p].head == NIL && t[p].tail == NIL
            else t[p].head == l[0] && t[p].tail == l[|l| - 1]
  {
    hide f.Ok;
    ListFacts(f, p);
    var l := f.kids[p];
    if |l| > 1 {
      assert Cut(l, i)[0] == if i == 0 then l[1] else l[0];
      assert Cut(l, i)[|l| - 2] == if i + 1 == |l| then l[i - 1] else l[|l| - 1];
      assert i > 0 ==> l[i - 1] != p && l[i - 1] != n;
    }
  }

  lemma CutFrame(f: Forest, p: nat, i: nat, t: seq<Obj>)
    requires f.Ok() && p < |f.t| && i < |f.kids[p]| && t == DeletedLinks(f, p, i)
    ensures OnlyLinks(f.t, t, p, f.kids[p], Cut(f.kids[p], i))
  {
    hide f.Ok;
    ListFacts(f, p);
  }

  lemma ListFacts(f: Forest, p: nat)
    requires f.Ok() && p < |f.t|
    ensures |f.kids| == |f.t| && |f.rank| == |f.t|
    ensures |f.kids[p]| == 0 ==> f.t[p].head == NIL && f.t[p].tail == NIL
    ensures |f.kids[p]| > 0 ==> f.t[p].head == f.kids[p][0] && f.t[p].tail == f.kids[p][|f.kids[p]| - 1]
    ensures forall k :: 0 <= k < |f.kids[p]| ==> f.kids[p][k] < |f.t| && f.kids[p][k] != p
    ensures forall j, k :: 0 <= j < k < |f.kids[p]| ==> f.kids[p][j] != f.kids[p][k]
  {
    assert f.ListOk(p);
  }

  ghost function DeletedLinks(f: Forest, p: nat, i: nat): seq<Obj>
    requires f.Ok() && p < |f.t| && i < |f.kids[p]|
  {
    var l := f.kids[p];
    if |l| == 1 then f.t[p := f.t[p].(head := NIL, tail := NIL)]
    else if i == 0 then f.t[p := f.t[p].(head := l[1])]
    else
      var t := f.t[l[i - 1] := f.t[l[i - 1]].(next := f.Next(p, i))];
      if i + 1 == |l| then t[p := t[p].(tail := l[i - 1])] else t
  }

  // ob_delete(): the object leaves its parent's list, and nothing else changes.
  method ObDelete(a: array<Obj>, ghost kids: seq<seq<nat>>, ghost rank: seq<nat>, obj: nat, ghost p: nat, ghost i: nat)
    returns (r: int)
    requires Forest(a[..], kids, rank).Ok()
    requires obj == ROOT || Forest(a[..], kids, rank).Child(p, i, obj)
    modifies a
    ensures obj == ROOT ==> r == 0 && a[..] == old(a[..])
    ensures obj != ROOT ==>
      (r == 1 && p < |kids| && i < |kids[p]| && obj < a.Length && a[obj] == old(a[obj]) &&
       Forest(a[..], kids[p := Cut(kids[p], i)], rank).Ok() &&
       OnlyLinks(old(a[..]), a[..], p, kids[p], Cut(kids[p], i)))
  {
    hide Forest.Ok, Fits, OnlyLinks, Cut;
    if obj == ROOT {
      return 0;
    }
    ghost var f := Forest(a[..], kids, rank);
    ChildBounds(f, p, i, obj);
    var nextsib := a[obj].next;
    var parent: nat := GetPar(Forest(a[..], kids, rank), obj);
    if a[parent].head == obj {
      if a[parent].tail == obj {
        nextsib := NIL;
        a[parent] := a[parent].(tail := NIL);
      }
      a[parent] := a[parent].(head := nextsib);
    } else {
      var prev := GetPrev(Forest(a[..], kids, rank), parent, obj);
      if prev == NIL {
        return 0;
      }
      a[prev] := a[prev].(next := nextsib);
      if a[parent].tail == obj {
        a[parent] := a[parent].(tail := prev);
      }
    }
    assert a[..] == DeletedLinks(f, p, i);
    CutLinks(f, p, i, obj, a[..]);
    CutFits(f, p, i, obj);
    RelistOk(f, a[..], p, Cut(kids[p], i));
    r := 1;
  }

  // Where the parent's links meet a child.
  lemma ChildBounds(f: Forest, p: nat, i: nat, n: nat)
    requires f.Ok() && f.Child(p, i, n)
    ensures |f.kids| == |f.t| && p < |f.t| && n < |f.t| && n != p && n != ROOT && f.HasParent(n) && f.Par(n) == p
    ensures f.t[p].head == n <==> i == 0
    ensures f.t[p].tail == n <==> i + 1 == |f.kids[p]|
    ensures f.t[n].next == f.Next(p, i)
    ensures i > 0 ==> (f.Child(p, i - 1, f.kids[p][i - 1]) && f.kids[p][i - 1] < |f.t| && f.kids[p][i - 1] != p)
    ensures |f.kids[p]| > 1 && i == 0 ==> f.kids[p][1] == f.Next(p, i)
  {
    assert f.ListOk(p);
    OneParent(f, p, i, n);
  }

  // n is nobody's child and may become one of p's.
  ghost predicate Loose(f: Forest, p: nat, n: nat)
    requires f.Ok() && p < |f.t|
  {
    0 < n < |f.t| && f.rank[n] < f.rank[p] && !f.HasParent(n)
  }

  lemma PutFits(f: Forest, p: nat, j: nat, n: nat)
    requires f.Ok() && p < |f.t| && j <= |f.kids[p]| && Loose(f, p, n)
    ensures Fits(f, p, Put(f.kids[p], j, n))
  {
    hide f.ListOk;
    var l, l' := f.kids[p], Put(f.kids[p], j, n);
    forall k: nat | k < |l| ensures l[k] != n {
      assert f.Child(p, k, l[k]);
    }
    forall k: nat | k < |l'|
      ensures l'[k] == n || f.Child(p, if k < j then k else k - 1, l'[k])
    {
    }
    forall k: nat, q: nat, m: nat {:trigger l'[k], f.Child(q, m, l'[k])} | k < |l'| && f.Child(q, m, l'[k]) ensures q == p {
      assert l'[k] != n;
    }
  }

  // Putting n into p's list at j, in the links.
  ghost function PutLinks(f: Forest, p: nat, j: nat, n: nat): seq<Obj>
    requires f.Ok() && p < |f.t| && n < |f.t| && j <= |f.kids[p]|
  {
    var l := f.kids[p];
    var t := f.t[n := f.t[n].(next := if j < |l| then l[j] else p)];
    var u := if j == 0 then t[p := t[p].(head := n)] else t[l[j - 1] := t[l[j - 1]].(next := n)];
    if j == |l| then u[p := u[p].(tail := n)] else u
  }

  lemma PutFrame(f: Forest, p: nat, j: nat, n: nat, t: seq<Obj>)
    requires f.Ok() && p < |f.t| && j <= |f.kids[p]| && Loose(f, p, n) && t == PutLinks(f, p, j, n)
    ensures OnlyLinks(f.t, t, p, f.kids[p], Put(f.kids[p], j, n))
  {
    hide f.Ok;
    ListFacts(f, p);
    assert Put(f.kids[p], j, n)[j] == n;
    if j > 0 {
      assert f.kids[p][j - 1] in f.kids[p];
    }
  }

  lemma LooseFacts(f: Forest, p: nat, n: nat)
    requires f.Ok() && p < |f.t| && Loose(f, p, n)
    ensures n != p && n < |f.t| && forall k :: 0 <= k < |f.kids[p]| ==> f.kids[p][k] != n
  {
    forall k | 0 <= k < |f.kids[p]| ensures f.kids[p][k] != n {
      assert f.Child(p, k, f.kids[p][k]);
    }
  }

  lemma PutKeeps(f: Forest, p: nat, j: nat, n: nat, i: nat, t: seq<Obj>)
    requires f.Ok() && p < |f.t| && j <= |f.kids[p]| && Loose(f, p, n) && t == PutLinks(f, p, j, n)
    requires i < |f.kids[p]|
    ensures f.kids[p][i] < |t| && t[f.kids[p][i]].next == if i + 1 == j then n else f.t[f.kids[p][i]].next
    ensures n < |t| && t[n].next == if j < |f.kids[p]| then f.kids[p][j] else p
  {
    hide f.Ok;
    ListFacts(f, p);
    LooseFacts(f, p, n);
  }

  lemma PutNext(f: Forest, p: nat, j: nat, n: nat, t: seq<Obj>, k: nat)
    requires f.Ok() && p < |f.t| && j <= |f.kids[p]| && Loose(f, p, n) && t == PutLinks(f, p, j, n)
    requires k < |Put(f.kids[p], j, n)| && p < |f.kids|
    ensures Put(f.kids[p], j, n)[k] < |t|
    ensures t[Put(f.kids[p], j, n)[k]].next == Relisted(f, t, p, Put(f.kids[p], j, n)).Next(p, k)
  {
    hide f.Ok, PutLinks, Loose;
    var l := f.kids[p];
    if k != j {
      var i := if k < j then k else k - 1;
      PutKeeps(f, p, j, n, i, t);
      NextSibling(f, p, i, l[i]);
      assert Put(l, j, n)[k] == l[i];
    } else if l != [] {
      PutKeeps(f, p, j, n, 0, t);
    } else {
      PutFirst(f, p, n, t);
    }
  }

  lemma PutFirst(f: Forest, p: nat, n: nat, t: seq<Obj>)
    requires f.Ok() && p < |f.t| && f.kids[p] == [] && Loose(f, p, n) && t == PutLinks(f, p, 0, n)
    ensures n < |t| && t[n].next == p
  {
  }

  lemma PutEnds(f: Forest, p: nat, j: nat, n: nat, t: seq<Obj>)
    requires f.Ok() && p < |f.t| && j <= |f.kids[p]| && Loose(f, p, n) && t == PutLinks(f, p, j, n)
    ensures |f.kids| == |f.t| == |t|
    ensures var l := Put(f.kids[p], j, n); t[p].head == l[0] && t[p].tail == l[|l| - 1]
  {
    hide f.Ok;
    ListFacts(f, p);
    LooseFacts(f, p, n);
  }

  lemma PutOk(f: Forest, p: nat, j: nat, n: nat, t: seq<Obj>)
    requires f.Ok() && p < |f.t| && j <= |f.kids[p]| && Loose(f, p, n) && t == PutLinks(f, p, j, n)
    ensures Relisted(f, t, p, Put(f.kids[p], j, n)).Ok()
    ensures OnlyLinks(f.t, t, p, f.kids[p], Put(f.kids[p], j, n))
  {
    hide f.Ok, OnlyLinks, PutLinks, Fits, Loose;
    PutFrame(f, p, j, n, t);
    PutEnds(f, p, j, n, t);
    var l: seq<nat> := Put(f.kids[p], j, n);
    forall k {:trigger l[k]} | 0 <= k < |l| ensures l[k] < |t| && t[l[k]].next == Relisted(f, t, p, l).Next(p, k) {
      PutNext(f, p, j, n, t, k);
    }
    ListHolds(f, t, p, l);
    PutFits(f, p, j, n);
    RelistOk(f, t, p, Put(f.kids[p], j, n));
  }

  // ob_add(): the object becomes the parent's last child; nothing happens when either is NIL.
  method ObAdd(a: array<Obj>, ghost kids: seq<seq<nat>>, ghost rank: seq<nat>, parent: int, child: int)
    requires Forest(a[..], kids, rank).Ok()
    requires parent == NIL || child == NIL || (0 <= parent < a.Length && 0 <= child && Loose(Forest(a[..], kids, rank), parent, child))
    modifies a
    ensures parent == NIL || child == NIL ==> a[..] == old(a[..])
    ensures parent != NIL && child != NIL ==>
      (parent < |kids| && Forest(a[..], kids[parent := kids[parent] + [child]], rank).Ok() &&
       OnlyLinks(old(a[..]), a[..], parent, kids[parent], kids[parent] + [child]))
  {
    hide Forest.Ok, Loose, OnlyLinks;
    if parent != NIL && child != NIL {
      ghost var f := Forest(a[..], kids, rank);
      ghost var p: nat, n: nat := parent, child;
      ListFacts(f, p);
      ghost var l := kids[p];
      LooseFacts(f, p, n);
      a[child] := a[child].(next := parent);
      var lastkid := a[parent].tail;
      if lastkid == NIL {
        a[parent] := a[parent].(head := child);
      } else {
        a[lastkid] := a[lastkid].(next := child);
      }
      a[parent] := a[parent].(tail := child);
      assert a[..] == PutLinks(f, p, |l|, n);
      PutOk(f, p, |l|, n, a[..]);
      assert Put(l, |l|, n) == l + [child];
    }
  }

  // After the deletion the object is loose.
  lemma CutLoose(f: Forest, p: nat, i: nat, n: nat, t: seq<Obj>)
    requires f.Ok() && f.Child(p, i, n) && p < |f.t| && Relisted(f, t, p, Cut(f.kids[p], i)).Ok()
    ensures Loose(Relisted(f, t, p, Cut(f.kids[p], i)), p, n)
  {
    var l, g := f.kids[p], Relisted(f, t, p, Cut(f.kids[p], i));
    forall q: nat, j: nat ensures !g.Child(q, j, n) {
      var k: nat := if q != p || j < i then j else j + 1;
      assert g.Child(q, j, n) ==> f.Child(q, k, n);
      assert f.Child(q, k, n) ==> q == p && k == i;
    }
  }

  lemma OnlyLinksTrans(t: seq<Obj>, t': seq<Obj>, t'': seq<Obj>, p: nat, l: seq<nat>, l': seq<nat>, l'': seq<nat>)
    requires OnlyLinks(t, t', p, l, l') && OnlyLinks(t', t'', p, l', l'')
    requires forall n :: n in l' ==> n in l
    ensures OnlyLinks(t, t'', p, l, l'')
  {
  }

  // The list with its i-th element moved; NIL stands for the end.
  function Moved(l: seq<nat>, i: nat, pos: int): seq<nat>
    requires i < |l| && NIL <= pos < |l|
  {
    Put(Cut(l, i), if pos == NIL then |l| - 1 else pos, l[i])
  }

  // A link that leads nowhere: no child lists fit these links.
  lemma NoLists(t: seq<Obj>, p: nat)
    requires p < |t| && t[p].tail == NIL && t[p].head != NIL
    ensures forall k: seq<seq<nat>>, r: seq<nat> :: !Forest(t, k, r).Ok()
  {
    forall k: seq<seq<nat>>, r: seq<nat> ensures !Forest(t, k, r).Ok() {
      assert Forest(t, k, r).Ok() ==> Forest(t, k, r).ListOk(p);
    }
  }

  // What the end of ob_order() writes: n goes before all children, or after c.
  ghost function Spliced(t: seq<Obj>, p: nat, n: nat, c: int): (t': seq<Obj>)
    requires p < |t| && n < |t| && NIL <= c < |t|
  {
    var u := if c == NIL then t[n := t[n].(next := t[p].head)] else t[n := t[n].(next := t[c].next)];
    var v := if c == NIL then u[p := u[p].(head := n)] else u[c := u[c].(next := n)];
    if v[n].next == p then v[p := v[p].(tail := n)] else v
  }

  lemma SplicedIsPut(f: Forest, p: nat, j: nat, n: nat, c: int)
    requires f.Ok() && p < |f.t| && j <= |f.kids[p]| && |f.kids[p]| > 0 && Loose(f, p, n)
    requires if j == 0 then c == NIL else c == f.kids[p][j - 1]
    ensures n < |f.t| && NIL <= c < |f.t| && Spliced(f.t, p, n, c) == PutLinks(f, p, j, n)
  {
    hide f.Ok;
    ListFacts(f, p);
    LooseFacts(f, p, n);
    if j > 0 {
      NextSibling(f, p, j - 1, c);
    }
  }

  lemma SplicedAlone(f: Forest, p: nat, n: nat)
    requires f.Ok() && p < |f.t| && |f.kids[p]| == 0 && Loose(f, p, n)
    ensures n < |f.t| && forall k: seq<seq<nat>>, r: seq<nat> :: !Forest(Spliced(f.t, p, n, NIL), k, r).Ok()
  {
    ListFacts(f, p);
    LooseFacts(f, p, n);
    NoLists(Spliced(f.t, p, n, NIL), p);
  }

  // The forest after ob_order()'s deletion and splice.
  lemma OrderOk(f: Forest, p: nat, i: nat, n: nat, t: seq<Obj>, pos: int, j: nat, c: int, t': seq<Obj>)
    requires f.Ok() && f.Child(p, i, n) && p < |f.t| && Relisted(f, t, p, Cut(f.kids[p], i)).Ok()
    requires OnlyLinks(f.t, t, p, f.kids[p], Cut(f.kids[p], i))
    requires NIL <= pos < |f.kids[p]| && j == (if pos == NIL then |f.kids[p]| - 1 else pos)
    requires |f.kids[p]| > 1 && (if j == 0 then c == NIL else c == Cut(f.kids[p], i)[j - 1])
    requires n < |t| && p < |t| && NIL <= c < |t| && t' == Spliced(t, p, n, c)
    ensures Relisted(f, t', p, Moved(f.kids[p], i, pos)).Ok()
    ensures OnlyLinks(f.t, t', p, f.kids[p], Moved(f.kids[p], i, pos))
  {
    hide f.Ok, OnlyLinks, Spliced, Loose;
    var l := Cut(f.kids[p], i);
    var g := Relisted(f, t, p, l);
    CutLoose(f, p, i, n, t);
    SplicedIsPut(g, p, j, n, c);
    PutOk(g, p, j, n, t');
    OnlyLinksTrans(f.t, t, t', p, f.kids[p], l, Moved(f.kids[p], i, pos));
    assert g.kids[p := Put(l, j, n)] == f.kids[p := Moved(f.kids[p], i, pos)];
  }

  // The search for new_pos in ob_order(): the child the object goes after, NIL when there is none.
  method PlaceAfter(g: Forest, p: nat, newpos: int) returns (chgobj: int)
    requires g.Ok() && p < |g.t| && NIL <= newpos <= |g.kids[p]| && newpos != 0
    ensures chgobj == if g.kids[p] == [] then NIL else g.kids[p][if newpos == NIL then |g.kids[p]| - 1 else newpos - 1]
  {
    hide Forest.Ok;
    ListFacts(g, p);
    if newpos == NIL {
      return g.t[p].tail;
    }
    chgobj := g.t[p].head;
    ghost var k: nat := 0;
    var ii := 1;
    while ii < newpos
      invariant 1 <= ii <= newpos && k + 1 == ii && chgobj >= 0 && g.Child(p, k, chgobj)
    {
      NextSibling(g, p, k, chgobj);
      chgobj := g.t[chgobj].next;
      ii, k := ii + 1, k + 1;
    }
  }

  // ob_order(): the object moves to a place among its siblings.  An only child moved to index 0
  // leaves links that spell out no child lists.  With NIL for the index the code goes on to write
  // at tree[NIL], as the list is empty by then; inside says that it stays in the tree.
  method ObOrder(a: array<Obj>, ghost kids: seq<seq<nat>>, ghost rank: seq<nat>, movobj: nat, newpos: int,
                 ghost p: nat, ghost i: nat)
    returns (r: bool, inside: bool)
    requires Forest(a[..], kids, rank).Ok()
    requires movobj == ROOT || (Forest(a[..], kids, rank).Child(p, i, movobj) && NIL <= newpos < |kids[p]|)
    modifies a
    ensures inside <==> movobj == ROOT || |kids[p]| > 1 || newpos != NIL
    ensures r == (movobj != ROOT)
    ensures movobj == ROOT ==> a[..] == old(a[..])
    ensures !inside ==> Forest(a[..], kids[p := []], rank).Ok() && OnlyLinks(old(a[..]), a[..], p, kids[p], [])
    ensures movobj != ROOT && |kids[p]| > 1 ==>
      (Forest(a[..], kids[p := Moved(kids[p], i, newpos)], rank).Ok() &&
       OnlyLinks(old(a[..]), a[..], p, kids[p], Moved(kids[p], i, newpos)))
    ensures movobj != ROOT && |kids[p]| == 1 && inside ==>
      (forall k: seq<seq<nat>>, m: seq<nat> :: !Forest(a[..], k, m).Ok())
  {
    hide Forest.Ok, Loose, OnlyLinks, Moved, Cut, Spliced;
    inside := true;
    if movobj == ROOT {
      return false, true;
    }
    ghost var f := Forest(a[..], kids, rank);
    ghost var l := Cut(kids[p], i);
    ChildBounds(f, p, i, movobj);
    CutSize(kids[p], i);
    var parent: nat := GetPar(Forest(a[..], kids, rank), movobj);
    var ok := ObDelete(a, kids, rank, movobj, p, i);
    ghost var t := a[..];
    CutLoose(f, p, i, movobj, t);
    var c := NIL;
    if newpos != 0 {
      c := PlaceAfter(Forest(a[..], kids[p := l], rank), parent, newpos);
      ListFacts(Relisted(f, t, p, l), p);
      LooseFacts(Relisted(f, t, p, l), p, movobj);
      if c == NIL {
        assert l == [];
        return true, false;
      }
    }
    Splice(a, parent, movobj, c);
    OrderDone(f, p, i, movobj, t, newpos, c, a[..]);
    r := true;
  }

  // The links after ob_order()'s deletion and splice, for an only child too.
  lemma OrderDone(f: Forest, p: nat, i: nat, n: nat, t: seq<Obj>, pos: int, c: int, t': seq<Obj>)
    requires f.Ok() && f.Child(p, i, n) && p < |f.t| && Relisted(f, t, p, Cut(f.kids[p], i)).Ok()
    requires OnlyLinks(f.t, t, p, f.kids[p], Cut(f.kids[p], i))
    requires NIL <= pos < |f.kids[p]| && (|f.kids[p]| == 1 ==> pos == 0)
    requires if pos == 0 then c == NIL
             else |Cut(f.kids[p], i)| == |f.kids[p]| - 1 && c == Cut(f.kids[p], i)[if pos == NIL then |f.kids[p]| - 2 else pos - 1]
    requires n < |t| && p < |t| && NIL <= c < |t| && t' == Spliced(t, p, n, c)
    ensures |f.kids[p]| > 1 ==> (Relisted(f, t', p, Moved(f.kids[p], i, pos)).Ok() &&
      OnlyLinks(f.t, t', p, f.kids[p], Moved(f.kids[p], i, pos)))
    ensures |f.kids[p]| == 1 ==> (forall k: seq<seq<nat>>, m: seq<nat> :: !Forest(t', k, m).Ok())
  {
    hide f.Ok, OnlyLinks, Spliced, Loose, Moved, Cut;
    var l := f.kids[p];
    CutSize(l, i);
    if |l| == 1 {
      CutLoose(f, p, i, n, t);
      SplicedAlone(Relisted(f, t, p, Cut(l, i)), p, n);
    } else {
      OrderOk(f, p, i, n, t, pos, if pos == NIL then |l| - 1 else pos, c, t');
    }
  }

  // The end of ob_order(): n is linked in at the head of p's children or after the child c.
  method Splice(a: array<Obj>, p: nat, n: nat, c: int)
    requires p < a.Length && n < a.Length && NIL <= c < a.Length && p != n && c != n && c != p
    modifies a
    ensures a[..] == Spliced(old(a[..]), p, n, c)
  {
    if c == NIL {
      a[n] := a[n].(next := a[p].head);
      a[p] := a[p].(head := n);
    } else {
      a[n] := a[n].(next := a[c].next);
      a[c] := a[c].(next := n);
    }
    if a[n].next == p {
      a[p] := a[p].(tail := n);
    }
  }

  lemma CutSize(l: seq<nat>, i: nat)
    requires i < |l|
    ensures |Cut(l, i)| == |l| - 1
  {
  }

  // m is n or above n.
  ghost predicate Above(f: Forest, m: nat, n: nat)
    requires f.Ok() && n < |f.t|
    decreases Top(f.rank) - f.rank[n]
  {
    TopBounds(f.rank, n);
    m == n || (f.HasParent(n) && (f.Up(n); Above(f, m, f.Par(n))))
  }

  lemma {:induction false} AboveChild(f: Forest, p: nat, i: nat, c: nat, n: nat)
    requires f.Ok() && n < |f.t| && f.Child(p, i, c) && Above(f, c, n)
    ensures Above(f, p, n)
    decreases Top(f.rank) - f.rank[n]
  {
    OneParent(f, p, i, c);
    f.Up(c);
    TopBounds(f.rank, n);
    if n != c {
      f.Up(n);
      AboveChild(f, p, i, c, f.Par(n));
    }
  }

  // Any object that is nobody's child can be added to any parent not below it.
  lemma LooseIsEnough(f: Forest, p: nat, n: nat) returns (rank: seq<nat>)
    requires f.Ok() && p < |f.t| && 0 < n < |f.t| && !f.HasParent(n) && !Above(f, n, p)
    ensures Forest(f.t, f.kids, rank).Ok() && Loose(Forest(f.t, f.kids, rank), p, n)
  {
    hide f.Ok, Above;
    ListFacts(f, p);
    rank := seq(|f.t|, i requires 0 <= i < |f.t| => f.rank[i] + if Above(f, i, p) then f.rank[n] + 1 else 0);
    forall q: nat, i: nat, c: nat | q < |f.t| && f.Child(q, i, c) ensures c < |f.t| && rank[c] < rank[q] {
      OneParent(f, q, i, c);
      if Above(f, c, p) {
        AboveChild(f, q, i, c, p);
      }
    }
    ReRanked(f, rank);
    assert Above(f, p, p) by { AboveSelf(f, p); }
    assert forall q: nat, i: nat :: Forest(f.t, f.kids, rank).Child(q, i, n) ==> f.Child(q, i, n);
  }

  lemma AboveSelf(f: Forest, p: nat)
    requires f.Ok() && p < |f.t|
    ensures Above(f, p, p)
  {
  }

  lemma ReRanked(f: Forest, rank: seq<nat>)
    requires f.Ok() && |rank| == |f.t|
    requires forall q: nat, i: nat, c: nat :: q < |f.t| && f.Child(q, i, c) ==> c < |f.t| && rank[c] < rank[q]
    ensures Forest(f.t, f.kids, rank).Ok()
  {
    var g := Forest(f.t, f.kids, rank);
    forall q: nat | q < |g.t| ensures g.ListOk(q) {
      assert f.ListOk(q);
    }
    forall q: nat, i: nat | q < |g.t| && i < |g.kids[q]| ensures rank[g.kids[q][i]] < rank[q] {
      assert f.Child(q, i, g.kids[q][i]);
    }
  }
}

// Taking an element out of a list and putting one in.
module Lists {
  function Cut<T>(l: seq<T>, i: nat): (r: seq<T>)
    requires i < |l|
    ensures |r| == |l| - 1
  {
    l[..i] + l[i + 1..]
  }

  function Put<T>(l: seq<T>, i: nat, x: T): (r: seq<T>)
    requires i <= |l|
    ensures |r| == |l| + 1
  {
    l[..i] + [x] + l[i..]
  }

  // What is left when one element is taken out.
  lemma CutBag<T>(l: seq<T>, i: nat)
    requires i < |l|
    ensures multiset(l) == multiset(Cut(l, i)) + multiset{l[i]}
  {
    assert l == l[..i] + [l[i]] + l[i + 1..];
  }

  lemma PutBag<T>(l: seq<T>, i: nat, x: T)
    requires i <= |l|
    ensures multiset(Put(l, i, x)) == multiset(l) + multiset{x}
  {
    assert l == l[..i] + l[i..];
  }

  lemma CutIn<T>(l: seq<T>, k: nat)
    requires k < |l|
    ensures forall i :: 0 <= i < |l| - 1 ==> Cut(l, k)[i] == l[if i < k then i else i + 1]
  {
  }

  lemma PutIn<T>(l: seq<T>, j: nat, x: T)
    requires j <= |l|
    ensures Put(l, j, x)[j] == x && (forall i :: 0 <= i < j ==> Put(l, j, x)[i] == l[i])
    ensures forall i :: j < i <= |l| ==> Put(l, j, x)[i] == l[i - 1]
  {
  }

  lemma CutHead<T>(l: seq<T>)
    requires l != []
    ensures Cut(l, 0) == l[1..]
  {
  }

  ghost predicate Distinct(s: seq<nat>) {
    forall i, j :: 0 <= i < j < |s| ==> s[i] != s[j]
  }

  ghost function Elements(s: seq<nat>): set<nat> {
    set b | b in s
  }

  lemma {:induction false} DistinctSize(s: seq<nat>)
    requires Distinct(s)
    ensures |Elements(s)| == |s|
  {
    if s != [] {
      DistinctSize(s[1..]);
      assert Elements(s) == Elements(s[1..]) + {s[0]};
      assert s[0] !in s[1..];
    }
  }

  ghost function Below(n: nat): set<nat> {
    if n == 0 then {} else Below(n - 1) + {n - 1}
  }

  lemma {:induction false} BelowIs(n: nat)
    ensures |Below(n)| == n && forall b: nat :: b in Below(n) <==> b < n
  {
    if n > 0 {
      BelowIs(n - 1);
    }
  }

  lemma DistinctCons(b: nat, s: seq<nat>)
    requires Distinct(s) && b !in s
    ensures Distinct([b] + s)
  {
    assert forall j :: 0 <= j < |s| ==> ([b] + s)[j + 1] == s[j];
    assert forall j :: 0 <= j < |s| ==> s[j] in s;
  }

  // A list of different numbers below n has no more than n of them.
  lemma DistinctBelow(s: seq<nat>, n: nat)
    requires Distinct(s) && forall i :: 0 <= i < |s| ==> s[i] < n
    ensures |s| <= n
  {
    DistinctSize(s);
    BelowIs(n);
    Included(Elements(s), Below(n));
  }

  lemma Included(a: set<nat>, b: set<nat>)
    requires a <= b
    ensures |a| <= |b|
  {
    assert b == a + (b - a);
  }

  function Rev<T>(l: seq<T>): (r: seq<T>)
    ensures |r| == |l|
  {
    if l == [] then [] else Rev(l[1..]) + [l[0]]
  }

  lemma {:induction false} RevSnoc<T>(l: seq<T>, x: T)
    ensures Rev(l + [x]) == [x] + Rev(l)
  {
    if l == [] {
      assert ([] + [x])[1..] == [];
    } else {
      assert (l + [x])[1..] == l[1..] + [x];
      RevSnoc(l[1..], x);
    }
  }

  lemma {:induction false} RevAt<T>(l: seq<T>, i: nat)
    requires i < |l|
    ensures Rev(l)[|l| - 1 - i] == l[i]
  {
    if i > 0 {
      RevAt(l[1..], i - 1);
    }
  }

  // The elements of a list that are in a set, and the others, in order.
  function Those(l: seq<nat>, sat: set<nat>): seq<nat> {
    if l == [] then [] else (if l[0] in sat then [l[0]] else []) + Those(l[1..], sat)
  }

  function Others(l: seq<nat>, sat: set<nat>): seq<nat> {
    if l == [] then [] else (if l[0] in sat then [] else [l[0]]) + Others(l[1..], sat)
  }

  lemma {:induction false} SortedOut(l: seq<nat>, sat: set<nat>, x: nat)
    ensures Those(l + [x], sat) == Those(l, sat) + if x in sat then [x] else []
  {
    var r := l + [x];
    if l == [] {
      assert r == [x] && [x][1..] == [] && Those([], sat) == [];
    } else {
      assert r[0] == l[0] && r[1..] == l[1..] + [x];
      SortedOut(l[1..], sat, x);
      assert Those(r, sat) == (if l[0] in sat then [l[0]] else []) + Those(r[1..], sat);
    }
  }

  lemma {:induction false} OthersSortedOut(l: seq<nat>, sat: set<nat>, x: nat)
    ensures Others(l + [x], sat) == Others(l, sat) + if x in sat then [] else [x]
  {
    var r := l + [x];
    if l == [] {
      assert r == [x] && [x][1..] == [] && Others([], sat) == [];
    } else {
      assert r[0] == l[0] && r[1..] == l[1..] + [x];
      OthersSortedOut(l[1..], sat, x);
      assert Others(r, sat) == (if l[0] in sat then [] else [l[0]]) + Others(r[1..], sat);
    }
  }

  lemma {:induction false} OthersHas(l: seq<nat>, sat: set<nat>, x: nat)
    ensures x in Others(l, sat) <==> x in l && x !in sat
  {
    if l != [] {
      OthersHas(l[1..], sat, x);
    }
  }

  lemma {:induction false} ThoseHas(l: seq<nat>, sat: set<nat>, x: nat)
    ensures x in Those(l, sat) <==> x in l && x in sat
  {
    if l != [] {
      ThoseHas(l[1..], sat, x);
    }
  }

  lemma {:induction false} RevHas<T>(l: seq<T>, x: T)
    ensures x in Rev(l) <==> x in l
  {
    if l != [] {
      RevHas(l[1..], x);
    }
  }

  lemma {:induction false} OthersTwice(l: seq<nat>, a: set<nat>, b: set<nat>)
    ensures Others(Others(l, a), b) == Others(l, a + b)
  {
    if l != [] {
      OthersTwice(l[1..], a, b);
      var r := Others(l[1..], a);
      if l[0] in a {
        assert Others(l, a) == r;
      } else {
        assert ([l[0]] + r)[1..] == r;
        assert Others([l[0]] + r, b) == (if l[0] in b then [] else [l[0]]) + Others(r, b);
      }
    }
  }

  lemma {:induction false} OthersNone(l: seq<nat>, sat: set<nat>)
    requires forall i :: 0 <= i < |l| ==> l[i] !in sat
    ensures Others(l, sat) == l
  {
    if l != [] {
      OthersNone(l[1..], sat);
    }
  }

  lemma {:induction false} OthersCut(l: seq<nat>, k: nat)
    requires k < |l| && forall i :: 0 <= i < |l| && i != k ==> l[i] != l[k]
    ensures Others(l, {l[k]}) == Cut(l, k)
  {
    if k == 0 {
      OthersNone(l[1..], {l[0]});
    } else {
      OthersCut(l[1..], k - 1);
      assert Cut(l, k) == [l[0]] + Cut(l[1..], k - 1);
    }
  }
}

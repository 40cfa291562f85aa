// Cluster chains in a FAT seen as a table of numbers.
module Chains {
  import opened Media
  import opened FatTable
  import opened Lists

  type Table = seq<Word>

  // ch is the chain of a file whose directory entry names cluster `start` (0 for none).
  ghost predicate IsChain(fat: Table, start: int, ch: seq<nat>) {
    && start == (if |ch| == 0 then 0 else ch[0])
    && (forall i :: 0 <= i < |ch| ==> 2 <= ch[i] < |fat|)
    && (forall i {:trigger fat[ch[i]]} :: 0 <= i < |ch| ==>
          if i + 1 < |ch| then fat[ch[i]] == ch[i + 1] else EndOfChain(fat[ch[i]]))
  }

  ghost predicate Apart(a: seq<nat>, b: seq<nat>) {
    forall i, j :: 0 <= i < |a| && 0 <= j < |b| ==> a[i] != b[j]
  }

  // A chain never comes back to a cluster.
  lemma {:induction false} ChainAcyclic(fat: Table, start: int, ch: seq<nat>, i: nat, j: nat)
    requires |fat| <= 0xfff8 && IsChain(fat, start, ch) && i < j < |ch|
    ensures ch[i] != ch[j]
    decreases |ch| - j
  {
    assert fat[ch[i]] == ch[i + 1];
    if j < |ch| - 1 {
      assert fat[ch[j]] == ch[j + 1];
      ChainAcyclic(fat, start, ch, i + 1, j + 1);
    } else {
      assert EndOfChain(fat[ch[j]]);
    }
  }

  lemma ChainDistinct(fat: Table, start: int, ch: seq<nat>)
    requires |fat| <= 0xfff8 && IsChain(fat, start, ch)
    ensures forall i, j :: 0 <= i < j < |ch| ==> ch[i] != ch[j]
  {
    forall i, j | 0 <= i < j < |ch| ensures ch[i] != ch[j] {
      ChainAcyclic(fat, start, ch, i, j);
    }
  }

  // The table determines the chain.
  lemma ChainUnique(fat: Table, start: int, a: seq<nat>, b: seq<nat>)
    requires |fat| <= 0xfff8 && IsChain(fat, start, a) && IsChain(fat, start, b)
    ensures a == b
  {
    if |a| <= |b| {
      ChainPrefix(fat, start, a, b, |a|);
    } else {
      ChainPrefix(fat, start, b, a, |b|);
    }
  }

  lemma {:induction false} ChainPrefix(fat: Table, start: int, a: seq<nat>, b: seq<nat>, n: nat)
    requires |fat| <= 0xfff8 && IsChain(fat, start, a) && IsChain(fat, start, b) && n <= |a| <= |b|
    ensures a[..n] == b[..n] && (n == |a| ==> |a| == |b|)
  {
    if n > 0 {
      ChainPrefix(fat, start, a, b, n - 1);
      assert a[..n] == a[..n - 1] + [a[n - 1]] && b[..n] == b[..n - 1] + [b[n - 1]];
      if n > 1 {
        assert a[n - 2] == a[..n - 1][n - 2] == b[..n - 1][n - 2] == b[n - 2];
        assert fat[a[n - 2]] == a[n - 1] && fat[b[n - 2]] == b[n - 1];
      }
      assert fat[a[n - 1]] == fat[b[n - 1]];
    }
  }

  // A chain has no more clusters than the table has entries.
  lemma ChainShort(fat: Table, start: int, ch: seq<nat>)
    requires IsChain(fat, start, ch) && |fat| <= 0xfff8
    ensures |ch| <= |fat|
  {
    ChainDistinct(fat, start, ch);
    DistinctBelow(ch, |fat|);
  }

  // No cluster of a chain is free.
  lemma ChainUsed(fat: Table, start: int, ch: seq<nat>, i: nat)
    requires IsChain(fat, start, ch) && i < |ch|
    ensures fat[ch[i]] != FREECLUSTER
  {
  }

  // How a write may change a file's chain: it only gets longer, by clusters that were free,
  // and no entry outside it changes.
  ghost predicate Grown(f0: Table, c0: seq<nat>, f1: Table, c1: seq<nat>) {
    && |f0| == |f1|
    && c0 <= c1
    && (forall i :: |c0| <= i < |c1| ==> c1[i] < |f0| && f0[c1[i]] == FREECLUSTER)
    && (forall cl :: 0 <= cl < |f0| && cl !in c1 ==> f1[cl] == f0[cl])
    && (c0 == c1 ==> f0 == f1)
  }

  lemma GrownTrans(f0: Table, c0: seq<nat>, f1: Table, c1: seq<nat>, f2: Table, c2: seq<nat>)
    requires Grown(f0, c0, f1, c1) && Grown(f1, c1, f2, c2)
    requires |f1| <= 0xfff8 && exists s :: IsChain(f1, s, c1)
    ensures Grown(f0, c0, f2, c2)
  {
    var s :| IsChain(f1, s, c1);
    forall i | |c0| <= i < |c2|
      ensures c2[i] < |f0| && f0[c2[i]] == FREECLUSTER
    {
      if i < |c1| {
        assert c2[i] == c1[i];
      } else if c2[i] in c1 {
        var j :| 0 <= j < |c1| && c1[j] == c2[i];
        ChainUsed(f1, s, c1, j);
      }
    }
    assert forall cl :: cl in c1 ==> cl in c2;
  }

  // Growth of one file leaves the chain of every other file alone, and apart.
  lemma GrownOthers(f0: Table, c0: seq<nat>, f1: Table, c1: seq<nat>, start: int, other: seq<nat>)
    requires Grown(f0, c0, f1, c1) && IsChain(f0, start, other) && Apart(c0, other)
    ensures IsChain(f1, start, other) && Apart(c1, other)
  {
    forall i, j | 0 <= i < |c1| && 0 <= j < |other|
      ensures c1[i] != other[j]
    {
      if i < |c0| {
        assert c1[i] == c0[i];
      } else {
        ChainUsed(f0, start, other, j);
      }
    }
  }

  // nextcl(): end the new cluster's chain, then link it.
  function Appended(fat: Table, ch: seq<nat>, f: nat): (r: Table)
    requires f < |fat| <= 0xfff8 && (ch != [] ==> ch[|ch| - 1] < |fat|)
    ensures |r| == |fat|
  {
    if ch == [] then fat[f := ENDOFCHAIN] else fat[f := ENDOFCHAIN][ch[|ch| - 1] := f]
  }

  lemma AppendedChain(fat: Table, start: int, ch: seq<nat>, f: nat)
    requires |fat| <= 0xfff8 && IsChain(fat, start, ch) && 2 <= f < |fat| && fat[f] == FREECLUSTER
    ensures f !in ch
    ensures IsChain(Appended(fat, ch, f), if ch == [] then f else start, ch + [f])
    ensures Grown(fat, ch, Appended(fat, ch, f), ch + [f])
  {
    forall i | 0 <= i < |ch| ensures ch[i] != f {
      ChainUsed(fat, start, ch, i);
    }
    ChainDistinct(fat, start, ch);
  }

  // At the step between the two entries every chain of the volume is intact, the growing
  // file's included.
  lemma MidAppend(fat: Table, start: int, ch: seq<nat>, f: nat)
    requires |fat| <= 0xfff8 && IsChain(fat, start, ch) && 2 <= f < |fat| && fat[f] == FREECLUSTER
    ensures IsChain(fat[f := ENDOFCHAIN], start, ch)
  {
    forall i | 0 <= i < |ch| ensures ch[i] != f {
      ChainUsed(fat, start, ch, i);
    }
  }

  // Linking before ending would leave the file without a terminated chain.
  lemma LinkFirstBreaks(fat: Table, start: int, ch: seq<nat>, f: nat, c: seq<nat>)
    requires |fat| <= 0xfff8 && IsChain(fat, start, ch) && ch != [] && 2 <= f < |fat| && fat[f] == FREECLUSTER
    ensures !IsChain(fat[ch[|ch| - 1] := f], start, c)
  {
    var bad := fat[ch[|ch| - 1] := f];
    forall i | 0 <= i < |ch| ensures ch[i] != f {
      ChainUsed(fat, start, ch, i);
    }
    ChainDistinct(fat, start, ch);
    if IsChain(bad, start, c) {
      FollowsTo(bad, start, ch + [f], c, |ch|);
      ChainUsed(bad, start, c, |ch|);
      assert false;
    }
  }

  // A chain goes wherever the links lead.
  lemma {:induction false} FollowsTo(fat: Table, start: int, path: seq<nat>, c: seq<nat>, n: nat)
    requires |fat| <= 0xfff8 && IsChain(fat, start, c) && n < |path|
    requires path[0] == start && start != 0
    requires forall i :: 0 <= i < |path| ==> 2 <= path[i] < |fat|
    requires forall i {:trigger fat[path[i]]} :: 0 <= i < |path| - 1 ==> fat[path[i]] == path[i + 1]
    ensures n < |c| && c[n] == path[n]
  {
    if n > 0 {
      FollowsTo(fat, start, path, c, n - 1);
      assert fat[path[n - 1]] == path[n] && fat[c[n - 1]] == fat[path[n - 1]];
    }
  }

  // Number of free clusters below n.
  function FreeBelow(fat: Table, n: nat): nat
    requires n <= |fat|
  {
    if n <= 2 then 0 else FreeBelow(fat, n - 1) + (if fat[n - 1] == FREECLUSTER then 1 else 0)
  }

  function FreeCount(fat: Table): nat { FreeBelow(fat, |fat|) }

  lemma {:induction false} FreeBelowSet(fat: Table, n: nat, cl: nat, v: Word)
    requires n <= |fat| && 2 <= cl < |fat|
    ensures FreeBelow(fat[cl := v], n) == FreeBelow(fat, n) +
      (if cl < n then (if v == FREECLUSTER then 1 else 0) - (if fat[cl] == FREECLUSTER then 1 else 0) else 0)
  {
    if n > 2 {
      FreeBelowSet(fat, n - 1, cl, v);
    }
  }

  // Appending takes exactly one cluster.
  lemma AppendedCount(fat: Table, start: int, ch: seq<nat>, f: nat)
    requires |fat| <= 0xfff8 && IsChain(fat, start, ch) && 2 <= f < |fat| && fat[f] == FREECLUSTER
    ensures FreeCount(Appended(fat, ch, f)) == FreeCount(fat) - 1
  {
    FreeBelowSet(fat, |fat|, f, ENDOFCHAIN);
    if ch != [] {
      ChainUsed(fat, start, ch, |ch| - 1);
      FreeBelowSet(fat[f := ENDOFCHAIN], |fat|, ch[|ch| - 1], f);
    }
  }

  // ixdel(): every entry of the chain becomes free.
  function Freed(fat: Table, ch: seq<nat>): (r: Table)
    requires forall i :: 0 <= i < |ch| ==> ch[i] < |fat|
    ensures |r| == |fat|
    decreases |ch|
  {
    if ch == [] then fat else Freed(fat[ch[0] := FREECLUSTER], ch[1..])
  }

  lemma {:induction false} FreedAt(fat: Table, ch: seq<nat>, cl: nat)
    requires forall i :: 0 <= i < |ch| ==> ch[i] < |fat|
    requires cl < |fat|
    ensures Freed(fat, ch)[cl] == if cl in ch then FREECLUSTER else fat[cl]
    decreases |ch|
  {
    if ch != [] {
      FreedAt(fat[ch[0] := FREECLUSTER], ch[1..], cl);
      assert ch == [ch[0]] + ch[1..];
    }
  }

  // Deleting a file frees exactly its clusters and leaves every other file intact.
  lemma FreedOthers(fat: Table, ch: seq<nat>, start: int, other: seq<nat>)
    requires forall i :: 0 <= i < |ch| ==> ch[i] < |fat|
    requires IsChain(fat, start, other) && Apart(ch, other)
    ensures IsChain(Freed(fat, ch), start, other)
  {
    forall i | 0 <= i < |other| ensures Freed(fat, ch)[other[i]] == fat[other[i]] {
      FreedAt(fat, ch, other[i]);
    }
  }

  lemma {:induction false} FreedCount(fat: Table, ch: seq<nat>)
    requires forall i :: 0 <= i < |ch| ==> 2 <= ch[i] < |fat| && fat[ch[i]] != FREECLUSTER
    requires forall i, j :: 0 <= i < j < |ch| ==> ch[i] != ch[j]
    ensures FreeCount(Freed(fat, ch)) == FreeCount(fat) + |ch|
    decreases |ch|
  {
    if ch != [] {
      FreeBelowSet(fat, |fat|, ch[0], FREECLUSTER);
      FreedCount(fat[ch[0] := FREECLUSTER], ch[1..]);
    }
  }

  // The number of free clusters depends only on which entries are zero.
  lemma {:induction false} FreeBelowSame(f: Table, g: Table, n: nat)
    requires |f| == |g| && n <= |f|
    requires forall cl :: 2 <= cl < |f| ==> (f[cl] == FREECLUSTER <==> g[cl] == FREECLUSTER)
    ensures FreeBelow(f, n) == FreeBelow(g, n)
  {
    if n > 2 {
      FreeBelowSame(f, g, n - 1);
    }
  }

  function Taken(fat: Table, cls: seq<nat>): (r: Table)
    requires forall i :: 0 <= i < |cls| ==> cls[i] < |fat|
    ensures |r| == |fat|
    decreases |cls|
  {
    if cls == [] then fat else Taken(fat[cls[0] := ENDOFCHAIN], cls[1..])
  }

  lemma {:induction false} TakenAt(fat: Table, cls: seq<nat>, cl: nat)
    requires forall i :: 0 <= i < |cls| ==> cls[i] < |fat|
    requires cl < |fat|
    ensures Taken(fat, cls)[cl] == if cl in cls then ENDOFCHAIN else fat[cl]
    decreases |cls|
  {
    if cls != [] {
      TakenAt(fat[cls[0] := ENDOFCHAIN], cls[1..], cl);
      assert cls == [cls[0]] + cls[1..];
    }
  }

  lemma {:induction false} TakenCount(fat: Table, cls: seq<nat>)
    requires forall i :: 0 <= i < |cls| ==> 2 <= cls[i] < |fat| && fat[cls[i]] == FREECLUSTER
    requires forall i, j :: 0 <= i < j < |cls| ==> cls[i] != cls[j]
    ensures FreeCount(Taken(fat, cls)) + |cls| == FreeCount(fat)
    decreases |cls|
  {
    if cls != [] {
      FreeBelowSet(fat, |fat|, cls[0], ENDOFCHAIN);
      TakenCount(fat[cls[0] := ENDOFCHAIN], cls[1..]);
    }
  }

  // Conservation: what the chain gains, the free list loses.
  lemma GrownCount(f0: Table, s0: int, c0: seq<nat>, f1: Table, s1: int, c1: seq<nat>)
    requires |f0| <= 0xfff8 && IsChain(f0, s0, c0) && IsChain(f1, s1, c1) && Grown(f0, c0, f1, c1)
    ensures FreeCount(f1) + |c1| == FreeCount(f0) + |c0|
  {
    var cls := c1[|c0|..];
    ChainDistinct(f1, s1, c1);
    TakenCount(f0, cls);
    forall cl | 2 <= cl < |f0|
      ensures f1[cl] == FREECLUSTER <==> Taken(f0, cls)[cl] == FREECLUSTER
    {
      TakenAt(f0, cls, cl);
      if cl in c1 {
        var i :| 0 <= i < |c1| && c1[i] == cl;
        ChainUsed(f1, s1, c1, i);
        if i < |c0| {
          assert c0[i] == cl;
          ChainUsed(f0, s0, c0, i);
        } else {
          assert cls[i - |c0|] == cl;
        }
      } else {
        assert cl !in cls;
      }
    }
    FreeBelowSame(f1, Taken(f0, cls), |f0|);
  }
}

// The delay list (aes/geminput.c, aes/gemflag.c, aes/gemasync.c): each entry holds the ticks
// after the one before it, so that its deadline is the sum up to it.
module DelayList {
  // The sum of the first n entries; the deadline of the i-th waiter is Before(d, i + 1).
  function Before(d: seq<int>, n: nat): int
    requires n <= |d|
  {
    if n == 0 then 0 else Before(d, n - 1) + d[n - 1]
  }

  ghost predicate Ticks(d: seq<int>) {
    forall i :: 0 <= i < |d| ==> d[i] >= 0
  }

  lemma {:induction false} BeforeSame(d: seq<int>, d': seq<int>, n: nat)
    requires n <= |d| && n <= |d'| && forall i :: 0 <= i < n ==> d[i] == d'[i]
    ensures Before(d, n) == Before(d', n)
  {
    if n > 0 {
      BeforeSame(d, d', n - 1);
    }
  }

  lemma {:induction false} BeforeGrows(d: seq<int>, m: nat, n: nat)
    requires Ticks(d) && m <= n <= |d|
    ensures Before(d, m) <= Before(d, n)
  {
    if m < n {
      BeforeGrows(d, m, n - 1);
    }
  }

  // Beyond a point where the sums differ by c, they go on doing so.
  lemma {:induction false} BeforeShifted(d: seq<int>, d': seq<int>, m: nat, m': nat, n: nat)
    requires m + n <= |d| && m' + n <= |d'| && d[m..m + n] == d'[m'..m' + n]
    ensures Before(d', m' + n) - Before(d', m') == Before(d, m + n) - Before(d, m)
  {
    if n > 0 {
      assert d[m..m + n][n - 1] == d'[m'..m' + n][n - 1];
      assert d[m..m + (n - 1)] == d[m..m + n][..n - 1] && d'[m'..m' + (n - 1)] == d'[m'..m' + n][..n - 1];
      BeforeShifted(d, d', m, m', n - 1);
    }
  }

  // adelay(): a waiter of c ticks put in at k, the next entry lowered by what comes before it.
  function Inserted(d: seq<int>, k: nat, c: int): seq<int>
    requires k <= |d|
  {
    var r := c - Before(d, k);
    d[..k] + [r] + if k < |d| then [d[k] - r] + d[k + 1..] else []
  }

  // adelay() stops at the first waiter not due before the new one.
  ghost predicate PlaceFor(d: seq<int>, k: nat, c: int) {
    k <= |d| && (k > 0 ==> Before(d, k) < c) && (k < |d| ==> c <= Before(d, k + 1))
  }

  // The new waiter is due in c ticks, every other one when it was.
  lemma InsertedDue(d: seq<int>, k: nat, c: int, i: nat)
    requires Ticks(d) && PlaceFor(d, k, c) && c >= 0 && i <= |d|
    ensures Ticks(Inserted(d, k, c)) && Before(Inserted(d, k, c), k + 1) == c
    ensures i <= k ==> Before(Inserted(d, k, c), i) == Before(d, i)
    ensures i > k ==> Before(Inserted(d, k, c), i + 1) == Before(d, i)
  {
    var e := Inserted(d, k, c);
    BeforeSame(d, e, k);
    if i <= k {
      BeforeSame(d, e, i);
    } else {
      assert Before(e, k + 2) == Before(d, k + 1);
      BeforeShifted(d, e, k + 1, k + 2, i - (k + 1));
    }
  }

  // takeoff(): the i-th waiter leaves, its ticks go to the next.
  function Removed(d: seq<int>, k: nat): seq<int>
    requires k < |d|
  {
    d[..k] + if k + 1 < |d| then [d[k + 1] + d[k]] + d[k + 2..] else []
  }

  // Every other waiter is due when it was.
  lemma RemovedDue(d: seq<int>, k: nat, i: nat)
    requires Ticks(d) && k < |d| && i < |d|
    ensures Ticks(Removed(d, k))
    ensures i <= k ==> Before(Removed(d, k), i) == Before(d, i)
    ensures i > k ==> Before(Removed(d, k), i) == Before(d, i + 1)
  {
    var e := Removed(d, k);
    BeforeSame(d, e, k);
    if i <= k {
      BeforeSame(d, e, i);
    } else {
      assert Before(e, k + 1) == Before(d, k + 2);
      BeforeShifted(d, e, k + 2, k + 1, i - (k + 1));
    }
  }

  // tchange(): the first n waiters are gone and the next is nearer by what is left of c.
  function Lowered(d: seq<int>, n: nat, c: int): seq<int>
    requires n <= |d|
  {
    if n == |d| then [] else [d[n] - (c - Before(d, n))] + d[n + 1..]
  }

  // The waiters due within c ticks are the first n.
  ghost predicate Expired(d: seq<int>, n: nat, c: int) {
    n <= |d| && (n > 0 ==> Before(d, n) <= c) && (n < |d| ==> Before(d, n + 1) > c)
  }

  // Exactly those due by c have gone, and the deadlines of the others are lower by c.
  lemma LoweredDue(d: seq<int>, n: nat, c: int, i: nat)
    requires Ticks(d) && Expired(d, n, c) && i < |d| && c >= 0
    ensures Before(d, i + 1) <= c <==> i < n
    ensures Ticks(Lowered(d, n, c))
    ensures i >= n ==> Before(Lowered(d, n, c), i - n + 1) == Before(d, i + 1) - c
  {
    if i < n {
      BeforeGrows(d, i + 1, n);
    } else {
      BeforeGrows(d, n + 1, i + 1);
      var e := Lowered(d, n, c);
      assert Before(e, 1) == Before(d, n + 1) - c;
      BeforeShifted(d, e, n + 1, 1, i - n);
      assert n + 1 + (i - n) == i + 1;
    }
  }
}

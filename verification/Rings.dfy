// The ring buffers of the AES: a process's keyboard queue (nq() and dq() in aes/geminput.c) and the
// fork ring (forkq() and forker() in aes/gemdisp.c).
module Rings {
  const NFORKS := 32
  const KBD_SIZE := 8

  // An index of a ring of the given size, run on past its end by less than a round.
  function Wrap(i: nat, size: nat): nat {
    if i >= size then i - size else i
  }

  // The n elements from an index on, round the end.
  function Slice<T>(b: seq<T>, front: nat, n: nat): (s: seq<T>)
    requires front < |b| && n <= |b|
    ensures |s| == n && forall i :: 0 <= i < n ==> s[i] == b[Wrap(front + i, |b|)]
  {
    seq(n, i requires 0 <= i < n => b[Wrap(front + i, |b|)])
  }

  lemma SlicePut<T>(b: seq<T>, front: nat, n: nat, x: T)
    requires front < |b| && n < |b|
    ensures Slice(b[Wrap(front + n, |b|) := x], front, n + 1) == Slice(b, front, n) + [x]
  {
    var r, s := Slice(b[Wrap(front + n, |b|) := x], front, n + 1), Slice(b, front, n) + [x];
    forall i | 0 <= i < n + 1 ensures r[i] == s[i] {
      assert i < n ==> Wrap(front + i, |b|) != Wrap(front + n, |b|);
    }
  }

  lemma SliceTake<T>(b: seq<T>, front: nat, n: nat)
    requires front < |b| && 0 < n <= |b|
    ensures Slice(b, front, n)[0] == b[front]
    ensures Slice(b, Wrap(front + 1, |b|), n - 1) == Slice(b, front, n)[1..]
  {
    assert Wrap(front + 0, |b|) == front;
    var f := Wrap(front + 1, |b|);
    var r, s := Slice(b, f, n - 1), Slice(b, front, n);
    forall i | 0 <= i < n - 1 ensures r[i] == s[1..][i] {
      var j := i + 1;
      assert s[j] == b[Wrap(front + j, |b|)] && r[i] == b[Wrap(f + i, |b|)];
      assert Wrap(f + i, |b|) == Wrap(front + j, |b|);
    }
  }

  class Ring<T(0)> {
    const buff: array<T>
    var front: nat
    var rear: nat
    var cnt: nat

    ghost predicate Valid()
      reads this
    {
      0 < buff.Length && front < buff.Length && cnt <= buff.Length && rear == Wrap(front + cnt, buff.Length)
    }

    // What is queued, oldest first.
    ghost function Contents(): (s: seq<T>)
      reads this, buff
      requires Valid()
      ensures |s| == cnt
    {
      Slice(buff[..], front, cnt)
    }

    constructor (size: nat)
      requires size > 0
      ensures Valid() && Contents() == [] && buff.Length == size && fresh(buff)
    {
      buff := new T[size];
      front, rear, cnt := 0, 0, 0;
    }

    // nq() and forkq(): in at the rear, unless the ring is full.
    method Put(x: T) returns (ok: bool)
      requires Valid()
      modifies this, buff
      ensures Valid() && ok == (old(cnt) < buff.Length)
      ensures Contents() == if ok then old(Contents()) + [x] else old(Contents())
    {
      ok := cnt < buff.Length;
      ghost var b := buff[..];
      if ok {
        SlicePut(b, front, cnt, x);
        buff[rear] := x;
        assert buff[..] == b[rear := x];
        rear := rear + 1;
        if rear == buff.Length {
          rear := 0;
        }
        cnt := cnt + 1;
      }
    }

    // dq() and the loop of forker(): out at the front.
    method Take() returns (x: T)
      requires Valid() && cnt > 0
      modifies this
      ensures Valid() && x == old(Contents())[0] && Contents() == old(Contents())[1..]
    {
      SliceTake(buff[..], front, cnt);
      cnt := cnt - 1;
      x := buff[front];
      front := front + 1;
      if front == buff.Length {
        front := 0;
      }
    }
  }
}

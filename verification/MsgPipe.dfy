// What the message pipe of a process holds when each message says how long it is (doq() in
// aes/gemqueue.c): messages of eight words, and the further bytes that the third word counts.
// Redraw and slider messages are merged into a message that is queued already.
module MsgPipe {
  import opened Bounds
  import opened Bytes
  import opened Rects
  import opened PipeLine
  import opened PipeBytes

  // The words of a message that doq() looks at: the first, the third, which is the number of bytes
  // beyond the 16, the fourth, and the last four; and those further bytes.
  datatype Msg = Msg(kind: int, extra: int, handle: int, r: Rect, rest: seq<Byte>)
  {
    function Size(): nat {
      MSG + |rest|
    }

    // The third word tells the truth.
    predicate Framed() {
      |rest| == extra
    }
  }

  predicate AllFramed(q: seq<Msg>) {
    forall i :: 0 <= i < |q| ==> q[i].Framed()
  }

  // rc_union(), which computes in WORDs.
  function Union(p: Rect, q: Rect): Rect {
    var x, y := Min(p.x, q.x), Min(p.y, q.y);
    Rect(x, y, Wrap16(Max(Wrap16(p.x + p.w), Wrap16(q.x + q.w)) - x), Wrap16(Max(Wrap16(p.y + p.h), Wrap16(q.y + q.h)) - y))
  }

  predicate InWords(r: Rect) {
    IsWord(r.x) && IsWord(r.y) && IsWord(r.w) && IsWord(r.h)
  }

  // Two spans have one that covers both in WORDs: both or neither of their ends run over, and from
  // the first start to the last end it is not too far.
  predicate SpanFits(p: int, pw: int, q: int, qw: int) {
    && p + pw >= -0x8000 && q + qw >= -0x8000 && (p + pw >= 0x8000 <==> q + qw >= 0x8000)
    && Max(p + pw, q + qw) - Min(p, q) < 0x8000
  }

  predicate UnionFits(p: Rect, q: Rect) {
    SpanFits(p.x, p.w, q.x, q.w) && SpanFits(p.y, p.h, q.y, q.h)
  }

  // Where a span ends that covers both, in WORDs.
  lemma SpanEnd(p: int, pw: int, q: int, qw: int)
    requires IsWord(p) && IsWord(pw) && IsWord(q) && IsWord(qw)
    ensures var e := Min(p, q) + Wrap16(Max(Wrap16(p + pw), Wrap16(q + qw)) - Min(p, q));
            && (SpanFits(p, pw, q, qw) && (pw > 0 || qw > 0) ==> e == Max(p + pw, q + qw))
            && (!SpanFits(p, pw, q, qw) && pw > 0 && qw > 0 ==> e < Max(p + pw, q + qw))
  {
  }

  // The union of two rectangles covers both exactly when it fits.
  lemma UnionCovers(p: Rect, q: Rect)
    requires InWords(p) && InWords(q)
    ensures UnionFits(p, q) ==> forall px: int, py: int :: p.Has(px, py) || q.Has(px, py) ==> Union(p, q).Has(px, py)
    ensures p.Solid() && q.Solid() && !UnionFits(p, q) ==>
      exists px: int, py: int :: (p.Has(px, py) || q.Has(px, py)) && !Union(p, q).Has(px, py)
  {
    hide Wrap16, SpanFits;
    SpanEnd(p.x, p.w, q.x, q.w);
    SpanEnd(p.y, p.h, q.y, q.h);
    if p.Solid() && q.Solid() && !UnionFits(p, q) {
      var r := if SpanFits(p.x, p.w, q.x, q.w) then (if p.y + p.h >= q.y + q.h then p else q)
               else if p.x + p.w >= q.x + q.w then p else q;
      assert r.Has(r.x + r.w - 1, r.y + r.h - 1) && !Union(p, q).Has(r.x + r.w - 1, r.y + r.h - 1);
    }
  }

  // And it is no larger than that: its edges are the outer ones of the two.
  lemma UnionTight(p: Rect, q: Rect)
    requires InWords(p) && InWords(q) && UnionFits(p, q) && p.Solid() && q.Solid()
    ensures var u := Union(p, q);
            && u.x == (if p.x <= q.x then p.x else q.x) && u.y == (if p.y <= q.y then p.y else q.y)
            && u.x + u.w == (if p.x + p.w >= q.x + q.w then p.x + p.w else q.x + q.w)
            && u.y + u.h == (if p.y + p.h >= q.y + q.h then p.y + p.h else q.y + q.h)
  {
    hide Wrap16, SpanFits;
    SpanEnd(p.x, p.w, q.x, q.w);
    SpanEnd(p.y, p.h, q.y, q.h);
  }

  predicate Mergeable(m: Msg) {
    MergeKind(m.kind)
  }

  // The search stops at a redraw of the same window, or at an arrow message of any.
  predicate Stops(om: Msg, nm: Msg) {
    (om.kind == WM_REDRAW && nm.handle == om.handle) || om.kind == WM_ARROWED
  }

  function StopAt(q: seq<Msg>, nm: Msg): (i: nat)
    ensures i <= |q| && (i < |q| ==> Stops(q[i], nm)) && forall k :: 0 <= k < i ==> !Stops(q[k], nm)
  {
    if q == [] || Stops(q[0], nm) then 0 else StopAt(q[1..], nm) + 1
  }

  predicate Merges(q: seq<Msg>, nm: Msg) {
    Mergeable(nm) && StopAt(q, nm) < |q|
  }

  // The message left where the search stopped: 16 bytes are copied, whatever follows them.
  function Merged(om: Msg, nm: Msg): Msg {
    if om.kind == WM_REDRAW && nm.handle == om.handle then om.(r := Union(nm.r, om.r)) else nm.(rest := om.rest)
  }

  function Written(q: seq<Msg>, nm: Msg): seq<Msg> {
    var i := StopAt(q, nm);
    if Merges(q, nm) then q[i := Merged(q[i], nm)] else q + [nm]
  }

  // The message that some bytes are.
  function MsgOf(s: seq<Byte>): Msg
    requires MSG <= |s|
  {
    Msg(Word(s, 0), Word(s, 4), Word(s, 6), Rect(Word(s, 8), Word(s, 10), Word(s, 12), Word(s, 14)), s[MSG..])
  }

  // The words of a message as an application fills them in: the type, the sender, the number of
  // bytes beyond 16, the window, and its rectangle.
  lemma MessageWords(w: seq<int>, rest: seq<Byte>)
    requires |w| == 8 && forall k :: 0 <= k < 8 ==> IsWord(w[k])
    ensures MsgOf(WordBytes(w[0]) + WordBytes(w[1]) + WordBytes(w[2]) + WordBytes(w[3]) +
                  WordBytes(w[4]) + WordBytes(w[5]) + WordBytes(w[6]) + WordBytes(w[7]) + rest) ==
            Msg(w[0], w[2], w[3], Rect(w[4], w[5], w[6], w[7]), rest)
  {
    hide WordBytes, Word;
    forall k | 0 <= k < 8 ensures Word(WordBytes(w[k]), 0) == w[k] {
      WordBack(w[k]);
    }
    var m := WordBytes(w[0]) + WordBytes(w[1]) + WordBytes(w[2]) + WordBytes(w[3]) +
             WordBytes(w[4]) + WordBytes(w[5]) + WordBytes(w[6]) + WordBytes(w[7]) + rest;
    forall k | 0 <= k < 8 ensures Word(m, 2 * k) == w[k] {
      WordAs(WordBytes(w[k]), 0, m, 2 * k);
    }
    assert Word(m, 2 * 0) == w[0] && Word(m, 2 * 2) == w[2] && Word(m, 2 * 3) == w[3] && Word(m, 2 * 4) == w[4];
    assert Word(m, 2 * 5) == w[5] && Word(m, 2 * 6) == w[6] && Word(m, 2 * 7) == w[7];
    assert m[MSG..] == rest;
  }

  // From a place on up to q, p_queue holds these messages.
  ghost predicate Holds(b: seq<Byte>, i: nat, q: nat, l: seq<Msg>)
    decreases |l|
  {
    q <= |b| &&
    if l == [] then i == q
    else i + l[0].Size() <= q && MsgOf(b[i..i + l[0].Size()]) == l[0] && Holds(b, i + l[0].Size(), q, l[1..])
  }

  // Where the k-th message starts.
  function PlaceOf(l: seq<Msg>, k: nat): nat
    requires k <= |l|
  {
    if k == 0 then 0 else l[0].Size() + PlaceOf(l[1..], k - 1)
  }

  lemma {:induction false} HoldsSize(b: seq<Byte>, i: nat, q: nat, l: seq<Msg>, k: nat)
    requires Holds(b, i, q, l) && k <= |l|
    ensures i + PlaceOf(l, k) + (if k < |l| then l[k].Size() else 0) <= q <= |b|
    ensures k < |l| ==> MsgOf(b[i + PlaceOf(l, k)..i + PlaceOf(l, k) + l[k].Size()]) == l[k]
    ensures k == |l| ==> i + PlaceOf(l, k) == q
    decreases |l|
  {
    hide MsgOf;
    if l != [] {
      HoldsSize(b, i + l[0].Size(), q, l[1..], if k > 0 then k - 1 else 0);
    }
  }

  // The same bytes, maybe at another place, hold the same messages.
  lemma {:induction false} HoldsSame(b: seq<Byte>, i: nat, q: nat, l: seq<Msg>, c: seq<Byte>, j: nat, p: nat)
    requires Holds(b, i, q, l) && i <= q && j <= p <= |c| && c[j..p] == b[i..q]
    ensures Holds(c, j, p, l)
    decreases |l|
  {
    hide MsgOf;
    if l != [] {
      var n := l[0].Size();
      HoldsSize(b, i + n, q, l[1..], 0);
      SameSlice(b, i, q, c, j, p, n);
      HoldsSame(b, i + n, q, l[1..], c, j + n, p);
    } else {
      assert |c[j..p]| == p - j;
    }
  }

  lemma SameSlice(b: seq<Byte>, i: nat, q: nat, c: seq<Byte>, j: nat, p: nat, n: nat)
    requires i + n <= q <= |b| && j <= p <= |c| && c[j..p] == b[i..q]
    ensures p - j == q - i && c[j..j + n] == b[i..i + n] && c[j + n..p] == b[i + n..q]
  {
    assert |c[j..p]| == p - j;
    assert c[j..j + n] == c[j..p][..n] && b[i..i + n] == b[i..q][..n];
    assert c[j + n..p] == c[j..p][n..] && b[i + n..q] == b[i..q][n..];
  }

  // One more message behind those that are there.
  lemma {:induction false} HoldsMore(b: seq<Byte>, i: nat, q: nat, l: seq<Msg>, m: Msg)
    requires Holds(b, i, q, l) && q + m.Size() <= |b| && MsgOf(b[q..q + m.Size()]) == m
    ensures Holds(b, i, q + m.Size(), l + [m])
    decreases |l|
  {
    hide MsgOf;
    if l != [] {
      HoldsMore(b, i + l[0].Size(), q, l[1..], m);
      assert (l + [m])[1..] == l[1..] + [m];
    }
  }

  // A message is replaced by another one of the same size.
  lemma {:induction false} HoldsOther(b: seq<Byte>, i: nat, q: nat, l: seq<Msg>, k: nat, c: seq<Byte>, m: Msg)
    requires Holds(b, i, q, l) && k < |l| && |c| == |b| && m.Size() == l[k].Size() && i <= q
    requires i + PlaceOf(l, k) + m.Size() <= |b|
    requires c[i..i + PlaceOf(l, k)] == b[i..i + PlaceOf(l, k)]
    requires MsgOf(c[i + PlaceOf(l, k)..i + PlaceOf(l, k) + m.Size()]) == m
    requires forall j :: i + PlaceOf(l, k) + m.Size() <= j < q ==> c[j] == b[j]
    ensures Holds(c, i, q, l[k := m])
    decreases |l|
  {
    hide MsgOf;
    HoldsSize(b, i, q, l, k);
    var n := l[0].Size();
    HoldsSize(b, i + n, q, l[1..], 0);
    if k == 0 {
      assert c[i + n..q] == b[i + n..q];
      HoldsSame(b, i + n, q, l[1..], c, i + n, q);
      assert l[k := m][1..] == l[1..];
    } else {
      SameSlice(b, i, i + PlaceOf(l, k), c, i, i + PlaceOf(l, k), n);
      HoldsOther(b, i + n, q, l[1..], k - 1, c, m);
      assert l[k := m][1..] == l[1..][k - 1 := m];
    }
  }

  // A turn of the search at a message that tells the truth.
  lemma TurnIs(b: seq<Byte>, q: nat, i: nat, m: Msg, nm: Msg, cnt: nat)
    requires |b| == QUEUE_SIZE && MSG <= cnt && q + cnt <= QUEUE_SIZE && nm == MsgOf(b[q..q + cnt])
    requires i + m.Size() <= q && m == MsgOf(b[i..i + m.Size()]) && m.Framed()
    ensures LookAt(b, q, i) ==
            if m.kind == WM_REDRAW && nm.handle == m.handle then Turn.Union
            else if m.kind == WM_ARROWED then Copy else Go(i + m.Size())
  {
    hide Word;
    WordAs(b, i, b[i..i + m.Size()], 0);
    WordAs(b, i + 4, b[i..i + m.Size()], 4);
    WordAs(b, i + 6, b[i..i + m.Size()], 6);
    WordAs(b, q + 6, b[q..q + cnt], 6);
  }

  // The search over such messages comes to the one where StopAt() does.
  lemma {:induction false} SearchHolds(b: seq<Byte>, q: nat, i: nat, l: seq<Msg>, seen: set<int>, nm: Msg, cnt: nat)
    requires |b| == QUEUE_SIZE && MSG <= cnt && q + cnt <= QUEUE_SIZE && nm == MsgOf(b[q..q + cnt])
    requires Holds(b, i, q, l) && AllFramed(l) && forall m :: m in seen ==> m < i
    ensures var k, f := StopAt(l, nm), Search(b, q, i, seen);
            if k == |l| then f == NoMatch
            else f == if l[k].kind == WM_REDRAW && nm.handle == l[k].handle then UnionAt(i + PlaceOf(l, k)) else CopyAt(i + PlaceOf(l, k))
    decreases |l|
  {
    hide MsgOf, LookAt;
    HoldsSize(b, i, q, l, 0);
    if l != [] {
      TurnIs(b, q, i, l[0], nm, cnt);
      if !Stops(l[0], nm) {
        SearchHolds(b, q, i + l[0].Size(), l[1..], seen + {i}, nm, cnt);
      }
    }
  }

  // The queued message after a union, and after a copy.
  lemma UnionIs(b: seq<Byte>, q: nat, i: nat, m: Msg, nm: Msg, cnt: nat)
    requires |b| == QUEUE_SIZE && MSG <= cnt && q + cnt <= QUEUE_SIZE && nm == MsgOf(b[q..q + cnt])
    requires i + m.Size() <= q && m == MsgOf(b[i..i + m.Size()])
    ensures MsgOf(PutOver(b, i + 8, UnionBytes(b, q, i))[i..i + m.Size()]) == m.(r := Union(nm.r, m.r))
  {
    hide Word, UnionBytes, Union, PutOver;
    var n, d := m.Size(), UnionBytes(b, q, i);
    var s, t, u := PutOver(b, i + 8, d)[i..i + n], b[i..i + n], b[q..q + cnt];
    RectWords(b, i, t);
    RectWords(b, q, u);
    OverSlice(b, i, n, 8, d);
    OtherRect(t, d);
    assert s[8..16] == d;
    UnionWords(b, q, i, s);
  }

  lemma OverSlice(b: seq<Byte>, i: nat, n: nat, j: nat, d: seq<Byte>)
    requires j + |d| <= n && i + n <= |b|
    ensures PutOver(b, i + j, d)[i..i + n] == PutOver(b[i..i + n], j, d)
  {
  }

  lemma OtherRect(t: seq<Byte>, d: seq<Byte>)
    requires MSG <= |t| && |d| == 8
    ensures var s := PutOver(t, 8, d); MsgOf(s) == MsgOf(t).(r := Rect(Word(s, 8), Word(s, 10), Word(s, 12), Word(s, 14)))
  {
    hide Word;
    var s := PutOver(t, 8, d);
    WordAs(t, 0, s, 0);
    WordAs(t, 4, s, 4);
    WordAs(t, 6, s, 6);
    assert s[MSG..] == t[MSG..];
  }

  lemma RectWords(b: seq<Byte>, i: nat, s: seq<Byte>)
    requires MSG <= |s| && i + |s| <= |b| && s == b[i..i + |s|]
    ensures Word(b, i + 8) == Word(s, 8) && Word(b, i + 10) == Word(s, 10)
    ensures Word(b, i + 12) == Word(s, 12) && Word(b, i + 14) == Word(s, 14)
  {
    WordAs(b, i + 8, s, 8);
    WordAs(b, i + 10, s, 10);
    WordAs(b, i + 12, s, 12);
    WordAs(b, i + 14, s, 14);
  }

  lemma UnionWords(b: seq<Byte>, q: nat, i: nat, s: seq<Byte>)
    requires q + MSG <= |b| && i + MSG <= |b| && MSG <= |s| && s[8..16] == UnionBytes(b, q, i)
    ensures var p, r := Rect(Word(b, q + 8), Word(b, q + 10), Word(b, q + 12), Word(b, q + 14)),
                        Rect(Word(b, i + 8), Word(b, i + 10), Word(b, i + 12), Word(b, i + 14));
            Rect(Word(s, 8), Word(s, 10), Word(s, 12), Word(s, 14)) == Union(p, r)
  {
    hide Word, WordBytes, Wrap16;
    var d := UnionBytes(b, q, i);
    var tx, ty := Min(Word(b, q + 8), Word(b, i + 8)), Min(Word(b, q + 10), Word(b, i + 10));
    var tw := Max(Wrap16(Word(b, q + 8) + Word(b, q + 12)), Wrap16(Word(b, i + 8) + Word(b, i + 12)));
    var th := Max(Wrap16(Word(b, q + 10) + Word(b, q + 14)), Wrap16(Word(b, i + 10) + Word(b, i + 14)));
    assert d == WordBytes(tx) + WordBytes(ty) + WordBytes(tw - tx) + WordBytes(th - ty);
    WordPut(s, 8, d, 0, tx);
    WordPut(s, 8, d, 2, ty);
    WordPut(s, 8, d, 4, tw - tx);
    WordPut(s, 8, d, 6, th - ty);
  }

  lemma WordPut(s: seq<Byte>, i: nat, d: seq<Byte>, j: nat, w: int)
    requires i + |d| <= |s| && s[i..i + |d|] == d && j + 2 <= |d| && d[j..j + 2] == WordBytes(w)
    ensures Word(s, i + j) == Wrap16(w)
  {
    WordBack(w);
    assert s[i + j] == s[i..i + |d|][j] && s[i + j + 1] == s[i..i + |d|][j + 1];
    assert d[j] == d[j..j + 2][0] && d[j + 1] == d[j..j + 2][1];
    WordAs(WordBytes(w), 0, s, i + j);
  }

  lemma CopyIs(b: seq<Byte>, q: nat, i: nat, m: Msg, nm: Msg, cnt: nat)
    requires |b| == QUEUE_SIZE && MSG <= cnt && q + cnt <= QUEUE_SIZE && nm == MsgOf(b[q..q + cnt])
    requires i + m.Size() <= q && m == MsgOf(b[i..i + m.Size()])
    ensures MsgOf(PutOver(b, i, b[q..q + MSG])[i..i + m.Size()]) == nm.(rest := m.rest)
  {
    hide Word, PutOver;
    var n, d, u := m.Size(), b[q..q + MSG], b[q..q + cnt];
    var t := b[i..i + n];
    OverSlice(b, i, n, 0, d);
    var s := PutOver(t, 0, d);
    assert d == u[..MSG] && s[..MSG] == d && s[MSG..] == t[MSG..];
    SameHead(s, u);
  }

  lemma SameHead(s: seq<Byte>, u: seq<Byte>)
    requires MSG <= |s| && MSG <= |u| && s[..MSG] == u[..MSG]
    ensures MsgOf(s) == MsgOf(u).(rest := s[MSG..])
  {
    assert forall k :: 0 <= k < MSG ==> s[k] == s[..MSG][k] && u[k] == u[..MSG][k];
  }

  // doq() refines Written(): in a pipe of messages that tell the truth it never leaves p_queue, it
  // always ends, and what it leaves are the messages of Written().
  lemma WriteRefines(x: Box, cnt: nat, data: nat -> Byte, l: seq<Msg>)
    requires Whole(x) && Holds(x.b, 0, x.q, l) && AllFramed(l)
    requires MSG <= cnt && Ready(x.q, true, cnt) && MsgOf(Message(cnt, data)).Framed()
    ensures var r, nm := DoqPut(x, cnt, data), MsgOf(Message(cnt, data));
            r.Did? && r.found == Merges(l, nm) && Holds(r.x.b, 0, r.x.q, Written(l, nm))
  {
    hide MsgOf, LookAt, UnionBytes, Word, MergeKind;
    var m, b, q := Message(cnt, data), PutOver(x.b, x.q, Message(cnt, data)), x.q;
    var nm, k := MsgOf(m), StopAt(l, MsgOf(m));
    assert b[q..q + cnt] == m;
    assert b[0..q] == x.b[0..q];
    HoldsSame(x.b, 0, q, l, b, 0, q);
    SearchHolds(b, q, 0, l, {}, nm, cnt);
    KindIs(b, q, cnt);
    if !Merges(l, nm) {
      SizeIs(m);
      HoldsMore(b, 0, q, l, nm);
    } else {
      HoldsSize(b, 0, q, l, k);
      MergedHolds(b, q, l, k, nm, cnt);
    }
  }

  lemma KindIs(b: seq<Byte>, q: nat, cnt: nat)
    requires MSG <= cnt && q + cnt <= |b|
    ensures MsgOf(b[q..q + cnt]).kind == Word(b, q)
  {
    WordAs(b, q, b[q..q + cnt], 0);
  }

  lemma SizeIs(s: seq<Byte>)
    requires MSG <= |s|
    ensures MsgOf(s).Size() == |s|
  {
  }

  lemma MergedHolds(b: seq<Byte>, q: nat, l: seq<Msg>, k: nat, nm: Msg, cnt: nat)
    requires |b| == QUEUE_SIZE && MSG <= cnt && q + cnt <= QUEUE_SIZE && nm == MsgOf(b[q..q + cnt])
    requires Holds(b, 0, q, l) && k < |l| && PlaceOf(l, k) + l[k].Size() <= q
    ensures var i := PlaceOf(l, k);
            && Holds(PutOver(b, i + 8, UnionBytes(b, q, i)), 0, q, l[k := l[k].(r := Union(nm.r, l[k].r))])
            && Holds(PutOver(b, i, b[q..q + MSG]), 0, q, l[k := nm.(rest := l[k].rest)])
  {
    hide MsgOf, UnionBytes, Union;
    var i, c, d := PlaceOf(l, k), PutOver(b, PlaceOf(l, k) + 8, UnionBytes(b, q, PlaceOf(l, k))), PutOver(b, PlaceOf(l, k), b[q..q + MSG]);
    HoldsSize(b, 0, q, l, k);
    UnionIs(b, q, i, l[k], nm, cnt);
    CopyIs(b, q, i, l[k], nm, cnt);
    assert c[0..0 + i] == b[0..0 + i] && d[0..0 + i] == b[0..0 + i];
    HoldsOther(b, 0, q, l, k, c, l[k].(r := Union(nm.r, l[k].r)));
    HoldsOther(b, 0, q, l, k, d, nm.(rest := l[k].rest));
  }

  // And a read of the whole first message takes just that.
  lemma ReadRefines(x: Box, l: seq<Msg>)
    requires Whole(x) && Holds(x.b, 0, x.q, l) && l != []
    ensures var r := DoqGet(x, l[0].Size());
            r.Did? && l[0].Size() == |r.got| && MsgOf(r.got) == l[0] && Holds(r.x.b, 0, r.x.q, l[1..])
  {
    hide MsgOf;
    var n, r := l[0].Size(), DoqGet(x, l[0].Size());
    HoldsSize(x.b, 0, x.q, l, 0);
    assert r.x.b[0..r.x.q] == x.b[n..x.q] && r.got == x.b[0..0 + n];
    HoldsSame(x.b, n, x.q, l[1..], r.x.b, 0, r.x.q);
  }

  // The messages' lengths stay true, unless a message of another length is copied over an arrow
  // message, of which only the first 16 bytes are replaced.
  predicate SameLength(q: seq<Msg>, nm: Msg) {
    var i := StopAt(q, nm);
    Merges(q, nm) && !(q[i].kind == WM_REDRAW && q[i].handle == nm.handle) ==> nm.extra == q[i].extra
  }

  lemma WrittenFramed(q: seq<Msg>, nm: Msg)
    requires AllFramed(q) && nm.Framed()
    ensures AllFramed(Written(q, nm)) <==> SameLength(q, nm)
  {
    var i, w := StopAt(q, nm), Written(q, nm);
    if Merges(q, nm) {
      assert w[i] == Merged(q[i], nm);
    }
  }

  // Some redraw of the window that is queued has the point in it.
  ghost predicate WillRedraw(q: seq<Msg>, handle: int, px: int, py: int) {
    exists i :: 0 <= i < |q| && q[i].kind == WM_REDRAW && q[i].handle == handle && q[i].r.Has(px, py)
  }

  // The union that a redraw is merged into fits in WORDs.
  predicate MergeFits(q: seq<Msg>, nm: Msg) {
    var i := StopAt(q, nm);
    Merges(q, nm) && q[i].kind == WM_REDRAW && q[i].handle == nm.handle ==>
      InWords(nm.r) && InWords(q[i].r) && UnionFits(nm.r, q[i].r)
  }

  // No redraw is lost as long as the union fits: every point that was to be redrawn still is, and
  // so are those of a new redraw.
  lemma RedrawsKept(q: seq<Msg>, nm: Msg, handle: int, px: int, py: int)
    requires MergeFits(q, nm)
    requires WillRedraw(q, handle, px, py) || (nm.kind == WM_REDRAW && nm.handle == handle && nm.r.Has(px, py))
    ensures WillRedraw(Written(q, nm), handle, px, py)
  {
    hide Union, UnionFits;
    var i, w := StopAt(q, nm), Written(q, nm);
    if Merges(q, nm) && q[i].kind == WM_REDRAW && q[i].handle == nm.handle {
      UnionCovers(nm.r, q[i].r);
    }
    if WillRedraw(q, handle, px, py) {
      var k :| 0 <= k < |q| && q[k].kind == WM_REDRAW && q[k].handle == handle && q[k].r.Has(px, py);
      assert w[k].kind == WM_REDRAW && w[k].handle == handle && w[k].r.Has(px, py);
    } else if Merges(q, nm) {
      assert w[i].kind == WM_REDRAW && w[i].r.Has(px, py);
    } else {
      assert w[|q|] == nm;
    }
  }

  // When it does not fit some point is lost.
  lemma RedrawLost(om: Msg, nm: Msg)
    requires om.kind == nm.kind == WM_REDRAW && om.handle == nm.handle && InWords(om.r) && InWords(nm.r)
    requires om.r.Solid() && nm.r.Solid() && !UnionFits(nm.r, om.r)
    ensures exists px: int, py: int ::
      (WillRedraw([om], nm.handle, px, py) || nm.r.Has(px, py)) && !WillRedraw(Written([om], nm), nm.handle, px, py)
  {
    hide Union, UnionFits;
    UnionCovers(nm.r, om.r);
    var px: int, py: int :| (nm.r.Has(px, py) || om.r.Has(px, py)) && !Union(nm.r, om.r).Has(px, py);
    assert Stops([om][0], nm) && StopAt([om], nm) == 0;
    assert Written([om], nm) == [om.(r := Union(nm.r, om.r))];
    assert om.r.Has(px, py) ==> WillRedraw([om], nm.handle, px, py) by { assert [om][0] == om; }
    assert !WillRedraw(Written([om], nm), nm.handle, px, py);
  }

  // The new message itself is in the queue afterwards unless the search stopped at a redraw of its
  // window, which then grows by the last four words of the message, whatever they mean.
  lemma Swallowed(q: seq<Msg>, nm: Msg)
    ensures var i := StopAt(q, nm);
            if Merges(q, nm) && q[i].kind == WM_REDRAW && q[i].handle == nm.handle
            then Written(q, nm) == q[i := q[i].(r := Union(nm.r, q[i].r))]
            else if Merges(q, nm) then nm.(rest := q[i].rest) in Written(q, nm)
            else nm in Written(q, nm)
  {
    hide Union;
    var i := StopAt(q, nm);
    if Merges(q, nm) {
      assert Written(q, nm)[i] == Merged(q[i], nm);
    } else {
      assert Written(q, nm)[|q|] == nm;
    }
  }

  // The other messages, and their order, stay; only an arrow message can be replaced.
  lemma OthersStay(q: seq<Msg>, nm: Msg, k: nat)
    requires k < |q|
    ensures k < |Written(q, nm)| <= |q| + 1
    ensures Written(q, nm)[k] != q[k] ==>
      Merges(q, nm) && k == StopAt(q, nm) && (q[k].kind == WM_ARROWED || (q[k].kind == WM_REDRAW && q[k].handle == nm.handle))
  {
  }

  // A slider message for a window with a redraw queued gets lost: the application never sees it.
  lemma SliderLost(q: seq<Msg>, nm: Msg, om: Msg)
    requires nm.kind == WM_VSLID && om.kind == WM_REDRAW && om.handle == nm.handle
    ensures nm !in Written([om], nm)
  {
    assert Stops([om][0], nm);
    assert StopAt([om], nm) == 0;
  }
}

// The bytes of a process's message pipe (doq() in aes/gemqueue.c).  A message is any bytes that an
// application hands over: its words are looked at, not checked.
module PipeBytes {
  import opened Bounds
  import opened Bytes
  import opened PipeLine

  const WM_REDRAW := 20
  const WM_ARROWED := 24
  const WM_HSLID := 25
  const WM_VSLID := 26

  // p_queue, all of it, and p_qindex.
  datatype Box = Box(b: seq<Byte>, q: int)

  predicate Whole(x: Box) {
    |x.b| == QUEUE_SIZE && InBuffer(x.q)
  }

  // n bytes at a place lie in p_queue.
  predicate Inside(i: int, n: nat) {
    0 <= i && i + n <= QUEUE_SIZE
  }

  predicate MergeKind(kind: int) {
    kind == WM_REDRAW || kind == WM_ARROWED || kind == WM_HSLID || kind == WM_VSLID
  }

  // One turn of the search, for a new message at q and the queued one at i: it goes on to another
  // place, ends here, or looks beyond p_queue.
  datatype Turn = Go(next: int) | Union | Copy | Out

  function LookAt(b: seq<Byte>, q: nat, i: nat): (t: Turn)
    requires |b| == QUEUE_SIZE
    ensures t == Union || t == Copy ==> Inside(q, MSG) && Inside(i, MSG)
  {
    if !Inside(i, 2) then Out
    else if Word(b, i) == WM_REDRAW && !(Inside(q + 6, 2) && Inside(i + 6, 2)) then Out
    else if Word(b, i) == WM_REDRAW && Word(b, q + 6) == Word(b, i + 6) then
      if Inside(q, MSG) && Inside(i, MSG) then Union else Out
    else if Word(b, i) == WM_ARROWED then if Inside(q, MSG) && Inside(i, MSG) then Copy else Out
    else if !Inside(i + 4, 2) then Out
    else Go(Wrap16(i + Word(b, i + 4) + MSG))
  }

  // How the search ends, if it does.
  datatype Found = NoMatch | UnionAt(i: nat) | CopyAt(i: nat) | Outside | Endless

  // seen are the places it has come by; at one of them again it would go round for ever.
  function Search(b: seq<Byte>, q: nat, i: int, seen: set<int>): (f: Found)
    requires |b| == QUEUE_SIZE && q <= QUEUE_SIZE
    ensures f.UnionAt? || f.CopyAt? ==> f.i < q && Inside(q, MSG) && Inside(f.i, MSG)
    decreases Places() - seen
  {
    if i >= q then NoMatch
    else if i < 0 then Outside
    else if i in seen then Endless
    else
      match LookAt(b, q, i)
      case Go(next) => assert Place(i); Search(b, q, next, seen + {i})
      case Union => UnionAt(i)
      case Copy => CopyAt(i)
      case Out => Outside
  }

  predicate Place(i: int) {
    0 <= i < QUEUE_SIZE
  }

  function Places(): set<int> {
    set i | Place(i) && 0 <= i < QUEUE_SIZE
  }

  // The last four words of the queued message after rc_union(), which computes in WORDs.
  function UnionBytes(b: seq<Byte>, q: nat, i: nat): (s: seq<Byte>)
    requires q + MSG <= |b| && i + MSG <= |b|
    ensures |s| == 8
  {
    var tx, ty := Min(Word(b, q + 8), Word(b, i + 8)), Min(Word(b, q + 10), Word(b, i + 10));
    var tw := Max(Wrap16(Word(b, q + 8) + Word(b, q + 12)), Wrap16(Word(b, i + 8) + Word(b, i + 12)));
    var th := Max(Wrap16(Word(b, q + 10) + Word(b, q + 14)), Wrap16(Word(b, i + 10) + Word(b, i + 14)));
    WordBytes(tx) + WordBytes(ty) + WordBytes(tw - tx) + WordBytes(th - ty)
  }

  // The bytes at the address that a process hands over.
  function Message(cnt: nat, data: nat -> Byte): (m: seq<Byte>)
    ensures |m| == cnt
  {
    seq(cnt, i requires 0 <= i < cnt => data(i))
  }

  // What one doq() does: the pipe afterwards, whether the message was merged, and what was read; or
  // it leaves p_queue, or never ends.
  datatype Doing = Did(x: Box, found: bool, got: seq<Byte>) | Leaves | Hangs

  // The new message is merged or stays, where the search ended.
  function Ended(b: seq<Byte>, q: nat, cnt: nat, f: Found): Doing
    requires |b| == QUEUE_SIZE && q + cnt <= QUEUE_SIZE
    requires f.UnionAt? || f.CopyAt? ==> Inside(q, MSG) && Inside(f.i, MSG)
  {
    match f
    case NoMatch => Did(Box(b, q + cnt), false, [])
    case UnionAt(i) => Did(Box(PutOver(b, i + 8, UnionBytes(b, q, i)), q), true, [])
    case CopyAt(i) => Did(Box(PutOver(b, i, b[q..q + MSG]), q), true, [])
    case Outside => Leaves
    case Endless => Hangs
  }

  // doq() with donq set, and clear.
  function DoqPut(x: Box, cnt: int, data: nat -> Byte): Doing
    requires Whole(x)
  {
    if !(0 <= cnt && Inside(x.q, cnt) && Inside(x.q, 2)) then Leaves
    else
      var b := PutOver(x.b, x.q, Message(cnt, data));
      Ended(b, x.q, cnt, if MergeKind(Word(b, x.q)) && cnt > 0 then Search(b, x.q, 0, {}) else NoMatch)
  }

  function DoqGet(x: Box, cnt: int): Doing
    requires Whole(x)
  {
    if 0 <= cnt <= x.q then Did(Box(x.b[cnt..x.q] + x.b[x.q - cnt..], x.q - cnt), false, x.b[..cnt]) else Leaves
  }

  function DoqDoes(x: Box, donq: bool, cnt: int, data: nat -> Byte): Doing
    requires Whole(x)
  {
    if donq then DoqPut(x, cnt, data) else DoqGet(x, cnt)
  }

  // doq().  The search would not end where it comes to a place again; it stops there.
  method Doq(x: Box, donq: bool, cnt: int, data: nat -> Byte) returns (r: Doing)
    requires Whole(x)
    ensures r == DoqDoes(x, donq, cnt, data)
  {
    hide LookAt, Word, UnionBytes, Message, MergeKind;
    var q: nat := x.q;
    if donq {
      if !(0 <= cnt && Inside(q, cnt) && Inside(q, 2)) {
        return Leaves;
      }
      var b, n := PutOver(x.b, q, Message(cnt, data)), cnt;
      if MergeKind(Word(b, q)) {
        var index, seen: set<int> := 0, {};
        ghost var b0 := b;
        while index < q && n != 0
          invariant |b| == QUEUE_SIZE && (n != 0 ==> n == cnt && b == b0)
          invariant n != 0 ==> Search(b0, q, 0, {}) == Search(b0, q, index, seen)
          invariant n == 0 ==> if cnt == 0 then b == b0 else DoqPut(x, cnt, data) == Did(Box(b, q), true, [])
          decreases n, Places() - seen
        {
          if index < 0 {
            return Leaves;
          }
          if index in seen {
            return Hangs;
          }
          assert Place(index);
          match LookAt(b, q, index)
          case Go(next) =>
            seen := seen + {index};
            index := next;
          case Union =>
            b := PutOver(b, index + 8, UnionBytes(b, q, index));
            n := 0;
          case Copy =>
            b := PutOver(b, index, b[q..q + MSG]);
            n := 0;
          case Out =>
            return Leaves;
        }
        return Did(Box(b, q + n), cnt != 0 && n == 0, []);
      }
      return Did(Box(b, q + n), false, []);
    }
    r := DoqGet(x, cnt);
  }

  // The places the search comes by, one after the other; it stays at the last.
  ghost function Index(b: seq<Byte>, q: nat, k: nat): int
    requires |b| == QUEUE_SIZE && q <= QUEUE_SIZE
  {
    if k == 0 then 0
    else
      var i := Index(b, q, k - 1);
      if Goes(b, q, i) then LookAt(b, q, i).next else i
  }

  predicate Goes(b: seq<Byte>, q: nat, i: int)
    requires |b| == QUEUE_SIZE && q <= QUEUE_SIZE
  {
    0 <= i < q && LookAt(b, q, i).Go?
  }

  // It ends there: past the last message, or at one to merge with.
  predicate EndsAt(b: seq<Byte>, q: nat, i: int)
    requires |b| == QUEUE_SIZE && q <= QUEUE_SIZE
  {
    i >= q || (0 <= i && (LookAt(b, q, i) == Union || LookAt(b, q, i) == Copy))
  }

  // It looks beyond p_queue there.
  predicate LeavesAt(b: seq<Byte>, q: nat, i: int)
    requires |b| == QUEUE_SIZE && q <= QUEUE_SIZE
  {
    i < 0 || (i < q && LookAt(b, q, i) == Out)
  }

  lemma {:induction false} StaysThere(b: seq<Byte>, q: nat, k: nat, l: nat)
    requires |b| == QUEUE_SIZE && q <= QUEUE_SIZE && k <= l && !Goes(b, q, Index(b, q, k))
    ensures Index(b, q, l) == Index(b, q, k)
  {
    if k < l {
      StaysThere(b, q, k, l - 1);
    }
  }

  // Once round, always round.
  lemma {:induction false} GoesRound(b: seq<Byte>, q: nat, k: nat, l: nat, seen: set<int>)
    requires |b| == QUEUE_SIZE && q <= QUEUE_SIZE && k <= l && Index(b, q, k) in seen
    requires forall m :: m in seen ==> Goes(b, q, m) && LookAt(b, q, m).next in seen
    ensures Index(b, q, l) in seen
  {
    hide LookAt;
    if k < l {
      GoesRound(b, q, k, l - 1, seen);
    }
  }

  lemma {:induction false} SearchFrom(b: seq<Byte>, q: nat, k: nat, seen: set<int>)
    requires |b| == QUEUE_SIZE && q <= QUEUE_SIZE
    requires forall j :: 0 <= j < k ==> Goes(b, q, Index(b, q, j))
    requires forall m :: m in seen ==> Goes(b, q, m) && LookAt(b, q, m).next in seen + {Index(b, q, k)}
    ensures match Search(b, q, Index(b, q, k), seen)
            case Endless => forall j: nat :: Goes(b, q, Index(b, q, j))
            case Outside => exists j: nat :: LeavesAt(b, q, Index(b, q, j))
            case NoMatch => exists j: nat :: Index(b, q, j) >= q
            case UnionAt(i) => i < q && LookAt(b, q, i) == Union && exists j: nat :: Index(b, q, j) == i
            case CopyAt(i) => i < q && LookAt(b, q, i) == Copy && exists j: nat :: Index(b, q, j) == i
    decreases Places() - seen
  {
    hide Word, Wrap16;
    var i := Index(b, q, k);
    if 0 <= i < q && i in seen {
      forall j: nat ensures Goes(b, q, Index(b, q, j)) {
        if j >= k {
          GoesRound(b, q, k, j, seen);
        }
      }
    } else if 0 <= i < q && LookAt(b, q, i).Go? {
      assert Place(i);
      assert Index(b, q, k + 1) == LookAt(b, q, i).next;
      SearchFrom(b, q, k + 1, seen + {i});
    } else if i < 0 || (i < q && LookAt(b, q, i) == Out) {
      assert LeavesAt(b, q, Index(b, q, k));
    }
  }

  // The search of doq() ends exactly when some place it comes by is past the last message or is one
  // to merge with; it leaves p_queue exactly when it comes by a place beyond; and otherwise it goes
  // round for ever.
  lemma SearchIff(b: seq<Byte>, q: nat)
    requires |b| == QUEUE_SIZE && q <= QUEUE_SIZE
    ensures var f := Search(b, q, 0, {});
            && (f.Endless? <==> forall k: nat :: Goes(b, q, Index(b, q, k)))
            && (f.Outside? <==> exists k: nat :: LeavesAt(b, q, Index(b, q, k)))
            && (!f.Endless? && !f.Outside? <==> exists k: nat :: EndsAt(b, q, Index(b, q, k)))
  {
    SearchFrom(b, q, 0, {});
    var f := Search(b, q, 0, {});
    if j: nat :| EndsAt(b, q, Index(b, q, j)) {
      forall k: nat ensures !LeavesAt(b, q, Index(b, q, k)) {
        OneEnd(b, q, j, k);
      }
    }
  }

  lemma OneEnd(b: seq<Byte>, q: nat, j: nat, k: nat)
    requires |b| == QUEUE_SIZE && q <= QUEUE_SIZE && EndsAt(b, q, Index(b, q, j))
    ensures !LeavesAt(b, q, Index(b, q, k)) && !Goes(b, q, Index(b, q, j))
  {
    if LeavesAt(b, q, Index(b, q, k)) {
      StaysThere(b, q, if j < k then j else k, if j < k then k else j);
    }
  }

  // The exact condition for doq() to stay inside p_queue and to end, whatever is written or queued.
  lemma DoqIff(x: Box, cnt: int, data: nat -> Byte)
    requires Whole(x)
    ensures DoqGet(x, cnt).Did? <==> 0 <= cnt <= x.q
    ensures DoqPut(x, cnt, data).Did? <==>
      (0 <= cnt <= QUEUE_SIZE - x.q && x.q + 2 <= QUEUE_SIZE &&
       var b := PutOver(x.b, x.q, Message(cnt, data));
       (MergeKind(Word(b, x.q)) && cnt > 0 ==> exists k: nat :: EndsAt(b, x.q, Index(b, x.q, k))))
  {
    if 0 <= cnt <= QUEUE_SIZE - x.q {
      SearchIff(PutOver(x.b, x.q, Message(cnt, data)), x.q);
    }
  }

  // At a place that the search comes by, what it looks at and where it goes on, byte by byte.
  lemma TurnBytes(b: seq<Byte>, q: nat, k: nat)
    requires |b| == QUEUE_SIZE && q <= QUEUE_SIZE && 0 <= Index(b, q, k) < q
    ensures var i := Index(b, q, k);
            && (LookAt(b, q, i) == Union <==>
                 (i + 16 <= 128 && q + 16 <= 128 && b[i] == 0 && b[i + 1] == 20 && b[i + 6] == b[q + 6] && b[i + 7] == b[q + 7]))
            && (LookAt(b, q, i) == Copy <==> (i + 16 <= 128 && q + 16 <= 128 && b[i] == 0 && b[i + 1] == 24))
            && (Goes(b, q, i) ==>
                 (i + 6 <= 128 && -0x8000 <= Index(b, q, k + 1) < 0x8000 &&
                  (Index(b, q, k + 1) - (i + 16 + 0x100 * (b[i + 4] as int) + b[i + 5])) % 0x10000 == 0))
  {
    hide Word, Wrap16, Index;
    var i := Index(b, q, k);
    IndexNext(b, q, k);
    if i + 2 <= 128 {
      WordIs(b, i);
    }
    if i + 8 <= 128 && q + 8 <= 128 {
      SameWords(b, i + 6, q + 6);
    }
    if i + 6 <= 128 {
      WordIs(b, i + 4);
      WrapIs(i + Word(b, i + 4) + MSG);
    }
  }

  lemma SameWords(b: seq<Byte>, i: nat, j: nat)
    requires i + 2 <= |b| && j + 2 <= |b|
    ensures Word(b, i) == Word(b, j) <==> b[i] == b[j] && b[i + 1] == b[j + 1]
  {
    WordIs(b, i);
    WordIs(b, j);
  }

  lemma IndexNext(b: seq<Byte>, q: nat, k: nat)
    requires |b| == QUEUE_SIZE && q <= QUEUE_SIZE
    ensures Index(b, q, k + 1) == var i := Index(b, q, k); if Goes(b, q, i) then LookAt(b, q, i).next else i
  {
  }

  // The search ends at most at one place.
  lemma FoundOnce(b: seq<Byte>, q: nat, k: nat)
    requires |b| == QUEUE_SIZE && q <= QUEUE_SIZE
    ensures var i, f := Index(b, q, k), Search(b, q, 0, {});
            && (0 <= i < q && LookAt(b, q, i) == Union ==> f == UnionAt(i))
            && (0 <= i < q && LookAt(b, q, i) == Copy ==> f == CopyAt(i))
  {
    hide LookAt, Search, Index;
    var i, f := Index(b, q, k), Search(b, q, 0, {});
    Index0(b, q);
    SearchFrom(b, q, 0, {});
    if 0 <= i < q && (LookAt(b, q, i) == Union || LookAt(b, q, i) == Copy) {
      assert !Goes(b, q, Index(b, q, k));
      forall j: nat ensures !Goes(b, q, Index(b, q, j)) ==> Index(b, q, j) == i {
        if !Goes(b, q, Index(b, q, j)) {
          StaysThere(b, q, if j < k then j else k, if j < k then k else j);
        }
      }
    }
  }

  lemma Index0(b: seq<Byte>, q: nat)
    requires |b| == QUEUE_SIZE && q <= QUEUE_SIZE
    ensures Index(b, q, 0) == 0
  {
  }

  // A new message is merged exactly when its first word is 20, 24, 25 or 26 and the search comes by
  // an arrow message (24) or a redraw (20) with the same fourth word.
  lemma MergedIff(x: Box, cnt: int, data: nat -> Byte)
    requires Whole(x) && DoqPut(x, cnt, data).Did?
    ensures 0 <= cnt && x.q + cnt <= 128 && x.q + 2 <= 128
    ensures var r, b, q := DoqPut(x, cnt, data), PutOver(x.b, x.q, Message(cnt, data)), x.q;
            r.found <==>
            (cnt > 0 && b[q] == 0 && (b[q + 1] == 20 || b[q + 1] == 24 || b[q + 1] == 25 || b[q + 1] == 26) &&
             exists k: nat :: 0 <= Index(b, q, k) < q && Index(b, q, k) + 16 <= 128 && q + 16 <= 128 && b[Index(b, q, k)] == 0 &&
               (b[Index(b, q, k) + 1] == 24 ||
                (b[Index(b, q, k) + 1] == 20 && b[Index(b, q, k) + 6] == b[q + 6] && b[Index(b, q, k) + 7] == b[q + 7])))
  {
    hide LookAt, Search, Index, UnionBytes, Message, Word, MergeKind, PutOver, DoqPut;
    PutShape(x, cnt, data);
    var b, q := PutOver(x.b, x.q, Message(cnt, data)), x.q;
    KindBytes(b, q);
    FoundSomewhere(b, q);
  }

  // How a write that stays inside ends.
  lemma PutShape(x: Box, cnt: int, data: nat -> Byte)
    requires Whole(x) && DoqPut(x, cnt, data).Did?
    ensures 0 <= cnt && x.q + cnt <= 128 && x.q + 2 <= 128
    ensures var r, b := DoqPut(x, cnt, data), PutOver(x.b, x.q, Message(cnt, data));
            var f := Search(b, x.q, 0, {});
            if MergeKind(Word(b, x.q)) && cnt > 0 then !f.Outside? && !f.Endless? && r == Ended(b, x.q, cnt, f) && (r.found <==> f.UnionAt? || f.CopyAt?)
            else !r.found
  {
    hide LookAt, Search, Index, UnionBytes, Message, Word, MergeKind, PutOver;
  }

  // A message to merge with.
  predicate Match(b: seq<Byte>, q: nat, i: int)
    requires |b| == QUEUE_SIZE
  {
    0 <= i < q && i + 16 <= 128 && q + 16 <= 128 && b[i] == 0 &&
    (b[i + 1] == 24 || (b[i + 1] == 20 && b[i + 6] == b[q + 6] && b[i + 7] == b[q + 7]))
  }

  lemma FoundSomewhere(b: seq<Byte>, q: nat)
    requires |b| == QUEUE_SIZE && q <= QUEUE_SIZE
    ensures var f := Search(b, q, 0, {});
            !f.Outside? && !f.Endless? ==> (f.UnionAt? || f.CopyAt? <==> exists k: nat :: Match(b, q, Index(b, q, k)))
  {
    hide LookAt, Search, Index;
    var f := Search(b, q, 0, {});
    SearchFrom(b, q, 0, {});
    Index0(b, q);
    if f.UnionAt? || f.CopyAt? {
      var k: nat :| Index(b, q, k) == f.i;
      TurnBytes(b, q, k);
      assert Match(b, q, Index(b, q, k));
    } else if k: nat :| Match(b, q, Index(b, q, k)) {
      TurnBytes(b, q, k);
      FoundOnce(b, q, k);
    }
  }

  lemma KindBytes(b: seq<Byte>, q: nat)
    requires q + 2 <= |b|
    ensures MergeKind(Word(b, q)) <==>
      (b[q] == 0 && (b[q + 1] == 20 || b[q + 1] == 24 || b[q + 1] == 25 || b[q + 1] == 26))
  {
  }

  // Merged at that place: an arrow message is replaced by the 16 bytes of the new one, of a redraw
  // the first 8 bytes stay; no byte outside those 16 is changed, and nothing is appended.
  lemma MergedThere(x: Box, cnt: int, data: nat -> Byte, k: nat)
    requires Whole(x) && DoqPut(x, cnt, data).Did? && DoqPut(x, cnt, data).found
    ensures 0 <= cnt && x.q + cnt <= 128
    ensures var r, b, q := DoqPut(x, cnt, data), PutOver(x.b, x.q, Message(cnt, data)), x.q;
            var i := Index(b, q, k);
            && r.x.q == q && |r.x.b| == 128
            && (0 <= i < q && !Goes(b, q, i) ==>
                 (i + 16 <= 128 && q + 16 <= 128 && (b[i + 1] == 20 || b[i + 1] == 24) &&
                  (b[i + 1] == 24 ==> r.x.b[i..i + 16] == b[q..q + 16]) &&
                  forall j :: 0 <= j < 128 && (j < i || i + 16 <= j || (b[i + 1] == 20 && j < i + 8)) ==> r.x.b[j] == b[j]))
  {
    hide Search, Index, UnionBytes, Message, Word, LookAt, MergeKind, PutOver, DoqPut;
    PutShape(x, cnt, data);
    var r, b, q := DoqPut(x, cnt, data), PutOver(x.b, x.q, Message(cnt, data)), x.q;
    var i := Index(b, q, k);
    var f := Search(b, q, 0, {});
    Overlaid(b, q, f);
    if 0 <= i < q && !Goes(b, q, i) {
      SearchFrom(b, q, 0, {});
      Index0(b, q);
      var j: nat :| Index(b, q, j) == f.i;
      StaysThere(b, q, if j < k then j else k, if j < k then k else j);
      TurnBytes(b, q, k);
    }
  }

  lemma Overlaid(b: seq<Byte>, q: nat, f: Found)
    requires |b| == QUEUE_SIZE && q <= QUEUE_SIZE && (f.UnionAt? || f.CopyAt? ==> Inside(q, MSG) && Inside(f.i, MSG))
    ensures f.UnionAt? ==> (var c := PutOver(b, f.i + 8, UnionBytes(b, q, f.i));
                            |c| == 128 && forall j :: 0 <= j < 128 && (j < f.i + 8 || f.i + 16 <= j) ==> c[j] == b[j])
    ensures f.CopyAt? ==> (var c := PutOver(b, f.i, b[q..q + MSG]);
                           |c| == 128 && c[f.i..f.i + 16] == b[q..q + 16] &&
                           forall j :: 0 <= j < 128 && (j < f.i || f.i + 16 <= j) ==> c[j] == b[j])
  {
    hide UnionBytes;
  }

  // The bytes queued.
  function Content(x: Box): seq<Byte>
    requires Whole(x)
  {
    x.b[..x.q]
  }

  // First in, first out: what is read are the bytes at the front, and a message that is not merged
  // follows those that are there.
  lemma InOrder(x: Box, cnt: int, data: nat -> Byte)
    requires Whole(x)
    ensures var r := DoqGet(x, cnt); r.Did? ==> Whole(r.x) && r.got + Content(r.x) == Content(x) && |r.got| == cnt
    ensures var r := DoqPut(x, cnt, data);
            r.Did? && !r.found ==> Whole(r.x) && Content(r.x) == Content(x) + Message(cnt, data)
    ensures var r := DoqPut(x, cnt, data); r.Did? && r.found ==> Whole(r.x) && |Content(r.x)| == |Content(x)|
  {
    if 0 <= cnt <= x.q {
      var r := DoqGet(x, cnt);
      assert Content(r.x) == x.b[cnt..x.q];
      assert x.b[..x.q] == x.b[..cnt] + x.b[cnt..x.q];
    }
  }

  // The search moves on, or has come to its end.
  ghost predicate MovesOn(b: seq<Byte>, q: nat, k: nat)
    requires |b| == QUEUE_SIZE && q <= QUEUE_SIZE
  {
    Goes(b, q, Index(b, q, k)) ==> Index(b, q, k + 1) > Index(b, q, k)
  }

  // A search that only moves on does end.
  lemma ForwardEnds(b: seq<Byte>, q: nat)
    requires |b| == QUEUE_SIZE && q <= QUEUE_SIZE && forall k: nat :: MovesOn(b, q, k)
    ensures !Search(b, q, 0, {}).Endless?
  {
    hide Index, LookAt, MovesOn;
    SearchIff(b, q);
    if Search(b, q, 0, {}).Endless? {
      Beyond(b, q, q);
      assert Goes(b, q, Index(b, q, q));
    }
  }

  lemma {:induction false} Beyond(b: seq<Byte>, q: nat, k: nat)
    requires |b| == QUEUE_SIZE && q <= QUEUE_SIZE
    requires forall k: nat :: Goes(b, q, Index(b, q, k)) && MovesOn(b, q, k)
    ensures Index(b, q, k) >= k
  {
    hide LookAt, Goes;
    if k > 0 {
      Beyond(b, q, k - 1);
      assert Goes(b, q, Index(b, q, k - 1)) && MovesOn(b, q, k - 1);
    }
  }

  // But one that moves back may end as well: the places may come in the order 0, 32, 16, 64.
  lemma BackAndOut(b: seq<Byte>)
    requires |b| == QUEUE_SIZE && Word(b, 4) == 16 && Word(b, 36) == -32 && Word(b, 20) == 32
    requires forall i {:trigger b[i]} :: i == 0 || i == 16 || i == 32 ==> Word(b, i) != WM_REDRAW && Word(b, i) != WM_ARROWED
    ensures Search(b, 48, 0, {}) == NoMatch && Index(b, 48, 1) == 32 && Index(b, 48, 2) == 16
  {
    assert LookAt(b, 48, 0) == Go(32) && LookAt(b, 48, 32) == Go(16) && LookAt(b, 48, 16) == Go(64);
    assert Search(b, 48, 16, {} + {0} + {32}) == Search(b, 48, 64, {} + {0} + {32} + {16});
    assert Search(b, 48, 32, {} + {0}) == Search(b, 48, 16, {} + {0} + {32});
    assert Index(b, 48, 1) == 32;
  }

  // A message that is to be merged though fewer than 16 bytes are left for it, here with an arrow
  // message in front, and one of no bytes for a full pipe: aqueue() lets both in, and doq() looks
  // beyond p_queue.
  lemma TooShort(x: Box, cnt: int, data: nat -> Byte)
    requires Whole(x) && x.q > QUEUE_SIZE - MSG && Word(x.b, 0) == WM_ARROWED && cnt >= 2
    requires data(0) == 0 && data(1) == WM_ARROWED
    ensures Ready(x.q, true, cnt) ==> DoqPut(x, cnt, data) == Leaves
  {
    if Ready(x.q, true, cnt) {
      var b := PutOver(x.b, x.q, Message(cnt, data));
      assert Word(b, x.q) == WM_ARROWED && Word(b, 0) == WM_ARROWED;
      assert LookAt(b, x.q, 0) == Out;
    }
  }

  lemma FullPipe(x: Box, data: nat -> Byte)
    requires Whole(x) && x.q == QUEUE_SIZE
    ensures Ready(x.q, true, 0) && DoqPut(x, 0, data) == Leaves
  {
  }

  // Messages of 16 bytes are not safe by themselves: behind one that says it is -16 bytes longer a
  // redraw is searched for ever, and behind one of -32 bytes before the start of p_queue.
  lemma FalseLength(x: Box, data: nat -> Byte)
    requires Whole(x) && MSG <= x.q <= QUEUE_SIZE - MSG && Word(x.b, 0) != WM_REDRAW && Word(x.b, 0) != WM_ARROWED
    requires data(0) == 0 && data(1) == WM_REDRAW
    ensures Ready(x.q, true, MSG)
    ensures Word(x.b, 4) == -16 ==> DoqPut(x, MSG, data) == Hangs
    ensures Word(x.b, 4) == -32 ==> DoqPut(x, MSG, data) == Leaves
  {
    var b := PutOver(x.b, x.q, Message(MSG, data));
    assert Word(b, x.q) == WM_REDRAW && Word(b, 0) == Word(x.b, 0) && Word(b, 4) == Word(x.b, 4);
    if Word(x.b, 4) == -16 {
      assert LookAt(b, x.q, 0) == Go(0);
    }
    if Word(x.b, 4) == -32 {
      assert LookAt(b, x.q, 0) == Go(-16);
    }
  }

  // A pipe of messages of 16 bytes that say so.
  ghost predicate Plain(x: Box) {
    Whole(x) && x.q % MSG == 0 && forall k: nat {:trigger NoMore(x.b, MSG * k)} :: MSG * k < x.q ==> NoMore(x.b, MSG * k)
  }

  // The third word of the message there is 0.
  predicate NoMore(b: seq<Byte>, i: int) {
    0 <= i && i + 6 <= |b| && Word(b, i + 4) == 0
  }

  predicate PlainMessage(data: nat -> Byte) {
    data(4) == 0 && data(5) == 0
  }

  // What doq() does to the counts.
  lemma DoqCounts(x: Box, donq: bool, cnt: int, data: nat -> Byte)
    requires Whole(x)
    ensures var r := DoqDoes(x, donq, cnt, data);
            r.Did? ==>
              (Whole(r.x) && DoqSafe(x.q, donq, cnt, r.found) && r.x.q == AfterDoq(x.q, donq, cnt, r.found) && (r.found ==> donq && x.q > 0) &&
               r.got == if donq then [] else x.b[..cnt])
  {
    hide Word, LookAt, UnionBytes, MergeKind;
  }

  // aqueue() when it goes ahead: doq() for the caller, and for the process that waits for the
  // opposite, if there is one.
  function Passage(x: Box, isqwrite: bool, cnt: int, data: nat -> Byte, waiting: bool, cnt2: int, data2: nat -> Byte): Doing
    requires Whole(x)
  {
    var r := DoqDoes(x, isqwrite, cnt, data);
    if !r.Did? || !waiting then r
    else
      DoqCounts(x, isqwrite, cnt, data);
      match DoqDoes(r.x, !isqwrite, cnt2, data2)
      case Did(x2, found2, got2) => Did(x2, r.found || found2, r.got + got2)
      case Leaves => Leaves
      case Hangs => Hangs
  }

  // The state of a pipe after a message was written or read.
  function Passed(l: Line, isqwrite: bool, cnt: int, found: bool): Line {
    if isqwrite then Wrote(l, cnt, found) else Took(l, cnt, found)
  }

  predicate PassSafe(l: Line, isqwrite: bool, cnt: int, found: bool) {
    if isqwrite then WriteSafe(l, cnt, found) else ReadSafe(l, cnt, found)
  }

  // It takes the step of PipeLine.
  lemma PassageCounts(x: Box, l: Line, isqwrite: bool, cnt: int, data: nat -> Byte, data2: nat -> Byte)
    requires Whole(x) && l.q == x.q && Ready(l.q, isqwrite, cnt)
    ensures var w := if isqwrite then l.readers else l.writers;
            var r := Passage(x, isqwrite, cnt, data, w != [], if w == [] then 0 else w[0], data2);
            r.Did? ==> Whole(r.x) && PassSafe(l, isqwrite, cnt, r.found) && r.x.q == Passed(l, isqwrite, cnt, r.found).q
  {
    hide DoqDoes;
    DoqCounts(x, isqwrite, cnt, data);
    var w, r := if isqwrite then l.readers else l.writers, DoqDoes(x, isqwrite, cnt, data);
    if r.Did? && w != [] {
      DoqCounts(r.x, !isqwrite, w[0], data2);
    }
  }

  lemma {:induction false} PlainSearch(b: seq<Byte>, q: nat, k: nat, seen: set<int>)
    requires |b| == QUEUE_SIZE && q % MSG == 0 && q + MSG <= QUEUE_SIZE && MSG * k <= q && forall m :: m in seen ==> m < MSG * k
    requires forall j: nat {:trigger NoMore(b, MSG * j)} :: MSG * j < q ==> NoMore(b, MSG * j)
    ensures var f := Search(b, q, MSG * k, seen); f == NoMatch || ((f.UnionAt? || f.CopyAt?) && f.i % MSG == 0)
    decreases q - MSG * k
  {
    hide Word;
    if MSG * k < q {
      assert NoMore(b, MSG * k);
      var i := MSG * k;
      assert LookAt(b, q, i) == Go(MSG * (k + 1)) || LookAt(b, q, i) == Union || LookAt(b, q, i) == Copy;
      PlainSearch(b, q, k + 1, seen + {i});
    }
  }

  // Messages of 16 bytes that say so are written and read without any harm, and leave a pipe of such.
  lemma PlainPut(x: Box, data: nat -> Byte)
    requires Plain(x) && PlainMessage(data) && Ready(x.q, true, MSG)
    ensures var r := DoqPut(x, MSG, data); r.Did? && Plain(r.x)
  {
    hide LookAt, UnionBytes, MergeKind, NoMore, Ended;
    var b, r, d := PutOver(x.b, x.q, Message(MSG, data)), DoqPut(x, MSG, data), x.q / MSG;
    NewThird(b, x.q, data);
    forall k: nat | MSG * k <= x.q ensures NoMore(b, MSG * k) {
      if MSG * k < x.q {
        SameThird(x.b, MSG * k, b, MSG * k);
      }
    }
    PlainSearch(b, x.q, 0, {});
    var f := if MergeKind(Word(b, x.q)) then Search(b, x.q, 0, {}) else NoMatch;
    EndedThirds(b, x.q, d, f);
  }

  lemma NewThird(b: seq<Byte>, q: nat, data: nat -> Byte)
    requires q + MSG <= |b| && b[q..q + MSG] == Message(MSG, data) && PlainMessage(data)
    ensures NoMore(b, q)
  {
    assert b[q + 4] == b[q..q + MSG][4] && b[q + 5] == b[q..q + MSG][5];
  }

  lemma SameThird(b: seq<Byte>, i: nat, c: seq<Byte>, j: nat)
    requires NoMore(b, i) && j + 6 <= |c| && c[j + 4] == b[i + 4] && c[j + 5] == b[i + 5]
    ensures NoMore(c, j)
  {
    WordAs(b, i + 4, c, j + 4);
  }

  // The third words of the messages are kept, or that of the new one is put in place of another.
  lemma EndedThirds(b: seq<Byte>, q: nat, d: nat, f: Found)
    requires |b| == QUEUE_SIZE && q == MSG * d && q + MSG <= QUEUE_SIZE && forall k: nat :: k <= d ==> NoMore(b, MSG * k)
    requires f == NoMatch || ((f.UnionAt? || f.CopyAt?) && f.i % MSG == 0 && f.i < q && Inside(f.i, MSG))
    ensures var r := Ended(b, q, MSG, f); r.Did? && Plain(r.x)
  {
    hide UnionBytes, NoMore;
    var r := Ended(b, q, MSG, f);
    var a := if f == NoMatch then 0 else f.i / MSG;
    assert f != NoMatch ==> f.i == MSG * a;
    forall k: nat | k <= d ensures NoMore(r.x.b, MSG * k) {
      EndedThird(b, q, f, a, d, k);
    }
  }

  lemma EndedThird(b: seq<Byte>, q: nat, f: Found, a: nat, d: nat, k: nat)
    requires |b| == QUEUE_SIZE && q == MSG * d && q + MSG <= QUEUE_SIZE && k <= d
    requires f == NoMatch || ((f.UnionAt? || f.CopyAt?) && f.i == MSG * a && f.i < q && Inside(f.i, MSG))
    requires NoMore(b, MSG * k) && NoMore(b, q)
    ensures NoMore(Ended(b, q, MSG, f).x.b, MSG * k)
  {
    hide UnionBytes, NoMore;
    var c := Ended(b, q, MSG, f).x.b;
    if f.CopyAt? && a == k {
      assert c[MSG * k + 4] == b[q..q + MSG][4] && c[MSG * k + 5] == b[q..q + MSG][5];
      SameThird(b, q, c, MSG * k);
    } else {
      SameThird(b, MSG * k, c, MSG * k);
    }
  }

  lemma WordAs(b: seq<Byte>, i: nat, c: seq<Byte>, j: nat)
    requires i + 2 <= |b| && j + 2 <= |c| && b[i] == c[j] && b[i + 1] == c[j + 1]
    ensures Word(b, i) == Word(c, j)
  {
  }

  lemma PlainGet(x: Box, cnt: int)
    requires Plain(x) && 0 <= cnt <= x.q && cnt % MSG == 0
    ensures var r := DoqGet(x, cnt); r.Did? && Plain(r.x)
  {
    hide NoMore;
    var r, d := DoqGet(x, cnt), cnt / MSG;
    assert cnt == MSG * d;
    forall k: nat | MSG * k < r.x.q ensures NoMore(r.x.b, MSG * k) {
      Shifted(x, d, k);
    }
  }

  lemma Shifted(x: Box, d: nat, k: nat)
    requires Plain(x) && MSG * d + MSG * k < x.q
    ensures NoMore(x.b[MSG * d..x.q] + x.b[x.q - MSG * d..], MSG * k)
  {
    hide NoMore;
    var c := x.b[MSG * d..x.q] + x.b[x.q - MSG * d..];
    assert MSG * (k + d) == MSG * k + MSG * d;
    assert NoMore(x.b, MSG * (k + d));
    SameThird(x.b, MSG * (k + d), c, MSG * k);
  }

  lemma PlainPassage(x: Box, isqwrite: bool, cnt: int, data: nat -> Byte, waiting: bool, cnt2: int, data2: nat -> Byte)
    requires Plain(x) && Ready(x.q, isqwrite, cnt) && UsualCount(x.q, isqwrite, cnt) && (isqwrite ==> PlainMessage(data))
    requires waiting ==> cnt2 == MSG && (if isqwrite then x.q == 0 else PlainMessage(data2))
    ensures var r := Passage(x, isqwrite, cnt, data, waiting, cnt2, data2); r.Did? && Plain(r.x)
  {
    hide Plain, DoqPut, DoqGet;
    PlainIs(x);
    DoqCounts(x, isqwrite, cnt, data);
    var r := DoqDoes(x, isqwrite, cnt, data);
    if isqwrite {
      PlainPut(x, data);
      if waiting {
        PlainGet(r.x, cnt2);
      }
    } else {
      PlainGet(x, cnt);
      if waiting {
        PlainPut(r.x, data2);
      }
    }
  }

  lemma PlainIs(x: Box)
    requires Plain(x)
    ensures Whole(x) && x.q % MSG == 0
  {
  }
}

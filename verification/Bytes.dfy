// Bytes, and the signed words the 68000 makes of two of them.
module Bytes {
  type Byte = x: int | 0 <= x < 256

  predicate IsWord(w: int) {
    -0x8000 <= w < 0x8000
  }

  // What is left of a number in a WORD.
  function Wrap16(w: int): (r: int)
    ensures IsWord(r) && (IsWord(w) ==> r == w)
  {
    (w + 0x8000) % 0x10000 - 0x8000
  }

  // The word at a place.
  function Word(b: seq<Byte>, i: nat): (w: int)
    requires i + 2 <= |b|
    ensures IsWord(w)
  {
    var high: int := b[i];
    Wrap16(high * 0x100 + b[i + 1])
  }

  // The bytes of a word, the high one first.
  function WordBytes(w: int): (s: seq<Byte>)
    ensures |s| == 2
  {
    var u := w % 0x10000;
    [u / 0x100, u % 0x100]
  }

  lemma WrapIs(w: int)
    ensures -0x8000 <= Wrap16(w) < 0x8000 && (w - Wrap16(w)) % 0x10000 == 0
  {
  }

  // The high byte first, and negative from 0x8000 on.
  lemma WordIs(b: seq<Byte>, i: nat)
    requires i + 2 <= |b|
    ensures Word(b, i) == 0x100 * (b[i] as int) + b[i + 1] - if b[i] < 0x80 then 0 else 0x10000
  {
  }

  lemma WordBack(w: int)
    ensures Word(WordBytes(w), 0) == Wrap16(w)
  {
  }

  // Bytes put over others.
  function PutOver(b: seq<Byte>, i: nat, s: seq<Byte>): (r: seq<Byte>)
    requires i + |s| <= |b|
    ensures |r| == |b|
    ensures forall k :: 0 <= k < |b| ==> r[k] == if i <= k < i + |s| then s[k - i] else b[k]
  {
    b[..i] + s + b[i + |s|..]
  }
}

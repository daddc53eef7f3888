/** Rust strings are UTF-8 byte buffers indexed by byte offset, while the
    model keeps text as a sequence of Unicode scalars. This module relates the
    two: the encoded width of a scalar, the byte length of a text, the scalar
    index at a byte offset, and slicing by byte offsets (`&source[a..b]`). */
module Utf8Text {
  import opened Basics

  /** Number of bytes UTF-8 uses to encode the scalar `c`. */
  function Utf8Width(c: char): (w: nat)
    ensures 1 <= w <= 4
  {
    if c as int < 0x80 then 1
    else if c as int < 0x800 then 2
    else if c as int < 0x1_0000 then 3
    else 4
  }

  /** `str::len`: the number of bytes of the UTF-8 encoding of `s`. */
  function ByteLen(s: seq<char>): (n: nat)
    ensures |s| <= n <= 4 * |s|
  {
    if s == [] then 0 else Utf8Width(s[0]) + ByteLen(s[1..])
  }

  lemma {:induction false} ByteLenAppend(a: seq<char>, b: seq<char>)
    ensures ByteLen(a + b) == ByteLen(a) + ByteLen(b)
  {
    if a == [] {
      assert a + b == b;
    } else {
      assert (a + b)[1..] == a[1..] + b;
      ByteLenAppend(a[1..], b);
    }
  }

  /** A longer prefix is strictly longer in bytes: byte offsets of scalar
      boundaries are strictly increasing. */
  lemma ByteLenPrefixGrows(s: seq<char>, i: nat, j: nat)
    requires i <= j <= |s|
    ensures ByteLen(s[..i]) + (j - i) <= ByteLen(s[..j])
  {
    assert s[..j] == s[..i] + s[i..j];
    ByteLenAppend(s[..i], s[i..j]);
  }

  /** The number of scalars in the prefix of `s` that is exactly `b` bytes
      long, or `None` when byte offset `b` is not a scalar boundary of `s`
      (where Rust's byte slicing panics). */
  function CharIndex(s: seq<char>, b: nat): (r: Option<nat>)
    ensures r.Some? ==> r.value <= |s|
    decreases |s|
  {
    if b == 0 then Some(0)
    else if s == [] || Utf8Width(s[0]) > b then None
    else
      match CharIndex(s[1..], b - Utf8Width(s[0]))
      case None => None
      case Some(k) => Some(k + 1)
  }

  /** The scalar index found for byte offset `b` is the one whose prefix is
      exactly `b` bytes long. */
  lemma {:induction false} CharIndexSound(s: seq<char>, b: nat)
    requires CharIndex(s, b).Some?
    ensures ByteLen(s[..CharIndex(s, b).value]) == b
    decreases |s|
  {
    if b != 0 {
      var w := Utf8Width(s[0]);
      CharIndexSound(s[1..], b - w);
      var k := CharIndex(s[1..], b - w).value;
      assert s[..k + 1] == [s[0]] + s[1..][..k];
    }
  }

  /** Every scalar boundary is found by `CharIndex`. */
  lemma {:induction false} CharIndexComplete(s: seq<char>, k: nat)
    requires k <= |s|
    ensures CharIndex(s, ByteLen(s[..k])) == Some(k)
  {
    if k > 0 {
      assert s[..k] == [s[0]] + s[1..][..k - 1];
      assert ByteLen(s[..k]) == Utf8Width(s[0]) + ByteLen(s[1..][..k - 1]);
      CharIndexComplete(s[1..], k - 1);
    }
  }

  /** Scalar boundaries appear in the same order as their byte offsets. */
  lemma CharIndexMonotone(s: seq<char>, a: nat, b: nat)
    requires a <= b
    requires CharIndex(s, a).Some? && CharIndex(s, b).Some?
    ensures CharIndex(s, a).value <= CharIndex(s, b).value
  {
    var i, j := CharIndex(s, a).value, CharIndex(s, b).value;
    CharIndexSound(s, a);
    CharIndexSound(s, b);
    if j < i {
      ByteLenPrefixGrows(s, j, i);
    }
  }

  /** `&s[from..to]` with byte offsets; Rust panics unless both offsets are
      scalar boundaries and `from <= to`. */
  function ByteSlice(s: seq<char>, from: nat, to: nat): seq<char>
    requires from <= to
    requires CharIndex(s, from).Some? && CharIndex(s, to).Some?
  {
    CharIndexMonotone(s, from, to);
    s[CharIndex(s, from).value..CharIndex(s, to).value]
  }

  /** A byte slice is as many bytes long as the distance between its offsets. */
  lemma ByteSliceLen(s: seq<char>, from: nat, to: nat)
    requires from <= to
    requires CharIndex(s, from).Some? && CharIndex(s, to).Some?
    ensures ByteLen(ByteSlice(s, from, to)) == to - from
  {
    CharIndexMonotone(s, from, to);
    var i, j := CharIndex(s, from).value, CharIndex(s, to).value;
    CharIndexSound(s, from);
    CharIndexSound(s, to);
    assert s[..j] == s[..i] + s[i..j];
    ByteLenAppend(s[..i], s[i..j]);
  }

  /** `&s[..to]` with a byte offset. */
  function BytePrefix(s: seq<char>, to: nat): (r: seq<char>)
    requires CharIndex(s, to).Some?
    ensures r <= s
  {
    s[..CharIndex(s, to).value]
  }

  /** A byte prefix is exactly `to` bytes long. */
  lemma BytePrefixLen(s: seq<char>, to: nat)
    requires CharIndex(s, to).Some?
    ensures ByteLen(BytePrefix(s, to)) == to
  {
    CharIndexSound(s, to);
  }
}

/** UTF-8 strings as byte sequences (section 3 of RFC 3629) and Rust's character boundaries. */
module Utf8 {
  import opened Common

  /** A Unicode scalar value. */
  type Scalar = c: int | 0 <= c < 0xD800 || 0xE000 <= c <= 0x10FFFF

  predicate IsContinuation(b: Byte) {
    0x80 <= b < 0xC0
  }

  function EncodeScalar(c: Scalar): (r: seq<Byte>)
    ensures 1 <= |r| <= 4 && !IsContinuation(r[0])
    ensures forall i :: 1 <= i < |r| ==> IsContinuation(r[i])
  {
    if c < 0x80 then [c]
    else if c < 0x800 then [0xC0 + c / 0x40, 0x80 + c % 0x40]
    else if c < 0x1_0000 then [0xE0 + c / 0x1000, 0x80 + c / 0x40 % 0x40, 0x80 + c % 0x40]
    else [0xF0 + c / 0x4_0000, 0x80 + c / 0x1000 % 0x40, 0x80 + c / 0x40 % 0x40, 0x80 + c % 0x40]
  }

  function Encode(cs: seq<Scalar>): seq<Byte> {
    if cs == [] then [] else EncodeScalar(cs[0]) + Encode(cs[1..])
  }

  ghost predicate Valid(t: seq<Byte>) {
    exists cs :: Encode(cs) == t
  }

  /** `str::is_char_boundary` */
  predicate Boundary(t: seq<Byte>, i: nat) {
    i == 0 || i == |t| || (i < |t| && !IsContinuation(t[i]))
  }

  /** The bits a byte adds to the mark of its kind. */
  function Bits(b: Byte, mark: int): int {
    (b as int) - mark
  }

  /** The scalar in the bits of its bytes, by their number, which is the least that will do. */
  lemma EncodeScalarReadsBack(c: Scalar)
    ensures var r := EncodeScalar(c);
            match |r|
            case 1 => c == r[0] < 0x80
            case 2 => c == Bits(r[0], 0xC0) * 0x40 + Bits(r[1], 0x80) && r[0] < 0xE0 && c >= 0x80
            case 3 =>
              && c == Bits(r[0], 0xE0) * 0x1000 + Bits(r[1], 0x80) * 0x40 + Bits(r[2], 0x80)
              && r[0] < 0xF0 && c >= 0x800
            case _ =>
              && c == Bits(r[0], 0xF0) * 0x4_0000 + Bits(r[1], 0x80) * 0x1000 + Bits(r[2], 0x80) * 0x40 + Bits(r[3], 0x80)
              && c >= 0x1_0000
  {
    SixBits(c);
    SixBits(c / 0x40);
    SixBits(c / 0x1000);
  }

  lemma SixBits(c: nat)
    ensures c == c / 0x40 * 0x40 + c % 0x40
    ensures c / 0x40 / 0x40 == c / 0x1000 && c / 0x1000 / 0x40 == c / 0x4_0000
  {
  }

  lemma EncodeCons(c: Scalar, cs: seq<Scalar>)
    ensures Encode([c] + cs) == EncodeScalar(c) + Encode(cs)
  {
    assert ([c] + cs)[1..] == cs;
  }

  lemma {:induction false} EncodeConcat(a: seq<Scalar>, b: seq<Scalar>)
    ensures Encode(a + b) == Encode(a) + Encode(b)
  {
    if a == [] {
      assert a + b == b;
    } else {
      assert (a + b)[1..] == a[1..] + b;
      EncodeConcat(a[1..], b);
    }
  }

  lemma ValidConcat(s: seq<Byte>, t: seq<Byte>)
    requires Valid(s) && Valid(t)
    ensures Valid(s + t)
  {
    var a :| Encode(a) == s;
    var b :| Encode(b) == t;
    EncodeConcat(a, b);
    assert Encode(a + b) == s + t;
  }

  lemma {:induction false} AsciiBytesValid(t: seq<Byte>)
    requires forall i :: 0 <= i < |t| ==> t[i] < 0x80
    ensures Valid(t)
  {
    if t == [] {
      assert Encode([]) == [];
    } else {
      AsciiBytesValid(t[1..]);
      assert Encode([t[0]]) == [t[0]];
      ValidConcat([t[0]], t[1..]);
      assert [t[0]] + t[1..] == t;
    }
  }

  /** The first boundary past the start is after the first character. */
  lemma BoundaryPastHead(head: seq<Byte>, others: seq<Byte>, i: nat)
    requires forall n :: 1 <= n < |head| ==> IsContinuation(head[n])
    requires 0 < i <= |head| + |others| && Boundary(head + others, i)
    ensures i >= |head| && Boundary(others, i - |head|)
  {
  }

  lemma CutPastHead(head: seq<Byte>, others: seq<Byte>, i: nat)
    requires |head| <= i <= |head| + |others|
    ensures (head + others)[..i] == head + others[..i - |head|] && (head + others)[i..] == others[i - |head|..]
  {
  }

  lemma {:induction false} SplitEncoded(cs: seq<Scalar>, i: nat) returns (k: nat)
    requires i <= |Encode(cs)| && Boundary(Encode(cs), i)
    ensures k <= |cs| && Encode(cs[..k]) == Encode(cs)[..i] && Encode(cs[k..]) == Encode(cs)[i..]
  {
    var t := Encode(cs);
    if i == 0 {
      k := 0;
      assert cs[0..] == cs;
    } else {
      var head := EncodeScalar(cs[0]);
      BoundaryPastHead(head, Encode(cs[1..]), i);
      var j := SplitEncoded(cs[1..], i - |head|);
      k := j + 1;
      assert cs[..k] == [cs[0]] + cs[1..][..j] && cs[k..] == cs[1..][j..];
      EncodeCons(cs[0], cs[1..][..j]);
      CutPastHead(head, Encode(cs[1..]), i);
    }
  }

  /** Cutting a string at a character boundary gives two strings. */
  lemma ValidSplit(t: seq<Byte>, i: nat)
    requires Valid(t) && i <= |t| && Boundary(t, i)
    ensures Valid(t[..i]) && Valid(t[i..])
  {
    var cs :| Encode(cs) == t;
    var k := SplitEncoded(cs, i);
    assert Encode(cs[..k]) == t[..i] && Encode(cs[k..]) == t[i..];
  }

  /** Where two strings meet is a boundary. */
  lemma JoinBoundary(s: seq<Byte>, t: seq<Byte>)
    requires Valid(s) && Valid(t)
    ensures Valid(s + t) && Boundary(s + t, |s|)
  {
    ValidConcat(s, t);
    if t != [] {
      var cs :| Encode(cs) == t;
      assert (s + t)[|s|] == t[0];
    }
  }

  function Splice(t: seq<Byte>, lo: nat, hi: nat, insertion: seq<Byte>): seq<Byte>
    requires lo <= hi <= |t|
  {
    t[..lo] + insertion + t[hi..]
  }

  lemma JoinThree(a: seq<Byte>, b: seq<Byte>, c: seq<Byte>)
    requires Valid(a) && Valid(b) && Valid(c)
    ensures Valid(a + b + c) && Boundary(a + b + c, |a|) && Boundary(a + b + c, |a| + |b|)
  {
    JoinBoundary(b, c);
    JoinBoundary(a, b + c);
    assert a + (b + c) == a + b + c;
    JoinBoundary(a, b);
    JoinBoundary(a + b, c);
  }

  /** A splice leaves the text as it is exactly when it puts back what it takes out. */
  lemma SpliceSame(t: seq<Byte>, lo: nat, hi: nat, insertion: seq<Byte>)
    requires lo <= hi <= |t|
    ensures Splice(t, lo, hi, insertion) == t <==> insertion == t[lo..hi]
  {
    var r := Splice(t, lo, hi, insertion);
    assert r[lo..lo + |insertion|] == insertion;
    assert t == t[..lo] + t[lo..hi] + t[hi..];
  }

  /** Replacing between boundaries by a string gives a string; both ends of it are boundaries. */
  lemma SpliceValid(t: seq<Byte>, lo: nat, hi: nat, insertion: seq<Byte>)
    requires Valid(t) && lo <= hi <= |t| && Boundary(t, lo) && Boundary(t, hi) && Valid(insertion)
    ensures var r := Splice(t, lo, hi, insertion);
            Valid(r) && Boundary(r, lo) && Boundary(r, lo + |insertion|)
  {
    ValidSplit(t, lo);
    ValidSplit(t, hi);
    JoinThree(t[..lo], insertion, t[hi..]);
  }

  function Floor(t: seq<Byte>, offset: nat): (r: nat)
    ensures r <= |t| && r <= offset && Boundary(t, r)
    decreases offset
  {
    if offset > |t| then Floor(t, |t|)
    else if Boundary(t, offset) then offset
    else Floor(t, offset - 1)
  }

  /** The floor is the last boundary at or before the offset. */
  lemma {:induction false} FloorIsLast(t: seq<Byte>, offset: nat)
    ensures forall i :: Floor(t, offset) < i <= offset && i <= |t| ==> !Boundary(t, i)
    decreases offset
  {
    if offset > |t| {
      FloorIsLast(t, |t|);
    } else if !Boundary(t, offset) {
      FloorIsLast(t, offset - 1);
    }
  }

  lemma {:induction false} BoundaryNear(cs: seq<Scalar>, offset: nat) returns (b: nat)
    requires offset <= |Encode(cs)|
    ensures b <= offset <= b + 3 && Boundary(Encode(cs), b)
  {
    if offset == 0 {
      b := 0;
    } else {
      var head := EncodeScalar(cs[0]);
      if offset < |head| {
        b := 0;
      } else {
        b := BoundaryNear(cs[1..], offset - |head|);
        assert b == 0 && |Encode(cs[1..])| > 0 ==> Encode(cs[1..])[0] == EncodeScalar(cs[1])[0];
        b := b + |head|;
      }
    }
  }

  /** A cut at a boundary loses at most three bytes. */
  lemma FloorIsNear(t: seq<Byte>, offset: nat)
    requires Valid(t) && offset <= |t|
    ensures Floor(t, offset) + 3 >= offset
  {
    var cs :| Encode(cs) == t;
    var b := BoundaryNear(cs, offset);
    FloorIsLast(t, offset);
  }

  method FloorBoundary(t: seq<Byte>, offset: nat) returns (r: nat)
    ensures r == Floor(t, offset)
  {
    r := if offset < |t| then offset else |t|;
    while !Boundary(t, r)
      invariant r <= |t| && Floor(t, r) == Floor(t, offset)
      decreases r
    {
      r := r - 1;
    }
  }
}

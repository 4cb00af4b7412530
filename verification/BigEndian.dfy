/** Big-endian integers on the wire (Frames.swift, the Data extension). */
module BigEndian {
  import opened Common

  function Pow256(n: nat): (r: nat)
    ensures r >= 1
  {
    if n == 0 then 1 else 256 * Pow256(n - 1)
  }

  /** The unsigned value of a byte string, most significant byte first. */
  function Value(bytes: seq<Byte>): nat {
    if bytes == [] then 0 else 256 * Value(bytes[..|bytes| - 1]) + bytes[|bytes| - 1]
  }

  /** `width` bytes of `value`, most significant first. */
  function Bytes(value: nat, width: nat): (r: seq<Byte>)
    ensures |r| == width
  {
    if width == 0 then [] else Bytes(value / 256, width - 1) + [value % 256]
  }

  /** The first byte weighs most. */
  lemma {:induction false} MostSignificantFirst(first: Byte, others: seq<Byte>)
    ensures Value([first] + others) == first * Pow256(|others|) + Value(others)
  {
    var bytes := [first] + others;
    if others == [] {
      assert bytes[..0] == [];
    } else {
      var n := |others| - 1;
      assert bytes[..|bytes| - 1] == [first] + others[..n];
      MostSignificantFirst(first, others[..n]);
      assert 256 * (first * Pow256(n)) == first * (256 * Pow256(n));
    }
  }

  lemma {:induction false} ValueOfBytes(value: nat, width: nat)
    requires value < Pow256(width)
    ensures Value(Bytes(value, width)) == value
  {
    if width > 0 {
      ValueOfBytes(value / 256, width - 1);
      assert Bytes(value, width)[..width - 1] == Bytes(value / 256, width - 1);
    }
  }

  lemma {:induction false} BytesOfValue(bytes: seq<Byte>)
    ensures Value(bytes) < Pow256(|bytes|) && Bytes(Value(bytes), |bytes|) == bytes
  {
    if bytes != [] {
      BytesOfValue(bytes[..|bytes| - 1]);
      assert bytes == bytes[..|bytes| - 1] + [bytes[|bytes| - 1]];
    }
  }

  /** The shift-and-or loop; `value << 8 | byte` cannot overflow within the width read. */
  method Read(data: seq<Byte>, at: nat, width: nat) returns (value: nat)
    requires at + width <= |data|
    ensures value == Value(data[at..at + width])
    ensures value < Pow256(width)
  {
    value := 0;
    for i := 0 to width
      invariant value == Value(data[at..at + i])
    {
      value := value * 256 + data[at + i];
      assert data[at..at + i + 1] == data[at..at + i] + [data[at + i]];
    }
    BytesOfValue(data[at..at + width]);
  }
}

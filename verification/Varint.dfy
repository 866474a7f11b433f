/** The variable-length integers of section 16 of RFC 9000. */
module Varint {
  import opened Wrappers

  type Byte = b: nat | b < 256

  /** A text of ASCII characters as its bytes. */
  function Ascii(s: string): seq<Byte>
    requires forall i :: 0 <= i < |s| ==> s[i] < '\U{80}'
  {
    seq(|s|, i requires 0 <= i < |s| => s[i] as nat)
  }

  /** The largest value a varint holds. */
  const MAX_VALUE: nat := 0x3FFF_FFFF_FFFF_FFFF

  datatype Error = BufferTooSmall | InsufficientBytes | ValueTooLarge | InvalidLength

  datatype Decoded = Decoded(value: nat, bytesRead: nat)

  /** The bytes a minimal encoding takes; 0 for a value no varint holds. */
  function EncodedLen(value: nat): nat {
    if value < 0x40 then 1
    else if value < 0x4000 then 2
    else if value < 0x4000_0000 then 4
    else if value <= MAX_VALUE then 8
    else 0
  }

  /** The length tag, placed in the two high bits of the first byte. */
  function Tag(length: nat): Byte {
    if length == 1 then 0 else if length == 2 then 0x40 else if length == 4 then 0x80 else 0xC0
  }

  function Pow256(n: nat): nat { if n == 0 then 1 else 256 * Pow256(n - 1) }

  /** The low `n` bytes of a value, most significant first. */
  function BigEndian(value: nat, n: nat): (s: seq<Byte>)
    ensures |s| == n
  {
    if n == 0 then [] else BigEndian(value / 256, n - 1) + [value % 256]
  }

  /** The value of bytes, most significant first, on top of the bits already read. */
  function Fold(high: nat, s: seq<Byte>): nat {
    if s == [] then high else Fold(high, s[..|s| - 1]) * 256 + s[|s| - 1]
  }

  /** The minimal encoding. */
  function Encode(value: nat): (s: seq<Byte>)
    requires value <= MAX_VALUE
    ensures |s| == EncodedLen(value)
  {
    var n := EncodedLen(value);
    var raw := BigEndian(value, n);
    FitsLength(value);
    Digits(value, n);
    [raw[0] + Tag(n)] + raw[1..]
  }

  function Decode(src: seq<Byte>): Result<Decoded, Error> {
    if src == [] then Err(InsufficientBytes)
    else
      var length := LengthOf(src[0]);
      if |src| < length then Err(InsufficientBytes)
      else Ok(Decoded(Fold(src[0] % 64, src[1..length]), length))
  }

  /** The encoding's length, from the two high bits of its first byte. */
  function LengthOf(first: Byte): nat {
    if first / 64 == 0 then 1 else if first / 64 == 1 then 2 else if first / 64 == 2 then 4 else 8
  }

  lemma Powers()
    ensures Pow256(0) == 1 && Pow256(1) == 0x100 && Pow256(3) == 0x100_0000
    ensures Pow256(7) == 0x100_0000_0000_0000
  {
    assert Pow256(1) == 256 * Pow256(0);
    assert Pow256(4) == 256 * Pow256(3);
    assert Pow256(6) == 256 * Pow256(5);
  }

  lemma FitsLength(value: nat)
    requires value <= MAX_VALUE
    ensures EncodedLen(value) in {1, 2, 4, 8}
    ensures value < 64 * Pow256(EncodedLen(value) - 1)
  {
    Powers();
  }

  /** The leading digit leaves the tag bits clear, and folding the digits back gives the value. */
  lemma {:induction false} Digits(value: nat, n: nat)
    requires n > 0 && value < 64 * Pow256(n - 1)
    ensures BigEndian(value, n)[0] < 64
    ensures Fold(BigEndian(value, n)[0], BigEndian(value, n)[1..]) == value
  {
    var s := BigEndian(value, n);
    if n > 1 {
      Digits(value / 256, n - 1);
      var t := BigEndian(value / 256, n - 1);
      assert s[1..] == t[1..] + [value % 256] && s[1..][..|s[1..]| - 1] == t[1..];
    }
  }

  /** Decoding reads back any encoded value and stops exactly at its end. */
  lemma RoundTrip(value: nat, rest: seq<Byte>)
    requires value <= MAX_VALUE
    ensures Decode(Encode(value) + rest) == Ok(Decoded(value, EncodedLen(value)))
  {
    var n, s := EncodedLen(value), Encode(value);
    FitsLength(value);
    Digits(value, n);
    assert (s + rest)[1..n] == s[1..] == BigEndian(value, n)[1..];
    TaggedDecodes(value, n, s + rest, BigEndian(value, n));
  }

  /** Whatever decodes fits a varint, so the gap arithmetic of an ACK frame cannot overflow 64 bits. */
  lemma DecodeBounded(src: seq<Byte>)
    ensures Decode(src).Ok? ==>
      Decode(src).value.value <= MAX_VALUE && 1 <= Decode(src).value.bytesRead <= |src|
  {
    if Decode(src).Ok? {
      var n := LengthOf(src[0]);
      FoldBounded(src[0] % 64, src[1..n]);
      Powers();
    }
  }

  lemma {:induction false} FoldBounded(high: nat, s: seq<Byte>)
    requires high < 64
    ensures Fold(high, s) < 64 * Pow256(|s|)
  {
    if s != [] {
      FoldBounded(high, s[..|s| - 1]);
    }
  }

  /** Writes the digits of `value` at `at`, low digit first. */
  method WriteDigits(dst: array<Byte>, at: nat, value: nat, length: nat)
    requires at + length <= dst.Length
    modifies dst
    ensures dst[at..at + length] == BigEndian(value, length)
    ensures dst[..at] == old(dst[..at]) && dst[at + length..] == old(dst[at + length..])
  {
    var i: nat, v: nat := length, value;
    while i > 0
      invariant i <= length
      invariant BigEndian(value, length) == BigEndian(v, i) + dst[at + i..at + length]
      invariant dst[..at] == old(dst[..at]) && dst[at + length..] == old(dst[at + length..])
    {
      ghost var done := dst[at + i..at + length];
      dst[at + i - 1] := v % 256;
      assert dst[at + i - 1..at + length] == [v % 256] + done;
      v, i := v / 256, i - 1;
    }
  }

  /** The greatest value `length` bytes can hold. */
  function Most(length: nat): (m: nat)
    requires length in {1, 2, 4, 8}
    ensures m + 1 == 64 * Pow256(length - 1)
  {
    Powers();
    if length == 1 then 0x3F else if length == 2 then 0x3FFF else if length == 4 then 0x3FFF_FFFF else MAX_VALUE
  }

  /** Writes the digits and the tag of a value that fits. */
  method WriteTagged(dst: array<Byte>, at: nat, value: nat, length: nat)
    requires length in {1, 2, 4, 8} && value < 64 * Pow256(length - 1) && at + length <= dst.Length
    modifies dst
    ensures Decode(dst[at..]) == Ok(Decoded(value, length))
    ensures dst[..at] == old(dst[..at]) && dst[at + length..] == old(dst[at + length..])
    ensures length == EncodedLen(value) ==> value <= MAX_VALUE && dst[at..at + length] == Encode(value)
  {
    WriteDigits(dst, at, value, length);
    Digits(value, length);
    ghost var was := dst[..];
    assert was[at..at + length] == dst[at..at + length];
    dst[at] := dst[at] + Tag(length);
    TaggedAt(was, dst[..], at, value, length);
  }

  /** The tag added to the first digit makes the encoding. */
  lemma TaggedAt(was: seq<Byte>, now: seq<Byte>, at: nat, value: nat, length: nat)
    requires length in {1, 2, 4, 8} && value < 64 * Pow256(length - 1) && at + length <= |was|
    requires was[at..at + length] == BigEndian(value, length) && BigEndian(value, length)[0] < 64
    requires now == was[at := was[at] + Tag(length)]
    ensures now[..at] == was[..at] && now[at + length..] == was[at + length..]
    ensures Decode(now[at..]) == Ok(Decoded(value, length))
    ensures length == EncodedLen(value) ==> value <= MAX_VALUE && now[at..at + length] == Encode(value)
  {
    var raw, s := was[at..at + length], now[at..];
    TagFirst(was, now, at, length);
    TaggedDecodes(value, length, s, raw);
    if length == EncodedLen(value) {
      EncodedLenIsShortest(value, length);
      assert now[at..at + length] == [raw[0] + Tag(length)] + raw[1..] == Encode(value);
    }
  }

  lemma TagFirst(was: seq<Byte>, now: seq<Byte>, at: nat, length: nat)
    requires 0 < length && at + length <= |was| && was[at] + Tag(length) < 256
    requires now == was[at := was[at] + Tag(length)]
    ensures var raw := was[at..at + length];
      now[at..at + length] == [raw[0] + Tag(length)] + raw[1..] && now[at..][1..length] == raw[1..]
  {
  }

  /** Encodes `value` at `at` in exactly `length` bytes. */
  method EncodeFixed(dst: array<Byte>, at: nat, value: nat, length: nat) returns (r: Result<nat, Error>)
    requires at <= dst.Length
    modifies dst
    ensures r == if length !in {1, 2, 4, 8} then Err(InvalidLength)
                 else if value >= 64 * Pow256(length - 1) then Err(ValueTooLarge)
                 else if at + length > dst.Length then Err(BufferTooSmall)
                 else Ok(length)
    ensures r.Err? ==> dst[..] == old(dst[..])
    ensures r.Ok? ==> Decode(dst[at..]) == Ok(Decoded(value, length))
    ensures r.Ok? ==> dst[..at] == old(dst[..at]) && dst[at + length..] == old(dst[at + length..])
    ensures r.Ok? && length == EncodedLen(value) ==> value <= MAX_VALUE && dst[at..at + length] == Encode(value)
  {
    if length !in {1, 2, 4, 8} {
      return Err(InvalidLength);
    }
    if value > Most(length) {
      return Err(ValueTooLarge);
    }
    if dst.Length - at < length {
      return Err(BufferTooSmall);
    }
    WriteTagged(dst, at, value, length);
    r := Ok(length);
  }

  lemma TaggedDecodes(value: nat, n: nat, s: seq<Byte>, raw: seq<Byte>)
    requires n in {1, 2, 4, 8} && value < 64 * Pow256(n - 1) && raw == BigEndian(value, n)
    requires raw[0] < 64 && |s| >= n && s[0] == raw[0] + Tag(n) && s[1..n] == raw[1..]
    ensures Decode(s) == Ok(Decoded(value, n))
  {
    Digits(value, n);
    assert s[0] % 64 == raw[0] && LengthOf(s[0]) == n;
  }

  /** No length that can hold a value is shorter than the one chosen for it. */
  lemma EncodedLenIsShortest(value: nat, n: nat)
    requires n in {1, 2, 4, 8} && value < 64 * Pow256(n - 1)
    ensures value <= MAX_VALUE && EncodedLen(value) <= n
  {
    Powers();
  }

  /** The examples of section A.1 of RFC 9000: the high byte comes first, its two high bits give the length. */
  lemma WireExamples()
    ensures Encode(37) == [0x25]
    ensures Encode(15_293) == [0x7B, 0xBD]
    ensures Encode(494_878_333) == [0x9D, 0x7F, 0x3E, 0x7D]
    ensures Encode(151_288_809_941_952_652) == [0xC2, 0x19, 0x7C, 0x5E, 0xFF, 0x14, 0xE8, 0x8C]
    ensures Decode([0x40, 0x25]) == Ok(Decoded(37, 2))
  {
    assert [0x40, 0x25][1..2] == [0x25] && [0x25][..0] == [];
    assert Fold(0, [0x25]) == 37;
    assert BigEndian(494_878_333, 4) == [0x1D, 0x7F, 0x3E, 0x7D];
    assert BigEndian(151_288_809_941_952_652, 8) == [0x02, 0x19, 0x7C, 0x5E, 0xFF, 0x14, 0xE8, 0x8C];
  }
}

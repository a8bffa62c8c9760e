/**
 * The seven-bit length encoding of net/ProtocolStream.cpp: unsigned LEB128, section 7.6 of
 * DWARF Version 5.
 */
module Varint {
  import opened Bytes

  const MODULUS64 := 0x1_0000_0000_0000_0000

  /** Seven bits an octet, least significant first; the top bit says that more follow. */
  function Encode(v: nat): (s: seq<byte>)
    ensures s != []
  {
    if v < 128 then [v] else [v % 128 + 128] + Encode(v / 128)
  }

  /** Continuation octets followed by one final octet. */
  predicate WellFormed(s: seq<byte>) {
    s != [] && s[|s| - 1] < 128 && forall i :: 0 <= i < |s| - 1 ==> s[i] >= 128
  }

  /** The positional value of the seven-bit digits of `s`, whatever its top bits are. */
  function Value(s: seq<byte>): nat {
    if s == [] then 0 else s[0] % 128 + 128 * Value(s[1..])
  }

  function Pow128(n: nat): (p: nat)
    ensures p >= 1
  {
    if n == 0 then 1 else 128 * Pow128(n - 1)
  }

  lemma {:induction false} EncodeWellFormed(v: nat)
    ensures WellFormed(Encode(v))
  {
    if v >= 128 {
      EncodeWellFormed(v / 128);
    }
  }

  /** decode(encode(v)) = v, for every v of any width. */
  lemma {:induction false} DecodeEncode(v: nat)
    ensures Value(Encode(v)) == v
  {
    if v >= 128 {
      DecodeEncode(v / 128);
      assert Encode(v)[1..] == Encode(v / 128);
    }
  }

  /** The encodings are exactly the well-formed strings without a redundant zero at the end. */
  lemma {:induction false} EncodeValue(s: seq<byte>)
    requires WellFormed(s)
    ensures Encode(Value(s)) == s <==> |s| == 1 || s[|s| - 1] != 0
  {
    if |s| == 1 {
      assert s[1..] == [] && s == [s[0]];
    } else {
      var t := s[1..];
      WellFormedTail(s);
      EncodeValue(t);
      HeadDigit(s[0], Value(t));
      if Value(t) == 0 {
        ZeroValue(t);
        assert |Encode(Value(s))| == 1;
      } else {
        SameHead(s, Encode(Value(t)));
        NoZeroOctet(t);
      }
    }
  }

  lemma WellFormedTail(s: seq<byte>)
    requires WellFormed(s) && |s| > 1
    ensures WellFormed(s[1..]) && s[1..][|s| - 2] == s[|s| - 1] && s[0] >= 128
  {
  }

  lemma SameHead(s: seq<byte>, t: seq<byte>)
    requires s != []
    ensures [s[0]] + t == s <==> t == s[1..]
  {
    assert ([s[0]] + t)[1..] == t && s == [s[0]] + s[1..];
  }

  lemma NoZeroOctet(s: seq<byte>)
    requires |s| == 1 ==> Value(s) != 0
    ensures |s| == 1 ==> s[0] != 0
  {
  }

  lemma HeadDigit(b: byte, v: nat)
    requires b >= 128
    ensures var x := b % 128 + 128 * v;
            x / 128 == v && x % 128 == b - 128 && (v != 0 ==> Encode(x) == [b] + Encode(v)) && (v == 0 ==> x < 128)
  {
    var x := b % 128 + 128 * v;
    assert x % 128 == b - 128;
    assert x / 128 == v;
  }

  /** Only zero octets carry no value. */
  lemma {:induction false} ZeroValue(s: seq<byte>)
    requires WellFormed(s) && Value(s) == 0
    ensures s[|s| - 1] == 0
  {
    if |s| > 1 {
      ZeroValue(s[1..]);
    }
  }

  /** No well-formed string for the same value is shorter than the encoding. */
  lemma {:induction false} Minimal(s: seq<byte>)
    requires WellFormed(s)
    ensures |Encode(Value(s))| <= |s|
  {
    if |s| > 1 {
      Minimal(s[1..]);
      assert Value(s) / 128 == Value(s[1..]);
    }
  }

  /** Prefix-free: two encodings that start the same text are the same. */
  lemma PrefixFree(s: seq<byte>, x: seq<byte>, t: seq<byte>, y: seq<byte>)
    requires WellFormed(s) && WellFormed(t) && s + x == t + y
    ensures s == t && x == y
  {
    assert forall i :: 0 <= i < |s| && i < |t| ==> s[i] == (s + x)[i] == (t + y)[i] == t[i];
    if |s| != |t| {
      assert false;
    }
    assert s == (s + x)[..|s|] && t == (t + y)[..|t|];
    assert x == (s + x)[|s|..] && y == (t + y)[|t|..];
  }

  /** The length of an encoding is the number of base-128 digits. */
  lemma {:induction false} EncodedLength(v: nat, k: nat)
    requires k >= 1
    ensures |Encode(v)| <= k <==> v < Pow128(k)
  {
    if k == 1 {
      assert Pow128(1) == 128 * Pow128(0);
    } else if v < 128 {
    } else {
      EncodedLength(v / 128, k - 1);
    }
  }

  lemma EncodedLengths(v: nat)
    ensures v < INT32_MODULUS ==> 1 <= |Encode(v)| <= 5
    ensures v < MODULUS64 ==> 1 <= |Encode(v)| <= 10
    ensures |Encode(v)| <= 5 <==> v < 0x8_0000_0000
  {
    EncodedLength(v, 5);
    EncodedLength(v, 10);
    Powers();
  }

  lemma Powers()
    ensures Pow128(5) == 0x8_0000_0000 && Pow128(10) == 0x40_0000_0000_0000_0000
  {
    assert Pow128(2) == 0x4000;
    assert Pow128(4) == 0x1000_0000;
    assert Pow128(6) == 0x400_0000_0000;
    assert Pow128(8) == 0x100_0000_0000_0000;
  }

  /** Where the reader stops: the first octet below 128. */
  function FieldLength(s: seq<byte>): (n: nat)
    ensures n <= |s|
    ensures WellFormed(s[..n]) || (n == |s| && forall i :: 0 <= i < |s| ==> s[i] >= 128)
  {
    if s == [] then 0
    else if s[0] < 128 then 1
    else
      var n := FieldLength(s[1..]);
      assert s == [s[0]] + s[1..];
      assert s[..n + 1] == [s[0]] + s[1..][..n];
      1 + n
  }

  predicate Terminates(s: seq<byte>, limit: nat) {
    exists i :: 0 <= i < |s| && i < limit && s[i] < 128
  }

  lemma {:induction false} FieldLengthTerminates(s: seq<byte>, limit: nat)
    requires Terminates(s, limit)
    ensures 1 <= FieldLength(s) <= limit && WellFormed(s[..FieldLength(s)])
  {
    var i :| 0 <= i < |s| && i < limit && s[i] < 128;
    var n := FieldLength(s);
    assert n <= i + 1;
  }

  /** A well-formed head is what the reader takes. */
  lemma HeadOf(s: seq<byte>, x: seq<byte>)
    requires WellFormed(s)
    ensures FieldLength(s + x) == |s|
  {
    var t := s + x;
    assert t[|s| - 1] == s[|s| - 1] < 128;
    assert Terminates(t, |s|);
    FieldLengthTerminates(t, |s|);
    var n := FieldLength(t);
    assert t == t[..n] + t[n..];
    PrefixFree(s, x, t[..n], t[n..]);
  }

  /** The writer's do-while loop, at either width: `value` is a 32-bit or 64-bit unsigned number. */
  method Write7BitEncoded(value: nat, buf: seq<byte>) returns (out: seq<byte>)
    ensures out == buf + Encode(value)
  {
    var rest := value;
    out := buf;
    var more := true;
    while more
      invariant more ==> out + Encode(rest) == buf + Encode(value)
      invariant !more ==> out == buf + Encode(value)
      decreases more, rest
    {
      var c := rest % 128;
      var before := rest;
      rest := rest / 128;
      if rest != 0 {
        c := c + 128;
      }
      assert Encode(before) == if rest != 0 then [c] + Encode(rest) else [c];
      out := out + [c];
      more := rest != 0;
    }
  }

  /**
   * The reader's do-while loop with an unsigned result of `bits` bits. The shift by 7 positions a step
   * stays below the width because the field terminates in time; the shifted digits and the sum wrap.
   */
  method Read7BitEncoded(buf: seq<byte>, modulus: nat) returns (value: nat)
    requires (modulus == INT32_MODULUS && Terminates(buf, 5)) || (modulus == MODULUS64 && Terminates(buf, 10))
    ensures value == Value(buf[..FieldLength(buf)]) % modulus
  {
    ghost var n := FieldLength(buf);
    FieldLengthTerminates(buf, if modulus == INT32_MODULUS then 5 else 10);
    value := 0;
    var scale := 1; // 2 to the power of the bit count
    var index := 0;
    var more := true;
    while more
      invariant 0 <= index <= n && (more <==> index < n)
      invariant scale == Pow128(index)
      invariant value == Value(buf[..index]) % modulus
      decreases n - index
    {
      var c := buf[index];
      DigitAdded(buf, index, c, scale, modulus);
      var x := c % 128 * scale % modulus;
      value := (value + x) % modulus;
      scale := scale * 128;
      Continues(buf, index);
      index := index + 1;
      more := c >= 128;
    }
    assert buf[..index] == buf[..n];
  }

  /** Every octet of a field but the last says that more follow. */
  lemma Continues(s: seq<byte>, i: nat)
    requires i < FieldLength(s) && WellFormed(s[..FieldLength(s)])
    ensures s[i] >= 128 <==> i + 1 < FieldLength(s)
  {
    assert s[..FieldLength(s)][i] == s[i];
  }

  /** One turn of the reader: a digit at its place, both shifted and added modulo the width. */
  lemma DigitAdded(buf: seq<byte>, i: nat, c: byte, scale: nat, modulus: nat)
    requires i < |buf| && buf[i] == c && scale == Pow128(i) && (modulus == INT32_MODULUS || modulus == MODULUS64)
    ensures (Value(buf[..i]) % modulus + c % 128 * scale % modulus) % modulus == Value(buf[..i + 1]) % modulus
  {
    ValueSnoc(buf[..i], c);
    assert buf[..i + 1] == buf[..i] + [c];
    SumMod(Value(buf[..i]), c % 128 * scale, modulus);
  }

  lemma {:induction false} ValueSnoc(s: seq<byte>, c: byte)
    ensures Value(s + [c]) == Value(s) + c % 128 * Pow128(|s|)
  {
    if s == [] {
      assert Value([] + [c]) == c % 128 + 128 * Value([]);
    } else {
      ValueSnoc(s[1..], c);
      assert (s + [c])[1..] == s[1..] + [c];
      var d, p := c % 128, Pow128(|s| - 1);
      assert d * (128 * p) == 128 * (d * p);
    }
  }

  lemma SumMod(a: nat, b: nat, m: nat)
    requires m == INT32_MODULUS || m == MODULUS64
    ensures (a % m + b % m) % m == (a + b) % m
  {
  }

  /**
   * What a reader finds at the front of the writer's output: the encoding and no more, ending within five
   * octets exactly for values below 2^35.
   */
  lemma ReaderOnWriter(v: nat, x: seq<byte>)
    ensures v < 0x8_0000_0000 <==> Terminates(Encode(v) + x, 5)
    ensures FieldLength(Encode(v) + x) == |Encode(v)|
    ensures Value((Encode(v) + x)[..|Encode(v)|]) == v
  {
    EncodedLengths(v);
    EncodeWellFormed(v);
    var s := Encode(v);
    HeadOf(s, x);
    assert (s + x)[..|s|] == s;
    DecodeEncode(v);
    StopsInTime(s, x);
  }

  lemma StopsInTime(s: seq<byte>, x: seq<byte>)
    requires WellFormed(s)
    ensures Terminates(s + x, 5) <==> |s| <= 5
  {
    if |s| <= 5 {
      assert (s + x)[|s| - 1] < 128;
    } else {
      assert forall i :: 0 <= i < 5 ==> (s + x)[i] == s[i];
    }
  }
}

/** The Internet checksum of net/ProtocolStream.cpp; RFC 1071, sections 1, 2 and 4.1. */
module Checksum {
  import opened Bytes

  /** The longest buffer, in octets, whose words a 32-bit accumulator can always add up. */
  const LONGEST := 131074

  /** A 16-bit word of the host. */
  function Word(low: byte, high: byte): nat {
    low + 256 * high
  }

  /** The 16-bit words in host order added up, and the odd octet by itself. */
  function Sum(s: seq<byte>): nat {
    if s == [] then 0
    else if |s| == 1 then s[0]
    else Word(s[0], s[1]) + Sum(s[2..])
  }

  /** 16-bit one's-complement addition: the carry comes back in at the low end. */
  function OnesAdd(a: nat, b: nat): nat {
    if a + b > 0xFFFF then a + b - 0xFFFF else a + b
  }

  function OnesSum(s: seq<byte>): nat {
    if s == [] then 0
    else if |s| == 1 then s[0]
    else OnesAdd(Word(s[0], s[1]), OnesSum(s[2..]))
  }

  /** The representative of `x` modulo 65535 that is zero only for zero. */
  function Fold(x: nat): (f: nat)
    ensures f <= 0xFFFF
  {
    if x == 0 then 0 else (x - 1) % 0xFFFF + 1
  }

  lemma OnesAddFold(w: nat, x: nat)
    requires w <= 0xFFFF
    ensures OnesAdd(w, Fold(x)) == Fold(w + x)
  {
    if x > 0 {
      var q, r := (x - 1) / 0xFFFF, (x - 1) % 0xFFFF;
      assert x - 1 == 0xFFFF * q + r && Fold(x) == r + 1;
      if w + r + 1 > 0xFFFF {
        assert w + x - 1 == 0xFFFF * (q + 1) + (w + r - 0xFFFF);
      } else {
        assert w + x - 1 == 0xFFFF * q + (w + r);
      }
    }
  }

  lemma {:induction false} OnesSumIsFoldedSum(s: seq<byte>)
    ensures OnesSum(s) == Fold(Sum(s))
  {
    if |s| > 1 {
      OnesSumIsFoldedSum(s[2..]);
      OnesAddFold(Word(s[0], s[1]), Sum(s[2..]));
    }
  }

  lemma {:induction false} SumBound(s: seq<byte>)
    ensures 2 * Sum(s) <= 0xFFFF * |s|
  {
    if |s| > 1 {
      SumBound(s[2..]);
    }
  }

  lemma {:induction false} SumSplit(s: seq<byte>, t: seq<byte>)
    requires |s| % 2 == 0
    ensures Sum(s + t) == Sum(s) + Sum(t)
  {
    if s == [] {
      assert s + t == t;
    } else {
      SumSplit(s[2..], t);
      assert (s + t)[2..] == s[2..] + t;
    }
  }

  /**
   * The summing loop, on a size of type `int` and a 32-bit accumulator, and the folding loop. The result is the
   * Internet checksum exactly when the sum of the words fits the accumulator, as it does for every buffer up to
   * `LONGEST`.
   */
  method Checksum(buffer: seq<byte>) returns (r: nat)
    requires |buffer| <= INT_MAX
    ensures r <= 0xFFFF
    ensures r == 0xFFFF - OnesSum(buffer) <==> Sum(buffer) < INT32_MODULUS
    ensures |buffer| <= LONGEST ==> r == 0xFFFF - OnesSum(buffer)
  {
    SumBound(buffer);
    OnesSumIsFoldedSum(buffer);
    var cksum, carries := Accumulate(buffer);
    WrapShows(Sum(buffer), cksum, carries);
    var folded := FoldDown(cksum);
    r := 0xFFFF - folded;
  }

  /** A sum in 32 bits. */
  function Add32(a: nat, b: nat): (c: nat)
    requires a < INT32_MODULUS && b < INT32_MODULUS
    ensures c < INT32_MODULUS
  {
    if a + b < INT32_MODULUS then a + b else a + b - INT32_MODULUS
  }

  /** The 32-bit sum, and how many carries it has lost. */
  method Accumulate(buffer: seq<byte>) returns (cksum: nat, ghost carries: nat)
    ensures cksum < INT32_MODULUS && Sum(buffer) == cksum + INT32_MODULUS * carries
  {
    cksum, carries := 0, 0;
    var size := |buffer|;
    var at := 0;
    while size > 1
      invariant 0 <= size && at + size == |buffer| && at % 2 == 0
      invariant cksum < INT32_MODULUS && Sum(buffer[..at]) == cksum + INT32_MODULUS * carries
      decreases size
    {
      SumTwo(buffer, at);
      cksum, carries := Add(cksum, Word(buffer[at], buffer[at + 1]), carries);
      at := at + 2;
      size := size - 2;
    }
    if size != 0 {
      SumLast(buffer, at);
      cksum, carries := Add(cksum, buffer[at], carries);
    } else {
      assert buffer[..at] == buffer;
    }
  }

  method Add(a: nat, b: nat, ghost carries: nat) returns (c: nat, ghost more: nat)
    requires a < INT32_MODULUS && b <= 0xFFFF
    ensures c < INT32_MODULUS && c + INT32_MODULUS * more == a + INT32_MODULUS * carries + b
  {
    c := Add32(a, b);
    more := if a + b < INT32_MODULUS then carries else carries + 1;
  }

  lemma SumTwo(s: seq<byte>, at: nat)
    requires at % 2 == 0 && at + 2 <= |s|
    ensures Sum(s[..at + 2]) == Sum(s[..at]) + Word(s[at], s[at + 1])
  {
    var pair := [s[at], s[at + 1]];
    assert s[..at + 2] == s[..at] + pair;
    SumSplit(s[..at], pair);
    assert pair[2..] == [];
  }

  lemma SumLast(s: seq<byte>, at: nat)
    requires at % 2 == 0 && at + 1 == |s|
    ensures Sum(s) == Sum(s[..at]) + s[at]
  {
    assert s == s[..at] + [s[at]];
    SumSplit(s[..at], [s[at]]);
  }

  method FoldDown(x: nat) returns (folded: nat)
    ensures folded == Fold(x)
  {
    folded := x;
    while folded / 0x1_0000 != 0
      invariant Fold(folded) == Fold(x)
      decreases folded
    {
      FoldStep(folded);
      folded := folded / 0x1_0000 + folded % 0x1_0000;
    }
  }

  /** A lost carry is worth one, and no buffer has enough of them to make up 65535. */
  lemma WrapShows(x: nat, cksum: nat, carries: nat)
    requires 2 * x <= 0xFFFF * INT_MAX && cksum < INT32_MODULUS && x == cksum + INT32_MODULUS * carries
    ensures Fold(cksum) == Fold(x) <==> x < INT32_MODULUS
  {
    if carries > 0 {
      assert x == (cksum + carries) + 0xFFFF * (0x1_0001 * carries) && carries < 0xFFFF;
      FoldShift(cksum + carries, 0x1_0001 * carries);
      if cksum > 0 {
        SameRemainder(cksum - 1, carries);
      }
    }
  }

  lemma SameRemainder(y: nat, k: nat)
    requires 0 < k < 0xFFFF
    ensures (y + k) % 0xFFFF != y % 0xFFFF
  {
  }

  lemma FoldStep(x: nat)
    requires x >= 0x1_0000
    ensures Fold(x / 0x1_0000 + x % 0x1_0000) == Fold(x)
  {
    var q, r := x / 0x1_0000, x % 0x1_0000;
    FoldShift(q + r, q);
    assert x == q + r + 0xFFFF * q;
  }

  lemma {:induction false} FoldShift(x: nat, k: nat)
    requires x > 0
    ensures Fold(x + 0xFFFF * k) == Fold(x)
  {
    if k > 0 {
      FoldShift(x, k - 1);
      assert (x - 1 + 0xFFFF * k) % 0xFFFF == (x - 1 + 0xFFFF * (k - 1)) % 0xFFFF;
    }
  }

  lemma Complement(x: nat)
    ensures Fold(x + (0xFFFF - Fold(x))) == 0xFFFF
  {
    if x > 0 {
      var k := (x - 1) / 0xFFFF;
      assert x + (0xFFFF - Fold(x)) == 0xFFFF + 0xFFFF * k;
      FoldShift(0xFFFF, k);
    }
  }

  lemma WordSum(c: nat)
    requires c <= 0xFFFF
    ensures Sum(LittleEndian(2, c)) == c
  {
    var w := LittleEndian(2, c);
    assert w == [c % 256, c / 256 % 256] && c / 256 < 256;
    assert w[2..] == [];
  }

  /** A buffer that carries its own checksum in a further word has checksum 0. */
  lemma SelfChecking(s: seq<byte>, c: nat)
    requires |s| % 2 == 0 && c == 0xFFFF - OnesSum(s)
    ensures OnesSum(s + LittleEndian(2, c)) == 0xFFFF
  {
    OnesSumIsFoldedSum(s);
    OnesSumIsFoldedSum(s + LittleEndian(2, c));
    SumSplit(s, LittleEndian(2, c));
    WordSum(c);
    Complement(Sum(s));
  }

  /** The limit is tight: every longer size has a buffer whose sum does not fit 32 bits. */
  lemma LongerOverflows(n: nat)
    requires n > LONGEST
    ensures exists s: seq<byte> :: |s| == n && Sum(s) >= INT32_MODULUS
  {
    var s: seq<byte> := seq(n, _ => 255);
    SumOfOnes(s);
    assert |s| == n && Sum(s) >= INT32_MODULUS;
  }

  lemma {:induction false} SumOfOnes(s: seq<byte>)
    requires forall i :: 0 <= i < |s| ==> s[i] == 255
    ensures Sum(s) == |s| / 2 * 0xFFFF + |s| % 2 * 255
  {
    if |s| > 1 {
      SumOfOnes(s[2..]);
    }
  }

  function SwapWord(w: nat): nat {
    w / 256 + 256 * (w % 256)
  }

  /** The octets of every word exchanged. */
  function SwapPairs(s: seq<byte>): (t: seq<byte>)
    ensures |t| == |s|
  {
    if |s| < 2 then s else [s[1], s[0]] + SwapPairs(s[2..])
  }

  /** Byte-order independence: on words of the other byte order the sum is the same with its octets exchanged. */
  lemma ByteOrderIndependence(s: seq<byte>)
    requires |s| % 2 == 0
    ensures OnesSum(SwapPairs(s)) == SwapWord(OnesSum(s))
  {
    OnesSumIsFoldedSum(s);
    OnesSumIsFoldedSum(SwapPairs(s));
    var k := SwappedSum(s);
    SwapFold(Sum(s), Sum(SwapPairs(s)), k);
  }

  lemma SwapFold(x: nat, y: nat, k: nat)
    requires y + 0xFFFF * k == 256 * x && (x > 0 ==> y > 0)
    ensures Fold(y) == SwapWord(Fold(x))
  {
    if x > 0 {
      var f, j := Fold(x), (x - 1) / 0xFFFF;
      assert x == f + 0xFFFF * j;
      var h := f / 256;
      var g := h + 256 * (f - 256 * h);
      assert f % 256 == f - 256 * h;
      assert y + 0xFFFF * k == g + 0xFFFF * (h + 256 * j);
      FoldShift(y, k);
      FoldShift(g, h + 256 * j);
      assert Fold(g) == g;
    }
  }

  lemma {:induction false} SwappedSum(s: seq<byte>) returns (k: nat)
    requires |s| % 2 == 0
    ensures Sum(SwapPairs(s)) + 0xFFFF * k == 256 * Sum(s)
    ensures Sum(s) > 0 ==> Sum(SwapPairs(s)) > 0
  {
    if s == [] {
      k := 0;
    } else {
      k := SwappedSum(s[2..]);
      assert SwapPairs(s)[2..] == SwapPairs(s[2..]);
      k := k + s[1];
    }
  }
}

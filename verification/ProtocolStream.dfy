/** BinaryStreamWriter and BinaryStreamReader of net/ProtocolStream.cpp. */
module ProtocolStream {
  import opened Bytes
  import opened Sequences
  import Varint

  /** Four octets of length and two of checksum. */
  const HEADER := 6

  /** The length field is looked for in this many octets. */
  const LENGTH_OCTETS := 5

  type int16 = x: int | -0x8000 <= x < 0x8000

  datatype Field = Int32(i: int32) | Short(h: int16) | Char(c: byte) | Text(s: seq<byte>)

  /** What a caller asks for; a text may come with the largest size the caller takes. */
  datatype Kind = AnyInt32 | AnyShort | AnyChar | AnyText | TextUpTo(max: nat)

  /**
   * The result of a read. `Undefined` is the C++ behaviour when five octets in a row announce a further
   * one: the decoder then runs off its five-octet array.
   */
  datatype Outcome<+T> = Got(value: T) | Refused | Undefined

  datatype LengthField = TooShort | Overrun | Length(head: nat, value: nat)

  // ---------- Encoding ----------

  function EncodeField(f: Field): seq<byte> {
    match f
    case Int32(i) => CapacityFour(); EncodeInt(4, i)
    case Short(h) => CapacityFour(); EncodeInt(2, h)
    case Char(c) => [c]
    case Text(s) => Varint.Encode(|s|) + s
  }

  function EncodeFields(fs: seq<Field>): seq<byte> {
    if fs == [] then [] else EncodeField(fs[0]) + EncodeFields(fs[1..])
  }

  lemma {:induction false} EncodeFieldsSnoc(fs: seq<Field>, f: Field)
    ensures EncodeFields(fs + [f]) == EncodeFields(fs) + EncodeField(f)
  {
    var e := EncodeField(f);
    if fs == [] {
      assert EncodeFields([f]) == e + EncodeFields([]);
    } else {
      EncodeFieldsSnoc(fs[1..], f);
      assert (fs + [f])[1..] == fs[1..] + [f];
      Associate(EncodeField(fs[0]), EncodeFields(fs[1..]), e);
    }
  }

  /** Appending one more field to a package under construction. */
  lemma OneMoreField(d: seq<byte>, fs: seq<Field>, f: Field)
    requires |d| >= HEADER && d[HEADER..] == EncodeFields(fs)
    ensures (d + EncodeField(f))[HEADER..] == EncodeFields(fs + [f])
  {
    EncodeFieldsSnoc(fs, f);
    AppendBehind(d, EncodeField(f), HEADER);
  }

  lemma AppendBehind(a: seq<byte>, b: seq<byte>, n: nat)
    requires n <= |a|
    ensures (a + b)[n..] == a[n..] + b
  {
  }

  class BinaryStreamWriter {
    var data: seq<byte>
    ghost var fields: seq<Field>

    ghost predicate Valid()
      reads this
    {
      |data| >= HEADER && data[HEADER..] == EncodeFields(fields)
    }

    /** The header comes from an uninitialised array: `junk` is whatever was there. */
    constructor (junk: seq<byte>)
      requires |junk| == HEADER
      ensures Valid() && data == junk && fields == []
    {
      data := junk;
      fields := [];
    }

    method WriteInt32(i: int32)
      requires Valid()
      modifies this
      ensures Valid() && data == old(data) + EncodeField(Int32(i)) && fields == old(fields) + [Int32(i)]
    {
      OneMoreField(data, fields, Int32(i));
      CapacityFour();
      data := data + EncodeInt(4, i);
      fields := fields + [Int32(i)];
    }

    method WriteShort(h: int16)
      requires Valid()
      modifies this
      ensures Valid() && data == old(data) + EncodeField(Short(h)) && fields == old(fields) + [Short(h)]
    {
      OneMoreField(data, fields, Short(h));
      CapacityFour();
      data := data + EncodeInt(2, h);
      fields := fields + [Short(h)];
    }

    method WriteChar(c: byte)
      requires Valid()
      modifies this
      ensures Valid() && data == old(data) + EncodeField(Char(c)) && fields == old(fields) + [Char(c)]
    {
      OneMoreField(data, fields, Char(c));
      data := data + [c];
      fields := fields + [Char(c)];
    }

    method WriteCString(s: seq<byte>)
      requires Valid()
      modifies this
      ensures Valid() && data == old(data) + EncodeField(Text(s)) && fields == old(fields) + [Text(s)]
    {
      OneMoreField(data, fields, Text(s));
      var buf := Varint.Write7BitEncoded(|s|, []);
      assert buf == Varint.Encode(|s|);
      Associate(data, buf, s);
      data := data + buf;
      data := data + s;
      fields := fields + [Text(s)];
    }

    /** The total length goes into the first four octets, in network order and modulo 2^32. */
    method Flush()
      requires Valid()
      modifies `data
      ensures Valid()
      ensures data == BigEndian(4, |old(data)| % INT32_MODULUS) + old(data)[4..]
    {
      data := BigEndian(4, |data| % INT32_MODULUS) + data[4..];
    }

    method Clear(junk: seq<byte>)
      requires |junk| == HEADER
      modifies this
      ensures Valid() && data == junk && fields == []
    {
      data := junk;
      fields := [];
    }
  }

  // ---------- Decoding ----------

  function ParseLength(rest: seq<byte>): (l: LengthField)
    ensures l.Length? ==> 1 <= l.head <= |rest|
  {
    if Varint.Terminates(rest, LENGTH_OCTETS) then
      Varint.FieldLengthTerminates(rest, LENGTH_OCTETS);
      var n := Varint.FieldLength(rest);
      Length(n, Varint.Value(rest[..n]) % INT32_MODULUS)
    else if |rest| >= LENGTH_OCTETS then Overrun
    else TooShort
  }

  /** A field of `n` octets at `cur`, and the new cursor. A refused read leaves the cursor alone. */
  function ParseFixed(buf: seq<byte>, cur: nat, n: nat): (Outcome<seq<byte>>, nat) {
    if cur + n > |buf| then (Refused, cur) else (Got(buf[cur..cur + n]), cur + n)
  }

  /** A text at `cur`. When the octets of the text are missing, the cursor has passed its length field. */
  function ParseText(buf: seq<byte>, cur: nat, kind: Kind): (Outcome<seq<byte>>, nat)
    requires cur <= |buf|
  {
    ParseTextBehind(buf, cur, ParseLength(buf[cur..]), kind)
  }

  function ParseTextBehind(buf: seq<byte>, cur: nat, l: LengthField, kind: Kind): (Outcome<seq<byte>>, nat) {
    match l
    case TooShort => (Refused, cur)
    case Overrun => (Undefined, cur)
    case Length(head, n) =>
      if kind.TextUpTo? && n > kind.max then (Refused, cur)
      else if cur + head + n > |buf| then (Refused, cur + head)
      else (Got(buf[cur + head..cur + head + n]), cur + head + n)
  }

  /** One read of any kind: what it yields and where the cursor is afterwards. */
  function Parse(buf: seq<byte>, cur: nat, kind: Kind): (Outcome<Field>, nat)
    requires cur <= |buf|
  {
    match kind
    case AnyInt32 =>
      CapacityFour();
      var (r, next) := ParseFixed(buf, cur, 4);
      (if r.Got? then Got(Int32(DecodeInt(r.value))) else Refused, next)
    case AnyShort =>
      CapacityFour();
      var (r, next) := ParseFixed(buf, cur, 2);
      (if r.Got? then Got(Short(DecodeInt(r.value))) else Refused, next)
    case AnyChar =>
      var (r, next) := ParseFixed(buf, cur, 1);
      (if r.Got? then Got(Char(r.value[0])) else Refused, next)
    case _ =>
      var (r, next) := ParseText(buf, cur, kind);
      (match r case Got(s) => Got(Text(s)) case Refused => Refused case Undefined => Undefined, next)
  }

  /**
   * What stands at the front is a length of at most five octets, the last one below 128; or there are fewer than
   * five octets and none of them ends it; or the first five all announce a further one.
   */
  lemma LengthExact(rest: seq<byte>)
    ensures match ParseLength(rest)
            case Length(head, n) =>
              head <= LENGTH_OCTETS && Varint.WellFormed(rest[..head])
              && n == Varint.Value(rest[..head]) % INT32_MODULUS
            case TooShort => |rest| < LENGTH_OCTETS && forall i :: 0 <= i < |rest| ==> rest[i] >= 128
            case Overrun => |rest| >= LENGTH_OCTETS && forall i :: 0 <= i < LENGTH_OCTETS ==> rest[i] >= 128
  {
    if Varint.Terminates(rest, LENGTH_OCTETS) {
      Varint.FieldLengthTerminates(rest, LENGTH_OCTETS);
    }
  }

  /** With a maximum the same texts are read, but for those that are longer, which leave the cursor alone. */
  lemma MaximumExact(buf: seq<byte>, cur: nat, max: nat)
    requires cur <= |buf|
    ensures var (any, next) := ParseText(buf, cur, AnyText);
            var (upTo, after) := ParseText(buf, cur, TextUpTo(max));
            && (upTo.Got? <==> any.Got? && |any.value| <= max)
            && (upTo.Got? ==> upTo == any && after == next)
            && (upTo.Undefined? <==> any.Undefined?)
            && (any.Got? && !upTo.Got? ==> after == cur)
  {
  }

  /** The cursor after a run of reads, successful or not; `Undefined` once a read was. */
  function CursorAfter(buf: seq<byte>, cur: nat, kinds: seq<Kind>): (c: Outcome<nat>)
    requires cur <= |buf|
    decreases |kinds|
  {
    if kinds == [] then Got(cur)
    else
      CursorSafe(buf, cur, kinds[0]);
      var (r, next) := Parse(buf, cur, kinds[0]);
      if r.Undefined? then Undefined else CursorAfter(buf, next, kinds[1..])
  }

  /** One read, whether it succeeds or not, moves the cursor forward and never past the end. */
  lemma CursorSafe(buf: seq<byte>, cur: nat, kind: Kind)
    requires cur <= |buf|
    ensures cur <= Parse(buf, cur, kind).1 <= |buf|
    ensures Parse(buf, cur, kind).0.Got? ==> cur < Parse(buf, cur, kind).1
  {
    assert !kind.AnyInt32? && !kind.AnyShort? && !kind.AnyChar? ==> ParseText(buf, cur, kind).1 <= |buf|;
  }

  /** The same for every sequence of reads. */
  lemma {:induction false} RunStaysInside(buf: seq<byte>, cur: nat, kinds: seq<Kind>)
    requires cur <= |buf|
    ensures var c := CursorAfter(buf, cur, kinds); c.Got? ==> cur <= c.value <= |buf|
    ensures !CursorAfter(buf, cur, kinds).Refused?
    decreases |kinds|
  {
    if kinds != [] {
      CursorSafe(buf, cur, kinds[0]);
      var (r, next) := Parse(buf, cur, kinds[0]);
      if !r.Undefined? {
        RunStaysInside(buf, next, kinds[1..]);
      }
    }
  }

  /** Reads that must all succeed. */
  function ParseAll(buf: seq<byte>, cur: nat, kinds: seq<Kind>): (Outcome<seq<Field>>, nat)
    requires cur <= |buf|
    decreases |kinds|
  {
    if kinds == [] then (Got([]), cur)
    else
      CursorSafe(buf, cur, kinds[0]);
      var (r, next) := Parse(buf, cur, kinds[0]);
      match r
      case Refused => (Refused, next)
      case Undefined => (Undefined, next)
      case Got(f) =>
        var (rs, last) := ParseAll(buf, next, kinds[1..]);
        (if rs.Got? then Got([f] + rs.value) else rs, last)
  }

  /** The read that belongs to a field, with any size limit the field keeps to. */
  predicate Matches(kind: Kind, f: Field) {
    match f
    case Int32(_) => kind.AnyInt32?
    case Short(_) => kind.AnyShort?
    case Char(_) => kind.AnyChar?
    case Text(s) => |s| < INT32_MODULUS && (kind.AnyText? || (kind.TextUpTo? && |s| <= kind.max))
  }

  lemma SplitAt(buf: seq<byte>, cur: nat, e: seq<byte>, after: seq<byte>)
    requires cur <= |buf| && buf[cur..] == e + after
    ensures cur + |e| + |after| == |buf|
    ensures buf[cur..cur + |e|] == e && buf[cur + |e|..] == after
  {
    assert buf[cur..cur + |e|] == buf[cur..][..|e|];
    assert buf[cur + |e|..] == buf[cur..][|e|..];
  }

  /**
   * The length field of any number, read back: below 2^35 the reader takes exactly the field and returns the
   * number modulo 2^32, so the number itself exactly below 2^32; from 2^35 on it leaves its five octets.
   */
  lemma LengthRoundTrip(n: nat, after: seq<byte>)
    ensures ParseLength(Varint.Encode(n) + after)
         == if n < 0x8_0000_0000 then Length(|Varint.Encode(n)|, n % INT32_MODULUS) else Overrun
    ensures ParseLength(Varint.Encode(n) + after) == Length(|Varint.Encode(n)|, n) <==> n < INT32_MODULUS
  {
    Varint.ReaderOnWriter(n, after);
    Varint.EncodedLengths(n);
  }

  lemma TextBehind(buf: seq<byte>, cur: nat, head: seq<byte>, s: seq<byte>, after: seq<byte>, kind: Kind)
    requires Matches(kind, Text(s))
    requires cur <= |buf| && buf[cur..] == head + (s + after)
    ensures ParseTextBehind(buf, cur, Length(|head|, |s|), kind) == (Got(s), |buf| - |after|)
  {
    SplitAt(buf, cur, head, s + after);
    SplitAt(buf, cur + |head|, s, after);
  }

  lemma TextRoundTrip(buf: seq<byte>, cur: nat, s: seq<byte>, after: seq<byte>, kind: Kind)
    requires Matches(kind, Text(s))
    requires cur <= |buf| && buf[cur..] == Varint.Encode(|s|) + (s + after)
    ensures ParseText(buf, cur, kind) == (Got(s), |buf| - |after|)
  {
    LengthRoundTrip(|s|, s + after);
    TextBehind(buf, cur, Varint.Encode(|s|), s, after, kind);
  }

  lemma FieldRoundTrip(buf: seq<byte>, cur: nat, f: Field, after: seq<byte>, kind: Kind)
    requires Matches(kind, f)
    requires cur <= |buf| && buf[cur..] == EncodeField(f) + after
    ensures Parse(buf, cur, kind) == (Got(f), |buf| - |after|)
  {
    CapacityFour();
    SplitAt(buf, cur, EncodeField(f), after);
    match f {
      case Int32(i) => IntRoundTrip(4, i);
      case Short(h) => IntRoundTrip(2, h);
      case Char(c) =>
      case Text(s) =>
        assert Varint.Encode(|s|) + s + after == Varint.Encode(|s|) + (s + after);
        TextRoundTrip(buf, cur, s, after, kind);
    }
  }

  predicate AllMatch(kinds: seq<Kind>, fs: seq<Field>) {
    |kinds| == |fs| && forall i :: 0 <= i < |fs| ==> Matches(kinds[i], fs[i])
  }

  /** Matching reads return the fields written and leave the cursor behind the last one. */
  lemma {:induction false} RoundTripAt(buf: seq<byte>, cur: nat, fs: seq<Field>, after: seq<byte>, kinds: seq<Kind>)
    requires AllMatch(kinds, fs)
    requires cur <= |buf| && buf[cur..] == EncodeFields(fs) + after
    ensures ParseAll(buf, cur, kinds) == (Got(fs), |buf| - |after|)
    decreases |fs|
  {
    if fs == [] {
      SplitAt(buf, cur, [], after);
    } else {
      var later := EncodeFields(fs[1..]);
      var next := RoundTripStep(buf, cur, fs[0], later, after, kinds[0]);
      RoundTripAt(buf, next, fs[1..], after, kinds[1..]);
      assert [fs[0]] + fs[1..] == fs;
    }
  }

  lemma RoundTripStep(buf: seq<byte>, cur: nat, f: Field, later: seq<byte>, after: seq<byte>, kind: Kind)
    returns (next: nat)
    requires Matches(kind, f)
    requires cur <= |buf| && buf[cur..] == EncodeField(f) + later + after
    ensures next <= |buf| && buf[next..] == later + after
    ensures Parse(buf, cur, kind) == (Got(f), next)
  {
    var e, rest := EncodeField(f), later + after;
    Associate(e, later, after);
    next := cur + |e|;
    SplitAt(buf, cur, e, rest);
    FieldRoundTrip(buf, cur, f, rest, kind);
  }

  /** From the writer's finished package to the end of the reader's input. */
  lemma PackageRoundTrip(header: seq<byte>, fs: seq<Field>, kinds: seq<Kind>)
    requires |header| == HEADER && AllMatch(kinds, fs)
    ensures var package := header + EncodeFields(fs);
            ParseAll(package, HEADER, kinds) == (Got(fs), |package|)
  {
    var package := header + EncodeFields(fs);
    assert package[HEADER..] == EncodeFields(fs) + [];
    RoundTripAt(package, HEADER, fs, [], kinds);
  }

  class BinaryStreamReader {
    const buf: seq<byte>
    var cur: nat

    /** The constructor steps over the header even when the input is shorter than that. */
    ghost predicate Valid()
      reads this
    {
      cur <= |buf| || (cur == HEADER && |buf| < HEADER)
    }

    constructor (input: seq<byte>)
      ensures Valid() && buf == input && cur == HEADER
    {
      buf := input;
      cur := HEADER;
    }

    /** Input comes from std::string::c_str(), so that a zero octet follows it. */
    function At(p: nat): (b: byte)
      requires p <= |buf|
    {
      if p < |buf| then buf[p] else 0
    }

    method ReadFixed(n: nat) returns (r: Outcome<seq<byte>>)
      requires Valid() && n > 0
      modifies this
      ensures Valid() && (r, cur) == ParseFixed(buf, old(cur), n)
    {
      if cur + n > |buf| {
        return Refused;
      }
      r := Got(buf[cur..cur + n]);
      cur := cur + n;
    }

    method ReadInt32() returns (r: Outcome<Field>)
      requires Valid()
      modifies this
      ensures Valid()
      ensures old(cur) <= |buf| ==> (r, cur) == Parse(buf, old(cur), AnyInt32)
      ensures old(cur) > |buf| ==> r == Refused && cur == old(cur)
    {
      CapacityFour();
      var raw := ReadFixed(4);
      r := if raw.Got? then Got(Int32(DecodeInt(raw.value))) else Refused;
    }

    method ReadShort() returns (r: Outcome<Field>)
      requires Valid()
      modifies this
      ensures Valid()
      ensures old(cur) <= |buf| ==> (r, cur) == Parse(buf, old(cur), AnyShort)
      ensures old(cur) > |buf| ==> r == Refused && cur == old(cur)
    {
      CapacityFour();
      var raw := ReadFixed(2);
      r := if raw.Got? then Got(Short(DecodeInt(raw.value))) else Refused;
    }

    method ReadChar() returns (r: Outcome<Field>)
      requires Valid()
      modifies this
      ensures Valid()
      ensures old(cur) <= |buf| ==> (r, cur) == Parse(buf, old(cur), AnyChar)
      ensures old(cur) > |buf| ==> r == Refused && cur == old(cur)
    {
      var raw := ReadFixed(1);
      r := if raw.Got? then Got(Char(raw.value[0])) else Refused;
    }

    /** Looks at no more than five octets, and never beyond the zero octet behind the input. */
    method ReadLengthWithoutOffset() returns (l: LengthField)
      requires cur <= |buf|
      ensures l == ParseLength(buf[cur..])
    {
      ghost var rest := buf[cur..];
      var octets := new byte[LENGTH_OCTETS];
      var headlen := 0;
      var more := true;
      while headlen < LENGTH_OCTETS && more
        invariant headlen <= LENGTH_OCTETS
        invariant more ==> cur + headlen <= |buf| && octets[..headlen] == rest[..headlen]
        invariant forall i :: 0 <= i < headlen - (if more then 0 else 1) ==> octets[i] >= 128
        invariant !more ==> headlen > 0 && octets[headlen - 1] < 128
        invariant !more && cur + headlen <= |buf| ==> octets[..headlen] == rest[..headlen]
        invariant !more && cur + headlen > |buf| ==>
                    cur + headlen == |buf| + 1 && octets[..headlen - 1] == rest
      {
        octets[headlen] := At(cur + headlen);
        more := octets[headlen] >= 128;
        headlen := headlen + 1;
      }
      assert forall i :: 0 <= i < headlen && i < |rest| ==> octets[..headlen][i] == rest[i];
      if cur + headlen > |buf| {
        return TooShort;
      }
      if more {
        return Overrun; // the decoder would read past the five octets
      }
      assert Varint.WellFormed(octets[..headlen]);
      assert rest == octets[..headlen] + rest[headlen..];
      Varint.HeadOf(octets[..headlen], rest[headlen..]);
      Varint.HeadOf(octets[..headlen], []);
      assert octets[..headlen] + [] == octets[..headlen];
      assert octets[..headlen][headlen - 1] < 128;
      var value := Varint.Read7BitEncoded(octets[..headlen], INT32_MODULUS);
      l := Length(headlen, value);
    }

    /** ReadString and ReadCCString (no limit is a maximum of zero there) and ReadCString. */
    method ReadText(kind: Kind) returns (r: Outcome<seq<byte>>)
      requires cur <= |buf|
      modifies this
      ensures Valid() && (r, cur) == ParseText(buf, old(cur), kind)
    {
      var l := ReadLengthWithoutOffset();
      match l {
        case TooShort => r := Refused;
        case Overrun => r := Undefined;
        case Length(head, n) =>
          if kind.TextUpTo? && n > kind.max {
            return Refused;
          }
          cur := cur + head;
          if cur + n > |buf| {
            return Refused;
          }
          r := Got(buf[cur..cur + n]);
          cur := cur + n;
      }
    }

    /** ReadString: a maximum of zero means none. */
    method ReadString(maxlen: nat) returns (r: Outcome<seq<byte>>)
      requires cur <= |buf|
      modifies this
      ensures Valid()
      ensures (r, cur) == ParseText(buf, old(cur), if maxlen == 0 then AnyText else TextUpTo(maxlen))
    {
      r := ReadText(if maxlen == 0 then AnyText else TextUpTo(maxlen));
    }

    /** ReadCString: the caller's array always limits the size. */
    method ReadCString(room: nat) returns (r: Outcome<seq<byte>>)
      requires cur <= |buf|
      modifies this
      ensures Valid() && (r, cur) == ParseText(buf, old(cur), TextUpTo(room))
    {
      r := ReadText(TextUpTo(room));
    }

    method ReadLength() returns (l: LengthField)
      requires cur <= |buf|
      modifies this
      ensures Valid() && l == ParseLength(buf[old(cur)..])
      ensures cur == old(cur) + if l.Length? then l.head else 0
    {
      l := ReadLengthWithoutOffset();
      if l.Length? {
        cur := cur + l.head;
      }
    }

    predicate IsEnd()
      reads this
    {
      cur == |buf|
    }
  }
}

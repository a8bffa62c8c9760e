/** The growable buffer of net/ByteBuffer.h: prependable, readable and writable regions of one array. */
module ByteBuffer {
  import opened Bytes
  import opened Sequences

  const CHEAP_PREPEND := 8
  const EXTRA_BUFFER := 65536

  /** What readv reported: an error, or the octets it stored (none at end of file). */
  datatype ReadResult = ReadFailed | Received(bytes: seq<byte>)

  /** Conversion of a size to `int`, keeping the low 32 bits. */
  function TruncateToInt(n: nat): (r: int32) {
    var low := n % INT32_MODULUS;
    if low <= INT_MAX then low else low - INT32_MODULUS
  }

  /** std::copy towards lower addresses: the ranges may overlap. */
  method CopyLeft(a: array<byte>, from: nat, to: nat, count: nat)
    requires to <= from && from + count <= a.Length
    modifies a
    ensures a[to..to + count] == old(a[from..from + count])
    ensures forall j :: 0 <= j < to || to + count <= j < a.Length ==> a[j] == old(a[j])
  {
    for i := 0 to count
      invariant a[to..to + i] == old(a[from..from + i])
      invariant forall j :: 0 <= j < to || to + i <= j < a.Length ==> a[j] == old(a[j])
    {
      a[to + i] := a[from + i];
    }
  }

  /** std::copy from outside the array. */
  method CopyInto(a: array<byte>, to: nat, bytes: seq<byte>)
    requires to + |bytes| <= a.Length
    modifies a
    ensures a[..] == old(a[..to]) + bytes + old(a[to + |bytes|..])
  {
    for i := 0 to |bytes|
      invariant forall j :: 0 <= j < i ==> a[to + j] == bytes[j]
      invariant forall j :: 0 <= j < to || to + i <= j < a.Length ==> a[j] == old(a[j])
    {
      a[to + i] := bytes[i];
    }
    ThreeParts(a[..], old(a[..]), to, bytes);
  }

  lemma ThreeParts(a: seq<byte>, b: seq<byte>, to: nat, bytes: seq<byte>)
    requires |a| == |b| && to + |bytes| <= |a|
    requires forall j :: 0 <= j < |bytes| ==> a[to + j] == bytes[j]
    requires forall j :: 0 <= j < to || to + |bytes| <= j < |a| ==> a[j] == b[j]
    ensures a == b[..to] + bytes + b[to + |bytes|..]
  {
    assert a[..to] == b[..to] && a[to..to + |bytes|] == bytes && a[to + |bytes|..] == b[to + |bytes|..];
    assert a == a[..to] + a[to..to + |bytes|] + a[to + |bytes|..];
  }

  lemma Extend(a: seq<byte>, from: nat, to: nat, n: nat)
    requires from <= to && to + n <= |a|
    ensures a[from..to + n] == a[from..to] + a[to..to + n]
  {
  }

  lemma SamePart(a: seq<byte>, b: seq<byte>, from: nat, to: nat)
    requires from <= to <= |a| && to <= |b| && a[..to] == b[..to]
    ensures a[from..to] == b[from..to]
  {
    assert a[from..to] == a[..to][from..];
    assert b[from..to] == b[..to][from..];
  }

  lemma Spliced(a: seq<byte>, b: seq<byte>, from: nat, to: nat, bytes: seq<byte>)
    requires from <= to && to + |bytes| <= |a| && b == a[..to] + bytes + a[to + |bytes|..]
    ensures |b| == |a| && b[from..to] == a[from..to] && b[to..to + |bytes|] == bytes
  {
  }

  class ByteBuffer {
    var data: array<byte>
    var reader: nat
    var writer: nat

    ghost predicate Valid()
      reads this
    {
      reader <= writer <= data.Length && CHEAP_PREPEND <= data.Length
    }

    /** The readable region: the value every operation is specified by. */
    ghost function Contents(): (s: seq<byte>)
      requires Valid()
      reads this, data
    {
      data[reader..writer]
    }

    constructor (initialSize: nat := 1024)
      ensures Valid() && fresh(data)
      ensures Contents() == [] && reader == CHEAP_PREPEND && WritableBytes() == initialSize
    {
      data := new byte[CHEAP_PREPEND + initialSize](_ => 0);
      reader, writer := CHEAP_PREPEND, CHEAP_PREPEND;
    }

    function ReadableBytes(): nat
      requires Valid()
      reads this
    {
      writer - reader
    }

    function WritableBytes(): nat
      requires Valid()
      reads this
    {
      data.Length - writer
    }

    function PrependableBytes(): nat
      reads this
    {
      reader
    }

    /** The first `len` readable bytes, as reached through the pointer peek() returns. */
    method Peek(len: nat) returns (bytes: seq<byte>)
      requires Valid() && len <= ReadableBytes()
      ensures bytes == Contents()[..len]
    {
      bytes := data[reader..reader + len];
    }

    method Swap(rhs: ByteBuffer)
      requires Valid() && rhs.Valid()
      modifies this, rhs
      ensures Valid() && rhs.Valid()
      ensures data == old(rhs.data) && rhs.data == old(data)
      ensures reader == old(rhs.reader) && rhs.reader == old(reader)
      ensures Contents() == old(rhs.Contents()) && rhs.Contents() == old(Contents())
    {
      data, rhs.data := rhs.data, data;
      reader, rhs.reader := rhs.reader, reader;
      writer, rhs.writer := rhs.writer, writer;
    }

    method RetrieveAll()
      requires Valid()
      modifies this
      ensures Valid() && data == old(data)
      ensures Contents() == [] && reader == CHEAP_PREPEND
    {
      reader, writer := CHEAP_PREPEND, CHEAP_PREPEND;
    }

    method Retrieve(len: nat) returns (ok: bool)
      requires Valid()
      modifies this
      ensures Valid() && data == old(data)
      ensures ok == (len <= old(ReadableBytes()))
      ensures Contents() == if ok then old(Contents())[len..] else old(Contents())
      ensures reader >= if old(reader) < CHEAP_PREPEND then old(reader) else CHEAP_PREPEND
    {
      if len > ReadableBytes() {
        return false;
      }
      if len < ReadableBytes() {
        reader := reader + len;
      } else {
        RetrieveAll();
      }
      return true;
    }

    /** `end` is an offset into the whole buffer, as the pointer ByteBuffer::retrieveUntil takes is. */
    method RetrieveUntil(end: int) returns (ok: bool)
      requires Valid()
      modifies this
      ensures Valid() && data == old(data)
      ensures ok == (old(reader) <= end <= old(writer))
      ensures Contents() == if ok then old(data[end..writer]) else old(Contents())
    {
      if reader > end || end > writer {
        return false;
      }
      var _ := Retrieve(end - reader);
      return true;
    }

    method RetrieveAsString(len: nat) returns (bytes: seq<byte>)
      requires Valid()
      modifies this
      ensures Valid() && data == old(data)
      ensures len <= old(ReadableBytes()) ==> bytes == old(Contents())[..len] && Contents() == old(Contents())[len..]
      ensures len > old(ReadableBytes()) ==> bytes == [] && Contents() == old(Contents())
    {
      if len > ReadableBytes() {
        return [];
      }
      bytes := Peek(len);
      var _ := Retrieve(len);
    }

    method RetrieveAllAsString() returns (bytes: seq<byte>)
      requires Valid()
      modifies this
      ensures Valid() && data == old(data)
      ensures bytes == old(Contents()) && Contents() == []
    {
      bytes := RetrieveAsString(ReadableBytes());
    }

    /**
     * The size goes through `int`: a negative one makes the string constructor throw, and a size of
     * 2^32 or more loses its high bits.
     */
    method ToStringPiece() returns (threw: bool, bytes: seq<byte>)
      requires Valid()
      ensures threw == (TruncateToInt(ReadableBytes()) < 0)
      ensures !threw ==> bytes == Contents()[..TruncateToInt(ReadableBytes())]
    {
      var n := TruncateToInt(ReadableBytes());
      if n < 0 {
        return true, [];
      }
      bytes := Peek(n);
      threw := false;
    }

    /** Reached only with too little room behind the data, as EnsureWritableBytes calls it. */
    method MakeSpace(len: nat)
      requires Valid() && WritableBytes() < len
      modifies this, data
      ensures Valid() && (data == old(data) || fresh(data))
      ensures Contents() == old(Contents()) && len <= WritableBytes()
      ensures reader == if data == old(data) then CHEAP_PREPEND else old(reader)
    {
      if WritableBytes() + PrependableBytes() < len + CHEAP_PREPEND {
        var bigger := new byte[writer + len](i requires 0 <= i reads this, data =>
          if i < data.Length then data[i] else 0);
        data := bigger;
      } else {
        assert reader > CHEAP_PREPEND; // so the early return at this place is never taken
        var readable := ReadableBytes();
        CopyLeft(data, reader, CHEAP_PREPEND, readable);
        reader := CHEAP_PREPEND;
        writer := reader + readable;
      }
    }

    method EnsureWritableBytes(len: nat)
      requires Valid()
      modifies this, data
      ensures Valid() && (data == old(data) || fresh(data))
      ensures Contents() == old(Contents()) && len <= WritableBytes()
      ensures len <= old(WritableBytes()) ==> data == old(data) && reader == old(reader) && writer == old(writer)
      ensures reader >= if old(reader) < CHEAP_PREPEND then old(reader) else CHEAP_PREPEND
    {
      if WritableBytes() < len {
        MakeSpace(len);
      }
    }

    method HasWritten(len: nat) returns (ok: bool)
      requires Valid()
      modifies `writer
      ensures Valid()
      ensures ok == (len <= old(WritableBytes()))
      ensures Contents() == old(Contents()) + if ok then old(data[writer..writer + len]) else []
    {
      if len > WritableBytes() {
        return false;
      }
      writer := writer + len;
      return true;
    }

    method Append(bytes: seq<byte>)
      requires Valid()
      modifies this, data
      ensures Valid() && (data == old(data) || fresh(data))
      ensures Contents() == old(Contents()) + bytes
      ensures |bytes| <= old(WritableBytes()) ==>
                data == old(data) && WritableBytes() == old(WritableBytes()) - |bytes|
      ensures reader >= if old(reader) < CHEAP_PREPEND then old(reader) else CHEAP_PREPEND
    {
      EnsureWritableBytes(|bytes|);
      ghost var a := data[..];
      CopyInto(data, writer, bytes);
      Spliced(a, data[..], reader, writer, bytes);
      var _ := HasWritten(|bytes|);
    }

    method Unwrite(len: nat) returns (ok: bool)
      requires Valid()
      modifies `writer
      ensures Valid()
      ensures ok == (len <= old(ReadableBytes()))
      ensures Contents() == if ok then old(Contents())[..old(ReadableBytes()) - len] else old(Contents())
    {
      if len > ReadableBytes() {
        return false;
      }
      writer := writer - len;
      return true;
    }

    method Prepend(bytes: seq<byte>) returns (ok: bool)
      requires Valid()
      modifies this, data
      ensures Valid() && data == old(data)
      ensures ok == (|bytes| <= old(PrependableBytes()))
      ensures Contents() == (if ok then bytes else []) + old(Contents())
    {
      if |bytes| > PrependableBytes() {
        return false;
      }
      reader := reader - |bytes|;
      CopyInto(data, reader, bytes);
      return true;
    }

    /** A new buffer with room for `size` octets, and then with some of them in it. */
    static method Holding(bytes: seq<byte>, size: nat) returns (other: ByteBuffer)
      requires |bytes| <= size
      ensures fresh(other) && fresh(other.data) && other.Valid()
      ensures other.Contents() == bytes && other.WritableBytes() >= size - |bytes|
    {
      other := new ByteBuffer();
      other.EnsureWritableBytes(size);
      other.Append(bytes);
      assert [] + bytes == bytes;
    }

    /** Leaves the content as it was exactly when its size fits an `int`, and throws or truncates beyond. */
    method Shrink(reserve: nat) returns (threw: bool)
      requires Valid()
      modifies this
      ensures Valid() && (threw || fresh(data))
      ensures threw == (TruncateToInt(old(ReadableBytes())) < 0)
      ensures threw ==> data == old(data) && Contents() == old(Contents())
      ensures !threw ==> Contents() == old(Contents())[..TruncateToInt(old(ReadableBytes()))]
      ensures !threw && Contents() == old(Contents()) <==> old(ReadableBytes()) <= INT_MAX
      ensures !threw ==> WritableBytes() >= reserve
    {
      var bytes;
      threw, bytes := ToStringPiece();
      if threw {
        return;
      }
      var other := Holding(bytes, ReadableBytes() + reserve);
      Swap(other);
    }

    method AppendInt(n: nat, x: int)
      requires Valid() && FitsSigned(n, x)
      modifies this, data
      ensures Valid() && (data == old(data) || fresh(data))
      ensures Contents() == old(Contents()) + EncodeInt(n, x)
    {
      Append(EncodeInt(n, x));
    }

    /** -1 stands both for a short buffer and for the value -1. */
    method PeekInt(n: nat) returns (x: int)
      requires Valid()
      ensures x == if n <= ReadableBytes() then DecodeInt(Contents()[..n]) else -1
    {
      if ReadableBytes() < n {
        return -1;
      }
      var bytes := Peek(n);
      x := DecodeInt(bytes);
    }

    method ReadInt(n: nat) returns (x: int)
      requires Valid()
      modifies this
      ensures Valid() && data == old(data)
      ensures n <= old(ReadableBytes()) ==>
                x == DecodeInt(old(Contents())[..n]) && Contents() == old(Contents())[n..]
      ensures n > old(ReadableBytes()) ==> x == -1 && Contents() == old(Contents())
    {
      x := PeekInt(n);
      var _ := Retrieve(n);
    }

    method PrependInt(n: nat, x: int) returns (ok: bool)
      requires Valid() && FitsSigned(n, x)
      modifies this, data
      ensures Valid() && data == old(data)
      ensures ok == (n <= old(PrependableBytes()))
      ensures Contents() == (if ok then EncodeInt(n, x) else []) + old(Contents())
    {
      ok := Prepend(EncodeInt(n, x));
    }

    /** How many bytes one scatter read may deliver. */
    function ReadLimit(): nat
      requires Valid()
      reads this
    {
      if WritableBytes() < EXTRA_BUFFER then WritableBytes() + EXTRA_BUFFER else WritableBytes()
    }

    /** The kernel's part of a scatter read: fill the writable region, then the spill buffer. */
    method Scatter(bytes: seq<byte>, extra: array<byte>)
      requires Valid() && extra != data && |bytes| <= WritableBytes() + extra.Length
      modifies data, extra
      ensures data[..writer] == old(data[..writer])
      ensures |bytes| <= WritableBytes() ==> data[writer..writer + |bytes|] == bytes
      ensures |bytes| > WritableBytes() ==>
                data[writer..] + extra[..|bytes| - WritableBytes()] == bytes
    {
      var writable := WritableBytes();
      forall i | 0 <= i < |bytes| && i < writable {
        data[writer + i] := bytes[i];
      }
      forall i | writable <= i < |bytes| {
        extra[i - writable] := bytes[i];
      }
    }

    /** What the scatter read stored, as an extension of the content, and what is left in the spill buffer. */
    method FillFrom(bytes: seq<byte>, extra: array<byte>)
      requires Valid() && extra != data && |bytes| <= WritableBytes() + extra.Length
      modifies `writer, data, extra
      ensures Valid()
      ensures |bytes| <= old(WritableBytes()) ==> Contents() == old(Contents()) + bytes
      ensures |bytes| > old(WritableBytes()) ==>
                Contents() + extra[..|bytes| - old(WritableBytes())] == old(Contents()) + bytes
    {
      ghost var before, r, w := data[..], reader, writer;
      var writable := WritableBytes();
      Scatter(bytes, extra);
      assert data[..][..w] == before[..w];
      SamePart(data[..], before, r, w);
      if |bytes| <= writable {
        Extend(data[..], r, w, |bytes|);
        writer := writer + |bytes|;
      } else {
        Extend(data[..], r, w, writable);
        Associate(before[r..w], data[w..], extra[..|bytes| - writable]);
        writer := data.Length;
      }
    }

    /**
     * One scatter read into the writable region and a 64 KiB spill buffer. Whatever the count, it is
     * the append of the bytes delivered.
     */
    method ReadFd(result: ReadResult) returns (n: int)
      requires Valid()
      requires result.Received? ==> |result.bytes| <= ReadLimit()
      modifies this, data
      ensures Valid() && (data == old(data) || fresh(data))
      ensures n == if result.Received? then |result.bytes| else -1
      ensures Contents() == old(Contents()) + if result.Received? then result.bytes else []
    {
      var extra := new byte[EXTRA_BUFFER];
      var writable := WritableBytes();
      if result.ReadFailed? {
        return -1;
      }
      n := |result.bytes|;
      FillFrom(result.bytes, extra);
      if n > writable {
        Append(extra[..n - writable]);
      }
    }
  }
}

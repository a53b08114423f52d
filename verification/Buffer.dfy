// A session's linear byte buffer: a fixed array with a begin and an end cursor. Bytes are
// written behind the end cursor, consumed from the begin cursor, and compacted by MoveData.
module Buffers {
  import opened Framing

  /** A buffer fits the address space, so pointer differences never look negative. */
  const ADDRESS_LIMIT := 0x8000_0000_0000_0000

  class Buffer {
    const bytes: array<Byte>
    var begin: nat
    var end: nat

    /** Besides the cursor order: the cursors only ever coincide at the start of the array. */
    ghost predicate Valid()
      reads this
    {
      && begin <= end <= bytes.Length < ADDRESS_LIMIT
      && (begin == end ==> begin == 0)
    }

    ghost function Repr(): set<object> {
      {this, bytes}
    }

    /** The unconsumed bytes. */
    ghost function Contents(): (s: seq<Byte>)
      requires Valid()
      reads this, bytes
      ensures |s| == end - begin
    {
      bytes[begin..end]
    }

    lemma Slice(from: nat, to: nat)
      requires Valid()
      requires from <= to <= |Contents()|
      ensures bytes[begin + from..begin + to] == Contents()[from..to]
    {
      assert forall i | from <= i < to :: bytes[begin + i] == Contents()[i];
    }

    constructor (capacity: nat)
      requires capacity < ADDRESS_LIMIT
      ensures Valid() && fresh(bytes) && bytes.Length == capacity
      ensures Contents() == []
    {
      bytes := new Byte[capacity](_ => 0);
      begin, end := 0, 0;
    }

    function FreeSpaceSize(): (free: nat)
      requires Valid()
      reads this
      ensures free + end == bytes.Length
    {
      bytes.Length - end
    }

    function DataSize(): nat
      requires Valid()
      reads this
    {
      end - begin
    }

    method IncreaseBegin(size: nat) returns (ok: bool)
      requires Valid()
      modifies this
      ensures Valid()
      ensures ok == (size <= |old(Contents())|)
      ensures Contents() == if ok then old(Contents())[size..] else old(Contents())
      ensures ok && size < |old(Contents())| ==> begin == old(begin) + size && end == old(end)
      ensures ok && size == |old(Contents())| ==> begin == end == 0
      ensures !ok ==> begin == old(begin) && end == old(end)
    {
      if end < begin + size {
        return false;
      }
      begin := begin + size;
      if begin == end {
        begin, end := 0, 0;
      }
      return true;
    }

    method IncreaseEnd(size: nat) returns (ok: bool)
      requires Valid()
      modifies this
      ensures Valid()
      ensures ok == (size <= old(FreeSpaceSize()))
      ensures begin == old(begin)
      ensures end == if ok then old(end) + size else old(end)
      ensures Contents() == if ok then old(Contents()) + old(bytes[end..end + size]) else old(Contents())
    {
      if FreeSpaceSize() < size {
        return false;
      }
      end := end + size;
      return true;
    }

    /** memcpy to the end cursor. What would fall behind the array is not stored anywhere in this model. */
    method CopyToEnd(src: seq<Byte>)
      requires Valid()
      modifies bytes
      ensures bytes[..end] == old(bytes[..end])
      ensures forall i | 0 <= i < |src| && end + i < bytes.Length :: bytes[end + i] == src[i]
      ensures forall i | end + |src| <= i < bytes.Length :: bytes[i] == old(bytes[i])
    {
      forall i | end <= i < bytes.Length && i < end + |src| {
        bytes[i] := src[i - end];
      }
    }

    /** memmove of the unconsumed bytes to the front of the array; source and destination may overlap. */
    method MoveData()
      requires Valid()
      modifies this, bytes
      ensures Valid()
      ensures Contents() == old(Contents())
      ensures begin == 0 && end == |old(Contents())|
      ensures old(begin) == 0 ==> bytes[..] == old(bytes[..])
    {
      if begin == 0 || begin == end {
        return;
      }
      var dataSize := end - begin;
      forall i | 0 <= i < dataSize {
        bytes[i] := bytes[begin + i];
      }
      end := dataSize;
      begin := 0;
    }

    /** Copying bytes that fit behind the data and advancing the end cursor appends them. */
    method Append(src: seq<Byte>)
      requires Valid()
      requires |src| <= FreeSpaceSize()
      modifies this, bytes
      ensures Valid()
      ensures Contents() == old(Contents()) + src
      ensures begin == old(begin) && end == old(end) + |src|
      ensures bytes[..old(end)] == old(bytes[..end])
    {
      CopyToEnd(src);
      assert bytes[end..end + |src|] == src;
      assert bytes[begin..end] == bytes[..end][begin..];
      var _ := IncreaseEnd(|src|);
      assert Contents() == old(Contents()) + src;
    }
  }
}

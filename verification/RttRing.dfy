/** The log ring (OneROM/firmware/src/rtt.c): a byte ring with one free slot,
whose writer owns `writeOffset` and whose reader owns `readOffset`. */
module RttRing {

  /** An offset the other side can store is taken modulo nothing: outside the buffer it reads as 0. */
  function Clamp(offset: nat, size: nat): nat {
    if offset >= size then 0 else offset
  }

  /** onerom_rtt_avail, on a clamped read offset */
  function Avail(size: nat, readOffset: nat, writeOffset: nat): nat
    requires readOffset < size && writeOffset < size
  {
    if readOffset <= writeOffset then size - 1 - writeOffset + readOffset
    else readOffset - writeOffset - 1
  }

  /** onerom_rtt_pending */
  function Pending(size: nat, writeOffset: nat, readOffset: nat): nat
    requires readOffset < size && writeOffset < size
  {
    if writeOffset >= readOffset then writeOffset - readOffset else size - readOffset + writeOffset
  }

  /** Where byte k of a copy that starts at `offset` goes: on to the end, then from the front. */
  function At(offset: nat, k: nat, size: nat): (i: nat)
    requires offset < size && k < size
    ensures i < size
  {
    if k < size - offset then offset + k else k - (size - offset)
  }

  /** The offset after a copy of len bytes, as both sides compute it. */
  function After(offset: nat, len: nat, size: nat): (o: nat)
    requires offset < size && len < size
  {
    var toEnd := size - offset;
    if toEnd > len then offset + len else len - toEnd
  }

  /** Free and pending always account for the whole ring but one byte, and the
      writer's distance from the reader is the pending count. */
  lemma FreeAndPending(size: nat, readOffset: nat, writeOffset: nat)
    requires readOffset < size && writeOffset < size
    ensures Avail(size, readOffset, writeOffset) + Pending(size, writeOffset, readOffset) + 1 == size
    ensures writeOffset == At(readOffset, Pending(size, writeOffset, readOffset), size)
  {
  }

  /** Advancing either offset by less than the ring shifts distances by as much. */
  lemma Advance(size: nat, offset: nat, m: nat, n: nat)
    requires offset < size && m + n < size
    ensures After(offset, m, size) == At(offset, m, size) < size
    ensures At(After(offset, m, size), n, size) == At(offset, m + n, size)
  {
  }

  lemma PendingIsDistance(size: nat, offset: nat, n: nat)
    requires offset < size && n < size
    ensures Pending(size, At(offset, n, size), offset) == n
  {
  }

  /** The n bytes from `offset` on, round the ring. */
  function Unread(buffer: seq<char>, offset: nat, n: nat): (s: seq<char>)
    requires offset < |buffer| && n < |buffer|
    ensures |s| == n
  {
    seq(n, k requires 0 <= k < n => buffer[At(offset, k, |buffer|)])
  }

  class UpChannel {
    const buffer: array?<char>
    const size: nat
    var writeOffset: nat
    var readOffset: nat

    ghost predicate Valid() {
      buffer != null ==> buffer.Length == size
    }

    predicate Usable()
      ensures Usable() <==> buffer != null && size != 0
    {
      buffer != null && size != 0
    }

    /** What a reader would take now, whatever the offset fields hold. */
    ghost function Contents(): (s: seq<char>)
      requires Valid()
      reads this, buffer
      ensures Usable() ==> |s| < size
    {
      if !Usable() then []
      else
        var r := Clamp(readOffset, size);
        Unread(buffer[..], r, Pending(size, Clamp(writeOffset, size), r))
    }

    constructor (buffer: array?<char>, size: nat)
      requires buffer != null ==> buffer.Length == size
      ensures Valid() && Contents() == [] && this.buffer == buffer && this.size == size
    {
      this.buffer := buffer;
      this.size := size;
      writeOffset := 0;
      readOffset := 0;
    }

    /** onerom_rtt_write: the whole record or nothing. */
    method Write(data: seq<char>) returns (n: nat)
      requires Valid()
      modifies this`writeOffset, buffer
      ensures n == if Usable() && |old(Contents())| + |data| < size then |data| else 0
      ensures Contents() == if n == |data| && Usable() then old(Contents()) + data else old(Contents())
      ensures n < |data| && buffer != null ==> buffer[..] == old(buffer[..])
      ensures Usable() ==> writeOffset < size
    {
      if !Usable() {
        return 0;
      }
      if writeOffset >= size {
        writeOffset := 0;
      }
      ghost var r, was := Clamp(readOffset, size), Contents();
      FreeAndPending(size, r, writeOffset);
      if Avail(size, Clamp(readOffset, size), writeOffset) < |data| {
        return 0;
      }
      CopyIn(r, |was|, data);
      ghost var all := buffer[..];
      Advance(size, r, |was|, |data|);
      writeOffset := After(writeOffset, |data|, size);
      PendingIsDistance(size, r, |was| + |data|);
      assert Unread(all, r, |was| + |data|) == was + data;
      return |data|;
    }

    /** The two memcpys of a write: to the end of the buffer, then the rest at its front. */
    method CopyIn(ghost r: nat, ghost pending: nat, data: seq<char>)
      requires buffer != null && size == buffer.Length
      requires r < size && pending + |data| < size && writeOffset == At(r, pending, size)
      modifies buffer
      ensures forall k :: 0 <= k < pending ==> buffer[At(r, k, size)] == old(buffer[At(r, k, size)])
      ensures forall k :: 0 <= k < |data| ==> buffer[At(r, pending + k, size)] == data[k]
    {
      for i := 0 to |data|
        invariant forall k :: 0 <= k < pending ==> buffer[At(r, k, size)] == old(buffer[At(r, k, size)])
        invariant forall k :: 0 <= k < i ==> buffer[At(r, pending + k, size)] == data[k]
      {
        Advance(size, r, pending, i);
        buffer[At(writeOffset, i, size)] := data[i];
      }
    }

    /** onerom_rtt_read: the oldest unread bytes, at most maxLen of them. */
    method Read(maxLen: nat) returns (dest: seq<char>)
      requires Valid()
      modifies this`readOffset
      ensures var n := if maxLen < |old(Contents())| then maxLen else |old(Contents())|;
        dest == old(Contents())[..n] && Contents() == old(Contents())[n..]
    {
      hide At, After, Unread;
      if !Usable() {
        return [];
      }
      ghost var was := Contents();
      var w, r := Clamp(writeOffset, size), Clamp(readOffset, size);
      FreeAndPending(size, r, w);
      var pending := Pending(size, w, r);
      if pending > maxLen {
        pending := maxLen;
      }
      if pending == 0 {
        return [];
      }
      dest := CopyOut(r, pending, |was|);
      readOffset := After(r, pending, size);
      Advance(size, r, pending, 0);
      RestUnread(buffer[..], r, |was|, pending);
    }

    method CopyOut(r: nat, n: nat, ghost pending: nat) returns (dest: seq<char>)
      requires buffer != null && size == buffer.Length && r < size && n <= pending < size
      ensures dest == Unread(buffer[..], r, pending)[..n]
    {
      dest := [];
      for i := 0 to n
        invariant dest == Unread(buffer[..], r, pending)[..i]
      {
        dest := dest + [buffer[At(r, i, size)]];
      }
    }

    /** onerom_rtt_query: (size, free, pending) */
    method Query() returns (sizeOut: nat, free: nat, pending: nat)
      requires Valid()
      ensures !Usable() ==> sizeOut == free == pending == 0
      ensures Usable() ==> sizeOut == size == free + pending + 1 && pending == |Contents()|
    {
      if !Usable() {
        return 0, 0, 0;
      }
      var w, r := Clamp(writeOffset, size), Clamp(readOffset, size);
      FreeAndPending(size, r, w);
      pending := Pending(size, w, r);
      return size, size - 1 - pending, pending;
    }
  }

  /** Taking the first n unread bytes leaves the others unread. */
  lemma RestUnread(buffer: seq<char>, offset: nat, total: nat, n: nat)
    requires offset < |buffer| && n <= total < |buffer|
    ensures var o := After(offset, n, |buffer|);
      && o < |buffer|
      && Unread(buffer, o, total - n) == Unread(buffer, offset, total)[n..]
      && At(o, total - n, |buffer|) == At(offset, total, |buffer|)
      && Pending(|buffer|, At(offset, total, |buffer|), o) == total - n
  {
    var o := After(offset, n, |buffer|);
    forall k | 0 <= k <= total - n ensures At(o, k, |buffer|) == At(offset, n + k, |buffer|) {
      Advance(|buffer|, offset, n, k);
    }
    PendingIsDistance(|buffer|, o, total - n);
  }

  /** Records or chunks, one after the other. */
  function Flatten(records: seq<seq<char>>): seq<char> {
    if records == [] then [] else Flatten(records[..|records| - 1]) + records[|records| - 1]
  }

  lemma FlattenSnoc(records: seq<seq<char>>, r: seq<char>)
    ensures Flatten(records + [r]) == Flatten(records) + r
  {
    assert (records + [r])[..|records|] == records;
  }
}

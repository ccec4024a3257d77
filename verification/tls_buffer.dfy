/** SSLBuffer: a byte queue in one allocation, with 16-bit offset, size and
    capacity. */
module TlsBuffer {
  import opened Bytes

  const ALIGN := 8
  const LIMIT := 0x1_0000

  /** A 16-bit addition. */
  function Add16(a: nat, b: nat): nat { (a + b) % LIMIT }

  /** The capacity that is asked for leaves room for the alignment slack, or is
      refused. The seven capacities between are granted without it. */
  predicate LeavesSlack(newCap: nat) { newCap >= LIMIT || newCap + ALIGN - 1 < LIMIT }

  /** A granted capacity leaves slack exactly if, wherever the allocator puts the
      buffer and however its contents are consumed, the offset never wraps around. */
  lemma {:induction false} SlackIff(newCap: nat)
    requires newCap < LIMIT
    ensures LeavesSlack(newCap)
            <==> forall offset, n :: 0 <= offset < ALIGN && 0 <= n <= newCap ==> Add16(offset, n) == offset + n
  {
    if !LeavesSlack(newCap) { assert Add16(ALIGN - 1, newCap) != ALIGN - 1 + newCap; }
  }

  class Buffer {
    var buf: array?<byte>
    var offset: nat
    var size: nat
    var cap: nat
    ghost var Repr: set<object>

    ghost predicate Valid()
      reads this, Repr
    {
      && this in Repr
      && size <= cap < LIMIT && offset < LIMIT
      && (if buf == null then Repr == {this} && offset == 0 && cap == 0
          else Repr == {this, buf} && offset + cap <= buf.Length)
    }

    /** The offset cannot wrap around. */
    predicate Slack()
      reads this
    {
      offset + cap < LIMIT
    }

    ghost function Contents(): (s: seq<byte>)
      requires Valid()
      reads this, Repr
      ensures |s| == size
    {
      if buf == null then [] else buf[offset..offset + size]
    }

    constructor ()
      ensures Valid() && Contents() == [] && fresh(Repr) && Slack()
    {
      buf, offset, size, cap := null, 0, 0, 0;
      Repr := {this};
    }

    method Clear()
      requires Valid()
      modifies this
      ensures Valid() && Contents() == [] && Repr <= old(Repr) && Slack()
    {
      buf, offset, size, cap := null, 0, 0, 0;
      Repr := {this};
    }

    /** EnsureCap. The new allocation's address decides the alignment offset. */
    method EnsureCap(headerLen: nat, newCap: nat) returns (ok: bool)
      requires Valid()
      modifies this
      ensures Valid() && fresh(Repr - old(Repr))
      ensures old(Slack()) && LeavesSlack(newCap) ==> Slack()
      ensures Contents() == old(Contents())
      ensures ok == (newCap < LIMIT) && (ok ==> cap >= newCap) && (!ok ==> cap == old(cap))
    {
      if newCap >= LIMIT { return false; }
      if cap >= newCap { return true; }
      var newBuf := new byte[newCap + ALIGN - 1](_ => 0);
      var address: nat := *;
      var newOffset := (0 - headerLen as int - address as int) % ALIGN;
      if buf != null {
        ghost var contents := Contents();
        forall k | newOffset <= k < newOffset + size { newBuf[k] := buf[offset + k - newOffset]; }
        assert forall k :: newOffset <= k < newOffset + size ==> newBuf[k] == contents[k - newOffset];
        assert newBuf[newOffset..newOffset + size] == contents;
      }
      buf, offset, cap := newBuf, newOffset, newCap;
      Repr := {this, newBuf};
      return true;
    }

    /** Fills in bytes after the contents, then DidWrite. */
    method Write(bytes: seq<byte>)
      requires Valid() && |bytes| <= cap - size
      modifies Repr
      ensures Valid() && Repr == old(Repr) && cap == old(cap) && offset == old(offset)
      ensures Contents() == old(Contents()) + bytes
    {
      if |bytes| == 0 { return; }
      forall i | 0 <= i < |bytes| { buf[offset + size + i] := bytes[i]; }
      ghost var before := old(Contents());
      size := size + |bytes|;
      assert buf[offset..offset + size] == before + bytes;
    }

    /** Consume: drops bytes from the front, unless the 16-bit offset wraps around. */
    method Consume(n: nat)
      requires Valid() && n <= size
      modifies this
      ensures Valid() && Repr == old(Repr)
      ensures offset == Add16(old(offset), n) && size == old(size) - n && cap == old(cap) - n
      ensures old(offset) + n < LIMIT ==> Contents() == old(Contents())[n..]
      ensures old(Slack()) ==> Slack() && Contents() == old(Contents())[n..]
    {
      offset := Add16(offset, n);
      size := size - n;
      cap := cap - n;
    }
  }
}

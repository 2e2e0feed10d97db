/**
 * The java.nio.ByteBuffer of MiniSlipstreamSocksBridge.kt, always left in write mode: the first
 * pos bytes wait to be parsed or written.
 */
module ByteBuffers {
  import opened Bytes

  class ByteBuffer {
    const data: array<Byte>
    var pos: nat
    ghost var content: seq<Byte>

    ghost predicate Valid()
      reads this, data
    {
      |content| == pos <= data.Length && data[..pos] == content
    }

    constructor (capacity: nat)
      ensures Valid() && content == [] && data.Length == capacity && fresh(data)
    {
      data := new Byte[capacity](_ => 0);
      pos := 0;
      content := [];
    }

    function Position(): (n: nat)
      requires Valid()
      reads this, data
      ensures n == |content| <= data.Length
    {
      pos
    }

    /** array().copyOf(position()). */
    function Copy(): (r: seq<Byte>)
      requires Valid()
      reads this, data
      ensures r == content
    {
      data[..pos]
    }

    function Remaining(): (n: nat)
      requires Valid()
      reads this, data
      ensures n == data.Length - |content|
    {
      data.Length - pos
    }

    /** put. */
    method Put(bytes: seq<Byte>)
      requires Valid() && |content| + |bytes| <= data.Length
      modifies this`pos, this`content, data
      ensures Valid() && content == old(content) + bytes
    {
      forall i | 0 <= i < |bytes| {
        data[pos + i] := bytes[i];
      }
      pos := pos + |bytes|;
      content := content + bytes;
      assert data[..pos] == content;
    }

    /** queue: all the bytes, or none of them when they do not fit. */
    method Queue(bytes: seq<Byte>)
      requires Valid()
      modifies this`pos, this`content, data
      ensures Valid()
      ensures content == if old(|content|) + |bytes| <= data.Length then old(content) + bytes else old(content)
    {
      if Remaining() < |bytes| {
        return;
      }
      Put(bytes);
    }

    /** System.arraycopy(data, count, data, 0, pos - count) and the new position. */
    method ShiftDown(count: nat)
      requires Valid() && count <= |content|
      modifies this`pos, this`content, data
      ensures Valid() && content == old(content)[count..]
    {
      forall i | 0 <= i < pos - count {
        data[i] := data[count + i];
      }
      pos := pos - count;
      content := content[count..];
    }

    /** consume. */
    method Consume(count: nat)
      requires Valid()
      modifies this`pos, this`content, data
      ensures Valid() && content == if count >= old(|content|) then [] else old(content)[count..]
    {
      if count >= pos {
        Clear();
        return;
      }
      ShiftDown(count);
    }

    method Clear()
      requires Valid()
      modifies this`pos, this`content
      ensures Valid() && content == []
    {
      pos := 0;
      content := [];
    }
  }
}

/** The growable buffer of dev/svr/3rd/mongoose.c (mbuf_append, mbuf_remove).
  A failing allocation is not modelled. */
module Mbufs {

  class Mbuf<T(0)> {
    var buf: array<T>
    var len: nat

    ghost predicate Valid()
      reads this
    {
      len <= buf.Length
    }

    ghost function Contents(): seq<T>
      requires Valid()
      reads this, buf
    {
      buf[..len]
    }

    constructor (initial: nat)
      ensures Valid() && Contents() == [] && fresh(buf)
    {
      buf := new T[initial];
      len := 0;
    }

    /** memmove inside the buffer. */
    method Move(dst: nat, src: nat, n: nat)
      requires dst + n <= buf.Length && src + n <= buf.Length
      modifies buf
      ensures buf[dst..dst + n] == old(buf[src..src + n])
      ensures buf[..dst] == old(buf[..dst]) && buf[dst + n..] == old(buf[dst + n..])
    {
      forall k | 0 <= k < n {
        buf[dst + k] := buf[src + k];
      }
    }

    /** memcpy from outside. */
    method Fill(dst: nat, data: seq<T>)
      requires dst + |data| <= buf.Length
      modifies buf
      ensures buf[dst..dst + |data|] == data
      ensures buf[..dst] == old(buf[..dst]) && buf[dst + |data|..] == old(buf[dst + |data|..])
    {
      forall k | 0 <= k < |data| {
        buf[dst + k] := data[k];
      }
    }

    method Grow(size: nat)
      requires Valid() && len <= size
      modifies this`buf
      ensures Valid() && Contents() == old(Contents()) && fresh(buf) && buf.Length == size
    {
      var bigger := new T[size];
      forall k | 0 <= k < len {
        bigger[k] := buf[k];
      }
      assert bigger[..len] == buf[..len];
      buf := bigger;
    }

    /** mbuf_append: mbuf_insert at the end, growing by half of the new length when full. */
    method Append(data: seq<T>)
      requires Valid()
      modifies this, buf
      ensures Valid() && Contents() == old(Contents()) + data
      ensures buf == old(buf) || fresh(buf)
    {
      ghost var before := Contents();
      if len + |data| > buf.Length {
        Grow((len + |data|) * 3 / 2);
      }
      Fill(len, data);
      assert buf[..len] == before;
      len := len + |data|;
      assert buf[..len] == before + data;
    }

    /** mbuf_remove: the first n bytes, if there are that many. */
    method Remove(n: nat)
      requires Valid()
      modifies this`len, buf
      ensures Valid() && Contents() == if n <= old(len) then old(Contents()[n..]) else old(Contents())
    {
      if n > 0 && n <= len {
        Move(0, n, len - n);
        len := len - n;
        assert buf[..len] == buf[0..0 + len];
      }
    }
  }
}

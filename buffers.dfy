/** Fixed-capacity character buffers: an in-place copy (`memcpy`, or the digits that
    `to_chars` writes) and the output side of a connection's exchange pipes. */
module Buffers {

  /** Overwrites `buf[at..at + |src|]` with `src`, leaving every other byte as it was. */
  method CopyInto(buf: array<char>, at: nat, src: seq<char>)
    requires at + |src| <= buf.Length
    modifies buf
    ensures buf[..] == old(buf[..at]) + src + old(buf[at + |src|..])
  {
    var i := 0;
    while i < |src|
      invariant 0 <= i <= |src|
      invariant forall k :: 0 <= k < at ==> buf[k] == old(buf[k])
      invariant forall k :: 0 <= k < i ==> buf[at + k] == src[k]
      invariant forall k :: at + i <= k < buf.Length ==> buf[k] == old(buf[k])
    {
      buf[at + i] := src[i];
      i := i + 1;
    }
    assert buf[..] == old(buf[..at]) + src + old(buf[at + |src|..]) by {
      var expected := old(buf[..at]) + src + old(buf[at + |src|..]);
      assert |buf[..]| == |expected|;
      forall k | 0 <= k < buf.Length ensures buf[..][k] == expected[k] {
        if k < at {
        } else if k < at + |src| {
          assert buf[at + (k - at)] == src[k - at];
        } else {
        }
      }
    }
  }

  /** The output side of `exchange_pipes_t`: the bytes produced so far for the client,
      held at the front of a buffer of fixed capacity. */
  class OutputPipe {
    const buf: array<char>
    var size: nat

    ghost predicate Valid()
      reads this
    {
      size <= buf.Length
    }

    /** `output_span()`: the bytes written so far. */
    ghost function Output(): seq<char>
      reads this, buf
      requires Valid()
    {
      buf[..size]
    }

    constructor (capacity: nat)
      ensures Valid() && fresh(buf)
      ensures buf.Length == capacity && Output() == []
    {
      buf := new char[capacity];
      size := 0;
    }

    /** `append_outputs`: appends `s` when it fits in the remaining capacity and reports
        whether it did; a rejected append leaves the output as it was. */
    method AppendOutputs(s: seq<char>) returns (ok: bool)
      requires Valid()
      modifies this, buf
      ensures Valid()
      ensures ok == (old(size) + |s| <= buf.Length)
      ensures Output() == if ok then old(Output()) + s else old(Output())
    {
      ok := size + |s| <= buf.Length;
      if ok {
        Append(s);
      }
    }

    /** `append_reserved`: appends `s` into room the caller has already reserved. */
    method AppendReserved(s: seq<char>)
      requires Valid()
      requires size + |s| <= buf.Length
      modifies this, buf
      ensures Valid()
      ensures Output() == old(Output()) + s
    {
      Append(s);
    }

    method Append(s: seq<char>)
      requires Valid()
      requires size + |s| <= buf.Length
      modifies this, buf
      ensures Valid()
      ensures Output() == old(Output()) + s
    {
      ghost var before := buf[..size];
      CopyInto(buf, size, s);
      assert buf[..size + |s|] == (before + s + old(buf[size + |s|..]))[..size + |s|];
      size := size + |s|;
    }
  }
}

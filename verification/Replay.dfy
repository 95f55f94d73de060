/** Connections whose first bytes were read ahead and must be delivered again. */
module Replay {
  import opened Bytes
  import opened Wrappers

  /** A byte stream that arrives in chunks of any size. */
  class Source {
    var pending: Str

    constructor (stream: Str)
      ensures pending == stream
    {
      pending := stream;
    }

    /** Delivers some bytes, at least one while there are any; none means the end of the stream. */
    method Read(len: nat) returns (data: Str)
      requires len > 0
      modifies this
      ensures old(pending) == data + pending && |data| <= len
      ensures data == [] ==> pending == []
    {
      if pending == [] {
        return [];
      }
      var n: nat :| 1 <= n <= len && n <= |pending|;
      data := pending[..n];
      pending := pending[n..];
    }

    /** `io.ReadFull`. */
    method ReadFull(len: nat) returns (data: Option<Str>)
      modifies this
      ensures data.Some? <==> |old(pending)| >= len
      ensures data.Some? ==> |data.value| == len && old(pending) == data.value + pending
    {
      var got: Str := [];
      while |got| < len
        invariant |got| <= len && old(pending) == got + pending
        decreases len - |got|
      {
        var more := Read(len - |got|);
        if more == [] {
          return None;
        }
        got := got + more;
      }
      return Some(got);
    }
  }

  /** The connection of the split listener: one byte was read to look for TLS. */
  class PeekedConn {
    const source: Source
    const first: Byte
    var unread: bool

    ghost function Remaining(): Str
      reads this, source
    {
      (if unread then [first] else []) + source.pending
    }

    constructor (source: Source, first: Byte)
      ensures this.source == source && this.first == first && unread
    {
      this.source, this.first, this.unread := source, first, true;
    }

    method Read(len: nat) returns (data: Str)
      requires len > 0
      modifies this, source
      ensures old(Remaining()) == data + Remaining() && |data| <= len
      ensures data == [] ==> Remaining() == []
    {
      if unread {
        unread := false;
        data := [first];
        if len > 1 {
          var rest := source.Read(len - 1);
          data := data + rest;
        }
        return;
      }
      data := source.Read(len);
    }

    /** Whatever the chunks of the stream and the sizes of the buffers, the reader gets the original
        stream, in order; and all of it after as many reads as it has bytes. */
    method Drain(sizes: seq<nat>) returns (data: Str)
      requires forall i :: 0 <= i < |sizes| ==> sizes[i] > 0
      modifies this, source
      ensures old(Remaining()) == data + Remaining()
      ensures |sizes| >= |old(Remaining())| ==> data == old(Remaining())
    {
      data := [];
      for i := 0 to |sizes|
        invariant old(Remaining()) == data + Remaining()
        invariant |data| >= i || Remaining() == []
      {
        var more := Read(sizes[i]);
        data := data + more;
      }
    }
  }

  /** The first byte of an accepted connection, put back; nothing when the stream is empty. */
  method Peek(source: Source) returns (conn: Option<PeekedConn>)
    modifies source
    ensures conn.None? <==> old(source.pending) == []
    ensures conn.Some? ==> conn.value.source == source && fresh(conn.value) && conn.value.Remaining() == old(source.pending)
  {
    var b := source.Read(1);
    if b == [] {
      return None;
    }
    var c := new PeekedConn(source, b[0]);
    return Some(c);
  }

  /** The connection after the byte checks: the bytes checked, then the rest of the stream. */
  class BufferedConn {
    const source: Source
    var initial: Str

    ghost function Remaining(): Str
      reads this, source
    {
      initial + source.pending
    }

    constructor (source: Source, initial: Str)
      ensures this.source == source && this.initial == initial
    {
      this.source, this.initial := source, initial;
    }

    /** Reads from the first part until it is used up, then from the stream. */
    method Read(len: nat) returns (data: Str)
      requires len > 0
      modifies this, source
      ensures old(Remaining()) == data + Remaining() && |data| <= len
      ensures data == [] ==> Remaining() == []
    {
      if initial != [] {
        var n := if len < |initial| then len else |initial|;
        data := initial[..n];
        initial := initial[n..];
        return;
      }
      data := source.Read(len);
    }

    method Drain(sizes: seq<nat>) returns (data: Str)
      requires forall i :: 0 <= i < |sizes| ==> sizes[i] > 0
      modifies this, source
      ensures old(Remaining()) == data + Remaining()
      ensures |sizes| >= |old(Remaining())| ==> data == old(Remaining())
    {
      data := [];
      for i := 0 to |sizes|
        invariant old(Remaining()) == data + Remaining()
        invariant |data| >= i || Remaining() == []
      {
        var more := Read(sizes[i]);
        data := data + more;
      }
    }
  }

  datatype ByteCheck = ByteCheck(any: bool, values: seq<Byte>)

  predicate Allows(c: ByteCheck, b: Byte) {
    c.any || b in c.values
  }

  /** The stream is long enough, and every checked position holds an allowed byte. */
  predicate Passes(checks: seq<ByteCheck>, stream: Str) {
    |stream| >= |checks| && forall i :: 0 <= i < |checks| ==> Allows(checks[i], stream[i])
  }

  method Matches(check: ByteCheck, b: Byte) returns (matched: bool)
    ensures matched <==> b in check.values
  {
    matched := false;
    for i := 0 to |check.values|
      invariant b !in check.values[..i]
    {
      if b == check.values[i] {
        return true;
      }
    }
    assert check.values[..|check.values|] == check.values;
  }

  /** `validateInitialBytes`: accepts exactly the streams that pass, and gives the whole stream back. */
  method ValidateInitialBytes(source: Source, checks: seq<ByteCheck>) returns (conn: Option<BufferedConn>)
    modifies source
    ensures conn.Some? <==> Passes(checks, old(source.pending))
    ensures conn.Some? <==>
            && |old(source.pending)| >= |checks|
            && forall i :: 0 <= i < |checks| ==> checks[i].any || old(source.pending)[i] in checks[i].values
    ensures conn.Some? ==> conn.value.source == source && fresh(conn.value) && conn.value.Remaining() == old(source.pending)
  {
    var initial := source.ReadFull(|checks|);
    if initial.None? {
      return None;
    }
    assert initial.value <= old(source.pending);
    for i := 0 to |checks|
      invariant source.pending == old(source.pending)[|checks|..]
      invariant forall k :: 0 <= k < i ==> Allows(checks[k], initial.value[k])
    {
      if checks[i].any {
        continue;
      }
      var matched := Matches(checks[i], initial.value[i]);
      if !matched {
        return None;
      }
    }
    var c := new BufferedConn(source, initial.value);
    return Some(c);
  }
}

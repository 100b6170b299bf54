/**
 `lib/async-append-aio.c`: writes in flight, described by a ring of control blocks, out of
 a ring of bytes.
 */
module AsyncAppend {
  import opened ByteQueue

  const BUFFER_SIZE: nat := 65536

  /** A control block: which bytes of the buffer are being written. */
  datatype Cb = Cb(at: nat, n: nat)

  function Sum(chunks: seq<nat>): nat {
    if chunks == [] then 0 else chunks[0] + Sum(chunks[1..])
  }

  lemma {:induction false} SumSnoc(chunks: seq<nat>, n: nat)
    ensures Sum(chunks + [n]) == Sum(chunks) + n
  {
    if chunks != [] {
      SumSnoc(chunks[1..], n);
      assert (chunks + [n])[1..] == chunks[1..] + [n];
    } else {
      assert ([n])[1..] == [];
    }
  }

  /**
   From the first on, the live control blocks are nonempty chunks of the buffer, one after
   the other, none of which wraps.
   */
  ghost predicate Tiles(cbs: seq<Cb>, first: nat, size: nat, from: nat, chunks: seq<nat>)
    requires cbs != [] && size > 0
    decreases |chunks|
  {
    chunks == [] ||
    (&& chunks[0] > 0 && Place(from, size) + chunks[0] <= size
     && cbs[Place(first, |cbs|)] == Cb(Place(from, size), chunks[0])
     && Tiles(cbs, first + 1, size, from + chunks[0], chunks[1..]))
  }

  /** Another control block after the last. */
  lemma {:induction false} TilesSnoc(cbs: seq<Cb>, cbs': seq<Cb>, first: nat, size: nat, from: nat, chunks: seq<nat>, n: nat)
    requires cbs != [] && size > 0 && |cbs'| == |cbs| && Tiles(cbs, first, size, from, chunks) && |chunks| < |cbs|
    requires n > 0 && Place(from + Sum(chunks), size) + n <= size
    requires cbs' == cbs[Place(first + |chunks|, |cbs|) := Cb(Place(from + Sum(chunks), size), n)]
    ensures Tiles(cbs', first, size, from, chunks + [n])
    decreases |chunks|
  {
    hide Place;
    if chunks == [] {
      assert (chunks + [n])[1..] == [];
    } else {
      assert (chunks + [n])[1..] == chunks[1..] + [n];
      PlacesDiffer(first, first + |chunks|, |cbs|);
      TilesSnoc(cbs, cbs', first + 1, size, from + chunks[0], chunks[1..], n);
    }
  }

  class Appender {
    const maxCbs: nat
    const cbs: array<Cb>
    var cbHead: nat
    var cbTail: nat
    const q: Queue
    /** How many control blocks were ever used and retired, and the sizes of those in between. */
    ghost var made: nat
    ghost var done: nat
    ghost var chunks: seq<nat>
    /** What has been written to the file. */
    ghost var file: seq<Byte>

    ghost predicate Valid()
      reads this, q, cbs
    {
      && q.Valid() && q.size == BUFFER_SIZE
      && SizeOk(maxCbs) && cbs.Length == maxCbs
      && cbHead == Wrap(made) && cbTail == Wrap(done) && made == done + |chunks| && |chunks| <= maxCbs
      && Sum(chunks) == q.put - q.got
      && Tiles(cbs[..], done, q.size, q.got, chunks)
    }

    /** All that was ever submitted: what has been written, then what is in flight. */
    ghost function Log(): seq<Byte>
      requires Valid()
      reads this, q, cbs, q.buffer
    {
      file + q.Contents()
    }

    /** `async_append_create`. */
    constructor (maxCbs: nat)
      requires SizeOk(maxCbs)
      ensures Valid() && Log() == [] && fresh(q) && fresh(q.buffer) && fresh(cbs)
    {
      this.maxCbs, cbHead, cbTail, made, done, chunks, file := maxCbs, 0, 0, 0, 0, [], [];
      cbs := new Cb[maxCbs](i => Cb(0, 0));
      var buffer := new Byte[BUFFER_SIZE](i => 0);
      q := new Queue(BUFFER_SIZE, buffer);
    }

    /** `async_append_is_empty`: no byte is queued exactly if no write is in flight. */
    function IsEmpty(): (r: bool)
      requires Valid()
      reads this, q, cbs
      ensures r <==> chunks == []
    {
      q.Used() == 0
    }

    /** `async_append_is_full`. */
    function IsFull(): (r: bool)
      requires Valid()
      reads this, q, cbs
      ensures r <==> |chunks| == maxCbs || q.put - q.got == q.size
      ensures r ==> chunks != []
    {
      WrappedDistance(made, done);
      Minus(cbHead, cbTail) >= maxCbs || q.Used() == q.size
    }

    /** Retires the oldest write: its bytes are in the file, and the assertion on the tailroom holds. */
    method Retire()
      requires Valid() && chunks != []
      modifies this, q
      ensures Valid() && Log() == old(Log()) && q.put - q.got < old(q.put - q.got)
    {
      hide Ring, Place, Wrap;
      var cb := cbs[Place(cbTail, maxCbs)];
      WrapKeepsPlace(done, maxCbs);
      ghost var n := chunks[0];
      RingSplit(q.buffer[..], q.got, n, q.put - q.got - n);
      RingStraight(q.buffer[..], q.got, n);
      file := file + q.buffer[cb.at..cb.at + cb.n];
      WrapAdd(done, 1);
      cbTail, done := Wrap(cbTail + 1), done + 1;
      q.AdvanceTail(cb.n);
      chunks := chunks[1..];
    }

    /**
     `async_append_wait`: retires at least the oldest write if there is one, and then those
     that are done already.  A suspension lasts until the oldest write is done.
     */
    method Wait()
      requires Valid()
      modifies this, q
      ensures Valid() && Log() == old(Log())
      ensures old(chunks) != [] ==> q.put - q.got < old(q.put - q.got)
    {
      hide Tiles, Ring, Wrap;
      ghost var wasEmpty := IsEmpty();
      var n, suspended := 0, false;
      while !IsEmpty()
        invariant Valid() && Log() == old(Log()) && q.put - q.got <= old(q.put - q.got)
        invariant n > 0 ==> q.put - q.got < old(q.put - q.got)
        decreases q.put - q.got, if suspended then 0 else 1
      {
        var inProgress := false;
        if * { inProgress := !suspended; }
        if inProgress {
          if n > 0 {
            return;
          }
          suspended := true;
        } else {
          Retire();
          n, suspended := n + 1, false;
        }
      }
    }

    /** `async_append_flush`. */
    method Flush()
      requires Valid()
      modifies this, q
      ensures Valid() && chunks == [] && file == old(Log())
    {
      hide Tiles, Ring, Wrap;
      while !IsEmpty()
        invariant Valid() && Log() == old(Log())
        decreases q.put - q.got
      {
        Wait();
      }
      assert q.Contents() == [];
    }

    /** Starts the write of a chunk that was stored after the head. */
    method Start(ghost chunk: seq<Byte>, n: nat)
      requires Valid() && 0 < n == |chunk| <= q.Headroom() && |chunks| < maxCbs
      requires q.buffer[Place(q.put, q.size)..Place(q.put, q.size) + n] == chunk
      modifies this, q, cbs
      ensures Valid() && Log() == old(Log()) + chunk
    {
      hide Ring, Place, Wrap, Tiles;
      WrapKeepsPlace(made, maxCbs);
      WrapKeepsPlace(q.put, q.size);
      ghost var was := cbs[..];
      cbs[Place(cbHead, maxCbs)] := Cb(Place(q.head, q.size), n);
      TilesSnoc(was, cbs[..], done, q.size, q.got, chunks, n);
      SumSnoc(chunks, n);
      q.AdvanceHead(n);
      WrapAdd(made, 1);
      cbHead, made, chunks := Wrap(cbHead + 1), made + 1, chunks + [n];
    }

    /** The waiting at the head of the loop in `async_append_write`. */
    method MakeRoom()
      requires Valid()
      modifies this, q
      ensures Valid() && Log() == old(Log()) && !IsFull()
    {
      hide Tiles, Ring, Wrap;
      while IsFull()
        invariant Valid() && Log() == old(Log())
        decreases q.put - q.got
      {
        Wait();
      }
    }

    /** What is done when a write cannot be started: all the rest is written at once. */
    method WriteThrough(rest: seq<Byte>)
      requires Valid()
      modifies this, q
      ensures Valid() && Log() == old(Log()) + rest
    {
      hide Tiles, Ring, Wrap;
      Flush();
      file := file + rest;
      assert q.Contents() == [];
    }

    /** One round of the loop: the data from 'i' up to 'next'. */
    method WriteSome(data: seq<Byte>, i: nat) returns (next: nat)
      requires Valid() && i < |data|
      modifies this, q, q.buffer, cbs
      ensures Valid() && i < next <= |data| && Log() == old(Log()) + data[i..next]
    {
      hide Tiles, Ring, Wrap, Place;
      MakeRoom();
      var n := if q.Headroom() <= |data| - i then q.Headroom() else |data| - i;
      q.Store(data[i..i + n]);
      if * {
        WriteThrough(data[i..]);
        return |data|;
      }
      Start(data[i..i + n], n);
      next := i + n;
    }

    /**
     `async_append_write`: the data follows all that was submitted before, whether its
     writes can be started or have to be replaced by one that is waited for.
     */
    method Write(data: seq<Byte>)
      requires Valid()
      modifies this, q, q.buffer, cbs
      ensures Valid() && Log() == old(Log()) + data
    {
      hide Appender.Valid, Appender.Log;
      var i := 0;
      ghost var log := Log();
      while i < |data|
        invariant Valid() && i <= |data| && Log() == log + data[..i]
      {
        var next := WriteSome(data, i);
        assert data[..i] + data[i..next] == data[..next];
        i := next;
      }
      assert data[..i] == data;
    }
  }

  /** Each write in flight still has its own bytes in the buffer: nothing overwrites them. */
  lemma {:induction false} ChunksAreContents(cbs: seq<Cb>, first: nat, buf: seq<Byte>, from: nat, chunks: seq<nat>, i: nat)
    requires cbs != [] && buf != [] && Tiles(cbs, first, |buf|, from, chunks) && i < |chunks|
    ensures var cb, skip := cbs[Place(first + i, |cbs|)], Sum(chunks[..i]);
            && cb.n == chunks[i] > 0 && cb.at + cb.n <= |buf| && skip + cb.n <= Sum(chunks)
            && buf[cb.at..cb.at + cb.n] == Ring(buf, from, Sum(chunks))[skip..skip + cb.n]
    decreases |chunks|
  {
    hide Place, Ring;
    RingSplit(buf, from, chunks[0], Sum(chunks[1..]));
    if i == 0 {
      RingStraight(buf, from, chunks[0]);
      assert chunks[..0] == [];
    } else {
      ChunksAreContents(cbs, first + 1, buf, from + chunks[0], chunks[1..], i - 1);
      assert chunks[..i][1..] == chunks[1..][..i - 1];
      assert first + 1 + (i - 1) == first + i;
      var r, n := Ring(buf, from + chunks[0], Sum(chunks[1..])), Sum(chunks[1..][..i - 1]);
      assert (Ring(buf, from, chunks[0]) + r)[chunks[0] + n..chunks[0] + n + chunks[i]] == r[n..n + chunks[i]];
    }
  }
}

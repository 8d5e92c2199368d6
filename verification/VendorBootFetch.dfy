/**
 * Reading a vendor_boot partition back from the device: chunk after chunk is
 * requested, received in fragments, appended to one private file through an
 * offsetting sink, and the file is published only when it is complete.
 */
module VendorBootFetch {
  import opened Common
  import opened Progress

  // ----- Tiles

  datatype Request = Request(offset: nat, size: nat)

  function TileCount(size: nat, max: nat): nat
    requires max > 0
  {
    (size + max - 1) / max
  }

  /** The k-th request; empty past the end. */
  function Tile(size: nat, max: nat, k: nat): Request {
    Request(k * max, if k * max < size then Min(max, size - k * max) else 0)
  }

  lemma Multiples(a: nat, b: nat, max: nat)
    requires a < b
    ensures a * max + max <= b * max
  {
    assert b * max == a * max + (b - a) * max;
    assert (b - a) * max == max + (b - a - 1) * max;
  }

  lemma Quotient(x: nat, max: nat)
    requires max > 0
    ensures (x / max) * max <= x < (x / max) * max + max
  {
  }

  lemma TileStart(size: nat, max: nat, k: nat)
    requires max > 0
    ensures k < TileCount(size, max) <==> k * max < size
  {
    var n := TileCount(size, max);
    Quotient(size + max - 1, max);
    if k < n {
      Multiples(k, n, max);
    } else if k > n {
      Multiples(n, k, max);
    }
  }

  function Tiles(size: nat, max: nat): seq<Request>
    requires max > 0
  {
    seq(TileCount(size, max), k requires 0 <= k => Tile(size, max, k))
  }

  /** One tile ends where the next starts, the first starts at zero and the last ends at the end. */
  lemma TilesJoin(size: nat, max: nat, k: nat)
    requires max > 0 && k < TileCount(size, max)
    ensures Tile(size, max, 0).offset == 0
    ensures 0 < Tile(size, max, k).size <= max
    ensures var next := Tile(size, max, k).offset + Tile(size, max, k).size;
            next == if k + 1 < TileCount(size, max) then Tile(size, max, k + 1).offset else size
  {
    TileStart(size, max, k);
    TileStart(size, max, k + 1);
    TileStart(size, max, 0);
    assert (k + 1) * max == k * max + max;
  }

  predicate Covers(r: Request, position: nat) {
    r.offset <= position < r.offset + r.size
  }

  /** Every position of the partition lies in exactly one tile. */
  lemma TilesCoverOnce(size: nat, max: nat, position: nat)
    requires max > 0 && position < size
    ensures position / max < TileCount(size, max) && Covers(Tile(size, max, position / max), position)
    ensures forall k: nat :: k < TileCount(size, max) && Covers(Tile(size, max, k), position) ==> k == position / max
  {
    var q := position / max;
    Quotient(position, max);
    TileStart(size, max, q);
    forall k: nat | k < TileCount(size, max) && Covers(Tile(size, max, k), position) ensures k == q {
      TileStart(size, max, k);
      SameQuotient(position, max, k);
    }
  }

  lemma SameQuotient(position: nat, max: nat, k: nat)
    requires max > 0 && k * max <= position < k * max + max
    ensures k == position / max
  {
    var q := position / max;
    Quotient(position, max);
    if k < q { Multiples(k, q, max); }
    if q < k { Multiples(q, k, max); }
  }

  // ----- Sinks

  const MAXIMUM_FILE_OFFSET := 0x7FFF_FFFF_FFFF_FFFF

  datatype SinkState = Open | Failed | Sealed | Discarded

  datatype WriteResult = WriteResult(ok: bool, transferred: nat)

  /** A private file that only grows in order and is published by sealing it at its exact size. */
  class FileSink {
    var state: SinkState
    var file: seq<Byte>
    var published: Option<seq<Byte>>

    ghost predicate Valid()
      reads this
    {
      published == if state == Sealed then Some(file) else None
    }

    constructor ()
      ensures Valid() && state == Open && file == []
    {
      state, file, published := Open, [], None;
    }

    ghost predicate WillStore(offset: nat, source: seq<Byte>, stored: nat)
      reads this
    {
      && state == Open && offset == |file| && offset + |source| <= U64_MAX
      && (source != [] ==> offset <= MAXIMUM_FILE_OFFSET && stored >= |source|)
    }

    /** `stored` is how many bytes the file system takes before it reports an error. */
    method Write(offset: nat, source: seq<Byte>, stored: nat) returns (r: WriteResult)
      requires Valid()
      modifies this
      ensures Valid()
      ensures r.ok <==> old(WillStore(offset, source, stored))
      ensures r.ok ==> r.transferred == |source| && state == Open && file == old(file) + source
      ensures !r.ok ==> r.transferred <= |source| && file == old(file)
      ensures !r.ok ==> state == if old(state) == Open then Failed else old(state)
    {
      if state != Open { return WriteResult(false, 0); }
      if offset != |file| || |source| > U64_MAX - offset {
        state := Failed;
        return WriteResult(false, 0);
      }
      if source == [] {
        assert file + source == file;
        return WriteResult(true, 0);
      }
      if offset > 0x7FFF_FFFF_FFFF_FFFF || stored < |source| {
        state := Failed;
        return WriteResult(false, if offset > MAXIMUM_FILE_OFFSET then 0 else stored);
      }
      file := file + source;
      return WriteResult(true, |source|);
    }

    /** `synced` is whether the file system could flush and rename the file. */
    method Seal(expected: nat, synced: bool) returns (ok: bool)
      requires Valid()
      modifies this
      ensures Valid() && file == old(file)
      ensures ok <==> expected == |file| && (old(state) == Sealed || (old(state) == Open && synced))
      ensures state == if ok then Sealed else if old(state) == Open then Failed else old(state)
    {
      if state == Sealed { return expected == |file|; }
      if state != Open { return false; }
      if expected != |file| || !synced {
        state := Failed;
        return false;
      }
      state, published := Sealed, Some(file);
      return true;
    }

    method Discard()
      requires Valid()
      modifies this
      ensures Valid() && file == old(file)
      ensures state == if old(state) == Sealed then Sealed else Discarded
    {
      if state == Sealed || state == Discarded { return; }
      state := Discarded;
    }
  }

  /** Shifts one chunk's offsets to the chunk's place in the file. */
  class OffsetSink {
    const sink: FileSink
    const base: nat

    constructor (sink: FileSink, base: nat)
      ensures this.sink == sink && this.base == base
    {
      this.sink, this.base := sink, base;
    }

    method Write(offset: nat, source: seq<Byte>, stored: nat) returns (r: WriteResult)
      requires sink.Valid()
      modifies sink
      ensures sink.Valid()
      ensures r.ok <==> base + offset <= U64_MAX && old(sink.WillStore(base + offset, source, stored))
      ensures r.ok ==> r.transferred == |source| && sink.state == Open && sink.file == old(sink.file) + source
      ensures !r.ok ==> r.transferred <= |source| && sink.file == old(sink.file)
      ensures !r.ok ==> (sink.state == Sealed <==> old(sink.state) == Sealed)
    {
      if offset > U64_MAX - base { return WriteResult(false, 0); }
      r := sink.Write(base + offset, source, stored);
    }
  }

  // ----- Receiving one chunk

  /**
   * One transport read: the bytes it delivered, whether it was a certain success, how many bytes the file
   * system then takes, and whether the progress observer cancels.
   */
  datatype Packet = Packet(bytes: seq<Byte>, ok: bool, stored: nat, cancel: bool)

  function Flat(packets: seq<Packet>): seq<Byte> {
    if packets == [] then [] else packets[0].bytes + Flat(packets[1..])
  }

  /** The reads bring `remaining` bytes, each at least one and at most what was asked for. */
  predicate Delivers(packets: seq<Packet>, remaining: nat, buffer: nat) {
    || remaining == 0
    || (&& packets != [] && packets[0].ok && 0 < |packets[0].bytes| <= Min(buffer, remaining)
        && packets[0].stored >= |packets[0].bytes| && !packets[0].cancel
        && Delivers(packets[1..], remaining - |packets[0].bytes|, buffer))
  }

  /** What packet i adds to the bytes received and leaves to the rest. */
  lemma PacketStep(packets: seq<Packet>, i: nat, got: seq<Byte>, remaining: nat, buffer: nat)
    requires i < |packets| && 0 < remaining && 0 < |packets[i].bytes| <= Min(buffer, remaining) && packets[i].ok
    ensures got + Flat(packets[i..]) == (got + packets[i].bytes) + Flat(packets[i + 1..])
    ensures Delivers(packets[i..], remaining, buffer)
       <==> packets[i].stored >= |packets[i].bytes| && !packets[i].cancel
            && Delivers(packets[i + 1..], remaining - |packets[i].bytes|, buffer)
  {
    var rest := packets[i..];
    assert rest[0] == packets[i] && rest[1..] == packets[i + 1..];
  }

  predicate EndsAt(progress: seq<nat>, total: nat) {
    progress != [] && progress[|progress| - 1] == total
  }

  /** Progress values up to `done`, ending there unless nothing is done. */
  predicate ProgressTo(progress: seq<nat>, done: nat) {
    Monotone(progress, 0, done) && (done > 0 ==> EndsAt(progress, done))
  }

  lemma ProgressNext(progress: seq<nat>, done: nat, more: nat)
    requires ProgressTo(progress, done)
    ensures ProgressTo(progress + [done + more], done + more)
  {
    MonotoneSnoc(progress, 0, done, done + more);
  }

  lemma ProgressGoesOn(progress: seq<nat>, done: nat, more: seq<nat>, step: nat)
    requires ProgressTo(progress, done) && Monotone(more, 0, step)
    ensures Monotone(progress + Shift(more, done), 0, done + step)
    ensures EndsAt(more, step) ==> ProgressTo(progress + Shift(more, done), done + step)
  {
    ShiftMonotone(progress, done, more, step);
  }

  lemma Appended(file: seq<Byte>, got: seq<Byte>, bytes: seq<Byte>)
    ensures file + got + bytes == file + (got + bytes)
  {
  }

  /** One read: stored in full, or refused. */
  method TakePacket(sink: OffsetSink, committed: nat, remaining: nat, buffer: nat, packet: Packet) returns (ok: bool)
    requires sink.sink.Valid() && sink.sink.state == Open && |sink.sink.file| == sink.base + committed
    requires remaining > 0 && sink.base + committed + remaining <= MAXIMUM_FILE_OFFSET
    modifies sink.sink
    ensures sink.sink.Valid() && sink.sink.state != Sealed
    ensures ok <==> packet.ok && 0 < |packet.bytes| <= Min(buffer, remaining) && packet.stored >= |packet.bytes|
    ensures ok ==> sink.sink.state == Open && sink.sink.file == old(sink.sink.file) + packet.bytes
  {
    if !packet.ok || |packet.bytes| > Min(buffer, remaining) || packet.bytes == [] { return false; }
    var stored := sink.Write(committed, packet.bytes, packet.stored);
    ok := stored.ok;
  }

  method Receive(sink: OffsetSink, announced: nat, buffer: nat, packets: seq<Packet>)
    returns (ok: bool, progress: seq<nat>)
    requires sink.sink.Valid() && sink.base + announced <= MAXIMUM_FILE_OFFSET
    requires sink.sink.state == Open && |sink.sink.file| == sink.base
    modifies sink.sink
    ensures sink.sink.Valid() && sink.sink.state != Sealed
    ensures ok <==> Delivers(packets, announced, buffer)
    ensures ok ==> announced <= |Flat(packets)| && sink.sink.state == Open
    ensures ok ==> sink.sink.file == old(sink.sink.file) + Flat(packets)[..announced]
    ensures Monotone(progress, 0, announced) && (ok && announced > 0 ==> EndsAt(progress, announced))
  {
    var committed := 0;
    var i := 0;
    progress := [];
    ghost var got: seq<Byte> := [];
    assert packets[0..] == packets;
    while committed < announced
      invariant 0 <= committed <= announced && 0 <= i <= |packets| && |got| == committed
      invariant sink.sink.Valid() && sink.sink.state == Open && sink.sink.file == old(sink.sink.file) + got
      invariant Flat(packets) == got + Flat(packets[i..])
      invariant Delivers(packets, announced, buffer) <==> Delivers(packets[i..], announced - committed, buffer)
      invariant ProgressTo(progress, committed)
      decreases announced - committed
    {
      if i == |packets| { return false, progress; }
      var packet := packets[i];
      assert packets[i..][0] == packet;
      var taken := TakePacket(sink, committed, announced - committed, buffer, packet);
      if !taken { return false, progress; }
      PacketStep(packets, i, got, announced - committed, buffer);
      Appended(old(sink.sink.file), got, packet.bytes);
      ProgressNext(progress, committed, |packet.bytes|);
      committed := committed + |packet.bytes|;
      got := got + packet.bytes;
      progress := progress + [committed];
      if packet.cancel { return false, progress; }
      i := i + 1;
    }
    assert Flat(packets)[..announced] == got;
    ok := true;
  }

  // ----- Fetching the partition

  /** The device's answer to one fetch request; `okay` is None when reading the final response fails. */
  datatype ChunkReply = ServiceError | Announced(size: nat, packets: seq<Packet>, okay: Option<bool>)

  /** Exactly the requested bytes, followed by OKAY. */
  predicate GoodChunk(reply: ChunkReply, size: nat, receiveChunk: nat) {
    && reply.Announced? && reply.size == size && reply.okay == Some(true)
    && Delivers(reply.packets, size, Min(receiveChunk, size))
  }

  function Payload(reply: ChunkReply, size: nat): seq<Byte> {
    if reply.Announced? && size <= |Flat(reply.packets)| then Flat(reply.packets)[..size] else []
  }

  method FetchChunk(sink: FileSink, request: Request, reply: ChunkReply, receiveChunk: nat)
    returns (ok: bool, progress: seq<nat>)
    requires sink.Valid() && sink.state == Open && |sink.file| == request.offset
    requires request.size > 0 && request.offset + request.size <= MAXIMUM_FILE_OFFSET
    modifies sink
    ensures sink.Valid() && sink.state != Sealed
    ensures ok <==> GoodChunk(reply, request.size, receiveChunk)
    ensures ok ==> |Payload(reply, request.size)| == request.size
    ensures ok ==> sink.state == Open && sink.file == old(sink.file) + Payload(reply, request.size)
    ensures Monotone(progress, 0, request.size) && (ok ==> EndsAt(progress, request.size))
  {
    if reply.ServiceError? || reply.size == 0 || reply.size > request.size { return false, []; }
    var offsetSink := new OffsetSink(sink, request.offset);
    ok, progress := Receive(offsetSink, reply.size, Min(receiveChunk, reply.size), reply.packets);
    if !ok || reply.okay.None? { return false, progress; }
    ok := reply.okay.value && reply.size == request.size;
  }

  /**
   * Everything outside the loop's control: whether the first progress report cancels, replies and cancellation
   * by chunk, and the receive buffer size.
   */
  datatype World = World(
    cancelledAtStart: bool, device: nat -> ChunkReply, cancelled: nat -> bool, receiveChunk: nat)

  predicate Arrives(w: World, size: nat, max: nat, k: nat) {
    !w.cancelled(k) && GoodChunk(w.device(k), Tile(size, max, k).size, w.receiveChunk)
  }

  ghost predicate AllArrive(w: World, size: nat, max: nat, count: nat) {
    forall k: nat :: k < count ==> Arrives(w, size, max, k)
  }

  /** What the first chunks put into the file. */
  function Image(w: World, size: nat, max: nat, count: nat): seq<Byte> {
    if count == 0 then []
    else Image(w, size, max, count - 1) + Payload(w.device(count - 1), Tile(size, max, count - 1).size)
  }

  lemma NextTile(size: nat, max: nat, k: nat, fetched: nat)
    requires max > 0 && fetched == Min(k * max, size) && fetched < size
    ensures k < TileCount(size, max) && Tile(size, max, k) == Request(fetched, Min(max, size - fetched))
    ensures fetched + Min(max, size - fetched) == Min((k + 1) * max, size)
  {
    TileStart(size, max, k);
    assert (k + 1) * max == k * max + max;
  }

  lemma LastTile(size: nat, max: nat, k: nat)
    requires max > 0 && size > 0 && k <= TileCount(size, max) && Min(k * max, size) == size
    ensures k == TileCount(size, max)
  {
    TileStart(size, max, k);
  }

  /** One turn of the loop: None when cancelled before anything is requested. */
  method FetchTile(sink: FileSink, size: nat, max: nat, w: World, k: nat, fetched: nat)
    returns (ok: bool, request: Option<Request>, progress: seq<nat>)
    requires sink.Valid() && sink.state == Open && |sink.file| == fetched
    requires 0 < size <= U32_MAX && 0 < max && fetched == Min(k * max, size) && fetched < size
    modifies sink
    ensures sink.Valid()
    ensures ok <==> Arrives(w, size, max, k)
    ensures if ok then sink.state == Open else sink.state == Discarded
    ensures ok ==> request.Some? && sink.file == old(sink.file) + Payload(w.device(k), Tile(size, max, k).size)
    ensures ok ==> |sink.file| == Min((k + 1) * max, size) == fetched + request.value.size
    ensures request.Some? ==> request.value == Tile(size, max, k)
    ensures Monotone(progress, 0, Min(max, size - fetched)) && (ok ==> EndsAt(progress, Min(max, size - fetched)))
  {
    NextTile(size, max, k, fetched);
    if w.cancelled(k) {
      sink.Discard();
      return false, None, [];
    }
    request := Some(Request(fetched, Min(max, size - fetched)));
    ok, progress := FetchChunk(sink, request.value, w.device(k), w.receiveChunk);
    if !ok { sink.Discard(); }
  }

  lemma OneMoreArrives(w: World, size: nat, max: nat, k: nat)
    requires AllArrive(w, size, max, k)
    ensures AllArrive(w, size, max, k + 1) <==> Arrives(w, size, max, k)
  {
  }

  lemma OneMoreTile(size: nat, max: nat, k: nat)
    requires max > 0 && k < TileCount(size, max)
    ensures Tiles(size, max)[..k] + [Tile(size, max, k)] == Tiles(size, max)[..k + 1]
  {
  }

  /** Requests tile after tile until one of them does not arrive exactly. */
  method FetchTiles(sink: FileSink, size: nat, max: nat, w: World)
    returns (ok: bool, requests: seq<Request>, progress: seq<nat>)
    requires sink.Valid() && sink.state == Open && sink.file == []
    requires 0 < size <= U32_MAX && 0 < max
    modifies sink
    ensures sink.Valid()
    ensures ok <==> AllArrive(w, size, max, TileCount(size, max))
    ensures ok ==> sink.state == Open && sink.file == Image(w, size, max, TileCount(size, max)) && |sink.file| == size
    ensures !ok ==> sink.state == Discarded
    ensures requests <= Tiles(size, max) && (ok ==> requests == Tiles(size, max))
    ensures Monotone(progress, 0, size) && (ok ==> EndsAt(progress, size))
  {
    requests, progress := [], [];
    var fetched := 0;
    var k := 0;
    while fetched < size
      invariant fetched == Min(k * max, size) && k <= TileCount(size, max)
      invariant sink.Valid() && sink.state == Open && |sink.file| == fetched
      invariant AllArrive(w, size, max, k)
      invariant sink.file == Image(w, size, max, k)
      invariant requests == Tiles(size, max)[..k]
      invariant ProgressTo(progress, fetched)
      decreases size - fetched
    {
      NextTile(size, max, k, fetched);
      OneMoreTile(size, max, k);
      OneMoreArrives(w, size, max, k);
      var received, request, more := FetchTile(sink, size, max, w, k, fetched);
      ProgressGoesOn(progress, fetched, more, Min(max, size - fetched));
      progress := progress + Shift(more, fetched);
      requests := if request.Some? then requests + [request.value] else requests;
      if !received { return false, requests, progress; }
      fetched := fetched + request.value.size;
      k := k + 1;
    }
    LastTile(size, max, k);
    assert Tiles(size, max)[..k] == Tiles(size, max);
    ok := true;
  }

  predicate ValidSizes(sizeReply: Option<nat>, maxReply: Option<nat>) {
    maxReply.Some? && maxReply.value > 0 && sizeReply.Some? && 0 < sizeReply.value <= U32_MAX
  }

  /**
   * The file is published exactly when nothing is cancelled, every tile arrives exactly and the file system can
   * sync it.
   */
  method FetchPartition(sizeReply: Option<nat>, maxReply: Option<nat>, w: World, synced: bool)
    returns (published: Option<seq<Byte>>, requests: seq<Request>, progress: seq<nat>)
    ensures !ValidSizes(sizeReply, maxReply) ==> published.None? && requests == []
    ensures ValidSizes(sizeReply, maxReply) ==>
              var size, max := sizeReply.value, Min(maxReply.value, U32_MAX);
              && (published.Some? <==> !w.cancelledAtStart && synced && AllArrive(w, size, max, TileCount(size, max)))
              && (published.Some? ==> published.value == Image(w, size, max, TileCount(size, max)))
              && requests <= Tiles(size, max) && (published.Some? ==> requests == Tiles(size, max))
              && progress != [] && progress[0] == 0 && Monotone(progress, 0, size)
              && (published.Some? ==> EndsAt(progress, size))
  {
    if maxReply.None? || maxReply.value == 0 { return None, [], []; }
    var max := Min(maxReply.value, U32_MAX);
    if sizeReply.None? || sizeReply.value == 0 || sizeReply.value > U32_MAX { return None, [], []; }
    var sink := new FileSink();
    if w.cancelledAtStart { return None, [], [0]; }
    var ok, more;
    ok, requests, more := FetchTiles(sink, sizeReply.value, max, w);
    progress := [0] + more;
    if !ok { return None, requests, progress; }
    var complete := sink.Seal(sizeReply.value, synced);
    if !complete { sink.Discard(); }
    published := sink.published;
  }

  /** A device that answers each request with the bytes of its partition. */
  ghost predicate Honest(partition: seq<Byte>, max: nat, w: World) {
    forall k: nat :: Arrives(w, |partition|, max, k) ==>
      var tile := Tile(|partition|, max, k);
      tile.offset + tile.size <= |partition| ==>
        Payload(w.device(k), tile.size) == partition[tile.offset..tile.offset + tile.size]
  }

  lemma HonestPayload(partition: seq<Byte>, max: nat, w: World, k: nat, start: nat, end: nat)
    requires max > 0 && k < TileCount(|partition|, max)
    requires Honest(partition, max, w) && Arrives(w, |partition|, max, k)
    requires start == k * max && end == Min((k + 1) * max, |partition|)
    ensures start <= end && Payload(w.device(k), Tile(|partition|, max, k).size) == partition[start..end]
  {
    TileStart(|partition|, max, k);
    NextTile(|partition|, max, k, start);
  }

  lemma ImageStep(partition: seq<Byte>, max: nat, w: World, k: nat, start: nat, end: nat)
    requires max > 0 && k < TileCount(|partition|, max)
    requires Honest(partition, max, w) && Arrives(w, |partition|, max, k)
    requires start == k * max <= |partition| && end == Min((k + 1) * max, |partition|)
    requires Image(w, |partition|, max, k) == partition[..start]
    ensures Image(w, |partition|, max, k + 1) == partition[..end]
  {
    HonestPayload(partition, max, w, k, start, end);
    assert partition[..start] + partition[start..end] == partition[..end];
  }

  lemma {:induction false} ImagePrefix(partition: seq<Byte>, max: nat, w: World, count: nat)
    requires max > 0 && count <= TileCount(|partition|, max)
    requires Honest(partition, max, w) && AllArrive(w, |partition|, max, count)
    ensures Image(w, |partition|, max, count) == partition[..Min(count * max, |partition|)]
  {
    if count > 0 {
      var k := count - 1;
      ImagePrefix(partition, max, w, k);
      TileStart(|partition|, max, k);
      assert Arrives(w, |partition|, max, k);
      ImageStep(partition, max, w, k, k * max, Min((k + 1) * max, |partition|));
    }
  }

  /** What is published from an honest device is its partition. */
  lemma PublishedIsPartition(partition: seq<Byte>, max: nat, w: World)
    requires max > 0 && Honest(partition, max, w)
    requires AllArrive(w, |partition|, max, TileCount(|partition|, max))
    ensures Image(w, |partition|, max, TileCount(|partition|, max)) == partition
  {
    var n := TileCount(|partition|, max);
    TileStart(|partition|, max, n);
    ImagePrefix(partition, max, w, n);
  }
}

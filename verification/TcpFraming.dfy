/**
 * Fastboot over TCP: each message is an eight-byte big-endian length followed by
 * the payload ("TCP Protocol v1" of the AOSP fastboot README). What is received
 * does not depend on how the stream is cut into recv results.
 */
module TcpFraming {
  import opened Common

  const MAX_FRAME_BYTES := 4 * 1024 * 1024

  // ----- Big-endian numbers

  function Number(bytes: seq<Byte>): nat {
    if bytes == [] then 0 else Number(bytes[..|bytes| - 1]) * 256 + bytes[|bytes| - 1] as nat
  }

  /** The k low bytes of n, most significant first. */
  function BigEndian(n: nat, k: nat): (r: seq<Byte>)
    ensures |r| == k
  {
    if k == 0 then [] else BigEndian(n / 256, k - 1) + [n % 256]
  }

  lemma {:induction false} NumberInverts(n: nat, k: nat)
    requires n < Power256(k)
    ensures Number(BigEndian(n, k)) == n
  {
    if k > 0 {
      NumberInverts(n / 256, k - 1);
      var bytes := BigEndian(n, k);
      assert bytes[..k - 1] == BigEndian(n / 256, k - 1);
    }
  }

  lemma {:induction false} BigEndianInverts(bytes: seq<Byte>)
    ensures BigEndian(Number(bytes), |bytes|) == bytes
    ensures Number(bytes) < Power256(|bytes|)
  {
    if bytes != [] {
      var init, last := bytes[..|bytes| - 1], bytes[|bytes| - 1];
      BigEndianInverts(init);
      assert Number(bytes) / 256 == Number(init) && Number(bytes) % 256 == last as nat;
      assert bytes == init + [last];
    }
  }

  // ----- Frames

  function Frame(payload: seq<Byte>): seq<Byte> {
    BigEndian(|payload|, 8) + payload
  }

  function Frames(payloads: seq<seq<Byte>>): seq<Byte> {
    if payloads == [] then [] else Frame(payloads[0]) + Frames(payloads[1..])
  }

  /** A connection: the bytes still to come, and how many of them each recv makes available. */
  class Connection {
    var stream: seq<Byte>
    var available: seq<nat>

    constructor (stream: seq<Byte>, available: seq<nat>)
      ensures this.stream == stream && this.available == available
    {
      this.stream, this.available := stream, available;
    }

    /** Between one byte and `size` bytes; nothing only when the peer has closed. */
    method Recv(size: nat) returns (chunk: seq<Byte>)
      modifies this
      ensures |chunk| <= size && |chunk| <= |old(stream)|
      ensures chunk == old(stream)[..|chunk|] && stream == old(stream)[|chunk|..]
      ensures chunk == [] <==> old(stream) == [] || size == 0
    {
      var limit := if available == [] then |stream| else available[0];
      available := if available == [] then [] else available[1..];
      var n := Min(Min(size, |stream|), if limit == 0 then 1 else limit);
      chunk := stream[..n];
      stream := stream[n..];
    }

    /** The next `size` bytes of the stream, however they arrive; None when the peer closes before. */
    method ReceiveExact(size: nat) returns (r: Option<seq<Byte>>)
      modifies this
      ensures r.Some? <==> size <= |old(stream)|
      ensures r.Some? ==> r.value == old(stream)[..size] && stream == old(stream)[size..]
    {
      var result: seq<Byte> := [];
      while |result| < size
        invariant |result| <= size && |result| <= |old(stream)|
        invariant result == old(stream)[..|result|] && stream == old(stream)[|result|..]
        decreases size - |result|
      {
        var chunk := Recv(size - |result|);
        if chunk == [] { return None; }
        assert old(stream)[..|result|] + old(stream)[|result|..][..|chunk|] == old(stream)[..|result| + |chunk|];
        assert old(stream)[|result|..][|chunk|..] == old(stream)[|result| + |chunk|..];
        result := result + chunk;
      }
      return Some(result);
    }

    /** The payload of the first frame; None when it is too long or incomplete. */
    method ReceiveFrame() returns (r: Option<seq<Byte>>)
      modifies this
      ensures r == FirstPayload(old(stream))
      ensures r.Some? ==> stream == old(stream)[8 + |r.value|..]
    {
      var header := ReceiveExact(8);
      if header.None? { return None; }
      var length := Number(header.value);
      if length > 4 * 1024 * 1024 { return None; }
      r := ReceiveExact(length);
      ghost var s := old(stream);
      assert r.Some? ==> s[8..][..length] == s[8..8 + length] && s[8..][length..] == s[8 + length..];
    }
  }

  function FirstPayload(stream: seq<Byte>): Option<seq<Byte>> {
    if |stream| < 8 then None
    else
      var length := Number(stream[..8]);
      if length > MAX_FRAME_BYTES || 8 + length > |stream| then None else Some(stream[8..8 + length])
  }

  lemma FrameIsReceived(payload: seq<Byte>, rest: seq<Byte>)
    requires |payload| <= U64_MAX
    ensures FirstPayload(Frame(payload) + rest) == if |payload| <= MAX_FRAME_BYTES then Some(payload) else None
    ensures (Frame(payload) + rest)[8 + |payload|..] == rest
  {
    var stream := Frame(payload) + rest;
    EightBytes();
    NumberInverts(|payload|, 8);
    assert stream[..8] == BigEndian(|payload|, 8);
    assert stream[8..8 + |payload|] == payload;
  }

  lemma ReceivedIsFrame(stream: seq<Byte>)
    requires FirstPayload(stream).Some?
    ensures stream == Frame(FirstPayload(stream).value) + stream[8 + |FirstPayload(stream).value|..]
  {
    BigEndianInverts(stream[..8]);
    var length := Number(stream[..8]);
    assert stream == stream[..8] + stream[8..8 + length] + stream[8 + length..];
  }

  /** Receiving inverts sending, both ways, up to the size limit. */
  lemma FramingInverts(stream: seq<Byte>, payload: seq<Byte>)
    requires |payload| <= U64_MAX
    ensures FirstPayload(stream) == Some(payload) <==> |payload| <= MAX_FRAME_BYTES && Frame(payload) <= stream
  {
    if FirstPayload(stream) == Some(payload) {
      ReceivedIsFrame(stream);
    }
    if Frame(payload) <= stream {
      assert stream == Frame(payload) + stream[|Frame(payload)|..];
      FrameIsReceived(payload, stream[|Frame(payload)|..]);
    }
  }

  /** Receiving n frames one after the other. */
  function Payloads(stream: seq<Byte>, n: nat): Option<seq<seq<Byte>>> {
    if n == 0 then Some([])
    else
      var first := FirstPayload(stream);
      if first.None? then None
      else
        var rest := Payloads(stream[8 + |first.value|..], n - 1);
        if rest.None? then None else Some([first.value] + rest.value)
  }

  /** Frames decode to exactly what was sent. */
  lemma {:induction false} FramesAreReceived(payloads: seq<seq<Byte>>, rest: seq<Byte>)
    requires forall i :: 0 <= i < |payloads| ==> |payloads[i]| <= MAX_FRAME_BYTES
    ensures Payloads(Frames(payloads) + rest, |payloads|) == Some(payloads)
  {
    if payloads != [] {
      var more := Frames(payloads[1..]) + rest;
      FramesAreReceived(payloads[1..], rest);
      assert Frames(payloads) + rest == Frame(payloads[0]) + more;
      FrameIsReceived(payloads[0], more);
      assert payloads == [payloads[0]] + payloads[1..];
    }
  }
}

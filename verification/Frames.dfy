/** The shim's wire format (protocol.py): `u32 LE length + payload` frames over a byte stream that
    arrives in whatever pieces the operating system gives. */
module Frames {
  import opened Prelude

  newtype byte = x: int | 0 <= x < 256

  type Bytes = seq<byte>

  // ---- the length header ----

  const LIMIT := 0x1_0000_0000

  // `struct.pack("<I", n)`
  function Header(n: nat): Bytes
    requires n < LIMIT
  {
    [(n % 256) as byte, (n / 256 % 256) as byte, (n / 65536 % 256) as byte, (n / 16777216) as byte]
  }

  // `struct.unpack("<I", header)`
  function Length(header: Bytes): nat
    requires |header| == 4
  {
    header[0] as nat + 256 * header[1] as nat + 65536 * header[2] as nat + 16777216 * header[3] as nat
  }

  lemma {:induction false} LengthOfHeader(n: nat)
    requires n < LIMIT
    ensures Length(Header(n)) == n
  {
    var a := n / 256;
    var b := a / 256;
    var c := b / 256;
    assert n / 65536 == b && n / 16777216 == c;
    assert n == 256 * a + n % 256 && a == 256 * b + a % 256 && b == 256 * c + b % 256;
    var header := Header(n);
    assert header[0] as nat == n % 256 && header[1] as nat == a % 256;
    assert header[2] as nat == b % 256 && header[3] as nat == c;
  }

  // Four bytes, the least significant first, for every length below 2^32 and no other.
  lemma {:induction false} HeaderIsLittleEndian(n: nat)
    requires n < LIMIT
    ensures LIMIT == 4_294_967_296 && |Header(n)| == 4
    ensures var h := Header(n);
            n == h[0] as int + 0x100 * h[1] as int + 0x1_0000 * h[2] as int + 0x100_0000 * h[3] as int
  {
    LengthOfHeader(n);
  }

  function Encode(payload: Bytes): Bytes
    requires |payload| < LIMIT
  {
    Header(|payload|) + payload
  }

  predicate Sendable(payloads: seq<Bytes>) {
    forall i :: 0 <= i < |payloads| ==> |payloads[i]| < LIMIT
  }

  function EncodeAll(payloads: seq<Bytes>): Bytes
    requires Sendable(payloads)
  {
    if payloads == [] then [] else Encode(payloads[0]) + EncodeAll(payloads[1..])
  }

  // ---- what a stream holds ----

  predicate HasFrame(stream: Bytes) {
    |stream| >= 4 && |stream| >= 4 + Length(stream[..4])
  }

  function FirstFrame(stream: Bytes): Bytes
    requires HasFrame(stream)
  {
    stream[4..4 + Length(stream[..4])]
  }

  function AfterFrame(stream: Bytes): Bytes
    requires HasFrame(stream)
  {
    stream[4 + Length(stream[..4])..]
  }

  // Every complete frame, up to the end of the stream or a frame it cuts short.
  function Decode(stream: Bytes): seq<Bytes>
    decreases |stream|
  {
    if HasFrame(stream) then [FirstFrame(stream)] + Decode(AfterFrame(stream)) else []
  }

  lemma {:induction false} FirstOfEncoded(payload: Bytes, rest: Bytes)
    requires |payload| < LIMIT
    ensures var stream := Encode(payload) + rest;
            HasFrame(stream) && FirstFrame(stream) == payload && AfterFrame(stream) == rest
  {
    var stream := Encode(payload) + rest;
    assert stream[..4] == Header(|payload|);
    LengthOfHeader(|payload|);
  }

  // How many of the payloads a stream cut after `k` bytes still holds in full.
  function WholeFrames(payloads: seq<Bytes>, k: nat): (n: nat)
    requires Sendable(payloads)
    ensures n <= |payloads|
  {
    if payloads == [] || k < |Encode(payloads[0])| then 0
    else 1 + WholeFrames(payloads[1..], k - |Encode(payloads[0])|)
  }

  lemma {:induction false} WholeFramesFit(payloads: seq<Bytes>, k: nat)
    requires Sendable(payloads)
    ensures var n := WholeFrames(payloads, k);
            && |EncodeAll(payloads[..n])| <= k
            && (n < |payloads| ==> k < |EncodeAll(payloads[..n + 1])|)
  {
    if payloads != [] && k >= |Encode(payloads[0])| {
      var n := WholeFrames(payloads, k);
      WholeFramesFit(payloads[1..], k - |Encode(payloads[0])|);
      assert payloads[..n][1..] == payloads[1..][..n - 1];
      if n < |payloads| {
        assert payloads[..n + 1][1..] == payloads[1..][..n];
      }
    } else if payloads != [] {
      assert payloads[..1] == [payloads[0]];
      assert EncodeAll(payloads[..1]) == Encode(payloads[0]) + EncodeAll([]);
    }
  }

  // A stream cut anywhere decodes to exactly the frames complete before the cut.
  lemma {:induction false} CutStreamsDecodeWhatIsWhole(payloads: seq<Bytes>, k: nat)
    requires Sendable(payloads) && k <= |EncodeAll(payloads)|
    ensures var n := WholeFrames(payloads, k);
            && Decode(EncodeAll(payloads)[..k]) == payloads[..n]
            && |EncodeAll(payloads[..n])| <= k
            && (n < |payloads| ==> k < |EncodeAll(payloads[..n + 1])|)
  {
    WholeFramesFit(payloads, k);
    CutStreamDecodes(payloads, k);
  }

  lemma {:induction false} CutStreamDecodes(payloads: seq<Bytes>, k: nat)
    requires Sendable(payloads) && k <= |EncodeAll(payloads)|
    ensures Decode(EncodeAll(payloads)[..k]) == payloads[..WholeFrames(payloads, k)]
  {
    if payloads != [] {
      var first, rest := Encode(payloads[0]), EncodeAll(payloads[1..]);
      var stream := EncodeAll(payloads)[..k];
      if k < |first| {
        PartFrameIsNoFrame(payloads[0], k);
        assert stream == first[..k];
      } else {
        assert stream == first + rest[..k - |first|];
        FirstOfEncoded(payloads[0], rest[..k - |first|]);
        CutStreamDecodes(payloads[1..], k - |first|);
        var n := WholeFrames(payloads, k);
        assert payloads[..n] == [payloads[0]] + payloads[1..][..n - 1];
      }
    }
  }

  lemma {:induction false} PartFrameIsNoFrame(payload: Bytes, k: nat)
    requires |payload| < LIMIT && k < |Encode(payload)|
    ensures !HasFrame(Encode(payload)[..k])
  {
    if k >= 4 {
      assert Encode(payload)[..k][..4] == Header(|payload|);
      LengthOfHeader(|payload|);
    }
  }

  lemma {:induction false} DecodeUndoesEncode(payloads: seq<Bytes>)
    requires Sendable(payloads)
    ensures Decode(EncodeAll(payloads)) == payloads
  {
    if payloads != [] {
      FirstOfEncoded(payloads[0], EncodeAll(payloads[1..]));
      DecodeUndoesEncode(payloads[1..]);
    }
  }

  lemma {:induction false} EncodeAllSnoc(payloads: seq<Bytes>, payload: Bytes)
    requires Sendable(payloads) && |payload| < LIMIT
    ensures EncodeAll(payloads + [payload]) == EncodeAll(payloads) + Encode(payload)
  {
    var all := payloads + [payload];
    if payloads == [] {
      assert all[1..] == [];
    } else {
      EncodeAllSnoc(payloads[1..], payload);
      assert all[1..] == payloads[1..] + [payload];
    }
  }

  lemma {:induction false} HeaderOfLength(header: Bytes)
    requires |header| == 4
    ensures Length(header) < LIMIT && Header(Length(header)) == header
  {
    var n := Length(header);
    var (a, b, c) := (n / 256, n / 256 / 256, n / 256 / 256 / 256);
    assert a == header[1] as nat + 256 * header[2] as nat + 65536 * header[3] as nat;
    assert b == header[2] as nat + 256 * header[3] as nat;
    assert c == header[3] as nat;
    assert n / 65536 == b && n / 16777216 == c;
  }

  // What follows the last complete frame.
  function Remainder(stream: Bytes): (rest: Bytes)
    ensures !HasFrame(rest)
    decreases |stream|
  {
    if HasFrame(stream) then Remainder(AfterFrame(stream)) else stream
  }

  lemma {:induction false} FrameGoesBack(stream: Bytes)
    requires HasFrame(stream)
    ensures |FirstFrame(stream)| < LIMIT
    ensures stream == Encode(FirstFrame(stream)) + AfterFrame(stream)
  {
    var header, payload := stream[..4], FirstFrame(stream);
    HeaderOfLength(header);
    assert stream == header + payload + AfterFrame(stream);
  }

  // Nothing is lost: any stream at all is its frames, encoded again, and an incomplete rest.
  lemma {:induction false} EncodeUndoesDecode(stream: Bytes)
    ensures Sendable(Decode(stream)) && EncodeAll(Decode(stream)) + Remainder(stream) == stream
    decreases |stream|
  {
    if HasFrame(stream) {
      var payload, rest := FirstFrame(stream), AfterFrame(stream);
      FrameGoesBack(stream);
      EncodeUndoesDecode(rest);
      assert Decode(stream)[1..] == Decode(rest);
      ConcatAssociates(Encode(payload), EncodeAll(Decode(rest)), Remainder(rest));
    }
  }

  // ---- the request loop ----

  // What `json.loads` makes of a payload; `null` reads as the end of the stream does.
  datatype Loaded = Fault | Null | Object

  // The reply to the last of the requests so far; a handler may have answered on its own, or
  // declined.
  type Handler = seq<Bytes> -> Option<Bytes>

  datatype Serving = Serving(handled: seq<Bytes>, replies: seq<Bytes>, fault: bool)

  // The loop over the frames that arrive, `handled` and `replies` so far.
  function Serve(load: Bytes -> Loaded, handler: Handler, handled: seq<Bytes>, replies: seq<Bytes>, frames: seq<Bytes>):
    (r: Serving)
    requires Sendable(replies)
    ensures Sendable(r.replies)
    decreases |frames|
  {
    if frames == [] || load(frames[0]).Null? then Serving(handled, replies, false)
    else if load(frames[0]).Fault? then Serving(handled, replies, true)
    else
      var now := handled + [frames[0]];
      var reply := handler(now);
      if reply.None? then Serve(load, handler, now, replies, frames[1..])
      else if |reply.value| >= LIMIT then Serving(now, replies, true)
      else Serve(load, handler, now, replies + [reply.value], frames[1..])
  }

  // A handler that answers everything, as the module child's does.
  ghost predicate AnswersAll(load: Bytes -> Loaded, handler: Handler) {
    && (forall payload :: load(payload).Object?)
    && (forall requests :: handler(requests).Some? && |handler(requests).value| < LIMIT)
  }

  function Answers(handler: Handler, requests: seq<Bytes>, n: nat): seq<Bytes>
    requires n <= |requests| && forall rs :: handler(rs).Some?
  {
    seq(n, i requires 0 <= i < n => handler(requests[..i + 1]).value)
  }

  lemma {:induction false} ServeContinues(load: Bytes -> Loaded, handler: Handler, requests: seq<Bytes>, n: nat)
    requires AnswersAll(load, handler) && n <= |requests|
    ensures Sendable(Answers(handler, requests, n))
    ensures Serve(load, handler, requests[..n], Answers(handler, requests, n), requests[n..])
      == Serving(requests, Answers(handler, requests, |requests|), false)
    decreases |requests| - n
  {
    if n == |requests| {
      assert requests[..n] == requests;
    } else {
      assert requests[..n] + [requests[n]] == requests[..n + 1] && requests[n..][1..] == requests[n + 1..];
      assert Answers(handler, requests, n) + [handler(requests[..n + 1]).value] == Answers(handler, requests, n + 1);
      ServeContinues(load, handler, requests, n + 1);
    }
  }

  // Over one conversation, cut off or not, the frames that come back are the answers to the
  // requests that arrived whole, one each and in their order.
  lemma {:induction false} RepliesPairWithRequests(
      load: Bytes -> Loaded, handler: Handler, requests: seq<Bytes>, k: nat)
    requires AnswersAll(load, handler) && Sendable(requests) && k <= |EncodeAll(requests)|
    ensures var n := WholeFrames(requests, k);
            var served := Serve(load, handler, [], [], Decode(EncodeAll(requests)[..k]));
            served.handled == requests[..n] && Decode(EncodeAll(served.replies)) == Answers(handler, requests, n)
  {
    CutStreamsDecodeWhatIsWhole(requests, k);
    var n := WholeFrames(requests, k);
    var whole := requests[..n];
    ServeContinues(load, handler, whole, 0);
    assert whole[0..] == whole && whole[..0] == [] && Answers(handler, whole, 0) == [];
    DecodeUndoesEncode(Answers(handler, whole, n));
    forall i | 0 <= i < n
      ensures Answers(handler, whole, n)[i] == Answers(handler, requests, n)[i]
    {
      assert whole[..i + 1] == requests[..i + 1];
    }
  }

  // ---- reading and writing, piece by piece ----

  // The two ways a read can fail to give its bytes: the stream ends first, or the deadline passes.
  datatype Reading = Got(bytes: Bytes) | Eof | Late

  class Channel {
    // What the writer has yet to deliver before it closes, and what this side has written.
    var incoming: Bytes
    var outgoing: Bytes

    constructor (incoming: Bytes)
      ensures this.incoming == incoming && outgoing == []
    {
      this.incoming, outgoing := incoming, [];
    }

    // `os.read`: at least one byte and at most `n`, as many as have arrived; none at the end only.
    method Read(n: nat) returns (chunk: Bytes)
      requires n > 0
      modifies this`incoming
      ensures |chunk| <= n && old(incoming) == chunk + incoming
      ensures chunk == [] <==> old(incoming) == []
    {
      if incoming == [] {
        return [];
      }
      var k: nat :| 0 < k <= n && k <= |incoming|;
      chunk, incoming := incoming[..k], incoming[k..];
    }

    // Exactly `n` bytes whatever the pieces; only a read under a deadline can be late, and a late
    // read has taken no more than it was asked for.
    method ReadExactly(n: nat, timed: bool) returns (r: Reading)
      modifies this`incoming
      ensures r.Got? ==> |r.bytes| == n && old(incoming) == r.bytes + incoming
      ensures r.Eof? ==> |old(incoming)| < n && incoming == []
      ensures r.Late? ==> timed && exists taken: Bytes :: |taken| < n && old(incoming) == taken + incoming
    {
      var buf: Bytes := [];
      ghost var stream := incoming;
      while |buf| < n
        invariant |buf| <= n && stream == buf + incoming
        decreases n - |buf|
      {
        if timed {
          var late: bool := *;
          if late {
            return Late;
          }
        }
        var chunk := Read(n - |buf|);
        if chunk == [] {
          return Eof;
        }
        buf := buf + chunk;
      }
      r := Got(buf);
    }

    // One frame: the payload the stream starts with, or the end. A deadline can only stop it.
    method ReadFrame(timed: bool) returns (r: Reading)
      modifies this`incoming
      ensures r.Got? ==> HasFrame(old(incoming)) && r.bytes == FirstFrame(old(incoming))
      ensures r.Got? ==> incoming == AfterFrame(old(incoming))
      ensures r.Eof? ==> !HasFrame(old(incoming)) && incoming == []
      ensures r.Late? ==> timed
    {
      ghost var stream := incoming;
      var header := ReadExactly(4, timed);
      if !header.Got? {
        return header;
      }
      assert stream[..4] == header.bytes && stream[4..] == incoming;
      r := ReadExactly(Length(header.bytes), timed);
    }

    // `struct.pack` refuses a payload of 2^32 bytes or more; nothing is written then.
    method WriteFrame(payload: Bytes) returns (ok: bool)
      modifies this`outgoing
      ensures ok == (|payload| < LIMIT)
      ensures outgoing == old(outgoing) + if ok then Encode(payload) else []
    {
      ok := |payload| < LIMIT;
      if ok {
        outgoing := outgoing + Encode(payload);
      }
    }

    // What has been written since `before`, as replies.
    ghost predicate HasSent(before: Bytes, replies: seq<Bytes>)
      reads this
    {
      Sendable(replies) && outgoing == before + EncodeAll(replies)
    }

    method SendReply(payload: Bytes, ghost before: Bytes, ghost replies: seq<Bytes>) returns (ok: bool)
      requires HasSent(before, replies)
      modifies this`outgoing
      ensures ok == (|payload| < LIMIT)
      ensures HasSent(before, if ok then replies + [payload] else replies)
    {
      ok := WriteFrame(payload);
      if ok {
        EncodeAllSnoc(replies, payload);
        ConcatAssociates(before, EncodeAll(replies), Encode(payload));
      }
    }

    // Frames in, replies out, until the end of the stream, a `null`, or an exception.
    method RunLoop(load: Bytes -> Loaded, handler: Handler) returns (handled: seq<Bytes>, fault: bool)
      modifies this
      ensures var served := Serve(load, handler, [], [], Decode(old(incoming)));
              handled == served.handled && fault == served.fault && HasSent(old(outgoing), served.replies)
    {
      ghost var before, served := outgoing, Serve(load, handler, [], [], Decode(incoming));
      ghost var replies: seq<Bytes> := [];
      handled := [];
      while true
        invariant HasSent(before, replies)
        invariant served == Serve(load, handler, handled, replies, Decode(incoming))
        decreases |incoming|
      {
        var request := ReadFrame(false);
        if !request.Got? || load(request.bytes).Null? {
          return handled, false;
        }
        if load(request.bytes).Fault? {
          return handled, true;
        }
        handled := handled + [request.bytes];
        var reply := handler(handled);
        if reply.Some? {
          var ok := SendReply(reply.value, before, replies);
          if !ok {
            return handled, true;
          }
          replies := replies + [reply.value];
        }
      }
    }
  }
}

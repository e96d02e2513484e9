/** Length-prefixed framing of peer messages over a byte stream shared by several writers. */
module Framing {
  import opened Seqs
  import opened Bytes

  const MAX_P2P_MSG_SIZE: nat := 16 * 1024 * 1024
  const LENGTH_BYTES: nat := 4

  /** The message serialisation is a parameter; it is only required to undo itself. */
  datatype Codec<!M(!new)> = Codec(encode: M -> seq<Byte>, decode: seq<Byte> -> Option<M>)
  {
    ghost predicate Faithful()
    {
      forall m: M :: decode(encode(m)) == Some(m)
    }

    ghost predicate WithinCap(m: M)
    {
      |encode(m)| <= MAX_P2P_MSG_SIZE
    }

    ghost predicate AllWithinCap(messages: seq<M>)
    {
      forall i :: 0 <= i < |messages| ==> WithinCap(messages[i])
    }
  }

  function BigEndian(n: nat): (r: seq<Byte>)
    requires n < 0x1_0000_0000
    ensures |r| == LENGTH_BYTES
  {
    [n / 0x100_0000, n / 0x1_0000 % 0x100, n / 0x100 % 0x100, n % 0x100]
  }

  function FromBigEndian(b: seq<Byte>): nat
    requires |b| == LENGTH_BYTES
  {
    (((b[0] as int) * 0x100 + b[1] as int) * 0x100 + b[2] as int) * 0x100 + b[3] as int
  }

  lemma LengthRoundTrip(n: nat)
    requires n < 0x1_0000_0000
    ensures FromBigEndian(BigEndian(n)) == n
  {
    var high, middle := n / 0x1_0000, n / 0x100;
    assert high == n / 0x100_0000 * 0x100 + high % 0x100;
    assert middle == high * 0x100 + middle % 0x100;
  }

  function Frame(body: seq<Byte>): (r: seq<Byte>)
    requires |body| <= MAX_P2P_MSG_SIZE
    ensures |r| == LENGTH_BYTES + |body|
  {
    BigEndian(|body|) + body
  }

  /** The length is truncated to 32 bits. */
  function GossipFrame(body: seq<Byte>): seq<Byte>
  {
    BigEndian(|body| % 0x1_0000_0000) + body
  }

  /** A frame is the length in four bytes, the most significant first, and then the message; the cap is 16 MiB. */
  lemma FrameLayout(body: seq<Byte>)
    requires |body| <= MAX_P2P_MSG_SIZE
    ensures MAX_P2P_MSG_SIZE == 16_777_216
    ensures var f := Frame(body);
            && |f| == 4 + |body| && f[4..] == body && GossipFrame(body) == f
            && 16_777_216 * f[0] as int + 65_536 * f[1] as int + 256 * f[2] as int + f[3] as int == |body|
  {
    LengthRoundTrip(|body|);
    assert |body| % 0x1_0000_0000 == |body|;
  }

  datatype Received<M> = Message(message: M) | Closed | Failed

  /** The outcome of reading one message from the pending bytes. */
  function Receive<M(!new)>(codec: Codec<M>, bytes: seq<Byte>): (r: Received<M>)
    ensures r.Message? ==> |bytes| >= LENGTH_BYTES && |bytes| >= LENGTH_BYTES + FromBigEndian(bytes[..LENGTH_BYTES])
  {
    if |bytes| < LENGTH_BYTES then Closed
    else
      var len := FromBigEndian(bytes[..LENGTH_BYTES]);
      if len > MAX_P2P_MSG_SIZE || |bytes| < LENGTH_BYTES + len then Failed
      else
        match codec.decode(bytes[LENGTH_BYTES..LENGTH_BYTES + len])
        case None => Failed
        case Some(m) => Message(m)
  }

  function Consumed(bytes: seq<Byte>): (r: nat)
    requires |bytes| >= LENGTH_BYTES
    ensures r >= LENGTH_BYTES
  {
    LENGTH_BYTES + FromBigEndian(bytes[..LENGTH_BYTES])
  }

  /** A connection in one direction: what was written and not yet read. */
  class Stream {
    var pending: seq<Byte>

    constructor ()
      ensures pending == []
    {
      pending := [];
    }

    /** Nothing is written when the message is too large. */
    method Send<M(!new)>(codec: Codec<M>, m: M) returns (sent: bool)
      modifies this
      ensures sent <==> codec.WithinCap(m)
      ensures pending == old(pending) + if sent then Frame(codec.encode(m)) else []
    {
      var bytes := codec.encode(m);
      if |bytes| > MAX_P2P_MSG_SIZE {
        return false;
      }
      pending := pending + BigEndian(|bytes|);
      pending := pending + bytes;
      return true;
    }

    /** Gossip writes its frame in one piece and does not look at the cap. */
    method Broadcast<M(!new)>(codec: Codec<M>, m: M)
      modifies this
      ensures pending == old(pending) + GossipFrame(codec.encode(m))
      ensures codec.WithinCap(m) ==> pending == old(pending) + Frame(codec.encode(m))
    {
      var bytes := codec.encode(m);
      var frame := BigEndian(|bytes| % 0x1_0000_0000);
      frame := frame + bytes;
      pending := pending + frame;
    }

    method Recv<M(!new)>(codec: Codec<M>) returns (r: Received<M>)
      modifies this
      ensures r == Receive(codec, old(pending))
      ensures r.Message? ==> pending == old(pending)[Consumed(old(pending))..]
      ensures r.Closed? ==> pending == []
    {
      if |pending| < LENGTH_BYTES {
        pending := [];
        return Closed;
      }
      var len := FromBigEndian(pending[..LENGTH_BYTES]);
      if len > MAX_P2P_MSG_SIZE {
        pending := pending[LENGTH_BYTES..];
        return Failed;
      }
      if |pending| < LENGTH_BYTES + len {
        pending := [];
        return Failed;
      }
      var body := pending[LENGTH_BYTES..LENGTH_BYTES + len];
      pending := pending[LENGTH_BYTES + len..];
      match codec.decode(body) {
        case None => return Failed;
        case Some(m) => return Message(m);
      }
    }

    /** Read until the connection ends. */
    method RecvAll<M(!new)>(codec: Codec<M>) returns (messages: seq<M>, end: End)
      modifies this
      ensures Decoded(messages, end) == Decode(codec, old(pending))
    {
      messages := [];
      while true
        invariant Decode(codec, old(pending)) == Prepend(messages, Decode(codec, pending))
        decreases |pending|
      {
        var r := Recv(codec);
        match r {
          case Message(m) => messages := messages + [m];
          case Closed => return messages, Clean;
          case Failed => return messages, Broken;
        }
      }
    }
  }

  datatype End = Clean | Broken

  datatype Decoded<M> = Decoded(messages: seq<M>, end: End)

  function Prepend<M>(front: seq<M>, d: Decoded<M>): Decoded<M>
  {
    Decoded(front + d.messages, d.end)
  }

  /** Everything a reader gets out of a byte stream. */
  function Decode<M(!new)>(codec: Codec<M>, bytes: seq<Byte>): Decoded<M>
    decreases |bytes|
  {
    match Receive(codec, bytes)
    case Closed => Decoded([], Clean)
    case Failed => Decoded([], Broken)
    case Message(m) => Prepend([m], Decode(codec, bytes[Consumed(bytes)..]))
  }

  function Frames<M(!new)>(codec: Codec<M>, messages: seq<M>): seq<Byte>
    requires codec.AllWithinCap(messages)
  {
    if messages == [] then [] else Frame(codec.encode(messages[0])) + Frames(codec, messages[1..])
  }

  lemma FirstFrame<M(!new)>(codec: Codec<M>, m: M, rest: seq<Byte>)
    requires codec.Faithful() && codec.WithinCap(m)
    ensures Receive(codec, Frame(codec.encode(m)) + rest) == Message(m)
    ensures |Frame(codec.encode(m)) + rest| >= LENGTH_BYTES
    ensures Consumed(Frame(codec.encode(m)) + rest) == |Frame(codec.encode(m))|
    ensures Decode(codec, Frame(codec.encode(m)) + rest) == Prepend([m], Decode(codec, rest))
  {
    var body := codec.encode(m);
    var bytes := Frame(body) + rest;
    LengthRoundTrip(|body|);
    assert bytes[..LENGTH_BYTES] == BigEndian(|body|);
    assert bytes[LENGTH_BYTES..LENGTH_BYTES + |body|] == body;
    assert bytes[Consumed(bytes)..] == rest;
  }

  /** Whatever is sent within the cap is received: same messages, same order, clean end. */
  lemma {:induction false} FramesDecode<M(!new)>(codec: Codec<M>, messages: seq<M>)
    requires codec.Faithful() && codec.AllWithinCap(messages)
    ensures Decode(codec, Frames(codec, messages)) == Decoded(messages, Clean)
  {
    if messages != [] {
      FramesDecode(codec, messages[1..]);
      FirstFrame(codec, messages[0], Frames(codec, messages[1..]));
      assert [messages[0]] + messages[1..] == messages;
    }
  }

  /** The number of frames that lie completely within the first `cut` bytes. */
  ghost function CompleteFrames<M(!new)>(codec: Codec<M>, messages: seq<M>, cut: nat): (k: nat)
    requires codec.AllWithinCap(messages)
    ensures k <= |messages|
  {
    if messages == [] || cut < |Frame(codec.encode(messages[0]))| then 0
    else 1 + CompleteFrames(codec, messages[1..], cut - |Frame(codec.encode(messages[0]))|)
  }

  /**
   A connection cut at any byte delivers exactly the complete messages. The reader sees a clean end
   exactly when fewer than four bytes of the next frame arrived, and an error otherwise.
   */
  lemma {:induction false} TruncationDecodesPrefix<M(!new)>(codec: Codec<M>, messages: seq<M>, cut: nat)
    requires codec.Faithful() && codec.AllWithinCap(messages)
    requires cut <= |Frames(codec, messages)|
    ensures var k := CompleteFrames(codec, messages, cut);
            var d := Decode(codec, Frames(codec, messages)[..cut]);
            && |Frames(codec, messages[..k])| <= cut
            && d.messages == messages[..k]
            && (d.end == Clean <==> cut - |Frames(codec, messages[..k])| < LENGTH_BYTES)
  {
    if messages != [] {
      var frame, rest := Frame(codec.encode(messages[0])), Frames(codec, messages[1..]);
      var bytes := (frame + rest)[..cut];
      if cut < |frame| {
        if cut >= LENGTH_BYTES {
          LengthRoundTrip(|codec.encode(messages[0])|);
          assert bytes[..LENGTH_BYTES] == BigEndian(|codec.encode(messages[0])|);
        }
      } else {
        TruncationDecodesPrefix(codec, messages[1..], cut - |frame|);
        assert bytes == frame + rest[..cut - |frame|];
        FirstFrame(codec, messages[0], rest[..cut - |frame|]);
        var k := CompleteFrames(codec, messages[1..], cut - |frame|);
        assert messages[..k + 1] == [messages[0]] + messages[1..][..k];
        assert messages[..k + 1][1..] == messages[1..][..k];
      }
    }
  }

  /** The length field of a broadcast frame, as the reader sees it. */
  function SeenLength(body: seq<Byte>): nat
  {
    |body| % 0x1_0000_0000
  }

  lemma ReceiveBroadcast<M(!new)>(codec: Codec<M>, m: M, rest: seq<Byte>)
    ensures var body := codec.encode(m);
            Receive(codec, GossipFrame(body) + rest) ==
            if SeenLength(body) > MAX_P2P_MSG_SIZE then Failed
            else match codec.decode(body[..SeenLength(body)]) case None => Failed case Some(x) => Message(x)
  {
    var body := codec.encode(m);
    var bytes := GossipFrame(body) + rest;
    LengthRoundTrip(SeenLength(body));
    assert bytes[..LENGTH_BYTES] == BigEndian(SeenLength(body));
    assert bytes[LENGTH_BYTES..LENGTH_BYTES + SeenLength(body)] == body[..SeenLength(body)];
  }

  /**
   A broadcast message is received exactly when it is within the cap, or when its length wraps to one
   within the cap and the shortened body happens to decode to it.
   */
  lemma BroadcastReceivedIff<M(!new)>(codec: Codec<M>, m: M, rest: seq<Byte>)
    requires codec.Faithful()
    ensures var body := codec.encode(m);
            Receive(codec, GossipFrame(body) + rest) == Message(m) <==>
            codec.WithinCap(m) ||
            (SeenLength(body) < |body| && SeenLength(body) <= MAX_P2P_MSG_SIZE &&
                codec.decode(body[..SeenLength(body)]) == Some(m))
  {
    ReceiveBroadcast(codec, m, rest);
    if SeenLength(codec.encode(m)) == |codec.encode(m)| {
      assert codec.encode(m)[..|codec.encode(m)|] == codec.encode(m);
    }
  }

  /** Over the cap and under four gigabytes, a broadcast ends the stream: whatever follows it is lost. */
  lemma OversizeBroadcastEndsStream<M(!new)>(codec: Codec<M>, m: M, rest: seq<Byte>)
    requires !codec.WithinCap(m) && SeenLength(codec.encode(m)) > MAX_P2P_MSG_SIZE
    ensures Decode(codec, GossipFrame(codec.encode(m)) + rest) == Decoded([], Broken)
  {
    ReceiveBroadcast(codec, m, rest);
  }

  ghost predicate IsFrames(bodies: seq<seq<Byte>>, bytes: seq<Byte>, tail: seq<Byte>)
  {
    if bodies == [] then bytes == tail
    else
      && |bodies[0]| <= MAX_P2P_MSG_SIZE
      && |bytes| >= |Frame(bodies[0])|
      && bytes[..|Frame(bodies[0])|] == Frame(bodies[0])
      && IsFrames(bodies[1..], bytes[|Frame(bodies[0])|..], tail)
  }

  lemma LastDigit(high: nat, low: nat)
    requires low < 0x100
    ensures (high * 0x100 + low) / 0x100 == high && (high * 0x100 + low) % 0x100 == low
  {
  }

  lemma LengthIsCanonical(b: seq<Byte>)
    requires |b| == LENGTH_BYTES
    ensures FromBigEndian(b) < 0x1_0000_0000 && BigEndian(FromBigEndian(b)) == b
  {
    var b0, b1, b2, b3: nat := b[0] as int, b[1] as int, b[2] as int, b[3] as int;
    var two, three := b0 * 0x100 + b1, (b0 * 0x100 + b1) * 0x100 + b2;
    LastDigit(b0, b1);
    LastDigit(two, b2);
    LastDigit(three, b3);
    ShiftTwice(FromBigEndian(b));
  }

  lemma ShiftTwice(n: nat)
    ensures n / 0x1_0000 == n / 0x100 / 0x100 && n / 0x100_0000 == n / 0x100 / 0x100 / 0x100
  {
  }

  /**
   The converse of the round trip, for arbitrary bytes from a peer: what is delivered is carried by
   well-formed frames, and a clean end leaves less than a length field unread.
   */
  lemma {:induction false} DecodedWasFramed<M(!new)>(codec: Codec<M>, bytes: seq<Byte>)
    returns (bodies: seq<seq<Byte>>, tail: seq<Byte>)
    ensures IsFrames(bodies, bytes, tail)
    ensures var d := Decode(codec, bytes);
            && |bodies| == |d.messages|
            && (forall i :: 0 <= i < |bodies| ==> codec.decode(bodies[i]) == Some(d.messages[i]))
            && (d.end == Clean <==> |tail| < LENGTH_BYTES)
    decreases |bytes|
  {
    match Receive(codec, bytes)
    case Message(m) =>
      var body, rest := bytes[LENGTH_BYTES..Consumed(bytes)], bytes[Consumed(bytes)..];
      LengthIsCanonical(bytes[..LENGTH_BYTES]);
      assert bytes[..Consumed(bytes)] == Frame(body);
      bodies, tail := DecodedWasFramed(codec, rest);
      bodies := [body] + bodies;
    case _ =>
      bodies, tail := [], bytes;
  }

  // ----- several writers behind one lock

  /** A write through the lock: of one writer, either checked against the cap or as gossip. */
  datatype Write<M> = Write(writer: nat, message: M, gossip: bool)

  /** What one write puts on the wire: a checked message over the cap writes nothing. */
  ghost function Put<M(!new)>(codec: Codec<M>, w: Write<M>): seq<Byte>
  {
    if w.gossip then GossipFrame(codec.encode(w.message))
    else if codec.WithinCap(w.message) then Frame(codec.encode(w.message))
    else []
  }

  ghost function Wire<M(!new)>(codec: Codec<M>, run: seq<Write<M>>): seq<Byte>
  {
    if run == [] then [] else Put(codec, run[0]) + Wire(codec, run[1..])
  }

  /** A gossip message that its receiver will not take. */
  ghost predicate Oversize<M(!new)>(codec: Codec<M>, w: Write<M>)
  {
    w.gossip && !codec.WithinCap(w.message)
  }

  ghost predicate NoOversize<M(!new)>(codec: Codec<M>, run: seq<Write<M>>)
  {
    forall k :: 0 <= k < |run| ==> !Oversize(codec, run[k])
  }

  /** The messages within the cap, of everyone and of one writer, in lock order. */
  ghost function Sent<M(!new)>(codec: Codec<M>, run: seq<Write<M>>): (r: seq<M>)
  {
    if run == [] then []
    else (if codec.WithinCap(run[0].message) then [run[0].message] else []) + Sent(codec, run[1..])
  }

  ghost function SentBy<M(!new)>(codec: Codec<M>, run: seq<Write<M>>, writer: nat): seq<M>
  {
    if run == [] then []
    else
      (if run[0].writer == writer && codec.WithinCap(run[0].message) then [run[0].message] else []) +
      SentBy(codec, run[1..], writer)
  }

  lemma SubsequenceCons<T>(a: seq<T>, b: seq<T>, x: T)
    requires Subsequence(a, b)
    ensures Subsequence(a, [x] + b) && Subsequence([x] + a, [x] + b)
  {
    assert ([x] + b)[1..] == b && ([x] + a)[1..] == a;
  }

  lemma {:induction false} SentByIsSubsequence<M(!new)>(codec: Codec<M>, run: seq<Write<M>>, writer: nat)
    ensures Subsequence(SentBy(codec, run, writer), Sent(codec, run))
  {
    if run != [] {
      SentByIsSubsequence(codec, run[1..], writer);
      var part, all := SentBy(codec, run[1..], writer), Sent(codec, run[1..]);
      SubsequenceCons(part, all, run[0].message);
      assert [] + part == part && [] + all == all;
    }
  }

  /** A write that its reader takes hands over its message, if any, and then the rest. */
  lemma GoodWriteDecodes<M(!new)>(codec: Codec<M>, w: Write<M>, rest: seq<Byte>)
    requires codec.Faithful() && !Oversize(codec, w)
    ensures Decode(codec, Put(codec, w) + rest) ==
            Prepend(if codec.WithinCap(w.message) then [w.message] else [], Decode(codec, rest))
  {
    if codec.WithinCap(w.message) {
      GoodPutIsFrame(codec, w);
      FirstFrame(codec, w.message, rest);
    } else {
      assert Put(codec, w) + rest == rest;
      assert [] + Decode(codec, rest).messages == Decode(codec, rest).messages;
    }
  }

  lemma GoodPutIsFrame<M(!new)>(codec: Codec<M>, w: Write<M>)
    requires codec.WithinCap(w.message)
    ensures Put(codec, w) == Frame(codec.encode(w.message))
  {
  }

  lemma PrependTwice<M>(a: seq<M>, b: seq<M>, d: Decoded<M>)
    ensures Prepend(a, Prepend(b, d)) == Prepend(a + b, d)
  {
    Associative(a, b, d.messages);
  }

  /** Good writes first, anything after: the reader gets the good ones and then what the rest decodes to. */
  lemma {:induction false} GoodWritesDecode<M(!new)>(codec: Codec<M>, run: seq<Write<M>>, k: nat)
    requires codec.Faithful() && k <= |run| && NoOversize(codec, run[..k])
    ensures Decode(codec, Wire(codec, run)) == Prepend(Sent(codec, run[..k]), Decode(codec, Wire(codec, run[k..])))
  {
    if k == 0 {
      assert run[0..] == run && Sent(codec, run[..0]) == [];
      assert [] + Decode(codec, Wire(codec, run)).messages == Decode(codec, Wire(codec, run)).messages;
    } else {
      assert run[1..][..k - 1] == run[..k][1..] && run[1..][k - 1..] == run[k..];
      assert !Oversize(codec, run[..k][0]);
      GoodWritesDecode(codec, run[1..], k - 1);
      GoodWriteDecodes(codec, run[0], Wire(codec, run[1..]));
      PrependTwice(
        if codec.WithinCap(run[0].message) then [run[0].message] else [],
        Sent(codec, run[1..][..k - 1]),
        Decode(codec, Wire(codec, run[k..])));
    }
  }

  /**
   Writers taking the lock, whether they look at the cap or not. Without an oversize gossip message the
   reader gets all messages in lock order and a clean end; each writer's own are in its order.
   */
  lemma LockedWritersMerge<M(!new)>(codec: Codec<M>, run: seq<Write<M>>)
    requires codec.Faithful() && NoOversize(codec, run)
    ensures Decode(codec, Wire(codec, run)) == Decoded(Sent(codec, run), Clean)
    ensures forall w :: Subsequence(SentBy(codec, run, w), Sent(codec, run))
  {
    assert run[..|run|] == run && run[|run|..] == [];
    GoodWritesDecode(codec, run, |run|);
    assert Sent(codec, run) + [] == Sent(codec, run);
    forall w ensures Subsequence(SentBy(codec, run, w), Sent(codec, run)) {
      SentByIsSubsequence(codec, run, w);
    }
  }

  /**
   With one, the reader gets everything written before the first of them and nothing of what comes
   after it, as long as its length field does not wrap below the cap.
   */
  lemma MergeEndsAtFirstOversize<M(!new)>(codec: Codec<M>, run: seq<Write<M>>, k: nat)
    requires codec.Faithful() && k < |run| && NoOversize(codec, run[..k]) && Oversize(codec, run[k])
    ensures Sent(codec, run[..k]) <= Decode(codec, Wire(codec, run)).messages
    ensures SeenLength(codec.encode(run[k].message)) > MAX_P2P_MSG_SIZE ==>
              Decode(codec, Wire(codec, run)) == Decoded(Sent(codec, run[..k]), Broken)
  {
    GoodWritesDecode(codec, run, k);
    assert Wire(codec, run[k..]) == Put(codec, run[k]) + Wire(codec, run[k..][1..]);
    if SeenLength(codec.encode(run[k].message)) > MAX_P2P_MSG_SIZE {
      OversizeBroadcastEndsStream(codec, run[k].message, Wire(codec, run[k..][1..]));
      assert Sent(codec, run[..k]) + [] == Sent(codec, run[..k]);
    }
  }
}

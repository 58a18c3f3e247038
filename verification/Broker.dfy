/**
 The fake MQTT broker of the channel-proposal end-to-end test: a per-socket reassembler that
 cuts a TCP byte stream into MQTT frames and answers CONNECT, SUBSCRIBE, PINGREQ and DISCONNECT.
 The socket is modelled as the sequence of calls made on it.
 */
module Broker {

  type Byte = b: int | 0 <= b < 256

  /** A call on the socket: sock.write(bytes) or sock.end(). */
  datatype Action = Write(bytes: seq<Byte>) | End

  function Low7(b: int): nat
    requires 0 <= b
  {
    b % 128
  }

  function Word(hi: int, lo: int): nat
    requires 0 <= hi && 0 <= lo
  {
    hi * 256 + lo
  }

  // ---------------------------------------------------------------- frames

  datatype Length = Unfinished | Finished(next: nat, len: nat)

  /** The inner loop from index i on, with the running value len and multiplier mult. */
  function ScanLength(buf: seq<Byte>, i: nat, len: nat, mult: nat): (r: Length)
    ensures r.Finished? ==> i < r.next <= 5 && r.next <= |buf|
    decreases 5 - i
  {
    if i < |buf| && i <= 4 then
      var len' := len + Low7(buf[i]) * mult;
      if buf[i] < 128 then Finished(i + 1, len') else ScanLength(buf, i + 1, len', mult * 128)
    else
      Unfinished
  }

  datatype Cut = More | Frame(kind: nat, body: seq<Byte>, rest: seq<Byte>)

  /** What one turn of the outer loop finds at the front of the buffer. */
  function NextFrame(buf: seq<Byte>): (r: Cut)
    ensures r.Frame? ==> |r.body| + |r.rest| + 2 <= |buf|
  {
    if |buf| < 2 then More
    else match ScanLength(buf, 1, 0, 1)
      case Unfinished => More
      case Finished(next, len) =>
        if |buf| < next + len then More
        else Frame(buf[0] / 16, buf[next..next + len], buf[next + len..])
  }

  // --------------------------------------------------------------- replies

  /** The number of topic filters counted from offset p of a SUBSCRIBE body. */
  function CountTopics(body: seq<Byte>, p: nat): nat
    decreases |body| - p
  {
    if p + 2 <= |body| then 1 + CountTopics(body, p + 2 + Word(body[p], body[p + 1]) + 1) else 0
  }

  /** Reading past the end of a Buffer gives undefined, which Buffer.from stores as 0. */
  function ByteAt(s: seq<Byte>, i: nat): Byte {
    if i < |s| then s[i] else 0
  }

  function Zeros(n: nat): seq<Byte> {
    seq(n, _ => 0)
  }

  /** Buffer.from keeps the low eight bits of the length 2 + n. */
  function Suback(body: seq<Byte>, n: nat): seq<Byte> {
    [0x90, (2 + n) % 256, ByteAt(body, 0), ByteAt(body, 1)] + Zeros(n)
  }

  function Reply(kind: nat, body: seq<Byte>): seq<Action> {
    if kind == 1 then [Write([0x20, 0x02, 0x00, 0x00])]
    else if kind == 8 then [Write(Suback(body, CountTopics(body, 2)))]
    else if kind == 12 then [Write([0xd0, 0x00])]
    else if kind == 14 then [End]
    else []
  }

  // ------------------------------------------------- specification of a run

  datatype Outcome = Outcome(actions: seq<Action>, residue: seq<Byte>)

  /** The outcome o of a later run, with the actions taken before it. */
  function Then(before: seq<Action>, o: Outcome): Outcome {
    o.(actions := before + o.actions)
  }

  /** Everything a buffer gives rise to, and the bytes that stay behind. */
  function Drain(buf: seq<Byte>): Outcome
    decreases |buf|
  {
    match NextFrame(buf)
    case More => Outcome([], buf)
    case Frame(kind, body, rest) =>
      Then(Reply(kind, body), Drain(rest))
  }

  /** The handler run on one chunk after the other, starting with buffer buf. */
  function Feed(buf: seq<Byte>, chunks: seq<seq<Byte>>): Outcome
    decreases |chunks|
  {
    if chunks == [] then Outcome([], buf)
    else
      var head := Drain(buf + chunks[0]);
      Then(head.actions, Feed(head.residue, chunks[1..]))
  }

  function Concat(chunks: seq<seq<Byte>>): seq<Byte> {
    if chunks == [] then [] else chunks[0] + Concat(chunks[1..])
  }

  /** The state of one connection and its 'data' handler. */
  class Connection {
    var buf: seq<Byte>
    var calls: seq<Action>

    constructor ()
      ensures buf == [] && calls == []
    {
      buf, calls := [], [];
    }

    method OnData(d: seq<Byte>)
      modifies this
      ensures Outcome(calls, buf) == Then(old(calls), Drain(old(buf) + d))
    {
      buf := buf + d;
      ghost var whole := Then(calls, Drain(buf));
      while true
        invariant Then(calls, Drain(buf)) == whole
        decreases |buf|
      {
        if |buf| < 2 {
          return;
        }
        var complete, i, len := DecodeLength(buf);
        if !complete || |buf| < i + len {
          return;
        }
        var kind, body, rest := buf[0] / 16, buf[i..i + len], buf[i + len..];
        DrainFrame(buf, kind, body, rest);
        ThenAssociates(calls, Reply(kind, body), Drain(rest));
        buf := rest;
        Answer(kind, body);
      }
    }

    method Answer(kind: nat, body: seq<Byte>)
      modifies this`calls
      ensures calls == old(calls) + Reply(kind, body)
    {
      if kind == 1 {
        calls := calls + [Write([0x20, 0x02, 0x00, 0x00])];
      } else if kind == 8 {
        var n, p := 0, 2;
        while p + 2 <= |body|
          invariant n + CountTopics(body, p) == CountTopics(body, 2)
          decreases |body| - p
        {
          p := p + 2 + Word(body[p], body[p + 1]) + 1;
          n := n + 1;
        }
        calls := calls + [Write(Suback(body, n))];
      } else if kind == 12 {
        calls := calls + [Write([0xd0, 0x00])];
      } else if kind == 14 {
        calls := calls + [End];
      }
    }
  }

  /** The inner loop of the handler. */
  method DecodeLength(buf: seq<Byte>) returns (complete: bool, i: nat, len: nat)
    requires |buf| >= 2
    ensures ScanLength(buf, 1, 0, 1) == if complete then Finished(i, len) else Unfinished
  {
    var mult: nat := 1;
    complete, i, len := false, 1, 0;
    while i < |buf| && i <= 4
      invariant 1 <= i <= |buf| && i <= 5
      invariant ScanLength(buf, 1, 0, 1) == ScanLength(buf, i, len, mult)
      decreases 5 - i
    {
      var b := buf[i];
      len := len + Low7(b) * mult;
      mult := mult * 128;
      i := i + 1;
      if b < 128 {
        complete := true;
        return;
      }
    }
  }

  // ------------------------------------------- cutting the stream is harmless

  lemma {:induction false} ScanExtends(buf: seq<Byte>, more: seq<Byte>, i: nat, len: nat, mult: nat)
    requires ScanLength(buf, i, len, mult).Finished?
    ensures ScanLength(buf + more, i, len, mult) == ScanLength(buf, i, len, mult)
    decreases 5 - i
  {
    if buf[i] >= 128 {
      ScanExtends(buf, more, i + 1, len + Low7(buf[i]) * mult, mult * 128);
    }
  }

  /** A frame found in a buffer is found unchanged in every extension of the buffer. */
  lemma FrameExtends(buf: seq<Byte>, more: seq<Byte>)
    requires NextFrame(buf).Frame?
    ensures NextFrame(buf + more) == NextFrame(buf).(rest := NextFrame(buf).rest + more)
  {
    ScanExtends(buf, more, 1, 0, 1);
    var Finished(next, len) := ScanLength(buf, 1, 0, 1);
    assert (buf + more)[next..next + len] == buf[next..next + len];
    assert (buf + more)[next + len..] == buf[next + len..] + more;
  }

  lemma DrainFrame(buf: seq<Byte>, kind: nat, body: seq<Byte>, rest: seq<Byte>)
    requires NextFrame(buf) == Frame(kind, body, rest)
    ensures Drain(buf) == Then(Reply(kind, body), Drain(rest))
  {
  }

  lemma {:induction false} DrainSplits(buf: seq<Byte>, more: seq<Byte>)
    ensures Drain(buf + more) == Then(Drain(buf).actions, Drain(Drain(buf).residue + more))
    decreases |buf|
  {
    match NextFrame(buf)
    case More =>
    case Frame(kind, body, rest) =>
      var reply, tail := Reply(kind, body), Drain(Drain(rest).residue + more);
      calc {
        Drain(buf + more);
        { FrameExtends(buf, more); DrainFrame(buf + more, kind, body, rest + more); }
        Then(reply, Drain(rest + more));
        { DrainSplits(rest, more); }
        Then(reply, Then(Drain(rest).actions, tail));
        { ThenAssociates(reply, Drain(rest).actions, tail); }
        Then(reply + Drain(rest).actions, tail);
        { DrainFrame(buf, kind, body, rest); }
        Then(Drain(buf).actions, Drain(Drain(buf).residue + more));
      }
  }

  lemma ThenAssociates(a: seq<Action>, b: seq<Action>, o: Outcome)
    ensures Then(a, Then(b, o)) == Then(a + b, o)
  {
    assert a + (b + o.actions) == (a + b) + o.actions;
  }

  lemma {:induction false} ResidueIsStuck(buf: seq<Byte>)
    ensures NextFrame(Drain(buf).residue).More?
    decreases |buf|
  {
    match NextFrame(buf)
    case More =>
    case Frame(kind, body, rest) => ResidueIsStuck(rest);
  }

  lemma ConcatSplits(buf: seq<Byte>, chunks: seq<seq<Byte>>)
    requires chunks != []
    ensures buf + Concat(chunks) == (buf + chunks[0]) + Concat(chunks[1..])
  {
  }

  /** However a byte stream is cut into chunks, the calls and the residual buffer are those of
      the uncut stream. */
  lemma {:induction false} ChunkingIsHarmless(buf: seq<Byte>, chunks: seq<seq<Byte>>)
    requires NextFrame(buf).More?
    ensures Feed(buf, chunks) == Drain(buf + Concat(chunks))
    decreases |chunks|
  {
    if chunks == [] {
      assert buf + Concat(chunks) == buf;
    } else {
      var first, rest := buf + chunks[0], Concat(chunks[1..]);
      ConcatSplits(buf, chunks);
      ResidueIsStuck(first);
      ChunkingIsHarmless(Drain(first).residue, chunks[1..]);
      DrainSplits(first, rest);
    }
  }

  // ------------------------------------------------------------ stalling

  /** Four length bytes have arrived and each of them announces another one. */
  predicate Stalled(buf: seq<Byte>) {
    |buf| >= 5 && forall k :: 1 <= k <= 4 ==> buf[k] >= 128
  }

  lemma ScanUnfinished(buf: seq<Byte>)
    requires |buf| >= 5
    ensures ScanLength(buf, 1, 0, 1).Unfinished? <==> Stalled(buf)
  {
    LengthByBytes(buf, buf[1], buf[2], buf[3], buf[4]);
  }

  /** The length field by its bytes: each continuation byte adds its low seven bits, least significant
      first, and the first byte below 128 ends it. */
  lemma LengthByBytes(buf: seq<Byte>, b1: int, b2: int, b3: int, b4: int)
    requires |buf| >= 5 && b1 == buf[1] && b2 == buf[2] && b3 == buf[3] && b4 == buf[4]
    ensures ScanLength(buf, 1, 0, 1) ==
            if b1 < 128 then Finished(2, b1)
            else if b2 < 128 then Finished(3, (b1 - 128) + 128 * b2)
            else if b3 < 128 then Finished(4, (b1 - 128) + 128 * (b2 - 128) + 16384 * b3)
            else if b4 < 128 then Finished(5, (b1 - 128) + 128 * (b2 - 128) + 16384 * (b3 - 128) + 2097152 * b4)
            else Unfinished
  {
    ScanTurn(buf, 1, 0, 1);
    if b1 >= 128 { LengthFromSecond(buf, b1 - 128, b2, b3, b4); }
  }

  lemma LengthFromSecond(buf: seq<Byte>, len: nat, b2: int, b3: int, b4: int)
    requires |buf| >= 5 && b2 == buf[2] && b3 == buf[3] && b4 == buf[4]
    ensures ScanLength(buf, 2, len, 128) ==
            if b2 < 128 then Finished(3, len + 128 * b2)
            else if b3 < 128 then Finished(4, len + 128 * (b2 - 128) + 16384 * b3)
            else if b4 < 128 then Finished(5, len + 128 * (b2 - 128) + 16384 * (b3 - 128) + 2097152 * b4)
            else Unfinished
  {
    ScanTurn(buf, 2, len, 128);
    if b2 >= 128 { LengthFromThird(buf, len + 128 * (b2 - 128), b3, b4); }
  }

  lemma LengthFromThird(buf: seq<Byte>, len: nat, b3: int, b4: int)
    requires |buf| >= 5 && b3 == buf[3] && b4 == buf[4]
    ensures ScanLength(buf, 3, len, 16384) ==
            if b3 < 128 then Finished(4, len + 16384 * b3)
            else if b4 < 128 then Finished(5, len + 16384 * (b3 - 128) + 2097152 * b4)
            else Unfinished
  {
    ScanTurn(buf, 3, len, 16384);
    if b3 >= 128 { ScanTurn(buf, 4, len + 16384 * (b3 - 128), 2097152); }
  }

  lemma ScanTurn(buf: seq<Byte>, i: nat, len: nat, mult: nat)
    requires i < |buf| && i <= 4
    ensures ScanLength(buf, i, len, mult) ==
            if buf[i] < 128 then Finished(i + 1, len + Low7(buf[i]) * mult)
            else ScanLength(buf, i + 1, len + Low7(buf[i]) * mult, mult * 128)
  {
  }

  /** No further byte can ever complete a frame exactly when the buffer is stalled. */
  lemma StallIsForever(buf: seq<Byte>)
    ensures Stalled(buf) <==> forall more: seq<Byte> :: NextFrame(buf + more).More?
  {
    if Stalled(buf) {
      forall more: seq<Byte> ensures NextFrame(buf + more).More? {
        ScanUnfinished(buf + more);
      }
    } else {
      var padded := buf + Zeros(5);
      assert !Stalled(padded) by {
        if |buf| < 5 {
          var k := if |buf| < 1 then 1 else |buf|;
          assert padded[k] == 0;
        } else {
          var k :| 1 <= k <= 4 && buf[k] < 128;
          assert padded[k] == buf[k];
        }
      }
      ScanUnfinished(padded);
      var Finished(next, len) := ScanLength(padded, 1, 0, 1);
      ScanExtends(padded, Zeros(len), 1, 0, 1);
      assert buf + (Zeros(5) + Zeros(len)) == padded + Zeros(len);
      assert NextFrame(buf + (Zeros(5) + Zeros(len))).Frame?;
    }
  }

  /** A stalled connection answers nothing more and keeps every byte, whatever arrives. */
  lemma StalledFeed(buf: seq<Byte>, chunks: seq<seq<Byte>>)
    requires Stalled(buf)
    ensures Feed(buf, chunks) == Outcome([], buf + Concat(chunks))
  {
    ChunkingIsHarmless(buf, chunks);
    StallIsForever(buf);
  }

  // ---------------------------------------- the section 2.2.3 length encoding

  const MAX_LENGTH := 268435455

  function EncodeLength(n: nat): (r: seq<Byte>)
    ensures |r| >= 1
  {
    if n < 128 then [n] else [128 + n % 128] + EncodeLength(n / 128)
  }

  function Pow128(k: nat): nat {
    if k == 0 then 1 else 128 * Pow128(k - 1)
  }

  lemma DigitSplit(n: nat, mult: nat)
    ensures (n % 128) * mult + (n / 128) * (mult * 128) == n * mult
  {
    calc {
      (n % 128) * mult + (n / 128) * (mult * 128);
      (n % 128 + 128 * (n / 128)) * mult;
      n * mult;
    }
  }

  lemma EncodedTail(buf: seq<Byte>, i: nat, n: nat)
    requires n >= 128 && i <= |buf| && EncodeLength(n) <= buf[i..]
    ensures i < |buf| && buf[i] == 128 + n % 128
    ensures EncodeLength(n / 128) <= buf[i + 1..]
  {
    assert buf[i] == buf[i..][0] == EncodeLength(n)[0];
    assert buf[i + 1..] == buf[i..][1..];
    assert EncodeLength(n / 128) == EncodeLength(n)[1..];
  }

  lemma {:induction false} ScanEncoded(buf: seq<Byte>, i: nat, n: nat, len: nat, mult: nat, total: nat)
    requires 1 <= i <= 4 || (i == 5 && n >= 1)
    requires i <= |buf| && EncodeLength(n) <= buf[i..]
    requires total == len + n * mult
    ensures ScanLength(buf, i, len, mult)
         == if n < Pow128(5 - i) then Finished(i + |EncodeLength(n)|, total) else Unfinished
    decreases 5 - i
  {
    if i < 5 {
      if n >= 128 {
        EncodedTail(buf, i, n);
        ScanGoesOn(buf, i, n % 128, len, mult);
        DigitSplit(n, mult);
        ScanEncoded(buf, i + 1, n / 128, len + (n % 128) * mult, mult * 128, total);
      } else {
        assert buf[i] == buf[i..][0] == n;
        ScanStops(buf, i, len, mult);
        PowPositive(4 - i);
      }
    }
  }

  lemma ScanStops(buf: seq<Byte>, i: nat, len: nat, mult: nat)
    requires i < |buf| && i <= 4 && buf[i] < 128
    ensures ScanLength(buf, i, len, mult) == Finished(i + 1, len + buf[i] * mult)
  {
  }

  lemma ScanGoesOn(buf: seq<Byte>, i: nat, digit: nat, len: nat, mult: nat)
    requires i < |buf| && i <= 4 && digit < 128 && buf[i] == 128 + digit
    ensures ScanLength(buf, i, len, mult) == ScanLength(buf, i + 1, len + digit * mult, mult * 128)
  {
    assert Low7(buf[i]) == digit;
  }

  lemma {:induction false} PowPositive(k: nat)
    ensures Pow128(k) >= 1
  {
    if k > 0 { PowPositive(k - 1); }
  }

  /** A packet on the wire: first byte, encoded length, body. */
  function Packet(first: Byte, body: seq<Byte>): seq<Byte> {
    [first] + EncodeLength(|body|) + body
  }

  /** The decoder inverts the encoding exactly up to the largest length of the standard;
      beyond it no frame is ever found. */
  lemma PacketReadsBack(first: Byte, body: seq<Byte>, rest: seq<Byte>)
    ensures NextFrame(Packet(first, body) + rest)
         == if |body| <= MAX_LENGTH then Frame(first / 16, body, rest) else More
  {
    var code := EncodeLength(|body|);
    var buf := Packet(first, body) + rest;
    assert buf == [first] + code + (body + rest);
    assert buf[1..] == code + (body + rest);
    ScanEncoded(buf, 1, |body|, 0, 1, |body|);
    assert Pow128(4) == MAX_LENGTH + 1;
    if |body| <= MAX_LENGTH {
      var next := 1 + |code|;
      assert buf[next..next + |body|] == body;
      assert buf[next + |body|..] == rest;
    }
  }

  datatype Request = Request(first: Byte, body: seq<Byte>)

  function Wire(requests: seq<Request>): seq<Byte> {
    if requests == [] then [] else Packet(requests[0].first, requests[0].body) + Wire(requests[1..])
  }

  function Replies(requests: seq<Request>): seq<Action> {
    if requests == [] then [] else Reply(requests[0].first / 16, requests[0].body) + Replies(requests[1..])
  }

  /** Every request of a well-formed stream is answered once and in order, however the stream
      is cut, also after a DISCONNECT; nothing stays in the buffer but an unfinished tail. */
  lemma {:induction false} RequestsAreAnswered(requests: seq<Request>, tail: seq<Byte>, chunks: seq<seq<Byte>>)
    requires forall r :: r in requests ==> |r.body| <= MAX_LENGTH
    requires Concat(chunks) == Wire(requests) + tail
    requires NextFrame(tail).More?
    ensures Feed([], chunks) == Outcome(Replies(requests), tail)
  {
    ChunkingIsHarmless([], chunks);
    assert [] + Concat(chunks) == Wire(requests) + tail;
    DrainRequests(requests, tail);
  }

  lemma {:induction false} DrainRequests(requests: seq<Request>, tail: seq<Byte>)
    requires forall r :: r in requests ==> |r.body| <= MAX_LENGTH
    requires NextFrame(tail).More?
    ensures Drain(Wire(requests) + tail) == Outcome(Replies(requests), tail)
  {
    if requests == [] {
      assert Wire(requests) + tail == tail;
    } else {
      var r := requests[0];
      var rest := Wire(requests[1..]) + tail;
      assert Wire(requests) + tail == Packet(r.first, r.body) + rest;
      PacketReadsBack(r.first, r.body, rest);
      DrainRequests(requests[1..], tail);
    }
  }

  /** CONNECT is answered with an accepting CONNACK (section 3.2), PINGREQ with PINGRESP (section
      3.13), DISCONNECT by closing; all but these and SUBSCRIBE go unanswered. */
  lemma RepliesAreFrames(kind: nat, body: seq<Byte>)
    ensures var r := Reply(kind, body);
            match kind
            case 1 => |r| == 1 && r[0].Write? && NextFrame(r[0].bytes) == Frame(2, [0, 0], [])
            case 12 => |r| == 1 && r[0].Write? && NextFrame(r[0].bytes) == Frame(13, [], [])
            case 14 => r == [End]
            case 8 => |r| == 1 && r[0].Write?
            case _ => r == []
  {
    ShortLength([0x20, 0x02, 0x00, 0x00]);
    ShortLength([0xd0, 0x00]);
  }

  // -------------------------------------------------- SUBSCRIBE and SUBACK

  datatype Topic = Topic(filter: seq<Byte>, qos: Byte)

  function TopicBytes(t: Topic): seq<Byte>
    requires |t.filter| < 65536
  {
    [|t.filter| / 256, |t.filter| % 256] + t.filter + [t.qos]
  }

  ghost predicate FitTopics(topics: seq<Topic>) {
    forall t :: t in topics ==> |t.filter| < 65536
  }

  function TopicList(topics: seq<Topic>): seq<Byte>
    requires FitTopics(topics)
  {
    if topics == [] then [] else TopicBytes(topics[0]) + TopicList(topics[1..])
  }

  /** A well-formed list counts its topics; of what follows it, two bytes or more that announce a
      filter reaching to the last byte or beyond count as one topic, and less than two bytes as none. */
  lemma {:induction false} CountsEveryTopic(body: seq<Byte>, p: nat, topics: seq<Topic>, tail: seq<Byte>)
    requires FitTopics(topics)
    requires p <= |body| && body[p..] == TopicList(topics) + tail
    requires |tail| >= 2 ==> 2 + (tail[0] * 256 + tail[1]) + 1 > |tail| - 2
    ensures CountTopics(body, p) == |topics| + (if |tail| >= 2 then 1 else 0)
    decreases |topics|
  {
    if topics == [] {
      assert body[p..] == tail;
      if |tail| >= 2 {
        assert body[p] == body[p..][0] && body[p + 1] == body[p..][1];
        var next := p + 2 + Word(body[p], body[p + 1]) + 1;
        assert CountTopics(body, next) == 0;
      }
    } else {
      var next := p + |topics[0].filter| + 3;
      assert TopicList(topics) + tail == TopicBytes(topics[0]) + (TopicList(topics[1..]) + tail);
      TopicIsFirst(body, p, topics[0], TopicList(topics[1..]) + tail);
      CountsEveryTopic(body, next, topics[1..], tail);
    }
  }

  lemma TopicIsFirst(body: seq<Byte>, p: nat, t: Topic, rest: seq<Byte>)
    requires |t.filter| < 65536 && p <= |body| && body[p..] == TopicBytes(t) + rest
    ensures p + |t.filter| + 3 <= |body| && body[p + |t.filter| + 3..] == rest
    ensures Word(body[p], body[p + 1]) == |t.filter|
  {
    var bytes := TopicBytes(t);
    assert body[p] == body[p..][0] == bytes[0] && body[p + 1] == body[p..][1] == bytes[1];
    assert body[p + |bytes|..] == body[p..][|bytes|..];
  }

  /** The bytes w are a SUBACK (section 3.9) with these id bytes and n return codes 0; its length byte is
      cut to eight bits. */
  predicate IsSuback(w: seq<Byte>, id0: Byte, id1: Byte, n: nat) {
    && |w| == 4 + n && w[0] == 0x90 && w[1] == (2 + n) % 256 && w[2] == id0 && w[3] == id1
    && forall i :: 4 <= i < 4 + n ==> w[i] == 0
  }

  /** Every SUBSCRIBE, well-formed or not, gets one SUBACK with one code 0 for each topic counted; an id
      byte that is missing reads as 0. */
  lemma SubscribeIsAnswered(body: seq<Byte>)
    ensures var r := Reply(8, body);
            |r| == 1 && r[0].Write?
            && IsSuback(r[0].bytes, if |body| > 0 then body[0] else 0, if |body| > 1 then body[1] else 0, CountTopics(body, 2))
  {
  }

  /** A well-formed SUBSCRIBE with k topics is answered with k return codes 0 under its packet id; the
      answer is one complete frame for this decoder, with these codes, exactly when k <= 125. */
  lemma SubscribeIsGranted(id0: Byte, id1: Byte, topics: seq<Topic>)
    requires FitTopics(topics)
    ensures var r, k := Reply(8, [id0, id1] + TopicList(topics)), |topics|;
            && |r| == 1 && r[0].Write? && IsSuback(r[0].bytes, id0, id1, k)
            && (IsGrant(NextFrame(r[0].bytes), id0, id1, k) <==> k <= 125)
  {
    var body := [id0, id1] + TopicList(topics);
    assert body[2..] == TopicList(topics) + [];
    CountsEveryTopic(body, 2, topics, []);
    SubscribeIsAnswered(body);
    AckReadsBack(Reply(8, body)[0].bytes, id0, id1, |topics|);
  }

  /** A complete SUBACK frame that grants n topics. */
  predicate IsGrant(f: Cut, id0: Byte, id1: Byte, n: nat) {
    && f.Frame? && f.kind == 9 && f.rest == []
    && |f.body| == 2 + n && f.body[0] == id0 && f.body[1] == id1 && forall i :: 2 <= i < 2 + n ==> f.body[i] == 0
  }

  lemma AckReadsBack(w: seq<Byte>, id0: Byte, id1: Byte, n: nat)
    requires IsSuback(w, id0, id1, n)
    ensures IsGrant(NextFrame(w), id0, id1, n) <==> n <= 125
  {
    ShortLength(w);
  }

  lemma ShortLength(buf: seq<Byte>)
    requires |buf| >= 2
    ensures var r := ScanLength(buf, 1, 0, 1);
            if buf[1] < 128 then r == Finished(2, buf[1]) else r.Finished? ==> r.next >= 3
  {
    if buf[1] >= 128 {
      assert ScanLength(buf, 1, 0, 1) == ScanLength(buf, 2, Low7(buf[1]), 128);
    }
  }
}

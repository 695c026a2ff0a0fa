/** Message framing on streams: internal/engine/framing.go over TCP, however the bytes
    are cut up, and the token frames of internal/shred/frame.go. */
module Framing {
  import opened Bytes

  const MAX_FRAME := 65535
  const TOKEN_LEN := 32

  datatype FrameError = TooLarge | EndOfStream

  /** A read message with the rest of the stream, or an error. */
  datatype Taken<T> = Taken(message: T, rest: seq<byte>) | Failed(error: FrameError)

  // ----------------------------------------------------------- length-prefixed

  /** The bytes `writeFrame` writes; none when it refuses the message. */
  function Framed(message: seq<byte>): seq<byte> {
    if |message| > MAX_FRAME then [] else BE(4, |message|) + message
  }

  function TakeFrame(stream: seq<byte>): Taken<seq<byte>> {
    if |stream| < 4 then Failed(EndOfStream) else
    var n := UInt(stream[..4]);
    if n == 0 || n > MAX_FRAME then Failed(TooLarge)
    else if |stream| < 4 + n then Failed(EndOfStream)
    else Taken(stream[4..4 + n], stream[4 + n..])
  }

  predicate Frameable(message: seq<byte>) {
    1 <= |message| <= MAX_FRAME
  }

  lemma TakeShrinks(stream: seq<byte>)
    requires TakeFrame(stream).Taken?
    ensures |TakeFrame(stream).rest| < |stream|
  {}

  /** A message comes back with the rest of the stream untouched exactly when its
      length is from 1 to 65535. */
  lemma FrameRoundTrip(message: seq<byte>, rest: seq<byte>)
    ensures TakeFrame(Framed(message) + rest) == Taken(message, rest) <==> Frameable(message)
    ensures Frameable(message) <==> 1 <= |message| <= 65535
  {
    var s := Framed(message) + rest;
    if |message| > MAX_FRAME {
      assert s == rest;
      if TakeFrame(rest).Taken? {
        TakeShrinks(rest);
      }
    } else {
      assert s[..4] == BE(4, |message|);
      U32RoundTrip(|message|);
      assert s[4..4 + |message|] == message && s[4 + |message|..] == rest;
    }
  }

  function FramedAll(messages: seq<seq<byte>>): seq<byte> {
    if messages == [] then [] else Framed(messages[0]) + FramedAll(messages[1..])
  }

  /** The outcome of `n` successive reads: the messages, or the first error. */
  function TakeFrames(stream: seq<byte>, n: nat): Taken<seq<seq<byte>>>
    decreases n, stream
  {
    if n == 0 then Taken([], stream) else
    match TakeFrame(stream)
    case Failed(error) => Failed(error)
    case Taken(m, rest) =>
      match TakeFrames(rest, n - 1)
      case Failed(error) => Failed(error)
      case Taken(ms, last) => Taken([m] + ms, last)
  }

  /** Any list of messages of 1 to 65535 bytes is read back as it was written. */
  lemma {:induction false} FramesRoundTrip(messages: seq<seq<byte>>, rest: seq<byte>)
    requires forall i :: 0 <= i < |messages| ==> Frameable(messages[i])
    ensures TakeFrames(FramedAll(messages) + rest, |messages|) == Taken(messages, rest)
  {
    if messages == [] {
      assert FramedAll(messages) + rest == rest;
    } else {
      var later := FramedAll(messages[1..]) + rest;
      assert FramedAll(messages) + rest == Framed(messages[0]) + later;
      FrameRoundTrip(messages[0], later);
      FramesRoundTrip(messages[1..], rest);
      assert [messages[0]] + messages[1..] == messages;
    }
  }

  /** A byte stream: `Read` gives any non-empty piece of what is there, as `chunk`
      decides; nothing only at the end. */
  class Stream {
    var content: seq<byte>
    const chunk: nat -> nat
    var count: nat

    constructor (content: seq<byte>, chunk: nat -> nat)
      ensures this.content == content && this.chunk == chunk
    {
      this.content, this.chunk, count := content, chunk, 0;
    }

    method Write(data: seq<byte>)
      modifies this`content
      ensures content == old(content) + data
    {
      content := content + data;
    }

    method Read(max: nat) returns (data: seq<byte>)
      requires max > 0
      modifies this
      ensures data + content == old(content)
      ensures |data| <= max && (data == [] <==> old(content) == [])
    {
      count := count + 1;
      if content == [] {
        return [];
      }
      var n := 1 + chunk(count) % (if max < |content| then max else |content|);
      data, content := content[..n], content[n..];
    }

    /** `io.ReadFull`: how the stream is cut up makes no difference. */
    method ReadFull(size: nat) returns (ok: bool, data: seq<byte>)
      modifies this
      ensures ok <==> |old(content)| >= size
      ensures ok ==> data == old(content)[..size] && content == old(content)[size..]
    {
      data := [];
      while |data| < size
        invariant |data| <= size
        invariant data + content == old(content)
        decreases size - |data|
      {
        var piece := Read(size - |data|);
        if piece == [] {
          return false, data;
        }
        data := data + piece;
      }
      return true, data;
    }

    method WriteFrame(data: seq<byte>) returns (ok: bool)
      modifies this`content
      ensures ok <==> |data| <= MAX_FRAME
      ensures content == old(content) + Framed(data)
      ensures content == old(content) + if |data| > 65535 then [] else BE(4, |data|) + data
    {
      if |data| > MAX_FRAME {
        return false;
      }
      var buf := new byte[4 + |data|](_ => 0);
      Put(buf, 0, BE(4, |data|));
      Put(buf, 4, data);
      assert buf[..4 + |data|] == buf[..];
      Write(buf[..]);
      return true;
    }

    method ReadFrame() returns (r: Taken<seq<byte>>)
      modifies this
      ensures r.Taken? ==> content == r.rest
      ensures r == TakeFrame(old(content))
    {
      var ok, header := ReadFull(4);
      if !ok {
        return Failed(EndOfStream);
      }
      var length := UInt(header);
      if length == 0 || length > MAX_FRAME {
        return Failed(TooLarge);
      }
      ghost var after := content;
      var full, buf := ReadFull(length);
      if !full {
        return Failed(EndOfStream);
      }
      assert buf == old(content)[4..4 + length] && content == old(content)[4 + length..];
      return Taken(buf, content);
    }
  }

  lemma FramedOne(m: seq<byte>)
    ensures FramedAll([m]) == Framed(m)
  {
    var s := [m];
    assert s[1..] == [];
    assert FramedAll(s) == Framed(m) + [];
  }

  lemma {:induction false} FramedPush(messages: seq<seq<byte>>, m: seq<byte>)
    ensures FramedAll(messages + [m]) == FramedAll(messages) + Framed(m)
  {
    if messages == [] {
      FramedOne(m);
      assert messages + [m] == [m];
    } else {
      FramedPush(messages[1..], m);
      var all := messages + [m];
      assert all[0] == messages[0] && all[1..] == messages[1..] + [m];
      Associate(Framed(messages[0]), FramedAll(messages[1..]), Framed(m));
    }
  }

  method WriteAll(stream: Stream, messages: seq<seq<byte>>)
    modifies stream
    ensures stream.content == old(stream.content) + FramedAll(messages)
  {
    var i := 0;
    assert old(stream.content) + [] == old(stream.content);
    while i < |messages|
      invariant i <= |messages|
      invariant stream.content == old(stream.content) + FramedAll(messages[..i])
    {
      FramedPush(messages[..i], messages[i]);
      assert messages[..i + 1] == messages[..i] + [messages[i]];
      Associate(old(stream.content), FramedAll(messages[..i]), Framed(messages[i]));
      var ok := stream.WriteFrame(messages[i]);
      i := i + 1;
    }
    assert messages[..|messages|] == messages;
  }

  /** However the stream is cut up, reading as many frames as were written gives the
      list that was written, and leaves the rest. */
  method ReadAll(stream: Stream, ghost messages: seq<seq<byte>>, n: nat, ghost rest: seq<byte>)
    returns (got: seq<seq<byte>>)
    requires n == |messages| && forall i :: 0 <= i < n ==> Frameable(messages[i])
    requires stream.content == FramedAll(messages) + rest
    modifies stream
    ensures got == messages && stream.content == rest
  {
    got := [];
    var i := 0;
    while i < n
      invariant i <= n
      invariant stream.content == FramedAll(messages[i..]) + rest
      invariant got == messages[..i]
    {
      ghost var later := FramedAll(messages[i + 1..]) + rest;
      assert messages[i..][1..] == messages[i + 1..];
      Associate(Framed(messages[i]), FramedAll(messages[i + 1..]), rest);
      FrameRoundTrip(messages[i], later);
      var r := stream.ReadFrame();
      got := got + [r.message];
      i := i + 1;
    }
    assert [] + rest == rest;
  }

  /** One end writes its messages, the other reads as many: it gets the list, however
      the stream is cut up, and nothing is left. */
  method Transfer(stream: Stream, messages: seq<seq<byte>>) returns (got: seq<seq<byte>>)
    requires stream.content == []
    requires forall i :: 0 <= i < |messages| ==> Frameable(messages[i])
    modifies stream
    ensures got == messages && stream.content == []
  {
    WriteAll(stream, messages);
    assert stream.content == FramedAll(messages) + [];
    got := ReadAll(stream, messages, |messages|, []);
  }

  // --------------------------------------------------------------- token frames

  type Token = s: seq<byte> | |s| == TOKEN_LEN witness Zeros(TOKEN_LEN)

  datatype Frame = Frame(authToken: Token, payload: seq<byte>)

  /** A frame as written: the padding is written but no length for it. */
  datatype Item = Item(frame: Frame, padding: seq<byte>)

  function TokenFramed(f: Frame, padding: seq<byte>): (s: seq<byte>)
    ensures |s| == TOKEN_LEN + 2 + |f.payload| + |padding|
  {
    f.authToken + BE(2, |f.payload| % 0x1_0000) + f.payload + padding
  }

  function TakeTokenFrame(stream: seq<byte>): Taken<Frame> {
    if |stream| < TOKEN_LEN + 2 then Failed(EndOfStream) else
    var n := UInt(stream[TOKEN_LEN..TOKEN_LEN + 2]);
    if |stream| < TOKEN_LEN + 2 + n then Failed(EndOfStream)
    else Taken(Frame(stream[..TOKEN_LEN], stream[TOKEN_LEN + 2..TOKEN_LEN + 2 + n]), stream[TOKEN_LEN + 2 + n..])
  }

  /** Token and payload come back, and exactly the padding is left before the rest,
      when and only when the payload is under 65536 bytes. */
  lemma TokenFrameRoundTrip(f: Frame, padding: seq<byte>, rest: seq<byte>)
    ensures TakeTokenFrame(TokenFramed(f, padding) + rest) == Taken(f, padding + rest) <==> |f.payload| < 0x1_0000
  {
    var s := TokenFramed(f, padding) + rest;
    var n := |f.payload| % 0x1_0000;
    assert s[..TOKEN_LEN] == f.authToken;
    assert s[TOKEN_LEN..TOKEN_LEN + 2] == BE(2, n);
    U16RoundTrip(n);
    if |f.payload| < 0x1_0000 {
      assert n == |f.payload|;
      assert s[TOKEN_LEN + 2..TOKEN_LEN + 2 + n] == f.payload;
      assert s[TOKEN_LEN + 2 + n..] == padding + rest;
    }
  }

  function TokenFramedAll(items: seq<Item>): seq<byte> {
    if items == [] then [] else TokenFramed(items[0].frame, items[0].padding) + TokenFramedAll(items[1..])
  }

  function TakeTokenFrames(stream: seq<byte>, n: nat): Taken<seq<Frame>>
    decreases n, stream
  {
    if n == 0 then Taken([], stream) else
    match TakeTokenFrame(stream)
    case Failed(error) => Failed(error)
    case Taken(f, rest) =>
      match TakeTokenFrames(rest, n - 1)
      case Failed(error) => Failed(error)
      case Taken(fs, last) => Taken([f] + fs, last)
  }

  function FramesOf(items: seq<Item>): (fs: seq<Frame>)
    ensures |fs| == |items|
  {
    if items == [] then [] else [items[0].frame] + FramesOf(items[1..])
  }

  function PayloadBytes(frames: seq<Frame>): nat {
    if frames == [] then 0 else TOKEN_LEN + 2 + |frames[0].payload| + PayloadBytes(frames[1..])
  }

  function PaddingBytes(items: seq<Item>): nat {
    if items == [] then 0 else |items[0].padding| + PaddingBytes(items[1..])
  }

  lemma {:induction false} TakenBytes(stream: seq<byte>, n: nat)
    requires TakeTokenFrames(stream, n).Taken?
    ensures var t := TakeTokenFrames(stream, n);
            |stream| == PayloadBytes(t.message) + |t.rest|
  {
    if n > 0 {
      var t := TakeTokenFrame(stream);
      TakenBytes(t.rest, n - 1);
      var later := TakeTokenFrames(t.rest, n - 1).message;
      assert ([t.message] + later)[1..] == later;
    }
  }

  lemma {:induction false} WrittenBytes(items: seq<Item>)
    ensures |TokenFramedAll(items)| == PayloadBytes(FramesOf(items)) + PaddingBytes(items)
  {
    if items != [] {
      WrittenBytes(items[1..]);
      assert FramesOf(items)[1..] == FramesOf(items[1..]);
    }
  }

  lemma {:induction false} NoPadding(items: seq<Item>)
    ensures PaddingBytes(items) == 0 <==> forall i :: 0 <= i < |items| ==> items[i].padding == []
  {
    if items != [] {
      NoPadding(items[1..]);
      if PaddingBytes(items) == 0 {
        forall i | 0 <= i < |items|
          ensures items[i].padding == []
        {
          if i > 0 {
            assert items[i] == items[1..][i - 1];
          }
        }
      }
    }
  }

  lemma {:induction false} UnpaddedRoundTrip(items: seq<Item>, rest: seq<byte>)
    requires forall i :: 0 <= i < |items| ==> |items[i].frame.payload| < 0x1_0000 && items[i].padding == []
    ensures TakeTokenFrames(TokenFramedAll(items) + rest, |items|) == Taken(FramesOf(items), rest)
  {
    if items == [] {
      assert TokenFramedAll(items) + rest == rest;
    } else {
      var later := TokenFramedAll(items[1..]) + rest;
      Associate(TokenFramed(items[0].frame, []), TokenFramedAll(items[1..]), rest);
      TokenFrameRoundTrip(items[0].frame, [], later);
      assert [] + later == later;
      UnpaddedRoundTrip(items[1..], rest);
    }
  }

  /** A sequence of frames is read back whole, leaving the rest of the stream, exactly
      when no frame was padded. */
  lemma TokenFramesRoundTrip(items: seq<Item>, rest: seq<byte>)
    requires forall i :: 0 <= i < |items| ==> |items[i].frame.payload| < 0x1_0000
    ensures TakeTokenFrames(TokenFramedAll(items) + rest, |items|) == Taken(FramesOf(items), rest) <==>
            forall i :: 0 <= i < |items| ==> items[i].padding == []
  {
    var s := TokenFramedAll(items) + rest;
    if TakeTokenFrames(s, |items|) == Taken(FramesOf(items), rest) {
      TakenBytes(s, |items|);
      WrittenBytes(items);
      NoPadding(items);
    } else if forall i :: 0 <= i < |items| ==> items[i].padding == [] {
      UnpaddedRoundTrip(items, rest);
    }
  }

  class FrameParser {
    const sessionID: u64

    constructor (sessionID: u64)
      ensures this.sessionID == sessionID
    {
      this.sessionID := sessionID;
    }

    method WriteFrame(w: Stream, data: seq<byte>, padding: seq<byte>, authToken: Token)
      modifies w`content
      ensures w.content == old(w.content) + TokenFramed(Frame(authToken, data), padding)
      ensures w.content == old(w.content) + (authToken + BE(2, |data| % 0x1_0000) + data + padding)
      ensures |authToken| == 32
    {
      var encLen := |data| % 0x1_0000;
      w.Write(authToken);
      w.Write(BE(2, encLen));
      w.Write(data);
      w.Write(padding);
    }

    method ReadFrame(r: Stream) returns (t: Taken<Frame>)
      modifies r
      ensures t == TakeTokenFrame(old(r.content))
      ensures t.Taken? ==> r.content == t.rest
    {
      ghost var all := r.content;
      var ok, token := r.ReadFull(TOKEN_LEN);
      if !ok {
        return Failed(EndOfStream);
      }
      var header;
      ok, header := r.ReadFull(2);
      if !ok {
        return Failed(EndOfStream);
      }
      assert header == all[TOKEN_LEN..TOKEN_LEN + 2];
      var encLen := UInt(header);
      var payload;
      ok, payload := r.ReadFull(encLen);
      if !ok {
        return Failed(EndOfStream);
      }
      assert payload == all[TOKEN_LEN + 2..TOKEN_LEN + 2 + encLen] && r.content == all[TOKEN_LEN + 2 + encLen..];
      return Taken(Frame(token, payload), r.content);
    }
  }
}

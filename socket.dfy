/**
 * Message (the in-place builders and the codec methods of mysocket.cpp) and
 * MySocket's framed receive and send loops. A socket is modelled by the
 * bytes its peer has sent and by the grant each successive read or send call
 * gets from the kernel: a positive grant moves up to that many bytes, a grant
 * of zero or less is a closed peer or an error.
 */
module Socket {
  import opened Bytes
  import opened Wrappers
  import opened Protocol
  import Text
  import Codec

  function Min(a: int, b: int): int
  {
    if a <= b then a else b
  }

  /** Writing a chunk over the zero fill right after the bytes already read. */
  lemma OverwriteZeros(done: seq<Byte>, chunk: seq<Byte>, m: nat)
    requires |chunk| <= m
    ensures var b := done + Zeros(m);
      b[..|done|] + chunk + b[|done| + |chunk|..] == (done + chunk) + Zeros(m - |chunk|)
  {
    var b := done + Zeros(m);
    assert b[..|done|] == done;
    assert b[|done| + |chunk|..] == Zeros(m)[|chunk|..];
    ZerosSuffix(m, |chunk|);
  }

  class Message {
    var header: Header
    var body: seq<Byte>
    var audioPacket: AudioPacket

    /** A Message as the code declares it; the header fields without an initialiser are taken as zero. */
    constructor ()
      ensures header == DefaultHeader && body == [] && audioPacket == EmptyPacket
    {
      header := DefaultHeader;
      body := [];
      audioPacket := EmptyPacket;
    }

    function Value(): Frame
      reads this
    {
      Frame(header, body)
    }

    /** clearMessage: header back to its defaults, body emptied; the audio packet is kept. */
    method ClearMessage()
      modifies this
      ensures header == DefaultHeader && body == [] && audioPacket == old(audioPacket)
    {
      header := DefaultHeader;
      body := [];
    }

    /** setTextMessage */
    method SetTextMessage(text: string)
      modifies this
      ensures Value() == SetText(old(Value()), text) && audioPacket == old(audioPacket)
    {
      header := header.(typ := TypeCode(TEXT));
      body := BytesOf(text);
      header := header.(size := Trunc32(|body|));
    }

    /** serialize: a buffer of 9 + |body| bytes written through an advancing index. */
    method Serialize() returns (buffer: array<Byte>)
      ensures buffer[..] == Codec.Encode(Value())
    {
      buffer := new Byte[Codec.HEADER_SIZE + |body|];
      var ptr := 0;
      buffer[ptr] := header.typ;
      ptr := ptr + 1;
      var netSize := Be32(header.size);
      CopyInto(buffer, ptr, netSize);
      assert buffer[..5] == [header.typ] + netSize by {
        assert buffer[..5] == buffer[..1] + buffer[1..5];
      }
      ptr := ptr + 4;
      var netFlag := Be32(header.flag);
      CopyInto(buffer, ptr, netFlag);
      assert buffer[..9] == [header.typ] + netSize + netFlag by {
        assert buffer[..9] == buffer[..5] + buffer[5..9];
      }
      ptr := ptr + 4;
      CopyInto(buffer, ptr, body);
      assert buffer[..] == buffer[..9] + buffer[9..];
    }

    /** deserialize: the type octet, two BE32 fields, and the rest of the buffer as the body. */
    method Deserialize(buffer: seq<Byte>)
      requires |buffer| >= Codec.HEADER_SIZE
      modifies this
      ensures Value() == Codec.Decode(buffer) && audioPacket == old(audioPacket)
    {
      var ptr := 0;
      var typ := buffer[ptr];
      ptr := ptr + 1;
      var size := ReadBe32(buffer[ptr..ptr + 4]);
      ptr := ptr + 4;
      var flag := ReadBe32(buffer[ptr..ptr + 4]);
      ptr := ptr + 4;
      header := Header(typ, size, flag);
      var bodySize := |buffer| - ptr;
      if bodySize > 0 {
        body := buffer[ptr..];
      } else {
        body := [];
      }
    }

    /** setVoiceMessage(packet, channel) */
    method SetVoiceMessage(packet: AudioPacket, channel: string) returns (ok: bool)
      requires packet.Valid()
      modifies this
      ensures ok && audioPacket == packet
      ensures body == Codec.VoiceBody(channel, packet)
      ensures header == Header(TypeCode(VOICE), Trunc32(|body|), old(header.flag))
    {
      header := header.(typ := TypeCode(VOICE));
      audioPacket := packet;
      body := [];
      var channelLength := Trunc32(|channel|);
      body := body + Be32(channelLength);
      body := body + BytesOf(channel);
      var opusLength := Trunc32(packet.opusLength);
      body := body + Be32(opusLength);
      body := body + packet.opusData[..opusLength];
      header := header.(size := Trunc32(|body|));
      ok := true;
    }

    /** setVoiceMessage(samples, channel); the samples' in-memory bytes are given as sampleBytes. */
    method SetPcmVoiceMessage(sampleBytes: seq<Byte>, channel: string) returns (ok: bool)
      modifies this
      ensures ok && audioPacket == old(audioPacket)
      ensures body == Codec.PcmVoiceBody(channel, sampleBytes)
      ensures header == Header(TypeCode(VOICE), Trunc32(|body|), old(header.flag))
    {
      header := header.(typ := TypeCode(VOICE));
      body := [];
      body := body + Be32(Trunc32(|channel|));
      body := body + BytesOf(channel);
      body := body + sampleBytes;
      header := header.(size := Trunc32(|body|));
      ok := true;
    }

    /**
     * setAudioMessage(filePath, id, channel). The file is given by its bytes,
     * None when it cannot be opened. On any refusal the message is untouched.
     */
    method SetAudioMessage(filePath: string, file: Option<seq<Byte>>, id: string, channel: string)
      returns (status: Codec.Status)
      modifies this
      ensures status == if channel == "" then Codec.Refused
                        else Codec.WavFileCheck(filePath, file.Some?, if file.Some? then |file.value| else 0)
      ensures status == Codec.Done ==>
        body == Codec.AudioBody(id, channel, Codec.BaseName(filePath), file.value)
        && header == Header(TypeCode(AUDIO), Trunc32(|body|), old(header.flag))
      ensures status != Codec.Done ==> header == old(header) && body == old(body)
      ensures audioPacket == old(audioPacket)
    {
      if channel == "" {
        return Codec.Refused;
      }
      status := CheckWavFile(filePath, file);
      if status != Codec.Done {
        return;
      }
      var audioData := file.value;
      var fileName := Codec.BaseName(filePath);
      body := AudioBodyOf(id, channel, fileName, audioData);
      header := header.(typ := TypeCode(AUDIO), size := Trunc32(|body|));
      status := Codec.Done;
    }

    /** setAudioMessage(filePath): the voicemail the server sends back. */
    method SetAudioReply(filePath: string, file: Option<seq<Byte>>) returns (status: Codec.Status)
      modifies this
      ensures status == Codec.WavFileCheck(filePath, file.Some?, if file.Some? then |file.value| else 0)
      ensures status == Codec.Done ==>
        body == Codec.AudioReplyBody(Codec.BaseName(filePath), file.value)
        && header == Header(TypeCode(AUDIO), Trunc32(|body|), old(header.flag))
      ensures status != Codec.Done ==> header == old(header) && body == old(body)
      ensures audioPacket == old(audioPacket)
    {
      status := CheckWavFile(filePath, file);
      if status != Codec.Done {
        return;
      }
      var audioData := file.value;
      var fileName := Codec.BaseName(filePath);
      body := AudioReplyBodyOf(fileName, audioData);
      header := header.(typ := TypeCode(AUDIO), size := Trunc32(|body|));
    }

    /** setFileMessage */
    method SetFileMessage(packet: FilePacket, channel: string, id: string) returns (ok: bool)
      modifies this
      ensures ok && audioPacket == old(audioPacket)
      ensures body == Codec.FileBody(id, channel, packet)
      ensures header == Header(TypeCode(FILE_TYPE), Trunc32(|body|), old(header.flag))
    {
      header := header.(typ := TypeCode(FILE_TYPE));
      var b: seq<Byte> := [];
      b := b + Be32(Trunc32(|id|)) + BytesOf(id);
      assert b == Prefixed(BytesOf(id));
      b := b + Be32(Trunc32(|channel|)) + BytesOf(channel);
      assert b == Prefixed(BytesOf(id)) + Prefixed(BytesOf(channel));
      b := b + Be32(Trunc32(|packet.filename|)) + BytesOf(packet.filename);
      assert b == Prefixed(BytesOf(id)) + Prefixed(BytesOf(channel)) + Prefixed(BytesOf(packet.filename));
      b := b + Be32(packet.fileSize);
      b := b + packet.fileData;
      body := b;
      header := header.(size := Trunc32(|body|));
      ok := true;
    }
  }

  /** memcpy(buffer + at, src, |src|): the bytes before `at` are kept. */
  method CopyInto(buffer: array<Byte>, at: nat, src: seq<Byte>)
    requires at + |src| <= buffer.Length
    modifies buffer
    ensures buffer[..at] == old(buffer[..at]) && buffer[at..at + |src|] == src
  {
    var i := 0;
    while i < |src|
      invariant 0 <= i <= |src|
      invariant buffer[..at] == old(buffer[..at]) && buffer[at..at + i] == src[..i]
    {
      buffer[at + i] := src[i];
      assert buffer[at..at + i + 1] == buffer[at..at + i] + [src[i]];
      assert src[..i + 1] == src[..i] + [src[i]];
      i := i + 1;
    }
  }

  /** The file checks both setAudioMessage variants make, in their order; the file is None when it cannot be opened. */
  method CheckWavFile(filePath: string, file: Option<seq<Byte>>) returns (status: Codec.Status)
    ensures status == Codec.WavFileCheck(filePath, file.Some?, if file.Some? then |file.value| else 0)
  {
    if file.None? {
      return Codec.Refused;
    }
    var extension := Codec.Extension(filePath);
    if extension.None? {
      return Codec.OutOfRange;
    }
    if extension.value != ".wav" {
      return Codec.Refused;
    }
    if |file.value| > Codec.MAX_FILE_SIZE {
      return Codec.Refused;
    }
    status := Codec.Done;
  }

  method AudioReplyBodyOf(fileName: string, audioData: seq<Byte>) returns (b: seq<Byte>)
    ensures b == Codec.AudioReplyBody(fileName, audioData)
  {
    b := [];
    b := b + Be32(Trunc32(|fileName|)) + BytesOf(fileName);
    assert b == Prefixed(BytesOf(fileName));
    b := b + audioData;
  }

  /** The body setAudioMessage writes: three length-prefixed strings, then the file's bytes. */
  method AudioBodyOf(id: string, channel: string, fileName: string, audioData: seq<Byte>) returns (b: seq<Byte>)
    ensures b == Codec.AudioBody(id, channel, fileName, audioData)
  {
    b := [];
    b := b + Be32(Trunc32(|id|)) + BytesOf(id);
    assert b == Prefixed(BytesOf(id));
    b := b + Be32(Trunc32(|channel|)) + BytesOf(channel);
    assert b == Prefixed(BytesOf(id)) + Prefixed(BytesOf(channel));
    b := b + Be32(Trunc32(|fileName|)) + BytesOf(fileName);
    assert b == Prefixed(BytesOf(id)) + Prefixed(BytesOf(channel)) + Prefixed(BytesOf(fileName));
    b := b + audioData;
  }

  /** stringToMessage: sets the text in place and returns a copy of the message. */
  method StringToMessage(text: string, message: Message) returns (copy: Frame)
    modifies message
    ensures message.Value() == SetText(old(message.Value()), text) && copy == message.Value()
    ensures message.audioPacket == old(message.audioPacket)
  {
    message.header := message.header.(typ := TypeCode(TEXT));
    message.body := BytesOf(text);
    message.header := message.header.(size := Trunc32(|message.body|));
    copy := message.Value();
  }

  /** flagOn */
  method FlagOn(message: Message, flag: int) returns (copy: Frame)
    modifies message
    ensures message.Value() == Codec.FlagOn(old(message.Value()), flag) && copy == message.Value()
    ensures message.audioPacket == old(message.audioPacket)
  {
    message.header := message.header.(flag := Trunc32(flag));
    copy := message.Value();
  }

  /** flagOff */
  method FlagOff(message: Message) returns (copy: Frame)
    modifies message
    ensures message.Value() == Codec.FlagOff(old(message.Value())) && copy == message.Value()
    ensures message.audioPacket == old(message.audioPacket)
  {
    message.header := message.header.(flag := FlagCode(COMMAND));
    copy := message.Value();
  }

  // ---------------------------------------------------------------- the peer's byte stream

  datatype Stream = Stream(data: seq<Byte>, grants: seq<int>)

  /** One read(sock, buf, n): at most n bytes, at most the grant, at most what the peer has sent. */
  function ReadCall(s: Stream, n: nat): (r: (seq<Byte>, Stream))
    ensures |r.0| <= n && s.data == r.0 + r.1.data
    ensures |r.0| == 0 <==> n == 0 || s.data == [] || s.grants == [] || s.grants[0] <= 0
  {
    if s.grants == [] then ([], s)
    else if s.grants[0] <= 0 then ([], s.(grants := s.grants[1..]))
    else
      var k := Min(Min(s.grants[0], n), |s.data|);
      (s.data[..k], Stream(s.data[k..], s.grants[1..]))
  }

  /** How a read-until-complete loop ends: the bytes it gathered, whether it completed, the stream after it. */
  datatype ReadOutcome = ReadOutcome(got: seq<Byte>, ok: bool, rest: Stream)

  function Prepend(p: seq<Byte>, r: ReadOutcome): ReadOutcome
  {
    r.(got := p + r.got)
  }

  /** Reading until n bytes have arrived; a read that yields nothing ends the loop with a failure. */
  function ReadFull(s: Stream, n: nat): (r: ReadOutcome)
    decreases n
  {
    if n == 0 then ReadOutcome([], true, s)
    else
      var (chunk, s1) := ReadCall(s, n);
      if |chunk| == 0 then ReadOutcome([], false, s1)
      else Prepend(chunk, ReadFull(s1, n - |chunk|))
  }

  /**
   * The read loop gathers a prefix of what the peer sent and leaves the rest
   * in the stream: all n bytes when it completes, fewer when it fails.
   */
  lemma {:induction false} ReadFullShape(s: Stream, n: nat)
    ensures var r := ReadFull(s, n);
      (r.ok ==> |r.got| == n) && (!r.ok ==> |r.got| < n) && Splits(s.data, r.got, r.rest.data)
    decreases n
  {
    if n > 0 {
      var (chunk, s1) := ReadCall(s, n);
      if |chunk| > 0 {
        var r1 := ReadFull(s1, n - |chunk|);
        assert ReadFull(s, n) == Prepend(chunk, r1);
        ReadFullShape(s1, n - |chunk|);
        SplitsTrans(s.data, chunk, s1.data, r1.got, r1.rest.data);
      }
    }
  }

  /** x is p followed by q. */
  predicate Splits(x: seq<Byte>, p: seq<Byte>, q: seq<Byte>)
  {
    x == p + q
  }

  lemma SplitsTrans(x: seq<Byte>, a: seq<Byte>, y: seq<Byte>, b: seq<Byte>, z: seq<Byte>)
    requires Splits(x, a, y) && Splits(y, b, z)
    ensures Splits(x, a + b, z)
  {
    assert x == (a + b) + z;
  }

  lemma ReadFullStep(s: Stream, n: nat)
    requires n > 0 && |ReadCall(s, n).0| > 0
    ensures ReadFull(s, n) == Prepend(ReadCall(s, n).0, ReadFull(ReadCall(s, n).1, n - |ReadCall(s, n).0|))
  {
  }

  lemma ReadFullFails(s: Stream, n: nat)
    requires n > 0 && |ReadCall(s, n).0| == 0
    ensures ReadFull(s, n) == ReadOutcome([], false, ReadCall(s, n).1)
  {
  }

  lemma PrependTwice(a: seq<Byte>, b: seq<Byte>, r: ReadOutcome)
    ensures Prepend(a, Prepend(b, r)) == Prepend(a + b, r)
  {
  }

  /** A peer that has sent at least n bytes and whose next n reads all get a positive grant. */
  predicate Cooperative(s: Stream, n: nat)
  {
    n <= |s.data| && n <= |s.grants| && forall i :: 0 <= i < n ==> s.grants[i] > 0
  }

  /** Against a cooperative peer the read loop completes with the first n bytes. */
  lemma {:induction false} ReadFullCompletes(s: Stream, n: nat)
    requires Cooperative(s, n)
    ensures ReadFull(s, n).ok && ReadFull(s, n).got == s.data[..n]
    decreases n
  {
    if n > 0 {
      var (chunk, s1) := ReadCall(s, n);
      assert |chunk| > 0;
      assert s1.grants == s.grants[1..];
      assert Cooperative(s1, n - |chunk|) by {
        forall i | 0 <= i < n - |chunk| ensures s1.grants[i] > 0 {
          assert s1.grants[i] == s.grants[i + 1];
        }
      }
      ReadFullCompletes(s1, n - |chunk|);
    }
  }

  /** How receiveMessage ends: its verdict, the message it leaves behind and the stream after it. */
  datatype Received = Received(ok: bool, frame: Frame, rest: Stream)

  /**
   * receiveMessage: clear the message, read the 9 header bytes, refuse a body
   * over 10 MiB before reading any of it, then read the body into a buffer
   * resized to header.size (already-read bytes first, zero fill after).
   */
  function Receive(s: Stream): (r: Received)
  {
    var h := ReadFull(s, Codec.HEADER_SIZE);
    if !h.ok then Received(false, Frame(DefaultHeader, []), h.rest)
    else
      ReadFullShape(s, Codec.HEADER_SIZE);
      var hdr := Codec.Decode(h.got).header;
      ReceiveAfterHeader(hdr, h.rest)
  }

  /** The rest of receiveMessage once the header is in: refuse an oversized body, else read it. */
  function ReceiveAfterHeader(hdr: Header, s: Stream): Received
  {
    if hdr.size > Codec.MAX_MESSAGE_SIZE then Received(false, Frame(hdr, []), s) else ReceiveBody(hdr, s)
  }

  /** The body read of receiveMessage: header.size bytes, the missing ones zero when the read loop fails. */
  function ReceiveBody(hdr: Header, s: Stream): Received
  {
    var b := ReadFull(s, hdr.size);
    ReadFullShape(s, hdr.size);
    Received(b.ok, Frame(hdr, b.got + Zeros(hdr.size - |b.got|)), b.rest)
  }

  /** A received frame is exactly the encoding at the head of the stream, its body holding header.size bytes. */
  lemma ReceivedIsEncoded(s: Stream)
    requires Receive(s).ok
    ensures var f := Receive(s).frame;
      |f.body| == f.header.size <= Codec.MAX_MESSAGE_SIZE
      && |Codec.Encode(f)| <= |s.data|
      && s.data[..|Codec.Encode(f)|] == Codec.Encode(f)
      && Receive(s).rest.data == s.data[|Codec.Encode(f)|..]
  {
    var h := ReadFull(s, Codec.HEADER_SIZE);
    var hdr := Codec.Decode(h.got).header;
    var b := ReadFull(h.rest, hdr.size);
    assert h.ok && hdr.size <= Codec.MAX_MESSAGE_SIZE && b.ok
      && Receive(s) == Received(b.ok, Frame(hdr, b.got + Zeros(hdr.size - |b.got|)), b.rest);
    assert |h.got| == Codec.HEADER_SIZE && Splits(s.data, h.got, h.rest.data) by {
      ReadFullShape(s, Codec.HEADER_SIZE);
    }
    assert |b.got| == hdr.size && Splits(h.rest.data, b.got, b.rest.data) by {
      ReadFullShape(h.rest, hdr.size);
    }
    assert Receive(s).frame == Frame(hdr, b.got) by {
      assert Zeros(0) == [];
      assert b.got + Zeros(hdr.size - |b.got|) == b.got;
    }
    Codec.EncodeDecodedHeader(h.got, b.got);
    SplitsTrans(s.data, h.got, h.rest.data, b.got, b.rest.data);
  }

  /** A header announcing more than 10 MiB is refused with only the header consumed. */
  lemma ReceiveRefusesOversize(s: Stream)
    requires Cooperative(s, Codec.HEADER_SIZE)
    requires ReadBe32(s.data[1..5]) > Codec.MAX_MESSAGE_SIZE
    ensures !Receive(s).ok && Receive(s).frame.body == []
    ensures Receive(s).rest.data == s.data[Codec.HEADER_SIZE..]
  {
    ReadFullCompletes(s, Codec.HEADER_SIZE);
    ReadFullShape(s, Codec.HEADER_SIZE);
    var h := ReadFull(s, Codec.HEADER_SIZE);
    assert h.got[1..5] == s.data[1..5];
    assert Codec.Decode(h.got).header.size > Codec.MAX_MESSAGE_SIZE;
  }

  /**
   * What a sender's serialize put on the wire is received intact by a peer
   * whose two reads are each granted what they ask for.
   */
  lemma ReceiveOfEncoded(f: Frame, more: seq<Byte>, grants: seq<int>)
    requires |f.body| == f.header.size <= Codec.MAX_MESSAGE_SIZE
    requires |grants| >= 2 && grants[0] >= Codec.HEADER_SIZE && grants[1] >= |f.body|
    ensures Receive(Stream(Codec.Encode(f) + more, grants)).ok
    ensures Receive(Stream(Codec.Encode(f) + more, grants)).frame == f
    ensures Receive(Stream(Codec.Encode(f) + more, grants)).rest.data == more
  {
    var s := Stream(Codec.Encode(f) + more, grants);
    var s1 := Stream(f.body + more, grants[1..]);
    var h := ReadFull(s, Codec.HEADER_SIZE);
    assert s.data[Codec.HEADER_SIZE..] == f.body + more;
    ReadAllGranted(s, Codec.HEADER_SIZE);
    assert h == ReadOutcome(s.data[..Codec.HEADER_SIZE], true, s1);
    Codec.DecodeHeaderPrefix(f, more);
    assert Receive(s) == ReceiveBody(f.header, s1);
    ReadAllGranted(s1, f.header.size);
    assert s1.data[..f.header.size] == f.body && s1.data[f.header.size..] == more;
  }

  /** A read loop whose first read is granted all it asks for, and the peer holds that many, completes in one read. */
  lemma ReadAllGranted(s: Stream, n: nat)
    requires n <= |s.data| && s.grants != [] && s.grants[0] >= n
    ensures ReadFull(s, n) == if n == 0 then ReadOutcome([], true, s)
      else ReadOutcome(s.data[..n], true, Stream(s.data[n..], s.grants[1..]))
  {
    if n > 0 {
      assert ReadCall(s, n) == (s.data[..n], Stream(s.data[n..], s.grants[1..]));
    }
  }

  // ---------------------------------------------------------------- the bytes this side sends

  datatype Sink = Sink(sent: seq<Byte>, grants: seq<int>)

  /** One send(sock, buf, len): a positive grant moves up to that many bytes; it returns the count or the error. */
  function SendCall(k: Sink, buf: seq<Byte>): (r: (int, Sink))
    ensures r.0 > 0 ==> r.0 <= |buf| && r.1.sent == k.sent + buf[..r.0]
    ensures r.0 <= 0 ==> r.1.sent == k.sent
  {
    if k.grants == [] then (-1, k)
    else if k.grants[0] <= 0 then (k.grants[0], k.(grants := k.grants[1..]))
    else
      var m := Min(k.grants[0], |buf|);
      (m, Sink(k.sent + buf[..m], k.grants[1..]))
  }

  /** sendMessage's loop: send the rest until all of it is out; a call that moves nothing fails the send. */
  function SendAll(k: Sink, buf: seq<Byte>): (r: (bool, Sink))
    ensures r.0 ==> r.1.sent == k.sent + buf
    ensures !r.0 ==> exists j :: 0 <= j < |buf| && r.1.sent == k.sent + buf[..j]
    decreases |buf|
  {
    if buf == [] then (true, k)
    else
      var (n, k1) := SendCall(k, buf);
      if n <= 0 then
        assert k1.sent == k.sent + buf[..0];
        (false, k1)
      else
        var r := SendAll(k1, buf[n..]);
        assert buf[..n] + buf[n..] == buf;
        assert !r.0 ==> exists j :: 0 <= j < |buf| && r.1.sent == k.sent + buf[..j] by {
          if !r.0 {
            var j :| 0 <= j < |buf[n..]| && r.1.sent == k1.sent + buf[n..][..j];
            assert buf[..n] + buf[n..][..j] == buf[..n + j];
          }
        }
        r
  }

  lemma SendAllStep(k: Sink, buf: seq<Byte>)
    requires buf != [] && SendCall(k, buf).0 > 0
    ensures SendAll(k, buf) == SendAll(SendCall(k, buf).1, buf[SendCall(k, buf).0..])
  {
  }

  /** One successful send call inside the loop: the rest of the buffer moves past what went out. */
  lemma SendAllAdvance(k: Sink, wire: seq<Byte>, from: nat)
    requires from < |wire| && SendCall(k, wire[from..]).0 > 0
    ensures var (n, k1) := SendCall(k, wire[from..]);
      from + n <= |wire| && SendAll(k, wire[from..]) == SendAll(k1, wire[from + n..])
  {
    var (n, k1) := SendCall(k, wire[from..]);
    SendAllStep(k, wire[from..]);
    assert wire[from..][n..] == wire[from + n..];
  }

  lemma SendAllFails(k: Sink, buf: seq<Byte>)
    requires buf != [] && SendCall(k, buf).0 <= 0
    ensures SendAll(k, buf) == (false, SendCall(k, buf).1)
  {
  }

  /** sendMessage(message, socket): a single send, which only a negative return fails. */
  function SendOnce(k: Sink, buf: seq<Byte>): (r: (bool, Sink))
    ensures r.0 <==> SendCall(k, buf).0 >= 0
  {
    var (n, k1) := SendCall(k, buf);
    (n >= 0, k1)
  }

  /** The single send reports success although only part of the frame, or none of it, went out. */
  lemma SendOnceMayTruncate(k: Sink, buf: seq<Byte>)
    requires |buf| > 1 && k.grants == [1]
    ensures SendOnce(k, buf).0 && SendOnce(k, buf).1.sent == k.sent + buf[..1]
    ensures SendOnce(k, buf).1.sent != k.sent + buf
  {
  }

  class MySocket {
    var incoming: Stream
    var outgoing: Sink

    constructor (incoming: Stream, outgoing: Sink)
      ensures this.incoming == incoming && this.outgoing == outgoing
    {
      this.incoming := incoming;
      this.outgoing := outgoing;
    }

    /** read(sock, buf, n) */
    method Read(n: nat) returns (chunk: seq<Byte>)
      modifies this
      ensures (chunk, incoming) == ReadCall(old(incoming), n) && outgoing == old(outgoing)
    {
      var r := ReadCall(incoming, n);
      chunk := r.0;
      incoming := r.1;
    }

    /** send(sock, buf, len) */
    method Send(buf: seq<Byte>) returns (sent: int)
      modifies this
      ensures (sent, outgoing) == SendCall(old(outgoing), buf) && incoming == old(incoming)
    {
      var r := SendCall(outgoing, buf);
      sent := r.0;
      outgoing := r.1;
    }

    /**
     * The two read loops of receiveMessage: read until n bytes are in, or a
     * read yields nothing; buffer holds what arrived.
     */
    method ReadExactly(n: nat) returns (buffer: seq<Byte>, ok: bool)
      modifies this
      ensures ReadOutcome(buffer, ok, incoming) == ReadFull(old(incoming), n)
      ensures outgoing == old(outgoing)
    {
      ghost var s0 := incoming;
      buffer := [];
      while |buffer| < n
        invariant |buffer| <= n
        invariant ReadFull(s0, n) == Prepend(buffer, ReadFull(incoming, n - |buffer|))
        invariant outgoing == old(outgoing)
        decreases n - |buffer|
      {
        ghost var before := incoming;
        var chunk := Read(n - |buffer|);
        if |chunk| == 0 {
          ReadFullFails(before, n - |buffer|);
          return buffer, false;
        }
        ReadFullStep(before, n - |buffer|);
        PrependTwice(buffer, chunk, ReadFull(incoming, n - |buffer| - |chunk|));
        buffer := buffer + chunk;
      }
      ok := true;
    }

    /**
     * receiveMessage. The body is resized to header.size (zero-filled) and
     * the body loop reads into it, so a failed body read leaves the bytes that
     * did arrive followed by zeros.
     */
    method ReceiveMessage(message: Message) returns (ok: bool)
      modifies this, message
      ensures Received(ok, message.Value(), incoming) == Receive(old(incoming))
      ensures outgoing == old(outgoing) && message.audioPacket == old(message.audioPacket)
    {
      var headerOk := ReadHeader(message);
      if !headerOk {
        return false;
      }
      if message.header.size > Codec.MAX_MESSAGE_SIZE {
        return false;
      }
      message.body := Zeros(message.header.size);
      var body;
      ok, body := ReadBody(message.header);
      message.body := body;
    }

    /** The first half of receiveMessage: clear the message, read the 9 header bytes, deserialize them. */
    method ReadHeader(message: Message) returns (ok: bool)
      modifies this, message
      ensures !ok ==> Received(false, message.Value(), incoming) == Receive(old(incoming))
      ensures ok ==> message.body == [] && ReceiveAfterHeader(message.header, incoming) == Receive(old(incoming))
      ensures outgoing == old(outgoing) && message.audioPacket == old(message.audioPacket)
    {
      ghost var s0 := incoming;
      ghost var h := ReadFull(s0, Codec.HEADER_SIZE);
      message.ClearMessage();
      var headerBuffer;
      headerBuffer, ok := ReadExactly(Codec.HEADER_SIZE);
      if !ok {
        assert Receive(s0) == Received(false, Frame(DefaultHeader, []), h.rest);
        return;
      }
      assert |headerBuffer| == Codec.HEADER_SIZE && Receive(s0) == ReceiveAfterHeader(Codec.Decode(h.got).header, h.rest) by {
        ReadFullShape(s0, Codec.HEADER_SIZE);
      }
      message.Deserialize(headerBuffer);
    }

    /** The second half of receiveMessage: the body read into a buffer of header.size zero bytes. */
    method ReadBody(hdr: Header) returns (ok: bool, body: seq<Byte>)
      modifies this
      ensures Received(ok, Frame(hdr, body), incoming) == ReceiveBody(hdr, old(incoming))
      ensures outgoing == old(outgoing)
    {
      ghost var s0 := incoming;
      var received;
      received, ok := ReadExactly(hdr.size);
      assert |received| <= hdr.size by {
        ReadFullShape(s0, hdr.size);
      }
      body := received + Zeros(hdr.size - |received|);
    }

    /** sendMessage(message): serialize, then send until every byte is out. */
    method SendMessage(message: Message) returns (ok: bool)
      modifies this
      ensures (ok, outgoing) == SendAll(old(outgoing), Codec.Encode(message.Value()))
      ensures incoming == old(incoming)
    {
      var buffer := message.Serialize();
      ghost var k0 := outgoing;
      ghost var wire := buffer[..];
      var totalSent := 0;
      while totalSent < buffer.Length
        invariant 0 <= totalSent <= buffer.Length
        invariant buffer[..] == wire
        invariant SendAll(k0, wire) == SendAll(outgoing, wire[totalSent..])
        invariant incoming == old(incoming)
        decreases buffer.Length - totalSent
      {
        ghost var before := outgoing;
        var sent := Send(buffer[totalSent..]);
        if sent <= 0 {
          SendAllFails(before, wire[totalSent..]);
          return false;
        }
        SendAllAdvance(before, wire, totalSent);
        totalSent := totalSent + sent;
      }
      assert wire[totalSent..] == [];
      ok := true;
    }
  }

  /** sendMessage(message, socket): the single send to another client's socket, whose sink is given. */
  method SendMessageOnce(message: Message, sink: Sink) returns (ok: bool, after: Sink)
    ensures (ok, after) == SendOnce(sink, Codec.Encode(message.Value()))
  {
    var buffer := message.Serialize();
    var r := SendCall(sink, buffer[..]);
    ok := r.0 >= 0;
    after := r.1;
  }

  // ---------------------------------------------------------------- isNumber, determineType, sendFile

  /** isNumber: a '-' may lead if something follows it; every other character is a digit. */
  method IsNumber(input: string) returns (r: bool)
    ensures r == Codec.IsNumeral(input)
  {
    if |input| == 0 {
      return false;
    }
    var start := 0;
    if input[0] == '-' {
      if |input| == 1 {
        return false;
      }
      start := 1;
    }
    var i := start;
    while i < |input|
      invariant start <= i <= |input|
      invariant forall j :: start <= j < i ==> Text.IsDigit(input[j])
    {
      if !Text.IsDigit(input[i]) {
        assert !Text.AllDigits(input[start..]) by { assert input[start..][i - start] == input[i]; }
        return false;
      }
      i := i + 1;
    }
    assert Text.AllDigits(input[start..]) by {
      forall k | 0 <= k < |input[start..]| ensures Text.IsDigit(input[start..][k]) {
        assert input[start..][k] == input[start + k];
      }
    }
    assert start == 0 ==> input[start..] == input;
    return true;
  }

  /** determineType: "audio" is AUDIO, a number is NUMBER, anything else TEXT. */
  function DetermineType(input: string): (t: DataType)
    ensures t == AUDIO <==> input == "audio"
    ensures t == NUMBER <==> Codec.IsNumeral(input)
    ensures t == TEXT <==> input != "audio" && !Codec.IsNumeral(input)
  {
    assert !Codec.IsNumeral("audio") by { assert !Text.IsDigit("audio"[0]); }
    if input == "audio" then AUDIO else if Codec.IsNumeral(input) then NUMBER else TEXT
  }

  /**
   * sendFile after its checks: a single send of the BE32 size, which only a
   * negative return fails, then the send loop over the file's bytes. A short
   * size send goes unnoticed, so the peer may get part of the size field.
   */
  function SendFileData(k: Sink, data: seq<Byte>): (r: (bool, Sink))
    ensures r.0 ==> exists j :: 0 <= j <= 4 && r.1.sent == k.sent + Be32(Trunc32(|data|))[..j] + data
  {
    var size := Be32(Trunc32(|data|));
    var (n, k1) := SendCall(k, size);
    if n < 0 then (false, k1)
    else
      var r := SendAll(k1, data);
      assert k1.sent == k.sent + size[..n];
      r
  }

  /**
   * sendFile(filePath, socket). The file is given by its bytes (None when it
   * does not open) and the socket by its sink. On a refused check nothing is sent.
   */
  method SendFile(filePath: string, file: Option<seq<Byte>>, sink: Sink) returns (status: Codec.Status, ok: bool, after: Sink)
    ensures status == Codec.SendFileCheck(filePath, file.Some?, if file.Some? then |file.value| else 0)
    ensures status == Codec.Done ==> (ok, after) == SendFileData(sink, file.value)
    ensures status != Codec.Done ==> !ok && after == sink
  {
    status := Codec.SendFileCheck(filePath, file.Some?, if file.Some? then |file.value| else 0);
    if status != Codec.Done {
      return status, false, sink;
    }
    var buffer := file.value;
    var r := SendCall(sink, Be32(Trunc32(|buffer|)));
    after := r.1;
    if r.0 < 0 {
      return status, false, after;
    }
    ghost var k1 := after;
    var totalSent := 0;
    while totalSent < |buffer|
      invariant 0 <= totalSent <= |buffer|
      invariant SendAll(k1, buffer) == SendAll(after, buffer[totalSent..])
      decreases |buffer| - totalSent
    {
      ghost var before := after;
      var step := SendCall(after, buffer[totalSent..]);
      after := step.1;
      if step.0 <= 0 {
        SendAllFails(before, buffer[totalSent..]);
        return status, false, after;
      }
      SendAllStep(before, buffer[totalSent..]);
      assert buffer[totalSent..][step.0..] == buffer[totalSent + step.0..];
      totalSent := totalSent + step.0;
    }
    assert buffer[totalSent..] == [];
    ok := true;
  }

}

/**
 * The body parsers: the server's VOICE branch of messageProcessing,
 * processAudioMessage, proccessFileMessage and extractAudioMessageData, and
 * the client's processAudioMessage prefix. Each walks the body with a data
 * pointer and a remaining size, reading a BE32 length and then that many
 * bytes, and gives up as soon as either does not fit.
 */
module Parsers {
  import opened Bytes
  import opened Wrappers
  import opened Protocol
  import Codec

  datatype VoiceFields = VoiceFields(channel: string, opus: seq<Byte>)
  datatype AudioFields = AudioFields(id: string, channel: string, fileName: string, data: seq<Byte>)
  datatype ReplyFields = ReplyFields(fileName: string, data: seq<Byte>)
  datatype FileFields = FileFields(id: string, channel: string, fileName: string, fileSize: U32, fileData: seq<Byte>)

  /** Three length-prefixed strings at the head of a body, and what follows them. */
  function ThreeFields(body: seq<Byte>): (r: Option<(string, string, string, seq<Byte>)>)
  {
    match Codec.SplitPrefixed(body)
    case None => None
    case Some((a, rest1)) =>
      match Codec.SplitPrefixed(rest1)
      case None => None
      case Some((b, rest2)) =>
        match Codec.SplitPrefixed(rest2)
        case None => None
        case Some((c, rest3)) => Some((StringOf(a), StringOf(b), StringOf(c), rest3))
  }

  /** The three fields written by the AUDIO and FILE builders are read back, whatever follows them. */
  lemma ThreeFieldsOf(a: string, b: string, c: string, rest: seq<Byte>)
    requires IsOctets(a) && IsOctets(b) && IsOctets(c)
    requires |a| < TWO32 && |b| < TWO32 && |c| < TWO32
    ensures ThreeFields(Prefixed(BytesOf(a)) + Prefixed(BytesOf(b)) + Prefixed(BytesOf(c)) + rest)
            == Some((a, b, c, rest))
  {
    var pb := Prefixed(BytesOf(b));
    var pc := Prefixed(BytesOf(c));
    assert Prefixed(BytesOf(a)) + pb + pc + rest == Prefixed(BytesOf(a)) + (pb + pc + rest);
    Codec.SplitPrefixedOf(BytesOf(a), pb + pc + rest);
    assert pb + pc + rest == pb + (pc + rest);
    Codec.SplitPrefixedOf(BytesOf(b), pc + rest);
    Codec.SplitPrefixedOf(BytesOf(c), rest);
    StringOfBytesOf(a);
    StringOfBytesOf(b);
    StringOfBytesOf(c);
  }

  /**
   * One step of every parser: with the data pointer at ptr, read the BE32
   * length, check it against the remaining size and take that many bytes.
   * The new pointer is returned alongside the field.
   */
  method TakeField(body: seq<Byte>, ptr: nat) returns (r: Option<(seq<Byte>, nat)>)
    requires ptr <= |body|
    ensures match Codec.SplitPrefixed(body[ptr..])
      case None => r.None?
      case Some((field, rest)) => r.Some? && r.value.0 == field && r.value.1 <= |body| && body[r.value.1..] == rest
  {
    var dataSize := |body| - ptr;
    if dataSize < 4 {
      return None;
    }
    var fieldLength := ReadBe32(body[ptr..ptr + 4]);
    assert ReadBe32(body[ptr..]) == fieldLength;
    var next := ptr + 4;
    dataSize := dataSize - 4;
    if dataSize < fieldLength {
      return None;
    }
    var field := body[next..next + fieldLength];
    assert body[ptr..][4..4 + fieldLength] == field;
    assert body[ptr..][4 + fieldLength..] == body[next + fieldLength..];
    r := Some((field, next + fieldLength));
  }

  // ---------------------------------------------------------------- VOICE

  /**
   * The VOICE branch of messageProcessing: the channel, then the Opus length
   * and exactly that many payload bytes; anything after them is ignored.
   */
  function VoiceFieldsOf(body: seq<Byte>): (r: Option<VoiceFields>)
  {
    match Codec.SplitPrefixed(body)
    case None => None
    case Some((ch, rest)) =>
      match Codec.SplitPrefixed(rest)
      case None => None
      case Some((opus, _)) => Some(VoiceFields(StringOf(ch), opus))
  }

  method ParseVoiceBody(body: seq<Byte>) returns (r: Option<VoiceFields>)
    ensures r == VoiceFieldsOf(body)
  {
    assert body[0..] == body;
    var channel := TakeField(body, 0);
    if channel.None? {
      return None;
    }
    var opus := TakeField(body, channel.value.1);
    if opus.None? {
      return None;
    }
    r := Some(VoiceFields(StringOf(channel.value.0), opus.value.0));
  }

  /** What setVoiceMessage(packet, channel) builds, the VOICE branch takes apart again. */
  lemma VoiceRoundTrip(channel: string, packet: AudioPacket)
    requires packet.Valid() && IsOctets(channel) && |channel| < TWO32
    ensures VoiceFieldsOf(Codec.VoiceBody(channel, packet)) == Some(VoiceFields(channel, packet.Payload()))
  {
    Codec.SplitPrefixedOf(BytesOf(channel), Prefixed(packet.Payload()));
    Codec.SplitPrefixedOf(packet.Payload(), []);
    assert Prefixed(packet.Payload()) + [] == Prefixed(packet.Payload());
    StringOfBytesOf(channel);
  }

  /** Whatever the VOICE branch accepts starts with the channel and the Opus payload, both prefixed. */
  lemma VoiceFieldsSound(body: seq<Byte>)
    requires VoiceFieldsOf(body).Some?
    ensures var v := VoiceFieldsOf(body).value;
      exists extra :: body == Prefixed(BytesOf(v.channel)) + Prefixed(v.opus) + extra
  {
    var (ch, rest) := Codec.SplitPrefixed(body).value;
    var (opus, extra) := Codec.SplitPrefixed(rest).value;
    Codec.SplitPrefixedSound(body);
    Codec.SplitPrefixedSound(rest);
    BytesOfStringOf(ch);
    assert body == Prefixed(BytesOf(StringOf(ch))) + Prefixed(opus) + extra;
  }

  /**
   * The server copies the Opus bytes into the packet's fixed buffer and sets
   * its length; the timestamp and the rest of the buffer are the packet's own.
   */
  function StorePayload(packet: AudioPacket, opus: seq<Byte>): (r: AudioPacket)
    requires packet.Valid() && |opus| <= OPUS_MAX_PACKET_SIZE
    ensures r.Valid() && r.Payload() == opus && r.timestamp == packet.timestamp
  {
    var r := packet.(opusData := opus + packet.opusData[|opus|..], opusLength := |opus|);
    assert r.opusData[..|opus|] == opus;
    r
  }

  /** The VOICE branch takes any Opus length that fits in the body, even one its 4000-byte buffer cannot hold. */
  lemma VoiceFieldsAcceptOversizedOpus(channel: string, opus: seq<Byte>)
    requires IsOctets(channel) && |channel| < TWO32
    requires |opus| == OPUS_MAX_PACKET_SIZE + 1
    ensures VoiceFieldsOf(Prefixed(BytesOf(channel)) + Prefixed(opus)).Some?
    ensures |VoiceFieldsOf(Prefixed(BytesOf(channel)) + Prefixed(opus)).value.opus| > OPUS_MAX_PACKET_SIZE
  {
    Codec.SplitPrefixedOf(BytesOf(channel), Prefixed(opus));
    Codec.SplitPrefixedOf(opus, []);
    assert Prefixed(opus) + [] == Prefixed(opus);
  }

  /** The VOICE branch with the bound the packet buffer needs: an Opus length over 4000 is malformed too. */
  function BoundedVoiceFieldsOf(body: seq<Byte>): (r: Option<VoiceFields>)
    ensures r.Some? ==> |r.value.opus| <= OPUS_MAX_PACKET_SIZE
    ensures r.Some? <==> VoiceFieldsOf(body).Some? && |VoiceFieldsOf(body).value.opus| <= OPUS_MAX_PACKET_SIZE
    ensures r.Some? ==> r == VoiceFieldsOf(body)
  {
    match VoiceFieldsOf(body)
    case None => None
    case Some(v) => if |v.opus| > OPUS_MAX_PACKET_SIZE then None else Some(v)
  }

  /** Every body setVoiceMessage(packet) builds passes the bounded parse with its payload intact. */
  lemma BoundedVoiceRoundTrip(channel: string, packet: AudioPacket)
    requires packet.Valid() && IsOctets(channel) && |channel| < TWO32
    ensures BoundedVoiceFieldsOf(Codec.VoiceBody(channel, packet)) == Some(VoiceFields(channel, packet.Payload()))
  {
    VoiceRoundTrip(channel, packet);
  }

  // ---------------------------------------------------------------- AUDIO

  /** processAudioMessage: id, channel and file name, each prefixed, then the audio data to the end. */
  function AudioFieldsOf(body: seq<Byte>): (r: Option<AudioFields>)
  {
    match ThreeFields(body)
    case None => None
    case Some((id, ch, name, data)) => Some(AudioFields(id, ch, name, data))
  }

  method ProcessAudioBody(body: seq<Byte>) returns (r: Option<AudioFields>)
    ensures r == AudioFieldsOf(body)
  {
    assert body[0..] == body;
    var id := TakeField(body, 0);
    if id.None? {
      return None;
    }
    var channel := TakeField(body, id.value.1);
    if channel.None? {
      return None;
    }
    var fileName := TakeField(body, channel.value.1);
    if fileName.None? {
      return None;
    }
    var audioData := body[fileName.value.1..];
    r := Some(AudioFields(StringOf(id.value.0), StringOf(channel.value.0), StringOf(fileName.value.0), audioData));
  }

  /** What setAudioMessage(path, id, channel) builds, processAudioMessage takes apart again. */
  lemma AudioRoundTrip(id: string, channel: string, fileName: string, data: seq<Byte>)
    requires IsOctets(id) && IsOctets(channel) && IsOctets(fileName)
    requires |id| < TWO32 && |channel| < TWO32 && |fileName| < TWO32
    ensures AudioFieldsOf(Codec.AudioBody(id, channel, fileName, data)) == Some(AudioFields(id, channel, fileName, data))
  {
    ThreeFieldsOf(id, channel, fileName, data);
  }

  // ---------------------------------------------------------------- the voicemail reply

  /**
   * extractAudioMessageData (server) and the client's processAudioMessage:
   * the prefixed file name, then the audio data to the end of the body.
   */
  function ReplyFieldsOf(body: seq<Byte>): (r: Option<ReplyFields>)
  {
    match Codec.SplitPrefixed(body)
    case None => None
    case Some((name, data)) => Some(ReplyFields(StringOf(name), data))
  }

  method ExtractAudioMessageData(body: seq<Byte>) returns (r: Option<ReplyFields>)
    ensures r == ReplyFieldsOf(body)
  {
    assert body[0..] == body;
    var fileName := TakeField(body, 0);
    if fileName.None? {
      return None;
    }
    var audioData := body[fileName.value.1..];
    r := Some(ReplyFields(StringOf(fileName.value.0), audioData));
  }

  /** What setAudioMessage(path) builds, the receiving side takes apart again. */
  lemma ReplyRoundTrip(fileName: string, data: seq<Byte>)
    requires IsOctets(fileName) && |fileName| < TWO32
    ensures ReplyFieldsOf(Codec.AudioReplyBody(fileName, data)) == Some(ReplyFields(fileName, data))
  {
    Codec.SplitPrefixedOf(BytesOf(fileName), data);
    StringOfBytesOf(fileName);
  }

  /** A body too short for the length field, or announcing a name longer than the rest, is refused. */
  lemma ReplyFieldsRefuses(body: seq<Byte>)
    ensures ReplyFieldsOf(body).None? <==> |body| < 4 || ReadBe32(body) > |body| - 4
  {
  }

  // ---------------------------------------------------------------- FILE

  /**
   * proccessFileMessage as written: after the three prefixed strings it copies
   * everything that is left as the file data, and only then reads the BE32
   * file size from the front of that same remainder.
   */
  function FileFieldsAsWritten(body: seq<Byte>): (r: Option<FileFields>)
  {
    match ThreeFields(body)
    case None => None
    case Some((id, ch, name, rest)) =>
      if |rest| < 4 then None else Some(FileFields(id, ch, name, ReadBe32(rest), rest))
  }

  /** The file the server stores keeps the four size bytes in front of the data setFileMessage sent. */
  lemma FileDataKeepsSizeBytes(id: string, channel: string, packet: FilePacket)
    requires IsOctets(id) && IsOctets(channel) && IsOctets(packet.filename)
    requires |id| < TWO32 && |channel| < TWO32 && |packet.filename| < TWO32
    ensures FileFieldsAsWritten(Codec.FileBody(id, channel, packet)).Some?
    ensures FileFieldsAsWritten(Codec.FileBody(id, channel, packet)).value.fileData
            == Be32(packet.fileSize) + packet.fileData
    ensures FileFieldsAsWritten(Codec.FileBody(id, channel, packet)).value.fileData != packet.fileData
  {
    var tail := Be32(packet.fileSize) + packet.fileData;
    assert Codec.FileBody(id, channel, packet)
        == Prefixed(BytesOf(id)) + Prefixed(BytesOf(channel)) + Prefixed(BytesOf(packet.filename)) + tail;
    ThreeFieldsOf(id, channel, packet.filename, tail);
  }

  /** proccessFileMessage with the data taken after the size field, as setFileMessage lays them out. */
  function FileFieldsOf(body: seq<Byte>): (r: Option<FileFields>)
    ensures r.Some? <==> FileFieldsAsWritten(body).Some?
    ensures r.Some? ==> r.value.fileSize == FileFieldsAsWritten(body).value.fileSize
    ensures r.Some? ==> FileFieldsAsWritten(body).value.fileData == Be32(r.value.fileSize) + r.value.fileData
  {
    match ThreeFields(body)
    case None => None
    case Some((id, ch, name, rest)) =>
      if |rest| < 4 then None
      else
        Be32OfReadBe32(rest[..4]);
        assert ReadBe32(rest[..4]) == ReadBe32(rest);
        assert rest == rest[..4] + rest[4..];
        Some(FileFields(id, ch, name, ReadBe32(rest), rest[4..]))
  }

  method ProccessFileBody(body: seq<Byte>) returns (r: Option<FileFields>)
    ensures r == FileFieldsOf(body)
  {
    assert body[0..] == body;
    var id := TakeField(body, 0);
    if id.None? {
      return None;
    }
    var channel := TakeField(body, id.value.1);
    if channel.None? {
      return None;
    }
    var fileName := TakeField(body, channel.value.1);
    if fileName.None? {
      return None;
    }
    var ptr := fileName.value.1;
    var dataSize := |body| - ptr;
    if dataSize < 4 {
      return None;
    }
    var fileSize := ReadBe32(body[ptr..ptr + 4]);
    assert ReadBe32(body[ptr..]) == fileSize;
    var fileData := body[ptr + 4..];
    assert body[ptr..][4..] == fileData;
    r := Some(FileFields(StringOf(id.value.0), StringOf(channel.value.0), StringOf(fileName.value.0), fileSize, fileData));
  }

  /** What setFileMessage builds, the corrected parse takes apart again, size and data included. */
  lemma FileRoundTrip(id: string, channel: string, packet: FilePacket)
    requires IsOctets(id) && IsOctets(channel) && IsOctets(packet.filename)
    requires |id| < TWO32 && |channel| < TWO32 && |packet.filename| < TWO32
    ensures FileFieldsOf(Codec.FileBody(id, channel, packet))
            == Some(FileFields(id, channel, packet.filename, packet.fileSize, packet.fileData))
  {
    var tail := Be32(packet.fileSize) + packet.fileData;
    assert Codec.FileBody(id, channel, packet)
        == Prefixed(BytesOf(id)) + Prefixed(BytesOf(channel)) + Prefixed(BytesOf(packet.filename)) + tail;
    ThreeFieldsOf(id, channel, packet.filename, tail);
    ReadBe32OfBe32(packet.fileSize, packet.fileData);
    assert tail[4..] == packet.fileData;
  }
}

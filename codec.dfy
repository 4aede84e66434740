/**
 * The byte layouts of mysocket.cpp as pure functions: the 9-byte header
 * framing, the bodies that the set*Message builders write, the text helpers,
 * the number test and the file checks that precede a transfer.
 */
module Codec {
  import opened Bytes
  import opened Text
  import opened Wrappers
  import opened Protocol

  const HEADER_SIZE: nat := 9

  /** The receive-side cap on a body: 10 MiB. */
  const MAX_MESSAGE_SIZE: nat := 10 * 1024 * 1024

  /** The cap on a file or audio file a builder or sendFile accepts: 10 MiB. */
  const MAX_FILE_SIZE: nat := 10 * 1024 * 1024

  /** serialize: type octet, BE32 size, BE32 flag, then the body. */
  function Encode(f: Frame): (r: seq<Byte>)
    ensures |r| == HEADER_SIZE + |f.body|
  {
    [f.header.typ] + Be32(f.header.size) + Be32(f.header.flag) + f.body
  }

  /** deserialize of a buffer holding at least the header: everything after it is the body. */
  function Decode(b: seq<Byte>): (f: Frame)
    requires |b| >= HEADER_SIZE
    ensures |f.body| == |b| - HEADER_SIZE
  {
    Frame(Header(b[0], ReadBe32(b[1..5]), ReadBe32(b[5..9])), b[9..])
  }

  /** The encoded header occupies bytes 0..8 exactly as laid out, and the body follows unchanged. */
  lemma EncodeLayout(f: Frame)
    ensures var e := Encode(f);
      e[0] == f.header.typ && ReadBe32(e[1..5]) == f.header.size
      && ReadBe32(e[5..9]) == f.header.flag && e[9..] == f.body
  {
    var e := Encode(f);
    assert e[1..5] == Be32(f.header.size) + [];
    assert e[5..9] == Be32(f.header.flag) + [];
    ReadBe32OfBe32(f.header.size, []);
    ReadBe32OfBe32(f.header.flag, []);
  }

  /** deserialize inverts serialize, headers and body included. */
  lemma DecodeEncode(f: Frame)
    ensures Decode(Encode(f)) == f
  {
    EncodeLayout(f);
  }

  /** serialize inverts deserialize: no buffer of nine or more bytes is altered by the round trip. */
  lemma EncodeDecode(b: seq<Byte>)
    requires |b| >= HEADER_SIZE
    ensures Encode(Decode(b)) == b
  {
    Be32OfReadBe32(b[1..5]);
    Be32OfReadBe32(b[5..9]);
    assert b == [b[0]] + b[1..5] + b[5..9] + b[9..];
  }

  /** A decoded header re-encodes to the nine bytes it came from, ahead of any body. */
  lemma EncodeDecodedHeader(h: seq<Byte>, body: seq<Byte>)
    requires |h| == HEADER_SIZE
    ensures Encode(Frame(Decode(h).header, body)) == h + body
  {
    EncodeDecode(h);
    var hd := Decode(h).header;
    assert Encode(Frame(hd, [])) == h;
    assert Encode(Frame(hd, body)) == Encode(Frame(hd, [])) + body;
  }

  /** The first nine bytes of an encoding, whatever follows it, decode to the frame's header. */
  lemma DecodeHeaderPrefix(f: Frame, rest: seq<Byte>)
    ensures |Encode(f) + rest| >= HEADER_SIZE
    ensures Decode((Encode(f) + rest)[..HEADER_SIZE]) == Frame(f.header, [])
  {
    var hf := Frame(f.header, []);
    assert (Encode(f) + rest)[..HEADER_SIZE] == Encode(hf);
    DecodeEncode(hf);
  }

  /** Frames are told apart by their encodings. */
  lemma EncodeInjective(f: Frame, g: Frame)
    requires Encode(f) == Encode(g)
    ensures f == g
  {
    DecodeEncode(f);
    DecodeEncode(g);
  }

  // ---------------------------------------------------------------- text helpers

  /** messageToString: the body's octets as a string. */
  function MessageToString(f: Frame): (s: string)
    ensures |s| == |f.body| && BytesOf(s) == f.body
  {
    BytesOfStringOf(f.body);
    StringOf(f.body)
  }

  /** A text put into a frame is read back exactly when it consists of octets. */
  lemma TextRoundTrip(f: Frame, text: string)
    ensures MessageToString(SetText(f, text)) == text <==> IsOctets(text)
  {
    StringOfBytesOf(text);
  }

  /** flagOn: only the flag changes; the int argument is converted to uint32. */
  function FlagOn(f: Frame, flag: int): (r: Frame)
    ensures r.body == f.body && r.header.typ == f.header.typ && r.header.size == f.header.size
    ensures 0 <= flag < TWO32 ==> r.header.flag == flag
  {
    Frame(f.header.(flag := Trunc32(flag)), f.body)
  }

  /** flagOff: the flag returns to COMMAND; nothing else changes. */
  function FlagOff(f: Frame): (r: Frame)
    ensures FlagOfCode(r.header.flag) == Some(COMMAND)
    ensures r.body == f.body && r.header.typ == f.header.typ && r.header.size == f.header.size
  {
    FlagOn(f, FlagCode(COMMAND))
  }

  /** The frame server and client send for a text reply with a given flag. */
  function TextFrame(text: string, flag: Flag): (r: Frame)
    ensures FlagOfCode(r.header.flag) == Some(flag) && TypeOfCode(r.header.typ) == Some(TEXT)
  {
    Frame(Header(TypeCode(TEXT), Trunc32(|text|), FlagCode(flag)), BytesOf(text))
  }

  /** Setting the text of any frame and then a flag yields the same frame whatever the frame carried before. */
  lemma TextFrameOfAnyFrame(f: Frame, text: string, flag: Flag)
    ensures FlagOn(SetText(f, text), FlagCode(flag)) == TextFrame(text, flag)
    ensures SetText(FlagOn(f, FlagCode(flag)), text) == TextFrame(text, flag)
  {
  }

  // ---------------------------------------------------------------- bodies

  /** setVoiceMessage(packet, channel): the channel and the used part of the Opus buffer, each length-prefixed. */
  function VoiceBody(channel: string, packet: AudioPacket): (b: seq<Byte>)
    requires packet.Valid()
    ensures |b| == 8 + |channel| + packet.opusLength
  {
    Prefixed(BytesOf(channel)) + Prefixed(packet.Payload())
  }

  /** setVoiceMessage(samples, channel): the length-prefixed channel, then the samples' bytes. */
  function PcmVoiceBody(channel: string, sampleBytes: seq<Byte>): (b: seq<Byte>)
    ensures |b| == 4 + |channel| + |sampleBytes| && b[4 + |channel|..] == sampleBytes
  {
    Prefixed(BytesOf(channel)) + sampleBytes
  }

  /** setAudioMessage(path, id, channel): id, channel and file name prefixed, then the file's bytes. */
  function AudioBody(id: string, channel: string, fileName: string, data: seq<Byte>): (b: seq<Byte>)
    ensures |b| == 12 + |id| + |channel| + |fileName| + |data|
    ensures b[|b| - |data|..] == data
  {
    Prefixed(BytesOf(id)) + Prefixed(BytesOf(channel)) + Prefixed(BytesOf(fileName)) + data
  }

  /** setAudioMessage(path): the file name prefixed, then the file's bytes. */
  function AudioReplyBody(fileName: string, data: seq<Byte>): (b: seq<Byte>)
    ensures |b| == 4 + |fileName| + |data|
    ensures b[4 + |fileName|..] == data
  {
    Prefixed(BytesOf(fileName)) + data
  }

  /** setFileMessage: id, channel and file name prefixed, the BE32 file size, then the data. */
  function FileBody(id: string, channel: string, packet: FilePacket): (b: seq<Byte>)
    ensures |b| == 16 + |id| + |channel| + |packet.filename| + |packet.fileData|
  {
    Prefixed(BytesOf(id)) + Prefixed(BytesOf(channel)) + Prefixed(BytesOf(packet.filename))
    + Be32(packet.fileSize) + packet.fileData
  }

  /**
   * Reading one length-prefixed field, as every body parser does: at least
   * four bytes for the length, then at least that many bytes for the field.
   */
  function SplitPrefixed(b: seq<Byte>): (r: Option<(seq<Byte>, seq<Byte>)>)
    ensures r.Some? <==> |b| >= 4 && ReadBe32(b) <= |b| - 4
    ensures r.Some? ==> |r.value.0| == ReadBe32(b) && r.value.0 + r.value.1 == b[4..]
  {
    if |b| < 4 then None
    else
      var n := ReadBe32(b);
      if |b| - 4 < n then None else Some((b[4..4 + n], b[4 + n..]))
  }

  /** A prefixed field is split off again, whatever follows it, when its length fits in 32 bits. */
  lemma {:induction false} SplitPrefixedOf(x: seq<Byte>, rest: seq<Byte>)
    requires |x| < TWO32
    ensures SplitPrefixed(Prefixed(x) + rest) == Some((x, rest))
  {
    var b := Prefixed(x) + rest;
    assert b == Be32(|x|) + (x + rest);
    ReadBe32OfBe32(|x|, x + rest);
    assert b[4..4 + |x|] == x;
    assert b[4 + |x|..] == rest;
  }

  /** Whatever SplitPrefixed accepts is a prefixed field followed by the rest. */
  lemma {:induction false} SplitPrefixedSound(b: seq<Byte>)
    requires SplitPrefixed(b).Some?
    ensures b == Prefixed(SplitPrefixed(b).value.0) + SplitPrefixed(b).value.1
  {
    var n := ReadBe32(b);
    Be32OfReadBe32(b[..4]);
    assert ReadBe32(b[..4]) == n;
    assert b == b[..4] + b[4..];
  }

  /** A field longer than 2^32 - 1 bytes announces a truncated length, so it is not read back. */
  lemma PrefixedTruncates(x: seq<Byte>)
    requires TWO32 <= |x| < 2 * TWO32
    ensures SplitPrefixed(Prefixed(x)).Some?
    ensures SplitPrefixed(Prefixed(x)).value.0 != x
  {
    ReadBe32OfBe32(Trunc32(|x|), x);
  }

  // ---------------------------------------------------------------- isNumber / determineType

  /** What isNumber accepts: an optional leading '-' that does not stand alone, then digits only. */
  predicate IsNumeral(s: string)
  {
    |s| > 0 && if s[0] == '-' then |s| > 1 && AllDigits(s[1..]) else AllDigits(s)
  }

  /** Every integer std::to_string prints is a number for isNumber. */
  lemma IsNumeralOfIntToString(n: int)
    ensures IsNumeral(IntToString(n))
  {
    if n < 0 {
      assert IntToString(n)[1..] == NatToString(-n);
    } else {
      assert IntToString(n)[0] != '-' by { assert IsDigit(NatToString(n)[0]); }
    }
  }

  /** A number for isNumber is read back by the prefix integer parse, all of it. */
  lemma IsNumeralHasLeadingInteger(s: string)
    requires IsNumeral(s)
    ensures LeadingInteger(s).Some?
  {
    assert !IsSpace(s[0]);
    assert SpaceRun(s) == 0;
    assert s[0..] == s;
    if s[0] == '-' {
      assert IsDigit(s[1..][0]);
    } else {
      assert IsDigit(s[0]);
    }
  }

  // ---------------------------------------------------------------- file names and checks

  /** Index of the last occurrence of a character from cs (std::string::find_last_of). */
  function LastIndexOf(s: string, cs: set<char>): (r: Option<nat>)
    ensures r.Some? ==> r.value < |s| && s[r.value] in cs
    ensures r.Some? ==> forall j :: r.value < j < |s| ==> s[j] !in cs
    ensures r.None? ==> forall j :: 0 <= j < |s| ==> s[j] !in cs
  {
    if s == [] then None
    else if s[|s| - 1] in cs then Some(|s| - 1)
    else LastIndexOf(s[..|s| - 1], cs)
  }

  /**
   * substr(find_last_of('.')): the extension including its dot. With no dot,
   * find_last_of yields npos and substr throws std::out_of_range: None.
   */
  function Extension(path: string): (r: Option<string>)
    ensures r.Some? ==> |r.value| >= 1 && r.value[0] == '.' && '.' !in r.value[1..]
    ensures r.None? <==> '.' !in path
  {
    match LastIndexOf(path, {'.'})
    case None => None
    case Some(i) => Some(path[i..])
  }

  /** substr(find_last_of("/\\") + 1): the last path component; npos + 1 wraps to 0, the whole path. */
  function BaseName(path: string): (r: string)
    ensures '/' !in r && '\\' !in r
    ensures r == path || (|r| < |path| && path[|path| - |r|..] == r)
  {
    match LastIndexOf(path, {'/', '\\'})
    case None => path
    case Some(i) => path[i + 1..]
  }

  /** The nineteen extensions sendFile transfers. */
  const ALLOWED_EXTENSIONS: seq<string> :=
    [".jpg", ".jpeg", ".png", ".gif", ".pdf", ".txt", ".doc", ".docx", ".xlsx",
     ".zip", ".rar", ".mp3", ".wav", ".aac", ".flac", ".mp4", ".avi", ".mkv", ".mov"]

  /** How an operation that opens a file and reads its name ends. */
  datatype Status = Done | Refused | OutOfRange

  /**
   * The checks sendFile makes before sending: the file opens, it is at most
   * 10 MiB, and its extension is on the list. A path without a dot throws.
   */
  function SendFileCheck(path: string, isOpen: bool, fileSize: nat): (r: Status)
    ensures r == Done <==> isOpen && fileSize <= MAX_FILE_SIZE && Extension(path).Some?
                           && Extension(path).value in ALLOWED_EXTENSIONS
    ensures r == OutOfRange <==> isOpen && fileSize <= MAX_FILE_SIZE && '.' !in path
  {
    if !isOpen then Refused
    else if fileSize > MAX_FILE_SIZE then Refused
    else match Extension(path)
      case None => OutOfRange
      case Some(ext) => if ext in ALLOWED_EXTENSIONS then Done else Refused
  }

  /**
   * The checks setAudioMessage makes, in its order: the file opens, its
   * extension is ".wav" (a path without a dot throws), it is at most 10 MiB.
   */
  function WavFileCheck(path: string, isOpen: bool, fileSize: nat): (r: Status)
    ensures r == Done <==> isOpen && Extension(path) == Some(".wav") && fileSize <= MAX_FILE_SIZE
    ensures r == OutOfRange <==> isOpen && '.' !in path
  {
    if !isOpen then Refused
    else match Extension(path)
      case None => OutOfRange
      case Some(ext) => if ext != ".wav" then Refused else if fileSize > MAX_FILE_SIZE then Refused else Done
  }
}

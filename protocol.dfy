/**
 * The message vocabulary shared by client and server: data types, flags, the
 * 9-byte header and the audio and file packets.
 */
module Protocol {
  import opened Bytes
  import opened Wrappers

  const OPUS_MAX_PACKET_SIZE: nat := 4000

  datatype DataType = TEXT | NUMBER | AUDIO | FILE_TYPE | VOICE

  /** The enumerator's value; it is what static_cast<uint8_t> puts on the wire. */
  function TypeCode(t: DataType): (c: Byte)
    ensures c < 5
  {
    match t
    case TEXT => 0
    case NUMBER => 1
    case AUDIO => 2
    case FILE_TYPE => 3
    case VOICE => 4
  }

  /** The enumerator with a given value, if any. */
  function TypeOfCode(c: int): (r: Option<DataType>)
    ensures r.Some? <==> 0 <= c < 5
    ensures r.Some? ==> TypeCode(r.value) == c
  {
    if c == 0 then Some(TEXT)
    else if c == 1 then Some(NUMBER)
    else if c == 2 then Some(AUDIO)
    else if c == 3 then Some(FILE_TYPE)
    else if c == 4 then Some(VOICE)
    else None
  }

  lemma TypeCodeRoundTrip(t: DataType)
    ensures TypeOfCode(TypeCode(t)) == Some(t)
  {
  }

  datatype Flag =
    | COMMAND | CHANNEL | NICK | ID | DEL_CHANNEL | NO_CHANNEL
    | LOGIN_SIGN_UP | PASSWORD_SIGN_UP | NICK_SIGN_UP | LOGIN_LOG_IN | PASSWORD_LOG_IN | NICK_LOG_IN
    | CHECK_LOGIN | CHECK_PASSWORD | CHECK_NICKNAME | REGISTERED | CHECK_ID | ID_CORRECT
    | AUTHORIZED | CHANGE_NICK | AUDIOFILE_ERROR | TIME_ON | TIME_OFF | FILE_ERROR

  /** The flag values as the enum Flags assigns them. */
  function FlagCode(f: Flag): (c: U32)
    ensures c < 24
  {
    match f
    case COMMAND => 0
    case CHANNEL => 1
    case NICK => 2
    case ID => 3
    case DEL_CHANNEL => 4
    case NO_CHANNEL => 5
    case LOGIN_SIGN_UP => 6
    case PASSWORD_SIGN_UP => 7
    case NICK_SIGN_UP => 8
    case LOGIN_LOG_IN => 9
    case PASSWORD_LOG_IN => 10
    case NICK_LOG_IN => 11
    case CHECK_LOGIN => 12
    case CHECK_PASSWORD => 13
    case CHECK_NICKNAME => 14
    case REGISTERED => 15
    case CHECK_ID => 16
    case ID_CORRECT => 17
    case AUTHORIZED => 18
    case CHANGE_NICK => 19
    case AUDIOFILE_ERROR => 20
    case TIME_ON => 21
    case TIME_OFF => 22
    case FILE_ERROR => 23
  }

  /** The flag a header value names; values from 24 on name none (a switch falls to its default). */
  function FlagOfCode(c: int): (r: Option<Flag>)
    ensures r.Some? <==> 0 <= c < 24
    ensures r.Some? ==> FlagCode(r.value) == c
  {
    match c
    case 0 => Some(COMMAND)
    case 1 => Some(CHANNEL)
    case 2 => Some(NICK)
    case 3 => Some(ID)
    case 4 => Some(DEL_CHANNEL)
    case 5 => Some(NO_CHANNEL)
    case 6 => Some(LOGIN_SIGN_UP)
    case 7 => Some(PASSWORD_SIGN_UP)
    case 8 => Some(NICK_SIGN_UP)
    case 9 => Some(LOGIN_LOG_IN)
    case 10 => Some(PASSWORD_LOG_IN)
    case 11 => Some(NICK_LOG_IN)
    case 12 => Some(CHECK_LOGIN)
    case 13 => Some(CHECK_PASSWORD)
    case 14 => Some(CHECK_NICKNAME)
    case 15 => Some(REGISTERED)
    case 16 => Some(CHECK_ID)
    case 17 => Some(ID_CORRECT)
    case 18 => Some(AUTHORIZED)
    case 19 => Some(CHANGE_NICK)
    case 20 => Some(AUDIOFILE_ERROR)
    case 21 => Some(TIME_ON)
    case 22 => Some(TIME_OFF)
    case 23 => Some(FILE_ERROR)
    case _ => None
  }

  /** Every flag is recovered from its value, so the 24 values are pairwise distinct. */
  lemma FlagCodeRoundTrip(f: Flag)
    ensures FlagOfCode(FlagCode(f)) == Some(f)
  {
  }

  /** MessageHeader. The type byte is kept as the octet it travels as. */
  datatype Header = Header(typ: Byte, size: U32, flag: U32)

  /** `header = {}`: value-initialised, so type TEXT, size 0 and flag COMMAND. */
  const DefaultHeader: Header := Header(0, 0, 0)

  /** The wire-relevant part of a Message: its header and body. */
  datatype Frame = Frame(header: Header, body: seq<Byte>)

  /** AudioPacket: a timestamp and an Opus payload in a fixed buffer of which opus_length bytes are used. */
  datatype AudioPacket = AudioPacket(timestamp: U64, opusData: seq<Byte>, opusLength: int)
  {
    predicate Valid()
    {
      |opusData| == OPUS_MAX_PACKET_SIZE && 0 <= opusLength <= OPUS_MAX_PACKET_SIZE
    }

    function Payload(): (p: seq<Byte>)
      requires Valid()
      ensures |p| == opusLength
    {
      opusData[..opusLength]
    }
  }

  const EmptyPacket: AudioPacket := AudioPacket(0, Zeros(OPUS_MAX_PACKET_SIZE), 0)

  datatype FilePacket = FilePacket(timestamp: U64, filename: string, fileSize: U32, fileData: seq<Byte>, fileId: int)

  /**
   * setTextMessage, and equally stringToMessage: the frame becomes a TEXT frame
   * carrying the text's octets; its flag is untouched.
   */
  function SetText(f: Frame, text: string): (r: Frame)
    ensures r.header.typ == TypeCode(TEXT) && r.header.flag == f.header.flag
    ensures |r.body| == |text|
    ensures |text| < TWO32 ==> r.header.size == |r.body|
  {
    Frame(Header(TypeCode(TEXT), Trunc32(|text|), f.header.flag), BytesOf(text))
  }
}

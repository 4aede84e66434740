# Messenger chat core, modelled in Dafny

This project models the sequential protocol and data logic of the Messenger
chat system. The system is a C++ server and a C++ terminal client that talk
over TCP. The model covers:

- **Wire codec** (`codec.dfy`, `socket.dfy`, `protocol.dfy`, `bytes.dfy`).
  A frame is a 1-byte type, a 4-byte big-endian size, a 4-byte big-endian
  flag and the body. The `Message` class serialises and deserialises it.
  `MySocket` runs the receive loop (10 MiB cap, refused before any body byte
  is read) and the send loop (partial writes accumulate). The module also
  builds the TEXT, VOICE, AUDIO and FILE bodies.
- **Body parsers** (`parsers.dfy`). The server's VOICE, AUDIO and FILE
  parsers and the shared length-prefixed AUDIO reply layout, each with its
  round trip and its error cases.
- **Store** (`store.dfy`, `history.dfy`). The users file, the channel list,
  the per-channel member and history files, and the `DataBase` class with
  its cached fields. History lines are written as "[time] id: message" and
  read back with the text regular expression.
- **Command handlers** (`commands.dfy`). join, exit, send, read and nick,
  each as a function of the tokens, the disk snapshot and the user, and an
  imperative handler proved equal to it.
- **Voice round** (`voice.dfy`). The per-socket jitter buffers, the minimum
  front timestamp, the pop of every due buffer, the int16-clamped mix, and
  the recipients (channel members' sockets minus the sender), and the socket
  that broadcast_audio's local `MySocket` closes when it returns, with its
  effect on later rounds.
- **Session** (`session.dfy`). The server's per-connection `messageProcessing`
  loop: the flag state machine (sign-up, log-in, password, nickname, id),
  the `idReceived` gate, and the `commandProcessing` dispatcher. The class
  `Connection` is proved equal to a pure step function over a `State`
  snapshot.
- **Client** (`client.dfy`).
  - Validators: login or nickname, password, ip:port.
  - Parsers: `ParseIpPort`, the `/connect` parser.
  - `isCommand` and `toUpper`.
  - Current and last channel tracking.
- **Test script** (`listen.dfy`). The listen script's `verifyResponse`,
  `isCommand`, `isValidFormat` and the channel tracking of `handleMessages`.

Sockets, files, the clock, the uuid generator, SHA-256 and the Opus decoder
are not modelled as such:

- A socket is a chunk source (`Stream`) and a chunk sink (`Sink`). Each
  carries the sizes the operating system grants per call.
- A file is its text, a `string` of lines.
- Times and uuids are inputs (`Env`).
- The password digest, the Opus decoder and the file-size formatter are
  function parameters (`Ctx`).

Where the on-screen help text and the code disagree, the model follows the
code:

- The login help says a login starts with a letter, but `checkLoginOrNick`
  accepts a leading digit (`Client.LeadingDigitAccepted`).
- The password help lists "`" as a special character, but `checkPassword`
  does not count it (`Client.BackQuoteNotSpecial`).

## Model

| member | source | states |
|---|---|---|
| Bytes.Trunc32 | tests/src/mysocket.cpp:368 | the 32-bit header size field keeps a size below 2^32 unchanged |
| Bytes.ReadBe32 | tests/src/mysocket.cpp:104-110 | reading four big-endian bytes gives a value below 2^24 exactly when the top byte is zero |
| Bytes.ReadBe32OfBe32 | tests/src/mysocket.cpp:67-120 | reading back a big-endian 32-bit word written by htonl gives the word, whatever follows it |
| Bytes.Be32OfReadBe32 | tests/src/mysocket.cpp:94-120 | four bytes read as a big-endian word and written again are the same four bytes |
| Bytes.Be32Injective | tests/src/mysocket.cpp:67-92 | distinct 32-bit words have distinct big-endian encodings |
| Bytes.BytesOf | tests/src/mysocket.cpp:301-306 | a string copied into a byte body keeps its length |
| Bytes.StringOf | tests/src/mysocket.cpp:297-299 | a body read as a string keeps its length and holds only octet characters |
| Bytes.BytesOfStringOf | tests/src/mysocket.cpp:297-306 | bytes turned into a string and back are unchanged |
| Bytes.StringOfBytesOf | tests/src/mysocket.cpp:297-306 | a string survives the trip through bytes if and only if every character is an octet |
| Bytes.Prefixed | tests/src/mysocket.cpp:348-355 | a length-prefixed field is four length bytes followed by the field verbatim |
| Protocol.TypeCode | include/mysocket.hpp:18 | every DataType maps to a code below 5 |
| Protocol.TypeOfCode | include/mysocket.hpp:18 | codes 0..4 and only those name a DataType, and the mapping inverts TypeCode |
| Protocol.TypeCodeRoundTrip | include/mysocket.hpp:18 | TEXT=0, NUMBER=1, AUDIO=2, FILE_TYPE=3 and VOICE=4 are recovered from their codes |
| Protocol.FlagCode | include/mysocket.hpp:33-58 | every flag maps to a code below 24 |
| Protocol.FlagOfCode | include/mysocket.hpp:33-58 | codes 0..23 and only those name a flag, and the mapping inverts FlagCode, so the flags are distinct |
| Protocol.FlagCodeRoundTrip | include/mysocket.hpp:33-58 | each flag from COMMAND=0 to FILE_ERROR=23 is recovered from its code |
| Protocol.AudioPacket.Payload | include/mysocket.hpp:20-24 | the payload of a packet is its first opus_length bytes |
| Protocol.SetText | include/mysocket.hpp:79-83 | setting a text gives type TEXT, the flag untouched, a body as long as the text, and a size equal to the body's length |
| Codec.Encode | tests/src/mysocket.cpp:67-92 | a serialised frame is 9 header bytes longer than its body |
| Codec.Decode | tests/src/mysocket.cpp:94-120 | a deserialised buffer's body is the buffer minus the 9 header bytes; a bare header gives an empty body |
| Codec.EncodeLayout | tests/src/mysocket.cpp:67-92 | byte 0 is the type, bytes 1-4 the big-endian size, bytes 5-8 the big-endian flag, then the body verbatim |
| Codec.DecodeEncode | tests/src/mysocket.cpp:67-120 | deserialising a serialised frame restores type, size, flag and body |
| Codec.EncodeDecode | tests/src/mysocket.cpp:67-120 | serialising a deserialised buffer gives the buffer back |
| Codec.EncodeDecodedHeader | tests/src/mysocket.cpp:94-120 | a header decoded on its own and re-encoded with a body gives header bytes followed by the body |
| Codec.DecodeHeaderPrefix | tests/src/mysocket.cpp:216-237 | decoding the first 9 bytes of a frame on the wire gives its header and an empty body |
| Codec.EncodeInjective | tests/src/mysocket.cpp:67-92 | two frames with the same serialisation are equal |
| Codec.MessageToString | tests/src/mysocket.cpp:297-299 | the text of a frame has one character per body byte and maps back to the body |
| Codec.TextRoundTrip | tests/src/mysocket.cpp:297-306 | messageToString after stringToMessage gives the text back if and only if it is made of octets |
| Codec.FlagOn | tests/src/mysocket.cpp:308-311 | flagOn changes only the flag, to the given value |
| Codec.FlagOff | tests/src/mysocket.cpp:313-316 | flagOff sets the flag to COMMAND and changes nothing else |
| Codec.TextFrame | tests/src/mysocket.cpp:297-316 | a reply frame has type TEXT and the chosen flag |
| Codec.TextFrameOfAnyFrame | tests/src/mysocket.cpp:301-311 | setting the text and then the flag, or the flag and then the text, of any frame gives the same reply frame |
| Codec.VoiceBody | tests/src/mysocket.cpp:342-371 | a VOICE body is 8 bytes longer than the channel plus the opus payload |
| Codec.PcmVoiceBody | tests/src/mysocket.cpp:373-398 | a mixed-voice body is the prefixed channel followed by the sample bytes verbatim |
| Codec.AudioBody | tests/src/mysocket.cpp:400-482 | an AUDIO body is 12 bytes longer than id, channel, file name and data, and ends with the data |
| Codec.AudioReplyBody | tests/src/mysocket.cpp:484-539 | an AUDIO reply body is the prefixed file name followed by the data verbatim |
| Codec.FileBody | tests/src/mysocket.cpp:578-626 | a FILE body is 16 bytes longer than id, channel, file name and data |
| Codec.SplitPrefixed | src/server.cpp:259-292 | a length-prefixed field is taken exactly when 4 length bytes are present and the length fits in the rest |
| Codec.SplitPrefixedOf | src/server.cpp:259-292 | taking a prefixed field from a prefixed value followed by anything gives the value and the rest |
| Codec.SplitPrefixedSound | src/server.cpp:259-292 | what is taken, re-prefixed and followed by the rest, is the original body |
| Codec.PrefixedTruncates | tests/src/mysocket.cpp:348-352 | a field of 2^32 bytes or more is written with a wrapped length and does not read back |
| Codec.IsNumeralOfIntToString | tests/src/mysocket.cpp:275-288 | the text of any integer is a number for isNumber |
| Codec.IsNumeralHasLeadingInteger | tests/src/mysocket.cpp:275-288 | every text isNumber accepts starts with an integer |
| Codec.LastIndexOf | tests/src/mysocket.cpp:177 | the last position holding one of the given characters, or none when there is none |
| Codec.Extension | tests/src/mysocket.cpp:177 | the extension starts at the last '.', contains no other '.', and is absent exactly when the path has no '.' |
| Codec.BaseName | tests/src/mysocket.cpp:440 | the file name is a suffix of the path with no '/' or '\\' in it |
| Codec.SendFileCheck | tests/src/mysocket.cpp:154-187 | sendFile goes ahead if and only if the file opens, is at most 10 MiB and has an extension in the 19-entry list; a path without '.' is out of range |
| Codec.WavFileCheck | tests/src/mysocket.cpp:410-437 | setAudioMessage goes ahead if and only if the file opens, ends in ".wav" and is at most 10 MiB |
| Socket.Message.constructor | include/mysocket.hpp:60-70 | a new message has the default header (flag 0), an empty body and the empty audio packet |
| Socket.Message.ClearMessage | include/mysocket.hpp:74-77 | clearMessage resets the header to its defaults and empties the body |
| Socket.Message.SetTextMessage | include/mysocket.hpp:79-83 | setTextMessage sets type TEXT, the body to the text and the size to the body length, leaving the flag |
| Socket.Message.Serialize | tests/src/mysocket.cpp:67-92 | the buffer written through the advancing pointer is the encoded frame |
| Socket.Message.Deserialize | tests/src/mysocket.cpp:94-120 | the message becomes the decoded buffer |
| Socket.Message.SetVoiceMessage | tests/src/mysocket.cpp:342-371 | the body is the prefixed channel then the prefixed first opus_length payload bytes; type VOICE, size the body length, flag kept, packet stored |
| Socket.Message.SetPcmVoiceMessage | tests/src/mysocket.cpp:373-398 | the body is the prefixed channel then the sample bytes; type VOICE, size the body length, flag kept |
| Socket.Message.SetAudioMessage | tests/src/mysocket.cpp:400-482 | an empty channel or a failed check leaves the message alone; otherwise the body is the AUDIO layout of id, channel, base name and file bytes |
| Socket.Message.SetAudioReply | tests/src/mysocket.cpp:484-539 | a failed check leaves the message alone; otherwise the body is the prefixed base name then the file bytes |
| Socket.Message.SetFileMessage | tests/src/mysocket.cpp:578-626 | the body is the FILE layout of id, channel, name, size and data; type FILE_TYPE, size the body length |
| Socket.CheckWavFile | tests/src/mysocket.cpp:410-437 | the checks before an audio file is read agree with WavFileCheck |
| Socket.AudioReplyBodyOf | tests/src/mysocket.cpp:519-536 | the body appended field by field is the AUDIO reply layout |
| Socket.AudioBodyOf | tests/src/mysocket.cpp:443-479 | the body appended field by field is the AUDIO layout |
| Socket.StringToMessage | tests/src/mysocket.cpp:301-306 | stringToMessage sets the text as setTextMessage does and returns a copy of the message |
| Socket.FlagOn | tests/src/mysocket.cpp:308-311 | flagOn updates the message's flag and returns a copy |
| Socket.FlagOff | tests/src/mysocket.cpp:313-316 | flagOff sets the message's flag to COMMAND and returns a copy |
| Socket.ReadCall | tests/src/mysocket.cpp:224-226 | one read returns at most the requested bytes, taken from the front of the stream; it returns nothing exactly at end of data or on an error |
| Socket.ReadFullShape | tests/src/mysocket.cpp:223-256 | a read loop that succeeds has exactly the requested bytes; one that fails has fewer; either way the bytes consumed are a prefix of the stream |
| Socket.ReadFullCompletes | tests/src/mysocket.cpp:223-256 | when every call returns data, the loop reads exactly the first n bytes |
| Socket.ReadAllGranted | tests/src/mysocket.cpp:223-256 | a single call that grants all n bytes completes the loop at once |
| Socket.ReceivedIsEncoded | tests/src/mysocket.cpp:216-261 | a received frame has a body of exactly header.size bytes, at most 10 MiB, and is the encoding found at the front of the stream |
| Socket.ReceiveRefusesOversize | tests/src/mysocket.cpp:238-242 | a header announcing more than 10 MiB fails with no body byte read |
| Socket.ReceiveOfEncoded | tests/src/mysocket.cpp:216-261 | an encoded frame on the wire is received as that frame, leaving what follows |
| Socket.SendCall | tests/src/mysocket.cpp:129-131 | one send delivers a prefix of the buffer, or nothing on a non-positive return |
| Socket.SendAll | tests/src/mysocket.cpp:122-142 | the send loop delivers the whole buffer on success, and a proper prefix of it on the first non-positive send |
| Socket.SendOnce | tests/src/mysocket.cpp:144-152 | sendMessage(msg, socket) reports success whenever the single send is non-negative |
| Socket.SendOnceMayTruncate | tests/src/mysocket.cpp:144-152 | a single short send reports success while delivering only one byte |
| Socket.MySocket.constructor | include/mysocket.hpp:96-108 | a new socket has the given stream and sink |
| Socket.MySocket.Read | tests/src/mysocket.cpp:224-226 | one read advances the stream as ReadCall says |
| Socket.MySocket.Send | tests/src/mysocket.cpp:129-131 | one send advances the sink as SendCall says |
| Socket.MySocket.ReadExactly | tests/src/mysocket.cpp:223-256 | the totalBytesRead loop returns what ReadFull specifies |
| Socket.MySocket.ReceiveMessage | tests/src/mysocket.cpp:216-261 | the message and the stream end as Receive specifies |
| Socket.MySocket.ReadHeader | tests/src/mysocket.cpp:216-243 | the header is read and checked against the 10 MiB cap before the body |
| Socket.MySocket.ReadBody | tests/src/mysocket.cpp:244-261 | the body loop reads header.size bytes as ReceiveBody specifies |
| Socket.MySocket.SendMessage | tests/src/mysocket.cpp:122-142 | the totalSent loop sends the encoded frame as SendAll specifies |
| Socket.SendMessageOnce | tests/src/mysocket.cpp:144-152 | the socket-number overload sends once as SendOnce specifies |
| Socket.IsNumber | tests/src/mysocket.cpp:275-288 | isNumber is true iff the text is non-empty, has at most one leading '-' not standing alone, and is otherwise digits |
| Socket.DetermineType | tests/src/mysocket.cpp:263-273 | "audio" is AUDIO, a number is NUMBER, everything else is TEXT |
| Socket.SendFileData | tests/src/mysocket.cpp:195-214 | on success the size bytes (perhaps cut short) and then the data were sent |
| Socket.SendFile | tests/src/mysocket.cpp:154-214 | the checks agree with SendFileCheck; a refused file sends nothing |
| Parsers.ThreeFieldsOf | src/server.cpp:449-525 | three prefixed octet strings followed by anything are taken back in order |
| Parsers.TakeField | src/server.cpp:727-778 | one pointer step of a parser takes a prefixed field exactly as SplitPrefixed does |
| Parsers.ParseVoiceBody | src/server.cpp:727-782 | the VOICE branch's pointer walk agrees with VoiceFieldsOf |
| Parsers.VoiceRoundTrip | src/server.cpp:727-782 | the VOICE parser inverts setVoiceMessage(packet): channel and opus payload are recovered |
| Parsers.VoiceFieldsSound | src/server.cpp:727-782 | whatever the VOICE parser accepts is a prefixed channel then a prefixed payload, then anything |
| Parsers.StorePayload | src/server.cpp:776-782 | copying an opus payload of at most 4000 bytes into a packet keeps the packet valid and its timestamp |
| Parsers.VoiceFieldsAcceptOversizedOpus | src/server.cpp:756-782 | the length checks accept an opus payload of 4001 bytes, more than the packet holds |
| Parsers.BoundedVoiceFieldsOf | src/server.cpp:756-782 | the corrected parser accepts exactly what the written one does with a payload of at most 4000 bytes, and agrees with it there |
| Parsers.BoundedVoiceRoundTrip | src/server.cpp:727-782 | the corrected parser still inverts setVoiceMessage(packet) |
| Parsers.ProcessAudioBody | src/server.cpp:449-527 | the AUDIO body walk agrees with AudioFieldsOf |
| Parsers.AudioRoundTrip | src/server.cpp:449-527 | the AUDIO parser inverts setAudioMessage(path, id, channel): id, channel, file name and data are recovered |
| Parsers.ExtractAudioMessageData | src/server.cpp:259-292 | the reply parser's walk agrees with ReplyFieldsOf |
| Parsers.ReplyRoundTrip | src/client.cpp:450-480 | the client's AUDIO prefix parser inverts setAudioMessage(path): file name and data are recovered |
| Parsers.ReplyFieldsRefuses | src/client.cpp:455-479 | the parser refuses if and only if the body is shorter than 4 bytes or the name length exceeds the rest |
| Parsers.FileDataKeepsSizeBytes | src/server.cpp:323-410 | as written, the FILE parser's data still starts with the 4 size bytes (see Findings) |
| Parsers.FileFieldsOf | src/server.cpp:323-410 | the corrected parser accepts what the written one does, reads the same size, and its data is the written one's minus the size bytes |
| Parsers.ProccessFileBody | src/server.cpp:323-410 | the corrected FILE walk agrees with FileFieldsOf |
| Parsers.FileRoundTrip | src/server.cpp:323-410 | the corrected FILE parser inverts setFileMessage: id, channel, name, size and data are recovered |
| Store.SplitField | src/database.cpp:20-22 | getline to ':' fails if and only if there is no ':'; otherwise it gives the text before it and the rest |
| Store.ParseUserLine | src/database.cpp:12-33 | a parsed user line reassembles to the line, so lines with fewer fields are dropped |
| Store.UserLineRoundTrip | src/database.cpp:12-33 | a user line written by addUser parses back to the same user |
| Store.ShortUserLineDropped | src/database.cpp:20-31 | a line that does not parse is not the line of any storable user |
| Store.UsersOf | src/database.cpp:12-33 | there are at most as many users as lines |
| Store.UsersOfAppend | src/database.cpp:12-33 | the users of two blocks of lines are those of the first followed by those of the second, so order is kept |
| Store.UsersAfterAddUser | src/database.cpp:158-168 | adding a user line appends exactly that user to the parsed users |
| Store.FirstWithLogin | src/database.cpp:455-471 | the position of the first user with the login, or the end when none |
| Store.FirstWithId | src/database.cpp:473-486 | the position of the first user with the id, or the end when none |
| Store.RemoveAll | src/database.cpp:299-328 | filtering removes every copy of the line and keeps every other line as often as before |
| Store.RemoveAllAppend | src/database.cpp:299-328 | filtering two blocks is filtering each, so original order is kept |
| Store.LinesOfWithoutLine | src/database.cpp:299-359 | the rewritten file's lines are the old lines with every copy of the given one removed |
| Store.RenameLine | src/database.cpp:380-401 | a malformed line, or one with another id, is written back unchanged |
| Store.RenameAll | src/database.cpp:361-417 | the rewrite keeps the number of lines |
| Store.RenameUsers | src/database.cpp:361-417 | users with the id get the new nickname; every other user is unchanged |
| Store.UsersOfRenameAll | src/database.cpp:361-417 | for a nickname without ':', parsing the rewritten lines gives the old users with only the matching nicknames replaced |
| Store.UsersAfterRename | src/database.cpp:361-417 | for a nickname without ':' or newline, after changeNickname the users file parses to the renamed users |
| Store.ColonNicknameShiftsFields | src/database.cpp:361-417 | a nickname "a:b" written by changeNickname is read back as nickname "a" and socket "b", the old socket as the login and the old login and password joined by ':' as the password |
| Store.NonEmpty | src/database.cpp:3-11 | the tokens of a member list are among its lines |
| Store.MembersAfterDelete | src/database.cpp:299-328 | deleting a member removes exactly that id from the member set |
| Store.MembersAfterAdd | src/database.cpp:177-183 | appending an id adds exactly that id to the member set |
| Store.Listing | src/database.cpp:520-536 | with no channels the listing is "No existing channels.\n" |
| Store.ListingHasOneLinePerChannel | src/database.cpp:520-536 | otherwise there is one "Name: c, Number of active users: n" line per channel, with n the line count of its members file |
| Store.AddFile | src/database.cpp:3-11 | the >> loop collects exactly the whitespace tokens of the file |
| Store.AddFileNicknames | src/database.cpp:12-33 | the getline loop gives the parsed users in line order |
| Store.CountLines | src/database.cpp:80-89 | channelsMembersCount counts the lines of the members file |
| Store.ReadHistory | src/database.cpp:93-156 | the getline loop gives the entries of the lines in order, dropping unmatched lines |
| Store.CopyWithout | src/database.cpp:299-328 | the copy loop writes every line not equal to the given one, in order |
| Store.RewriteUserLine | src/database.cpp:380-401 | one line of the nickname rewrite agrees with RenameLine |
| Store.CopyRenamed | src/database.cpp:361-417 | the rewrite loop writes the renamed lines in order |
| Store.ChannelLines | src/database.cpp:529-534 | the listing loop produces the summary lines in iteration order |
| Store.DataBase.constructor | tests/include/database.hpp:20-41 | a new store holds the disk and empty caches |
| Store.DataBase.ChannelsMembersCount | src/database.cpp:80-89 | the member count of a channel is the line count of its members file |
| Store.DataBase.ChannelsHistoryFile | src/database.cpp:93-156 | the history of a channel is the entries of its file's lines |
| Store.DataBase.AddUser | src/database.cpp:158-168 | a line "uuid:nickname:socket:login:password" is appended to the users file and nothing else changes |
| Store.DataBase.AddChannel | src/database.cpp:170-175 | the channel name is appended to the channel list |
| Store.DataBase.AddChannelMember | src/database.cpp:177-183 | the id is appended to that channel's member list |
| Store.DataBase.AddMessageInChannel | src/database.cpp:185-198 | exactly one line "[time] id: message" is appended to the channel history |
| Store.DataBase.AddAudioMessageToChannelHistory | src/database.cpp:266-297 | one voicemail line is appended to the channel history |
| Store.DataBase.AddFileMessageToChannelHistory | src/database.cpp:240-265 | one file line is appended to the channel history |
| Store.DataBase.DeleteChannelMember | src/database.cpp:299-328 | every copy of the id is removed from the channel's members and the rest keep their order; a missing file is left alone |
| Store.DataBase.DeleteChannel | src/database.cpp:330-359 | every copy of the channel name is removed from the channel list |
| Store.DataBase.ChangeNickname | src/database.cpp:361-417 | only the nickname field of lines with the id is rewritten |
| Store.DataBase.UserId | src/database.cpp:455-471 | the id of the first user with the login, or "" when none |
| Store.DataBase.UserNickById | src/database.cpp:473-486 | the nickname of the first user with the id, or "" when none |
| Store.DataBase.ChannelMessage | src/database.cpp:488-506 | the channel becomes the text and is added to the list only when the cached set lacks it |
| Store.DataBase.ListOfChannelsOnServer | src/database.cpp:520-536 | the cache is refreshed and the reply is Listing |
| Store.IdMessage | src/database.cpp:508-518 | idReceived is set in every case and the result says whether the echoed id matches |
| HistoryLog.SearchIdComplete | src/database.cpp:100 | the lazy sender search finds a split whenever one exists |
| HistoryLog.MatchTextSound | src/database.cpp:100 | what the text pattern captures reassembles to the line |
| HistoryLog.MatchTextLeast | src/database.cpp:100 | the captured time is the shortest possible, then the sender, as the lazy groups demand |
| HistoryLog.SplitsUnique | src/database.cpp:100 | two splits with the same time and sender lengths are the same split |
| HistoryLog.HistoryLineRoundTrip | src/database.cpp:191-197 | a line written by addMessageInChannel is read back as its time, id and message |
| HistoryLog.ParseHistoryLine | src/database.cpp:93-156 | every accepted line is a text entry that reassembles to the line |
| HistoryLog.AudioPatternShadowed | src/database.cpp:101-102 | every voicemail-shaped line is taken by the text pattern first |
| HistoryLog.FilePatternShadowed | src/database.cpp:103-104 | every file-shaped line is taken by the text pattern first |
| HistoryLog.Entries | src/database.cpp:106-154 | there are at most as many entries as lines |
| HistoryLog.EntriesAppend | src/database.cpp:106-154 | entries follow line order |
| HistoryLog.AppendedMessageReadBack | src/database.cpp:185-198 | after a message is appended, the history reads as the old entries plus that text entry |
| HistoryLog.Pad2 | src/database.cpp:284-288 | minutes and seconds are written with at least two digits |
| HistoryLog.VoicemailLineReadsAsText | src/database.cpp:266-297 | a voicemail line reads back as a text entry whose message is the voicemail text |
| HistoryLog.FileLineReadsAsText | src/database.cpp:240-265 | a file line reads back as a text entry whose message is the file text |
| Commands.JoinWithoutChange | tests/command_handler/join_command.cpp:3-35 | the wrong token count is refused with the usage text, a missing channel with "Channel does not exist", and the store changes if and only if the reply is "You have joined the channel" |
| Commands.JoinTwice | tests/command_handler/join_command.cpp:15-23 | for a non-empty id without whitespace, a non-member joins and is added; joining again answers "You already on this channel" and adds nothing |
| Commands.JoinEmptyIdRepeats | tests/command_handler/join_command.cpp:15-23 | the empty id is never a member: every join of an existing channel answers "You have joined the channel" and appends one more empty line |
| Commands.HandleJoin | tests/command_handler/join_command.cpp:3-26 | the handler refreshes the caches from the store and then does what Join specifies |
| Commands.ExitRemovesMember | command_handler/exit_command.cpp:3-27 | after "You have left the channel" the id is no longer a member and nothing else changes; any other reply changes nothing |
| Commands.HandleExit | command_handler/exit_command.cpp:3-27 | the handler refreshes the caches and then does what Exit specifies |
| Commands.Spaced | tests/command_handler/send_command.cpp:7-13 | a non-empty message ends in the trailing space |
| Commands.ParseSendCommand | tests/command_handler/send_command.cpp:7-13 | the channel is tokens[1] and the message is every later token followed by one space |
| Commands.SendAppendsOneEntry | tests/command_handler/send_command.cpp:15-41 | a member's send appends exactly one history entry keyed by the user's id and answers "Message sent" |
| Commands.SendRefusedWithoutChange | tests/command_handler/send_command.cpp:15-41 | any other reply leaves the store unchanged |
| Commands.HandleSend | tests/command_handler/send_command.cpp:15-41 | the handler refreshes the caches and then does what Send specifies |
| Commands.Shown | tests/command_handler/read_command.cpp:59-105 | at most one rendered line per history entry |
| Commands.RenderedLines | tests/command_handler/read_command.cpp:52-118 | the rendered history is the shown entries joined by newlines with no trailing newline |
| Commands.ReadAfterSend | tests/command_handler/read_command.cpp:52-118 | a member reading after another member's send sees the earlier lines, then the new message under the sender's current nickname |
| Commands.WriteEntry | tests/command_handler/read_command.cpp:76-104 | one loop turn writes the separator and the entry's text |
| Commands.RenderHistory | tests/command_handler/read_command.cpp:59-105 | the first-flag loop writes Render |
| Commands.ReadCommandHistory | tests/command_handler/read_command.cpp:52-118 | the names cache is refreshed and the cached history is rendered |
| Commands.HandleRead | tests/command_handler/read_command.cpp:3-41 | the reply is the usage, not-found, no-access, "Channel is empty" or the rendered history, as Read specifies; the store is unchanged |
| Commands.NickRenames | command_handler/nick_command.cpp:3-17 | for a nickname without ':', the reply is the new nickname and every user with the id now carries it, with no uniqueness check |
| Commands.ColonNickShiftsUser | command_handler/nick_command.cpp:3-17 | after `/nick a:b` the user's line reads back with nickname "a", socket "b" and the old socket as its login, so no user has the old login any more |
| Commands.HandleNick | command_handler/nick_command.cpp:3-26 | the handler does what NickCommand specifies |
| Voice.Clamp16 | src/server.cpp:683-686 | values inside the int16 range are kept and values outside are clamped to its ends |
| Voice.Mix | src/server.cpp:672-688 | the mixed output has the requested length |
| Voice.MixOfOne | src/server.cpp:672-688 | mixing one buffer gives that buffer |
| Voice.MixOfNone | src/server.cpp:672-688 | mixing no buffers gives silence |
| Voice.MixSaturates | src/server.cpp:672-688 | each output sample is the buffers' sum clamped to the int16 range |
| Voice.MixAudioBuffers | src/server.cpp:672-688 | the nested loop fills the first frame_count·NUM_CHANNELS samples with Mix and leaves the rest |
| Voice.SamplesRoundTrip | tests/src/mysocket.cpp:388-392 | int16 samples dumped as little-endian bytes read back as the same samples |
| Voice.PushedValid | src/server.cpp:784-788 | pushing a valid packet keeps every queue valid and the sockets ordered |
| Voice.PushedQueue | src/server.cpp:784-788 | the push appends the packet to the sender's queue and leaves every other queue alone |
| Voice.MinFrontBound | src/server.cpp:792-800 | the minimum is at most the new packet's timestamp and every non-empty front, and is one of them |
| Voice.PopDue | src/server.cpp:811-823 | every buffer is popped independently by the due rule |
| Voice.PopDueValid | src/server.cpp:811-823 | popping keeps the buffers valid |
| Voice.DecodedDueFromDue | src/server.cpp:811-823 | every mixed frame is the successful decode of a due buffer's front |
| Voice.EntryOf | src/server.cpp:607-626 | an entry keeps the user's id and the std::stoi reading of its socket field |
| Voice.SocketEntries | src/server.cpp:607-626 | one entry per user, in order |
| Voice.SocketMapDomain | src/server.cpp:607-626 | an id is mapped if and only if some user with it has a parsable socket |
| Voice.SocketMapFirstWins | src/server.cpp:607-626 | the mapped socket is that of the first such user, as emplace keeps the first |
| Voice.CreateUserSocketMap | src/server.cpp:607-626 | the loop builds SocketMap |
| Voice.SocketsOf | src/server.cpp:630-647 | at most one socket per member |
| Voice.SocketsOfMembers | src/server.cpp:630-647 | a socket is collected if and only if it is the mapped socket of a member; missing ids are skipped |
| Voice.OtherThanMembers | src/server.cpp:849-856 | after the erase a socket remains if and only if it was there and is not the sender's |
| Voice.MixFrame | src/server.cpp:649-670 | the broadcast frame has type VOICE, flag 0 and the mixed-voice body |
| Voice.MixFrameCarriesSamples | src/server.cpp:649-670 | the samples can be read back from the broadcast body |
| Voice.Broadcasts | src/server.cpp:649-670 | each recipient other than the sender gets the same frame, in order |
| Voice.ClosedAfter | src/server.cpp:649-670 | the local MySocket closes a listed socket other than the sender's, or an indeterminate descriptor exactly when there is no recipient |
| Voice.ClosedIsAListener | src/server.cpp:649-670 | the closed socket is a channel member's mapped socket other than the sender's, one that RecipientsHear says hears every broadcast |
| Voice.ClosedHearsNothing | src/server.cpp:649-670 | a closed socket receives nothing in any later round |
| Voice.AsWrittenListenerHearsOnce | src/server.cpp:649-670 | as written, the socket the first round closes hears that round's frame and no other |
| Voice.SecondMixUnheard | src/server.cpp:649-670 | a sender on socket 4 and a listener on 5: as written the listener gets only the first of two mixes, as intended both |
| Voice.IntendedListenerHearsAll | src/server.cpp:649-670 | when nothing is closed, every open listed socket other than the sender's hears every frame of every round |
| Voice.Jitter.constructor | tests/include/server.hpp:63 | the jitter buffers and the socket list start empty |
| Voice.Jitter.Push | src/server.cpp:784-788 | the packet is pushed onto the sender's queue |
| Voice.Jitter.MinTimestamp | src/server.cpp:792-800 | the loop computes MinFront |
| Voice.Jitter.PopDecoded | src/server.cpp:811-823 | exactly the due buffers lose their front, and only successful decodes are kept |
| Voice.Jitter.Drain | src/server.cpp:790-826 | the minimum, then the pop and decode of the due fronts |
| Voice.Jitter.GetClientSocketsOptimized | src/server.cpp:630-647 | client_sockets is cleared and refilled with the members' sockets |
| Voice.Jitter.BroadcastAudio | src/server.cpp:649-670 | every client socket but the sender's is sent the mixed frame; the local MySocket then closes the socket ClosedAfter names |
| Voice.Jitter.VoiceRound | src/server.cpp:724-879 | the VOICE branch does what RoundOf specifies |
| Voice.Jitter.RefreshRecipients | src/server.cpp:828-856 | the caches are refreshed and the recipients are the members' sockets |
| Voice.Jitter.MixAndBroadcast | src/server.cpp:858-868 | nothing is sent and nothing closed when no frame decoded; otherwise the mix is broadcast and the last recipient closed |
| Voice.MemberOrder | src/database.cpp:74-78 | the iteration order holds exactly the member set |
| Voice.RoundOf | src/server.cpp:724-879 | a malformed body changes nothing; otherwise the recipients are the members' sockets, every send carries one frame, the buffers stay valid, and after any send the socket of the last send is closed |
| Voice.RecipientsHear | src/server.cpp:830-867 | a socket is sent the mix if and only if it is not the sender's and is the mapped socket of a channel member |
| Voice.UnstampedAllDue | src/server.cpp:726-792 | with every timestamp 0, as the server leaves them, every non-empty buffer is due each round |
| Voice.RoundQueuesPacket | src/server.cpp:776-788 | the parsed payload is queued for the sender only |
| Voice.AliasedFrames | src/server.cpp:814-819 | as written, every stored pointer sees the last decoded frame |
| Voice.AliasedMixLosesSpeaker | src/server.cpp:811-823 | with one loud and one silent speaker, the aliased mix loses the loud one (see Findings) |
| Voice.MixAddsSpeaker | src/server.cpp:672-688 | each frame added to the mix adds its samples before the clamp |
| Session.Following | src/server.cpp:7-10 | the next id is the previous plus one, wrapping at 2^32 |
| Session.DrawnIs | src/server.cpp:7-10 | the k-th id drawn is the start plus k, modulo 2^32 |
| Session.DrawnDistinct | src/server.cpp:7-10 | ids drawn fewer than 2^32 calls apart are distinct, and the counter returns to its start after 2^32 calls |
| Session.IdCounter.constructor | src/server.cpp:5 | the counter starts at 100 |
| Session.IdCounter.Generate | src/server.cpp:7-10 | the current value is returned and the counter advances |
| Session.Logins | src/server.cpp:165-171 | the login set holds exactly the users' logins |
| Session.Nicknames | src/server.cpp:241-248 | the nickname set holds exactly the users' nicknames |
| Session.LoginAccepted | src/server.cpp:163-184 | sign-up (0) succeeds iff the login is absent, log-in (1) iff it is present, other modes always |
| Session.PasswordMatches | src/server.cpp:203-237 | authorised iff the first user with the login has that hashed password |
| Session.NicknameFree | src/server.cpp:239-257 | a nickname is accepted iff no user has it |
| Session.VoicemailFrame | src/server.cpp:576-604 | a missing file is answered with AUDIOFILE_ERROR and an empty body; a file that cannot be read leaves the default message |
| Session.VoicemailExtension | src/server.cpp:576-604 | the voicemail path ends in ".wav" |
| Session.VoicemailDelivered | src/server.cpp:576-604 | a present file is sent as an AUDIO frame the client parses back to its name and data |
| Session.CommandStep | src/server.cpp:81-161 | a command never touches the jitter buffers, the sockets, the voice state or idReceived |
| Session.DatabaseCommandStep | src/server.cpp:89-129 | the database commands leave the voice state and idReceived alone |
| Session.UnknownCommandIsWrong | src/server.cpp:155-160 | an unknown word is answered "Wrong command" with COMMAND |
| Session.JoinReplyFlag | src/server.cpp:103-112 | "/join" carries NO_CHANNEL if and only if the channel does not exist, else COMMAND |
| Session.TimeFlags | src/server.cpp:137-152 | "/time_on" sets timeFlag with TIME_ON; "/time_off" clears it but keeps COMMAND |
| Session.ConnectCloses | src/server.cpp:130-132 | "/connect" closes the session with no reply |
| Session.SavedVoicemailIsLogged | src/server.cpp:532-572 | a saved voicemail draws one id and appends one history entry naming it |
| Session.FlagStep | src/server.cpp:884-1007 | a flag never touches the voice state or the id counter |
| Session.Loop | src/server.cpp:689-1010 | the loop ends only on a stop |
| Session.CommandsNeedId | src/server.cpp:997-1006 | an unhandled text frame reaches commandProcessing only once idReceived is set |
| Session.NothingBeforeId | src/server.cpp:997-1006 | before idReceived, any run of unhandled frames changes nothing |
| Session.TextFrameStep | src/server.cpp:883-885 | a TEXT frame is dispatched on its flag |
| Session.IdFrameOpensCommands | src/server.cpp:984-995 | the ID flag sets idReceived even on a mismatch; a match replies ID_CORRECT with the stored nickname |
| Session.LoginFrames | src/server.cpp:886-907 | an accepted login sets user.login and replies CHECK_LOGIN; a refused one changes nothing |
| Session.PasswordLogIn | src/server.cpp:921-934 | an authorised password replies AUTHORIZED with the nickname; otherwise nothing changes |
| Session.TakenNicknameRefused | src/server.cpp:940-969 | a taken nickname changes nothing |
| Session.NickRegisters | src/server.cpp:940-969 | a free nickname registers one user line under a fresh uuid, adds the old id to a current channel, and replies CHECK_NICKNAME then REGISTERED |
| Session.ChannelFrame | src/server.cpp:936-938 | the CHANNEL flag sets the channel and adds it to the list only when the cache lacks it |
| Session.MalformedVoiceReturns | src/server.cpp:727-782 | a malformed VOICE body ends messageProcessing with nothing changed |
| Session.LoopStopsAtFirstStop | src/server.cpp:689-1010 | inputs after a stop are never processed |
| Session.CollectLogins | src/server.cpp:165-171 | the loop collects the login set |
| Session.CollectNicknames | src/server.cpp:241-248 | the loop collects the nickname set |
| Session.FirstPasswordMatches | src/server.cpp:209-236 | the search returns PasswordMatches |
| Session.Connection.constructor | src/server.cpp:689-698 | a new session has idReceived false and has sent nothing |
| Session.Connection.MessageProcessing | src/server.cpp:689-1010 | the loop does what Run specifies |
| Session.Connection.HandleFrame | src/server.cpp:704-1008 | one frame does what Step specifies |
| Session.Connection.VoiceMessage | src/server.cpp:724-879 | the VOICE branch does what VoiceStep specifies |
| Session.Connection.ProcessAudioMessage | src/server.cpp:449-574 | the AUDIO branch does what AudioStep specifies |
| Session.Connection.ProccessFileMessage | src/server.cpp:323-447 | the FILE branch does what FileStep specifies |
| Session.Connection.FlagMessage | src/server.cpp:884-1007 | the flag switch does what FlagStep specifies |
| Session.Connection.LoginMessage | src/server.cpp:886-907 | the login cases do what LoginStep specifies |
| Session.Connection.PasswordSignUpMessage | src/server.cpp:909-919 | the sign-up password case does what PasswordSignUpStep specifies |
| Session.Connection.PasswordLogInMessage | src/server.cpp:921-934 | the log-in password case does what PasswordStep specifies |
| Session.Connection.IdRequestMessage | src/server.cpp:971-982 | the CHECK_ID case does what IdRequestStep specifies |
| Session.Connection.IdReceivedMessage | src/server.cpp:984-995 | the ID case does what IdStep specifies |
| Session.Connection.CheckLogin | src/server.cpp:163-184 | the result is LoginAccepted and user.login is set only on success |
| Session.Connection.CheckPasswordServer | src/server.cpp:186-201 | the salted digest is stored as the user's password |
| Session.Connection.CheckPasswordAuthorization | src/server.cpp:203-237 | the result is PasswordMatches for the salted digest |
| Session.Connection.CheckNickname | src/server.cpp:239-257 | the result is NicknameFree and user.nickname is set only on success |
| Session.Connection.NickMessage | src/server.cpp:940-969 | the NICK case does what NickStep specifies |
| Session.Connection.CommandProcessing | src/server.cpp:81-161 | the dispatcher does what CommandStep specifies |
| Session.Connection.DatabaseCommandMessage | src/server.cpp:89-129 | the database commands do what DatabaseCommandStep specifies |
| Session.Connection.AudioFileMessage | src/server.cpp:576-604 | the reply is VoicemailFrame |
| Client.CheckLoginOrNick | src/client.cpp:1060-1076 | accepted iff 3-24 characters, not starting with '_', '.' or '-', all alphanumeric or '_', '.', '-', and no "__" |
| Client.LeadingDigitAccepted | src/client.cpp:1060-1076 | a login starting with a digit is accepted |
| Client.DoubleUnderscoreRefused | src/client.cpp:1071-1073 | a login containing "__" is refused |
| Client.Mark | src/client.cpp:1088-1102 | each character sets the flag of its class and keeps the others |
| Client.CheckPassword | src/client.cpp:1078-1118 | accepted iff 8-64 characters, no space, no character four times in a row, and an upper, a lower, a digit and a listed special character |
| Client.BackQuoteNotSpecial | src/client.cpp:1078-1118 | the back-quote is not special, so a password whose only special character is one is refused |
| Client.RepeatRefused | src/client.cpp:1108-1110 | a password with a character four times in a row is refused |
| Client.ParseIpPort | src/client.cpp:208-212 | the ip is the text before the first ':' |
| Client.ParseIpPortWithoutColon | src/client.cpp:208-212 | without a ':' the ip is the whole text and the port is read from it too |
| Client.ParseValidIpPort | src/client.cpp:208-212 | on a valid input the ip is the dotted part and the port its 1..65535 number |
| Client.AddressRoundTrip | src/client.cpp:286-339 | any "a.b.c.d:p" with octets at most 255 and p in 1..65535 is valid and parses back to its parts |
| Client.ConnectOf | src/client.cpp:228-269 | a refusal keeps nick and channel; an acceptance has a valid ip:port |
| Client.ParseConnectCommand | src/client.cpp:228-269 | the token pushes and assignments do what ConnectOf specifies |
| Client.ConnectRoundTrip | src/client.cpp:228-269 | "/connect ip:port [nick [channel]]" with a valid address sets exactly the tokens present |
| Client.BadAddressClears | src/client.cpp:228-266 | an invalid ip:port clears ip_port and fails |
| Client.IsCommand | src/client.cpp:438-444 | true iff a '/' occurs anywhere |
| Client.ToUpper | src/client.cpp:1028-1033 | each character is upper-cased where it is a lower-case letter |
| Client.ToUpperIdempotent | src/client.cpp:1028-1033 | upper-casing twice is upper-casing once |
| Client.AfterJoin | src/client.cpp:855-867 | "/join X" saves the current channel as the last and makes X current |
| Client.AfterExit | src/client.cpp:879-891 | "/exit X" clears the current channel only when X is it |
| Client.AfterReply | src/client.cpp:58-93 | outside AUDIO and VOICE frames, NO_CHANNEL makes a saved last channel current and forgets it, or clears current when none is saved; DEL_CHANNEL clears current and keeps last; every other flag, and every AUDIO or VOICE frame, changes nothing |
| Client.RefusedJoinRestores | src/client.cpp:83-93 | a join answered NO_CHANNEL returns to the channel before it |
| Client.SecondJoinLosesOrigin | src/client.cpp:859-861 | two joins in a row overwrite the saved channel |
| Client.RefusalWithoutLastClears | src/client.cpp:83-93 | a NO_CHANNEL with no saved channel leaves none current |
| Client.ChannelState.constructor | include/client.hpp:55 | both channels start empty |
| Client.ChannelState.Join | src/client.cpp:855-867 | the state becomes AfterJoin and the request is "/join" with the channel |
| Client.ChannelState.Exit | src/client.cpp:879-891 | the state becomes AfterExit and the command is sent |
| Client.ChannelState.Reply | src/client.cpp:58-93 | the state becomes AfterReply |
| Listen.RightTrim | tests/listen_script.cpp:111 | the trimmed text is a prefix whose removed tail is all " \n\r\t" |
| Listen.SeparatorIndex | tests/listen_script.cpp:106 | the position of the first ": ", or the end when there is none |
| Listen.VerifyResponse | tests/listen_script.cpp:100-126 | true iff some line has ": " with text after it and the trimmed text after the first ": " equals the message |
| Listen.SeparatorAtEndIgnored | tests/listen_script.cpp:107 | a line whose first ": " ends it is ignored |
| Listen.SenderLineMatches | tests/listen_script.cpp:100-126 | a sender label without ": " followed by ": " and the message matches |
| Listen.EchoedEntryMatches | tests/listen_script.cpp:100-126 | a history line the server prints for a text entry matches its message |
| Listen.CommandTestsDiffer | tests/listen_script.cpp:134-136 | the script's isCommand implies the client's, and "a/b" shows the converse fails |
| Listen.ConfigLineAccepted | tests/listen_script.cpp:215-222 | a line of four or more words has a valid format |
| Listen.ShortLineRefused | tests/listen_script.cpp:215-222 | a line of fewer than four words does not |
| Listen.StepOf | tests/listen_script.cpp:156-189 | each message sends one line, and a failed check is never undone |
| Listen.HandleMessages | tests/listen_script.cpp:149-206 | the loop and the final read do what StepsOf and FinishOf specify |
| Listen.ScriptTracks | tests/listen_script.cpp:156-189 | the count is the number of plain messages and the channel is the one set by the last "/join " or "/exit " |
| Listen.PassedIffAllVerified | tests/listen_script.cpp:156-189 | the check passes iff every message sent inside a channel is verified in its response |
| Listen.FinalCountCheck | tests/listen_script.cpp:191-203 | inside a channel the final read passes only if the response has at least one newline per plain message |

## Left out

- Sockets, threads, mutexes, condition variables and signal handlers. A socket is a stream of chunks with per-call grants; each session runs alone. The socket one session's broadcast closes is an output of the round (`Voice.ClosedAfter`) and its effect is modelled over consecutive rounds (`Voice.Rounds`); the ended session thread of that listener is not modelled.
- The client's and server's `main` loops, the operator console, the help and prompt screens, `signUp`, `LogIn`, `handleConnectCommand` and the reconnect that sets the current channel from `/connect`.
- The client's `commandHandler` branches other than `/join` and `/exit` (`/read`, `/send`, `/nick`, `/rec`, `/sound_on`, `/help` and the rest): they only forward text to the server or drive audio devices.
- Opus encoding and decoding: a function parameter. PortAudio recording and playback, libsndfile durations and `save_audio_to_file` are left out. A failed `opus_decoder_create` return is left out.
- SHA-256 in `hashPassword`: a digest parameter applied to password plus "fixed_salt_value". Its exceptions are not modelled.
- boost uuids, the clock (`strftime`), `generateFilename` and the double duration: inputs of the step (`Env`); the duration is whole seconds.
- `formatFileSize`: a parameter, because it formats doubles.
- Directory creation, temp-file rename and remove, `removeChannelFiles` and `saveFile`. A file is its text; a missing file reads as "".
- `DataBase::parseHistoryLine` (src/database.cpp:200-231): no caller uses it.
- Iteration order of `unordered_set`s: `listOfChannelsOnServer` takes the order as a parameter, each channel once; the session's "/channels" fixes it as the first-occurrence order of the channels file (`Voice.MemberOrder`), which is one of the orders the source's `unordered_set` may produce; recipients follow the first-occurrence order of the members file.
- The host byte order of PCM samples: taken as little-endian.
- Session.Connection.MessageProcessing: send failures are not modelled; every send succeeds.
- Session.Connection.MessageProcessing: an empty command and `/voicemail_on` without an argument read past the token vector in the source (undefined behaviour); the model sends nothing and stops the loop with the outcome `Undefined`.
- Session: the server's `channelAudioMessages` and the voicemail error text, which the source builds but never sends.
- Voice.RoundOf: uses the corrected VOICE parser and the intended mix over all decoded frames (see Findings); the int32 accumulator of `mix_audio_buffers` is an unbounded `int`, which is the same for at most 65536 buffers.
- Voice.ClosedAfter: when no socket but the sender's is listed, the destructor closes the never-set `sock` field of the local MySocket; the model records this as `Indeterminate` and does not say which descriptor it is.
- Voice.UnstampedAllDue: the server never stamps packets, so timestamps are inputs left at 0.
- tests/send_script.cpp and the I/O of tests/listen_script.cpp (`readFile`, `readResponse`, fork, pipes, sleeps): the responses are parameters of `HandleMessages`.
- tests/src/other.cpp logging.
- Socket.Message.constructor: a fresh C++ `Message` leaves the header's type and size and the audio packet uninitialised; the model starts them at zero, the values `header = {}` gives.
- Store.UsersOfRenameAll: holds only for a nickname without ':'. A ':' in a `/nick` argument moves every later field of the rewritten line, as Store.ColonNicknameShiftsFields shows.
- Store.UsersAfterRename: holds only for a nickname without ':' or newline, for the reason above; `/nick` accepts any whitespace-free token.
- Commands.NickRenames: holds only for a nickname without ':'. For one with ':', the user's login becomes the old socket number (Commands.ColonNickShiftsUser).
- Commands.JoinTwice: holds only for a non-empty id. A session has the empty id after an ID frame and before a log-in, or for an unknown login; for it every join appends an empty line (Commands.JoinEmptyIdRepeats).
- Client.ParseIpPort: `atoi` of the port text is modelled; the port of an input without ':' is read from the whole text, as the source does.

## Findings

| source | as written | input that shows it | evidently intended | confidence | as-written member | corrected member |
|---|---|---|---|---|---|---|
| src/server.cpp:323-410 | the FILE parser captures the file data before reading the 4-byte size, so the stored data begins with the size bytes | any body from setFileMessage, e.g. id "a", channel "c", name "f", size 1, data [7] | the data after the size field | not executed | Parsers.FileDataKeepsSizeBytes | Parsers.FileRoundTrip |
| src/server.cpp:756-782 | the VOICE parser checks the opus length only against the bytes left, then copies it into a 4000-byte packet | a body whose opus field is 4001 bytes long | refuse payloads longer than OPUS_MAX_PACKET_SIZE | not executed | Parsers.VoiceFieldsAcceptOversizedOpus | Parsers.BoundedVoiceRoundTrip |
| src/server.cpp:649-670 | broadcast_audio sends through a local MySocket whose destructor closes the last socket it was pointed at | a sender on socket 4 and a listener on socket 5 in two voice rounds | send without closing any recipient's socket | not executed | Voice.AsWrittenListenerHearsOnce | Voice.IntendedListenerHearsAll |
| src/server.cpp:811-823 | decoded_buffers stores pointers to one loop-local array, so every entry sees the last decoded frame | two due speakers, one loud and one silent, in that socket order | mix every decoded frame | not executed | Voice.AliasedMixLosesSpeaker | Voice.MixAddsSpeaker |

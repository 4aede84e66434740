/**
 * One client connection on the server: messageProcessing's receive loop, the
 * flag-driven login, password, nickname and id exchanges, the idReceived gate
 * in front of commandProcessing and its command-word table, the AUDIO and FILE
 * uploads and the id counter they draw from. The VOICE round is Voice's.
 *
 * Each operation is specified by a pure step on a State value that holds, for
 * one connection, the files, the cached channel set that later frames consult,
 * the User record, the current channel, idReceived, the counter, the jitter
 * buffers and the frames sent; the Connection class carries the same state in
 * place and its methods are proved against those steps.
 */
module Session {
  import opened Wrappers
  import opened Bytes
  import opened Protocol
  import opened Text
  import opened HistoryLog
  import opened Store
  import Codec
  import Parsers
  import Socket
  import Commands
  import Voice

  /** The salt checkPasswordServer and checkPasswordAthorization append to the password before hashing. */
  const SALT := "fixed_salt_value"

  /** audioMessageCounter's initial value. */
  const FIRST_ID: U32 := 100

  // ---------------------------------------------------------------- generateUniqueID

  /** A uint32 fetch_add(1): the counter wraps from 2^32 - 1 to 0. */
  function Following(n: U32): (r: U32)
    ensures r == (n + 1) % TWO32
  {
    if n == TWO32 - 1 then 0 else n + 1
  }

  /** The id handed out by the k-th call after the counter stood at start. */
  function Drawn(start: U32, k: nat): U32
  {
    if k == 0 then start else Following(Drawn(start, k - 1))
  }

  lemma {:induction false} DrawnIs(start: U32, k: nat)
    ensures Drawn(start, k) == (start + k) % TWO32
  {
    if k > 0 {
      var p := Drawn(start, k - 1);
      DrawnIs(start, k - 1);
      IncrementMod(start + k - 1);
      assert Drawn(start, k) == Following(p) == (p + 1) % TWO32;
    } else {
      assert start / TWO32 == 0;
    }
  }

  lemma IncrementMod(x: nat)
    ensures (x % TWO32 + 1) % TWO32 == (x + 1) % TWO32
  {
    var q, r := x / TWO32, x % TWO32;
    assert x == q * TWO32 + r;
    if r + 1 < TWO32 {
      assert x + 1 == q * TWO32 + (r + 1);
    } else {
      assert x + 1 == (q + 1) * TWO32;
    }
  }

  /** Fewer than 2^32 calls never hand out the same id twice; the 2^32-th call repeats the first. */
  lemma DrawnDistinct(start: U32, i: nat, j: nat)
    requires i < j < TWO32
    ensures Drawn(start, i) != Drawn(start, j)
    ensures Drawn(start, TWO32) == start
  {
    DrawnIs(start, i);
    DrawnIs(start, j);
    DrawnIs(start, TWO32);
  }

  class IdCounter {
    var next: U32

    constructor ()
      ensures next == FIRST_ID
    {
      next := FIRST_ID;
    }

    /** generateUniqueID: the value before the increment. */
    method Generate() returns (id: U32)
      modifies this
      ensures id == old(next) && next == Following(old(next))
    {
      id := next;
      next := if next == TWO32 - 1 then 0 else next + 1;
    }
  }

  // ---------------------------------------------------------------- the checks on the users file

  /** The set checkLogin builds: the login of every user. */
  function Logins(users: seq<User>): (r: set<string>)
    ensures forall x :: x in r <==> exists k :: 0 <= k < |users| && users[k].login == x
  {
    if users == [] then {}
    else
      var last := |users| - 1;
      assert forall k :: 0 <= k < last ==> users[..last][k] == users[k];
      Logins(users[..last]) + {users[last].login}
  }

  /** The set checkNickname builds: the nickname of every user. */
  function Nicknames(users: seq<User>): (r: set<string>)
    ensures forall x :: x in r <==> exists k :: 0 <= k < |users| && users[k].nickname == x
  {
    if users == [] then {}
    else
      var last := |users| - 1;
      assert forall k :: 0 <= k < last ==> users[..last][k] == users[k];
      Nicknames(users[..last]) + {users[last].nickname}
  }

  /**
   * checkLogin's decision: sign-up (mode 0) refuses a login some user already
   * has, log-in (mode 1) one that nobody has, and any other mode accepts.
   */
  function LoginAccepted(users: seq<User>, login: string, mode: int): (ok: bool)
    ensures mode == 0 ==> (ok <==> forall k :: 0 <= k < |users| ==> users[k].login != login)
    ensures mode == 1 ==> (ok <==> exists k :: 0 <= k < |users| && users[k].login == login)
    ensures mode != 0 && mode != 1 ==> ok
  {
    if login in Logins(users) then mode != 0 else mode != 1
  }

  /**
   * checkPasswordAthorization's decision: the first user with the login
   * decides, by whether its stored password equals the hash; with no such user
   * the answer is no.
   */
  function PasswordMatches(users: seq<User>, login: string, hashed: string): (ok: bool)
    ensures ok <==> exists k :: 0 <= k < |users| && users[k].login == login && users[k].password == hashed
                                && forall j :: 0 <= j < k ==> users[j].login != login
  {
    var k := FirstWithLogin(users, login);
    k < |users| && users[k].password == hashed
  }

  /** checkNickname's decision: a nickname is refused exactly when some user already carries it. */
  function NicknameFree(users: seq<User>, nickname: string): (ok: bool)
    ensures ok <==> forall k :: 0 <= k < |users| ==> users[k].nickname != nickname
  {
    !NicknameInSet(nickname, Nicknames(users))
  }

  /** userId: the id of the first user with the login, "" when none has it. */
  function IdOfLogin(users: seq<User>, login: string): string
  {
    var k := FirstWithLogin(users, login);
    if k < |users| then users[k].id else ""
  }

  /** userNickbyId: the nickname of the first user with the id, "" when none has it. */
  function NicknameOfId(users: seq<User>, id: string): string
  {
    var k := FirstWithId(users, id);
    if k < |users| then users[k].nickname else ""
  }

  // ---------------------------------------------------------------- sendAudiofiletoClient

  /** What the server finds at a voicemail's path: nothing, a file it cannot open, or the file's bytes. */
  datatype WavFile = Absent | Unreadable | Present(data: seq<Byte>)

  function VoicemailPath(audioId: string): string
  {
    "channels/audio/" + audioId + ".wav"
  }

  /**
   * The frame sendAudiofiletoClient sends: for a missing file a default
   * message with the AUDIOFILE_ERROR flag and no body (the error text it
   * builds is never sent); for a file setAudioMessage accepts, the AUDIO
   * reply; otherwise the untouched default message.
   */
  function VoicemailFrame(audioId: string, file: WavFile): (f: Frame)
    ensures file.Absent? ==> f.body == [] && FlagOfCode(f.header.flag) == Some(AUDIOFILE_ERROR)
    ensures file.Unreadable? ==> f == Frame(DefaultHeader, [])
  {
    match file
    case Absent => Codec.FlagOn(Frame(DefaultHeader, []), FlagCode(AUDIOFILE_ERROR))
    case Unreadable => Frame(DefaultHeader, [])
    case Present(data) =>
      var path := VoicemailPath(audioId);
      if Codec.WavFileCheck(path, true, |data|) == Codec.Done then
        var body := Codec.AudioReplyBody(Codec.BaseName(path), data);
        Frame(Header(TypeCode(AUDIO), Trunc32(|body|), FlagCode(COMMAND)), body)
      else
        Frame(DefaultHeader, [])
  }

  lemma VoicemailExtension(audioId: string)
    ensures Codec.Extension(VoicemailPath(audioId)) == Some(".wav")
  {
    var path := VoicemailPath(audioId);
    var n := |path|;
    assert path[n - 4] == '.';
    assert path[n - 4..] == ".wav";
    var r := Codec.LastIndexOf(path, {'.'});
    assert r.Some?;
    assert path[n - 3] == 'w' && path[n - 2] == 'a' && path[n - 1] == 'v';
    assert r.value == n - 4;
  }

  /**
   * A voicemail file of at most 10 MiB reaches the client as an AUDIO frame
   * whose body the client's parser splits back into the file's name and bytes.
   */
  lemma VoicemailDelivered(audioId: string, data: seq<Byte>)
    requires IsOctets(audioId) && |audioId| < TWO32 - 19
    requires |data| <= Codec.MAX_FILE_SIZE
    ensures var f := VoicemailFrame(audioId, Present(data));
      && TypeOfCode(f.header.typ) == Some(AUDIO)
      && Parsers.ReplyFieldsOf(f.body) == Some(Parsers.ReplyFields(Codec.BaseName(VoicemailPath(audioId)), data))
  {
    var path := VoicemailPath(audioId);
    VoicemailExtension(audioId);
    assert Codec.WavFileCheck(path, true, |data|) == Codec.Done;
    var name := Codec.BaseName(path);
    VoicemailPathOctets(audioId);
    if name != path {
      OctetsSlice(path, |path| - |name|, |path|);
    }
    Parsers.ReplyRoundTrip(name, data);
    TypeCodeRoundTrip(AUDIO);
  }

  lemma VoicemailPathOctets(audioId: string)
    requires IsOctets(audioId)
    ensures IsOctets(VoicemailPath(audioId))
  {
    var prefix, suffix := "channels/audio/", ".wav";
    assert IsOctets(prefix) by {
      forall i | 0 <= i < |prefix|
        ensures prefix[i] as int < 256
      {
      }
    }
    OctetsConcat(prefix, audioId);
    OctetsConcat(prefix + audioId, suffix);
  }

  // ---------------------------------------------------------------- the state of a connection

  /**
   * How the loop goes on: to the next receive; ended, because receiveMessage
   * failed and the socket was closed; closed by /connect, so that the next
   * receive fails; returned, on a malformed VOICE body; or undefined behaviour.
   */
  datatype Go = Continue | Ended | Closed | Returned | Undefined

  /** The client buffers of the jitter state, in the shape its operations keep. */
  type JitterBuffers = b: Voice.Buffers | Voice.ValidBuffers(b) witness []

  /**
   * What the loop carries between frames. channels is the cached channel set
   * channelMessage consults; messageProcessing's own idReceived flag and the
   * by-reference channel are here with the connection's User; sent are the
   * frames sent back to this client, voice the frames broadcast to others.
   */
  datatype State = State(
    disk: Disk, channels: set<string>,
    user: User, channel: string, idReceived: bool,
    nextId: U32, buffers: JitterBuffers, sockets: seq<int>,
    sent: seq<Frame>, voice: seq<(int, Frame)>)

  /**
   * What a connection's code cannot compute itself: its socket number, the
   * SHA-256 hex digest of a salted password, the Opus decoder and
   * formatFileSize.
   */
  datatype Ctx = Ctx(socket: int, digest: string -> string, decode: seq<Byte> -> Option<Voice.Pcm>, formatSize: U32 -> string)

  /**
   * What a frame's handling takes from outside: the wall-clock time, the uuid
   * addUser draws, whether saveFile succeeds, the saved audio's duration in
   * whole seconds and the voicemail file /voicemail_on finds.
   */
  datatype Env = Env(time: string, uuid: string, saved: bool, seconds: nat, voicemail: WavFile)

  /** One received frame with its surroundings. */
  datatype Input = Input(frame: Frame, env: Env)

  function Reply(s: State, f: Frame): State
  {
    s.(sent := s.sent + [f])
  }

  /** The handlers reload database_channels once their token count is right. */
  function Refreshed(s: State, reload: bool): State
  {
    if reload then s.(channels := TokenSet(s.disk.channels)) else s
  }

  // ---------------------------------------------------------------- commandProcessing

  /** The words commandProcessing dispatches on, in its order. */
  const COMMAND_WORDS: seq<string> :=
    ["/read", "/send", "/join", "/exit", "/nick", "/connect", "/channels", "/time_on", "/time_off", "/voicemail_on"]

  /**
   * commandProcessing on the words of a text frame. Every reply is the
   * received message with its flag turned off, or set, and the answer as text;
   * an empty command (words[0] of an empty vector) and /voicemail_on without
   * an argument (words[1]) are undefined behaviour.
   */
  function CommandStep(s: State, tokens: seq<string>, env: Env): (r: (State, Go))
    ensures r.0.buffers == s.buffers && r.0.sockets == s.sockets && r.0.voice == s.voice
    ensures r.0.idReceived == s.idReceived && r.0.nextId == s.nextId
  {
    if tokens == [] then (s, Undefined)
    else if DatabaseCommand(tokens[0]) then (DatabaseCommandStep(s, tokens, env), Continue)
    else if tokens[0] == "/connect" then
      (s, Closed)
    else if tokens[0] == "/channels" then
      var listing := Listing(s.disk, Voice.MemberOrder(s.disk.channels));
      (Reply(s.(channels := TokenSet(s.disk.channels)), Codec.TextFrame(listing, COMMAND)), Continue)
    else if tokens[0] == "/time_on" then
      (Reply(s.(user := s.user.(timeFlag := true)), Codec.TextFrame("Time on", TIME_ON)), Continue)
    else if tokens[0] == "/time_off" then
      (Reply(s.(user := s.user.(timeFlag := false)), Codec.TextFrame("Time off", COMMAND)), Continue)
    else if tokens[0] == "/voicemail_on" then
      if |tokens| < 2 then (s, Undefined) else (Reply(s, VoicemailFrame(tokens[1], env.voicemail)), Continue)
    else
      (Reply(s, Codec.TextFrame("Wrong command", COMMAND)), Continue)
  }

  /** The first five words of the table, whose commands work on the database files. */
  predicate DatabaseCommand(w: string)
  {
    w == "/read" || w == "/send" || w == "/join" || w == "/exit" || w == "/nick"
  }

  /** The database commands: read, send, join and exit reload the channel cache first as they do. */
  function DatabaseCommandStep(s: State, tokens: seq<string>, env: Env): (r: State)
    requires tokens != [] && DatabaseCommand(tokens[0])
    ensures r.buffers == s.buffers && r.sockets == s.sockets && r.voice == s.voice
    ensures r.idReceived == s.idReceived && r.nextId == s.nextId
  {
    if tokens[0] == "/read" then
      Reply(Refreshed(s, |tokens| == 2), Codec.TextFrame(Commands.Read(tokens, s.disk, s.user), COMMAND))
    else if tokens[0] == "/send" then
      var (answer, d) := Commands.Send(tokens, s.disk, s.user.id, env.time);
      Reply(Refreshed(s, |tokens| >= 3).(disk := d), Codec.TextFrame(answer, COMMAND))
    else if tokens[0] == "/join" then
      var (answer, d) := Commands.Join(tokens, s.disk, s.user.id);
      var flag := if answer == "Channel does not exist" then NO_CHANNEL else COMMAND;
      Reply(Refreshed(s, |tokens| == 2).(disk := d), Codec.TextFrame(answer, flag))
    else if tokens[0] == "/exit" then
      var (answer, d) := Commands.Exit(tokens, s.disk, s.user.id);
      Reply(Refreshed(s, |tokens| == 2).(disk := d), Codec.TextFrame(answer, COMMAND))
    else
      var (answer, d) := Commands.NickCommand(tokens, s.disk, s.user.id);
      Reply(s.(disk := d), Codec.TextFrame(answer, CHANGE_NICK))
  }

  /** A word outside the table gets "Wrong command" with the COMMAND flag, and nothing else changes. */
  lemma UnknownCommandIsWrong(s: State, tokens: seq<string>, env: Env)
    requires tokens != [] && tokens[0] !in COMMAND_WORDS
    ensures CommandStep(s, tokens, env) == (s.(sent := s.sent + [Codec.TextFrame("Wrong command", COMMAND)]), Continue)
  {
  }

  /** /join's reply carries NO_CHANNEL exactly when the channel does not exist, and COMMAND otherwise. */
  lemma JoinReplyFlag(s: State, tokens: seq<string>, env: Env)
    requires tokens != [] && tokens[0] == "/join"
    ensures var r := CommandStep(s, tokens, env).0;
      |r.sent| == |s.sent| + 1 &&
      (FlagOfCode(r.sent[|s.sent|].header.flag) == Some(NO_CHANNEL) <==>
        (|tokens| == 2 && tokens[1] !in TokenSet(s.disk.channels))) &&
      (FlagOfCode(r.sent[|s.sent|].header.flag) == Some(COMMAND) <==>
        !(|tokens| == 2 && tokens[1] !in TokenSet(s.disk.channels)))
  {
    FlagCodeRoundTrip(NO_CHANNEL);
    FlagCodeRoundTrip(COMMAND);
    var answer := Commands.Join(tokens, s.disk, s.user.id).0;
    assert answer == "Channel does not exist" <==> |tokens| == 2 && tokens[1] !in TokenSet(s.disk.channels);
  }

  /** /time_on sets timeFlag and answers with TIME_ON; /time_off clears it and keeps the COMMAND flag. */
  lemma TimeFlags(s: State, tokens: seq<string>, env: Env)
    requires tokens != [] && (tokens[0] == "/time_on" || tokens[0] == "/time_off")
    ensures var r := CommandStep(s, tokens, env);
      && r.1 == Continue
      && r.0.user == s.user.(timeFlag := tokens[0] == "/time_on")
      && r.0.disk == s.disk
      && |r.0.sent| == |s.sent| + 1
      && FlagOfCode(r.0.sent[|s.sent|].header.flag) == Some(if tokens[0] == "/time_on" then TIME_ON else COMMAND)
  {
    FlagCodeRoundTrip(TIME_ON);
    FlagCodeRoundTrip(COMMAND);
  }

  /** /connect closes the socket without a reply. */
  lemma ConnectCloses(s: State, tokens: seq<string>, env: Env)
    requires tokens != [] && tokens[0] == "/connect"
    ensures CommandStep(s, tokens, env) == (s, Closed)
  {
  }

  // ---------------------------------------------------------------- AUDIO and FILE uploads

  /**
   * processAudioMessage: a body that parses draws an id whether or not the
   * file is saved; once saved, the channel's history gains the voicemail line
   * keyed by user.id.
   */
  function AudioStep(s: State, body: seq<Byte>, env: Env): State
  {
    match Parsers.AudioFieldsOf(body)
    case None => s
    case Some(a) =>
      var drawn := s.(nextId := Following(s.nextId));
      if !env.saved then drawn
      else
        var line := HistoryLine(env.time, s.user.id, VoicemailText(IntToString(s.nextId), env.seconds));
        drawn.(disk := s.disk.(history := s.disk.history[a.channel := HistoryOf(s.disk, a.channel) + line + "\n"]))
  }

  /**
   * proccessFileMessage: the same shape as AudioStep, with the file line.
   * The corrected parse is used here; it accepts exactly the bodies the
   * as-written parse accepts and reads the same id, channel, name and
   * size, and the file data on which the two differ is never stored.
   */
  function FileStep(s: State, body: seq<Byte>, env: Env, ctx: Ctx): State
  {
    match Parsers.FileFieldsOf(body)
    case None => s
    case Some(ff) =>
      var drawn := s.(nextId := Following(s.nextId));
      if !env.saved then drawn
      else
        var line := HistoryLine(env.time, s.user.id, FileText(IntToString(s.nextId), ff.fileName, ctx.formatSize(ff.fileSize)));
        drawn.(disk := s.disk.(history := s.disk.history[ff.channel := HistoryOf(s.disk, ff.channel) + line + "\n"]))
  }

  /**
   * An uploaded voicemail that is saved is read back from the channel's
   * history as one more entry, after the ones already there.
   */
  lemma SavedVoicemailIsLogged(s: State, body: seq<Byte>, env: Env)
    requires Parsers.AudioFieldsOf(body).Some? && env.saved
    requires EndsLine(HistoryOf(s.disk, Parsers.AudioFieldsOf(body).value.channel))
    requires |env.time| > 0 && AllDot(env.time) && ']' !in env.time
    requires IsWord(s.user.id) && ':' !in s.user.id
    ensures var c := Parsers.AudioFieldsOf(body).value.channel;
      var r := AudioStep(s, body, env);
      && r.nextId == Following(s.nextId)
      && Entries(Lines(HistoryOf(r.disk, c)))
         == Entries(Lines(HistoryOf(s.disk, c))) + [TextEntry(env.time, s.user.id, VoicemailText(IntToString(s.nextId), env.seconds))]
  {
    var c := Parsers.AudioFieldsOf(body).value.channel;
    var id := IntToString(s.nextId);
    var text := VoicemailText(id, env.seconds);
    assert AllDot(s.user.id) by {
      forall k | 0 <= k < |s.user.id|
        ensures IsDot(s.user.id[k])
      {
        assert !IsSpace(s.user.id[k]);
      }
    }
    DigitsAreDots(id);
    VoicemailLineReadsAsText(env.time, s.user.id, id, env.seconds);
    AppendedMessageReadBack(HistoryOf(s.disk, c), env.time, s.user.id, text);
  }

  // ---------------------------------------------------------------- the flag switch

  /** The flags messageProcessing's switch handles itself; every other value falls to its default. */
  predicate Handled(flag: Option<Flag>)
  {
    match flag
    case Some(LOGIN_SIGN_UP) => true
    case Some(LOGIN_LOG_IN) => true
    case Some(PASSWORD_SIGN_UP) => true
    case Some(PASSWORD_LOG_IN) => true
    case Some(CHANNEL) => true
    case Some(NICK) => true
    case Some(CHECK_ID) => true
    case Some(ID) => true
    case _ => false
  }

  /** checkLogin with its reply: "Login correct" with CHECK_LOGIN, or silence. */
  function LoginStep(s: State, login: string, mode: int): State
  {
    if LoginAccepted(Users(s.disk.users), login, mode) then
      Reply(s.(user := s.user.(login := login)), Codec.TextFrame("Login correct", CHECK_LOGIN))
    else s
  }

  /**
   * NICK: a free nickname is taken; when nickname, login and password are all
   * set the user is registered under a fresh uuid and, with a current channel,
   * user.id (not the new uuid) is added to its members; then both
   * "Nickname correct" and "Registered successfully" are sent.
   */
  function NickStep(s: State, nickname: string, env: Env, ctx: Ctx): State
  {
    if !NicknameFree(Users(s.disk.users), nickname) then s
    else
      var u := s.user.(nickname := nickname);
      var registers := u.nickname != "" && u.login != "" && u.password != "";
      var d1 := if registers then s.disk.(users := s.disk.users + UserLine(User(env.uuid, u.nickname, IntToString(ctx.socket), u.login, u.password, false)) + "\n")
                else s.disk;
      var d2 := if registers && s.channel != "" then d1.(members := d1.members[s.channel := MembersOf(d1, s.channel) + u.id + "\n"])
                else d1;
      s.(user := u, disk := d2,
         sent := s.sent + [Codec.TextFrame("Nickname correct", CHECK_NICKNAME), Codec.TextFrame("Registered successfully", REGISTERED)])
  }

  /** ID: idReceived is set whatever the text; only the user's own id earns the nickname with ID_CORRECT. */
  function IdStep(s: State, text: string): State
  {
    var t := s.(idReceived := true);
    if text == s.user.id then
      var nick := NicknameOfId(Users(s.disk.users), s.user.id);
      Reply(t.(user := s.user.(nickname := nick)), Codec.TextFrame(nick, ID_CORRECT))
    else t
  }

  /** PASSWORD_SIGN_UP: checkPasswordServer keeps the hash of the salted password and always accepts it. */
  function PasswordSignUpStep(s: State, password: string, ctx: Ctx): State
  {
    Reply(s.(user := s.user.(password := ctx.digest(password + SALT))), Codec.TextFrame("Password correct", CHECK_PASSWORD))
  }

  /** CHECK_ID: userId looks the session's login up; the answer, "" for an unknown login, becomes user.id and is sent with ID. */
  function IdRequestStep(s: State): State
  {
    var id := IdOfLogin(Users(s.disk.users), s.user.login);
    Reply(s.(user := s.user.(id := id)), Codec.TextFrame(id, ID))
  }

  /** PASSWORD_LOG_IN: AUTHORIZED with the nickname when checkPasswordAthorization accepts the salted hash. */
  function PasswordStep(s: State, password: string, ctx: Ctx): State
  {
    if PasswordMatches(Users(s.disk.users), s.user.login, ctx.digest(password + SALT))
    then Reply(s, Codec.TextFrame(s.user.nickname, AUTHORIZED)) else s
  }

  /** CHANNEL: channelMessage appends the channel to the list unless the cached set has it. */
  function ChannelStep(s: State, c: string): State
  {
    s.(channel := c, disk := if c in s.channels then s.disk else s.disk.(channels := s.disk.channels + c + "\n"))
  }

  /** A frame of any type other than AUDIO, VOICE and FILE_TYPE, by its flag. */
  function FlagStep(s: State, flag: Option<Flag>, text: string, env: Env, ctx: Ctx): (r: (State, Go))
    ensures r.0.buffers == s.buffers && r.0.sockets == s.sockets && r.0.voice == s.voice && r.0.nextId == s.nextId
  {
    match flag
    case Some(LOGIN_SIGN_UP) => (LoginStep(s, text, 0), Continue)
    case Some(LOGIN_LOG_IN) => (LoginStep(s, text, 1), Continue)
    case Some(PASSWORD_SIGN_UP) => (PasswordSignUpStep(s, text, ctx), Continue)
    case Some(PASSWORD_LOG_IN) => (PasswordStep(s, text, ctx), Continue)
    case Some(CHANNEL) => (ChannelStep(s, text), Continue)
    case Some(NICK) => (NickStep(s, text, env, ctx), Continue)
    case Some(CHECK_ID) => (IdRequestStep(s), Continue)
    case Some(ID) => (IdStep(s, text), Continue)
    case _ => if s.idReceived then CommandStep(s, Words(text), env) else (s, Continue)
  }

  /** The VOICE round; a malformed body returns from messageProcessing. */
  function VoiceStep(s: State, body: seq<Byte>, ctx: Ctx): (r: (State, Go))
  {
    var round := Voice.RoundOf(s.buffers, s.sockets, s.disk, ctx.socket, EmptyPacket, body, ctx.decode);
    match round.outcome
    case Malformed => (s, Returned)
    case Round(_, sends, _) => (s.(buffers := round.buffers, sockets := round.sockets, voice := s.voice + sends), Continue)
  }

  /** One received frame, dispatched on its type and then on its flag. */
  function Step(s: State, f: Frame, env: Env, ctx: Ctx): (r: (State, Go))
  {
    if f.header.typ == TypeCode(AUDIO) then (AudioStep(s, f.body, env), Continue)
    else if f.header.typ == TypeCode(VOICE) then VoiceStep(s, f.body, ctx)
    else if f.header.typ == TypeCode(FILE_TYPE) then (FileStep(s, f.body, env, ctx), Continue)
    else FlagStep(s, FlagOfCode(f.header.flag), Codec.MessageToString(f), env, ctx)
  }

  /**
   * messageProcessing's loop around any handling of one frame: frames until
   * the stream ends (receiveMessage fails and the socket is closed) or a
   * frame does not continue it.
   */
  function Loop(step: (State, Input) -> (State, Go), s: State, inputs: seq<Input>): (r: (State, Go))
    ensures r.1 != Continue
    decreases |inputs|
  {
    if inputs == [] then (s, Ended)
    else
      var (t, go) := step(s, inputs[0]);
      if go == Continue then Loop(step, t, inputs[1..]) else (t, go)
  }

  /** The handling of one frame by a connection with the given context. */
  function Handler(ctx: Ctx): (State, Input) -> (State, Go)
  {
    (s: State, i: Input) => Step(s, i.frame, i.env, ctx)
  }

  /** messageProcessing's loop over the frames and their environments. */
  function Run(s: State, inputs: seq<Input>, ctx: Ctx): (State, Go)
  {
    Loop(Handler(ctx), s, inputs)
  }

  // ---------------------------------------------------------------- properties of the session

  /** A frame the switch leaves to its default branch: neither AUDIO, VOICE nor FILE_TYPE, and an unhandled flag. */
  predicate Unhandled(f: Frame)
  {
    f.header.typ != TypeCode(AUDIO) && f.header.typ != TypeCode(VOICE) && f.header.typ != TypeCode(FILE_TYPE)
    && !Handled(FlagOfCode(f.header.flag))
  }

  /** Such a frame reaches commandProcessing when idReceived is set, and is dropped without effect before. */
  lemma CommandsNeedId(s: State, f: Frame, env: Env, ctx: Ctx)
    requires Unhandled(f)
    ensures Step(s, f, env, ctx) == if s.idReceived then CommandStep(s, Words(Codec.MessageToString(f)), env) else (s, Continue)
  {
  }

  /** Until an ID frame arrives, a stream of such frames changes nothing and sends nothing. */
  lemma {:induction false} NothingBeforeId(s: State, inputs: seq<Input>, ctx: Ctx)
    requires !s.idReceived
    requires forall k :: 0 <= k < |inputs| ==> Unhandled(inputs[k].frame)
    ensures Run(s, inputs, ctx) == (s, Ended)
    decreases |inputs|
  {
    if inputs != [] {
      CommandsNeedId(s, inputs[0].frame, inputs[0].env, ctx);
      assert forall k :: 0 <= k < |inputs[1..]| ==> Unhandled(inputs[1..][k].frame) by {
        forall k | 0 <= k < |inputs[1..]|
          ensures Unhandled(inputs[1..][k].frame)
        {
          assert inputs[1..][k] == inputs[k + 1];
        }
      }
      NothingBeforeId(s, inputs[1..], ctx);
    }
  }

  /** A TEXT frame goes to the flag switch, its body read as text. */
  lemma TextFrameStep(s: State, f: Frame, env: Env, ctx: Ctx)
    requires f.header.typ == TypeCode(TEXT)
    ensures Step(s, f, env, ctx) == FlagStep(s, FlagOfCode(f.header.flag), Codec.MessageToString(f), env, ctx)
  {
  }

  /**
   * ID sets idReceived even when the echoed id is not the user's; then
   * nothing else changes, and with the right id the stored nickname is sent
   * back with ID_CORRECT.
   */
  lemma IdFrameOpensCommands(s: State, text: string)
    ensures var r := IdStep(s, text);
      && r.idReceived
      && (text != s.user.id ==> r == s.(idReceived := true))
      && (text == s.user.id ==>
            && r.sent == s.sent + [Codec.TextFrame(NicknameOfId(Users(s.disk.users), s.user.id), ID_CORRECT)]
            && r.user.nickname == NicknameOfId(Users(s.disk.users), s.user.id))
  {
  }

  /**
   * LOGIN_SIGN_UP (mode 0) and LOGIN_LOG_IN (mode 1): the login is taken and
   * "Login correct" sent exactly when the mode's condition on the users file
   * holds; otherwise nothing happens.
   */
  lemma LoginFrames(s: State, login: string, mode: int)
    requires mode == 0 || mode == 1
    ensures var users := Users(s.disk.users);
      var ok := if mode == 0 then forall k :: 0 <= k < |users| ==> users[k].login != login
                else exists k :: 0 <= k < |users| && users[k].login == login;
      var r := LoginStep(s, login, mode);
      && (ok ==> r == s.(user := s.user.(login := login), sent := s.sent + [Codec.TextFrame("Login correct", CHECK_LOGIN)]))
      && (!ok ==> r == s)
  {
  }

  /**
   * PASSWORD_LOG_IN answers AUTHORIZED with the nickname exactly when the
   * first user with the session's login stores the hash of the salted
   * password; the state is otherwise untouched.
   */
  lemma PasswordLogIn(s: State, password: string, ctx: Ctx)
    ensures var users := Users(s.disk.users);
      var hashed := ctx.digest(password + SALT);
      var accepted := exists k :: 0 <= k < |users| && users[k].login == s.user.login && users[k].password == hashed
                                  && forall j :: 0 <= j < k ==> users[j].login != s.user.login;
      var r := PasswordStep(s, password, ctx);
      && (accepted ==> r == s.(sent := s.sent + [Codec.TextFrame(s.user.nickname, AUTHORIZED)]))
      && (!accepted ==> r == s)
  {
  }

  /** A nickname some user already has is refused in silence. */
  lemma TakenNicknameRefused(s: State, nick: string, env: Env, ctx: Ctx)
    requires exists k :: 0 <= k < |Users(s.disk.users)| && Users(s.disk.users)[k].nickname == nick
    ensures NickStep(s, nick, env, ctx) == s
  {
  }

  /**
   * A free nickname with login and password already set registers the user:
   * the users file reads back with one more user, under the fresh uuid, and
   * with a current channel its members file gains a line holding user.id,
   * which is whatever CHECK_ID last set, "" before it. Two replies follow.
   */
  lemma NickRegisters(s: State, nick: string, env: Env, ctx: Ctx)
    requires NicknameFree(Users(s.disk.users), nick) && nick != "" && s.user.login != "" && s.user.password != ""
    requires EndsLine(s.disk.users)
    requires var u := User(env.uuid, nick, IntToString(ctx.socket), s.user.login, s.user.password, false);
      Storable(u) && '\n' !in UserLine(u)
    ensures var r := NickStep(s, nick, env, ctx);
      && r.user == s.user.(nickname := nick)
      && Users(r.disk.users) == Users(s.disk.users) + [User(env.uuid, nick, IntToString(ctx.socket), s.user.login, s.user.password, false)]
      && (s.channel != "" ==> MembersOf(r.disk, s.channel) == MembersOf(s.disk, s.channel) + s.user.id + "\n")
      && (s.channel == "" ==> r.disk.members == s.disk.members)
      && r.sent == s.sent + [Codec.TextFrame("Nickname correct", CHECK_NICKNAME), Codec.TextFrame("Registered successfully", REGISTERED)]
  {
    UsersAfterAddUser(s.disk.users, User(env.uuid, nick, IntToString(ctx.socket), s.user.login, s.user.password, false));
  }

  /**
   * CHANNEL: the text becomes the current channel and, unless the cached set
   * has it, the channel list file reads back with it as one more line.
   */
  lemma ChannelFrame(s: State, c: string)
    requires EndsLine(s.disk.channels) && '\n' !in c
    ensures var r := ChannelStep(s, c);
      && r.channel == c
      && (c in s.channels ==> r.disk == s.disk)
      && (c !in s.channels ==> Lines(r.disk.channels) == Lines(s.disk.channels) + [c])
      && r.sent == s.sent && r.user == s.user
  {
    LinesOfAppendedLine(s.disk.channels, c);
  }

  /** A VOICE body that does not parse ends messageProcessing, leaving everything as it was. */
  lemma MalformedVoiceReturns(s: State, f: Frame, env: Env, ctx: Ctx)
    requires f.header.typ == TypeCode(VOICE) && Parsers.BoundedVoiceFieldsOf(f.body).None?
    ensures Step(s, f, env, ctx) == (s, Returned)
  {
  }

  /** The loop stops at the first frame that does not continue it; the frames after it are never looked at. */
  lemma {:induction false} LoopStopsAtFirstStop(step: (State, Input) -> (State, Go), s: State, inputs: seq<Input>, more: seq<Input>)
    requires Loop(step, s, inputs).1 != Ended
    ensures Loop(step, s, inputs + more) == Loop(step, s, inputs)
    decreases |inputs|
  {
    var (t, go) := step(s, inputs[0]);
    assert (inputs + more)[0] == inputs[0];
    if go == Continue {
      assert (inputs + more)[1..] == inputs[1..] + more;
      LoopStopsAtFirstStop(step, t, inputs[1..], more);
    }
  }

  /** checkLogin's loop: the logins of the users read from the file, one by one. */
  method CollectLogins(names: seq<User>) returns (loginSet: set<string>)
    ensures loginSet == Logins(names)
  {
    loginSet := {};
    var i := 0;
    while i < |names|
      invariant 0 <= i <= |names|
      invariant loginSet == Logins(names[..i])
    {
      assert names[..i + 1][..i] == names[..i];
      loginSet := loginSet + {names[i].login};
      i := i + 1;
    }
    assert names[..i] == names;
  }

  /** checkNickname's loop: the nicknames of the users read from the file. */
  method CollectNicknames(names: seq<User>) returns (nicknameSet: set<string>)
    ensures nicknameSet == Nicknames(names)
  {
    nicknameSet := {};
    var i := 0;
    while i < |names|
      invariant 0 <= i <= |names|
      invariant nicknameSet == Nicknames(names[..i])
    {
      assert names[..i + 1][..i] == names[..i];
      nicknameSet := nicknameSet + {names[i].nickname};
      i := i + 1;
    }
    assert names[..i] == names;
  }

  /** checkPasswordAthorization's loop: the first user with the login answers by its stored hash. */
  method FirstPasswordMatches(names: seq<User>, login: string, hashedPassword: string) returns (ok: bool)
    ensures ok == PasswordMatches(names, login, hashedPassword)
  {
    var i := 0;
    while i < |names|
      invariant 0 <= i <= |names|
      invariant i <= FirstWithLogin(names, login)
    {
      if names[i].login == login {
        return names[i].password == hashedPassword;
      }
      i := i + 1;
    }
    ok := false;
  }

  // ---------------------------------------------------------------- the connection, in place

  class Connection {
    const db: DataBase
    const jitter: Voice.Jitter
    const counter: IdCounter
    const ctx: Ctx
    var user: User
    /** messageProcessing's channel, passed by reference. */
    var channel: string
    var idReceived: bool
    /** The frames sendMessage puts on this client's socket. */
    var sent: seq<Frame>
    /** The frames broadcast_audio sends to other sockets. */
    var voice: seq<(int, Frame)>

    predicate Valid()
      reads jitter
    {
      jitter.Valid()
    }

    function Snapshot(): State
      requires Valid()
      reads this, db, jitter, counter
    {
      State(db.disk, db.channels, user, channel, idReceived, counter.next, jitter.clientBuffers, jitter.clientSockets, sent, voice)
    }

    constructor (db: DataBase, jitter: Voice.Jitter, counter: IdCounter, ctx: Ctx, user: User, channel: string)
      requires jitter.Valid()
      ensures this.db == db && this.jitter == jitter && this.counter == counter && this.ctx == ctx
      ensures this.user == user && this.channel == channel && !idReceived && sent == [] && voice == []
      ensures Valid()
    {
      this.db := db;
      this.jitter := jitter;
      this.counter := counter;
      this.ctx := ctx;
      this.user := user;
      this.channel := channel;
      idReceived := false;
      sent := [];
      voice := [];
    }

    /** messageProcessing: reload the users, then handle frames until the loop ends. */
    method MessageProcessing(inputs: seq<Input>) returns (go: Go)
      requires Valid()
      modifies this, db, jitter, counter
      ensures Valid()
      ensures (Snapshot(), go) == Run(old(Snapshot()), inputs, ctx)
    {
      db.names := AddFileNicknames(db.disk.users);
      var i := 0;
      while i < |inputs|
        invariant 0 <= i <= |inputs| && Valid()
        invariant Run(Snapshot(), inputs[i..], ctx) == Run(old(Snapshot()), inputs, ctx)
      {
        ghost var before := Snapshot();
        go := HandleFrame(inputs[i].frame, inputs[i].env);
        assert inputs[i..][0] == inputs[i] && inputs[i..][1..] == inputs[i + 1..];
        if go != Continue {
          return;
        }
        i := i + 1;
      }
      go := Ended;
    }

    /** One iteration of the loop, after the frame was received. */
    method HandleFrame(f: Frame, env: Env) returns (go: Go)
      requires Valid()
      modifies this, db, jitter, counter
      ensures Valid()
      ensures (Snapshot(), go) == Step(old(Snapshot()), f, env, ctx)
    {
      if f.header.typ == TypeCode(AUDIO) {
        ProcessAudioMessage(f.body, env);
        return Continue;
      }
      if f.header.typ == TypeCode(VOICE) {
        go := VoiceMessage(f.body);
        return;
      }
      if f.header.typ == TypeCode(FILE_TYPE) {
        ProccessFileMessage(f.body, env);
        return Continue;
      }
      go := FlagMessage(FlagOfCode(f.header.flag), Codec.MessageToString(f), env);
    }

    /** The VOICE branch. */
    method VoiceMessage(body: seq<Byte>) returns (go: Go)
      requires Valid()
      modifies this, db, jitter
      ensures Valid()
      ensures (Snapshot(), go) == VoiceStep(old(Snapshot()), body, ctx)
    {
      var outcome := jitter.VoiceRound(db, ctx.socket, EmptyPacket, body, ctx.decode);
      if outcome.Malformed? {
        return Returned;
      }
      voice := voice + outcome.sends;
      go := Continue;
    }

    /** processAudioMessage */
    method ProcessAudioMessage(body: seq<Byte>, env: Env)
      requires Valid()
      modifies db, counter
      ensures Snapshot() == AudioStep(old(Snapshot()), body, env)
    {
      var fields := Parsers.ProcessAudioBody(body);
      if fields.None? {
        return;
      }
      var id := counter.Generate();
      if !env.saved {
        return;
      }
      db.channelHistory := db.ChannelsHistoryFile(fields.value.channel);
      db.AddAudioMessageToChannelHistory(user.id, fields.value.channel, IntToString(id), env.seconds, env.time);
    }

    /** proccessFileMessage */
    method ProccessFileMessage(body: seq<Byte>, env: Env)
      requires Valid()
      modifies db, counter
      ensures Snapshot() == FileStep(old(Snapshot()), body, env, ctx)
    {
      var fields := Parsers.ProccessFileBody(body);
      if fields.None? {
        return;
      }
      var id := counter.Generate();
      if !env.saved {
        return;
      }
      db.channelHistory := db.ChannelsHistoryFile(fields.value.channel);
      db.AddFileMessageToChannelHistory(user.id, fields.value.channel, IntToString(id), fields.value.fileName,
                                        ctx.formatSize(fields.value.fileSize), env.time);
    }

    /** The switch on the flag. */
    method FlagMessage(flag: Option<Flag>, text: string, env: Env) returns (go: Go)
      requires Valid()
      modifies this, db
      ensures Valid()
      ensures (Snapshot(), go) == FlagStep(old(Snapshot()), flag, text, env, ctx)
    {
      go := Continue;
      match flag
      case Some(LOGIN_SIGN_UP) => LoginMessage(text, 0);
      case Some(LOGIN_LOG_IN) => LoginMessage(text, 1);
      case Some(PASSWORD_SIGN_UP) => PasswordSignUpMessage(text);
      case Some(PASSWORD_LOG_IN) => PasswordLogInMessage(text);
      case Some(CHANNEL) => channel := db.ChannelMessage(text);
      case Some(NICK) => NickMessage(text, env);
      case Some(CHECK_ID) => IdRequestMessage();
      case Some(ID) => IdReceivedMessage(text);
      case _ =>
        if idReceived {
          go := CommandProcessing(text, env);
        }
    }

    /** LOGIN_SIGN_UP and LOGIN_LOG_IN. */
    method LoginMessage(login: string, mode: int)
      requires Valid()
      modifies this, db
      ensures Snapshot() == LoginStep(old(Snapshot()), login, mode)
    {
      var ok := CheckLogin(login, mode);
      if ok {
        sent := sent + [Codec.TextFrame("Login correct", CHECK_LOGIN)];
      }
    }

    /** PASSWORD_SIGN_UP. */
    method PasswordSignUpMessage(password: string)
      requires Valid()
      modifies this
      ensures Snapshot() == PasswordSignUpStep(old(Snapshot()), password, ctx)
    {
      var ok := CheckPasswordServer(password);
      if ok {
        sent := sent + [Codec.TextFrame("Password correct", CHECK_PASSWORD)];
      }
    }

    /** PASSWORD_LOG_IN. */
    method PasswordLogInMessage(password: string)
      requires Valid()
      modifies this, db
      ensures Snapshot() == PasswordStep(old(Snapshot()), password, ctx)
    {
      var ok := CheckPasswordAuthorization(user.login, password);
      if ok {
        sent := sent + [Codec.TextFrame(user.nickname, AUTHORIZED)];
      }
    }

    /** CHECK_ID. */
    method IdRequestMessage()
      requires Valid()
      modifies this, db
      ensures Snapshot() == IdRequestStep(old(Snapshot()))
    {
      var id := db.UserId(user.login);
      user := user.(id := id);
      sent := sent + [Codec.TextFrame(id, ID)];
    }

    /** ID. */
    method IdReceivedMessage(text: string)
      requires Valid()
      modifies this, db
      ensures Snapshot() == IdStep(old(Snapshot()), text)
    {
      var received, ok := IdMessage(text, user.id);
      idReceived := received;
      if ok {
        var nickname := db.UserNickById(user.id);
        user := user.(nickname := nickname);
        sent := sent + [Codec.TextFrame(nickname, ID_CORRECT)];
      }
    }

    /** checkLogin: reload the users, collect their logins, decide, and on success take the login. */
    method CheckLogin(login: string, mode: int) returns (ok: bool)
      modifies this, db
      ensures ok == LoginAccepted(Users(old(db.disk).users), login, mode)
      ensures user == if ok then old(user).(login := login) else old(user)
      ensures db.disk == old(db.disk) && db.channels == old(db.channels)
      ensures channel == old(channel) && idReceived == old(idReceived) && sent == old(sent) && voice == old(voice)
    {
      db.names := AddFileNicknames(db.disk.users);
      var loginSet := CollectLogins(db.names);
      if login in loginSet {
        if mode == 0 {
          return false;
        }
      } else if mode == 1 {
        return false;
      }
      user := user.(login := login);
      ok := true;
    }

    /** checkPasswordServer: the user's password becomes the hash of the salted password. */
    method CheckPasswordServer(password: string) returns (ok: bool)
      modifies this
      ensures ok && user == old(user).(password := ctx.digest(password + SALT))
      ensures channel == old(channel) && idReceived == old(idReceived) && sent == old(sent) && voice == old(voice)
    {
      var hashedPassword := ctx.digest(password + SALT);
      user := user.(password := hashedPassword);
      ok := true;
    }

    /** checkPasswordAthorization: reload the users; the first with the login decides. */
    method CheckPasswordAuthorization(login: string, password: string) returns (ok: bool)
      modifies db
      ensures ok == PasswordMatches(Users(old(db.disk).users), login, ctx.digest(password + SALT))
      ensures db.disk == old(db.disk) && db.channels == old(db.channels)
    {
      var hashedPassword := ctx.digest(password + SALT);
      db.names := AddFileNicknames(db.disk.users);
      ok := FirstPasswordMatches(db.names, login, hashedPassword);
    }

    /** checkNickname: reload the users, collect their nicknames, and take a free one. */
    method CheckNickname(nickname: string) returns (ok: bool)
      modifies this, db
      ensures ok == NicknameFree(Users(old(db.disk).users), nickname)
      ensures user == if ok then old(user).(nickname := nickname) else old(user)
      ensures db.disk == old(db.disk) && db.channels == old(db.channels)
      ensures channel == old(channel) && idReceived == old(idReceived) && sent == old(sent) && voice == old(voice)
    {
      db.names := AddFileNicknames(db.disk.users);
      var nicknameSet := CollectNicknames(db.names);
      if NicknameInSet(nickname, nicknameSet) {
        return false;
      }
      user := user.(nickname := nickname);
      ok := true;
    }

    /** The NICK case, registrationOnServer included. */
    method NickMessage(nickname: string, env: Env)
      requires Valid()
      modifies this, db
      ensures Snapshot() == NickStep(old(Snapshot()), nickname, env, ctx)
    {
      var ok := CheckNickname(nickname);
      if !ok {
        return;
      }
      if user.nickname != "" && user.login != "" && user.password != "" {
        db.AddUser(env.uuid, user.nickname, ctx.socket, user.login, user.password);
        if channel != "" {
          db.AddChannelMember(user.id, channel);
        }
      }
      sent := sent + [Codec.TextFrame("Nickname correct", CHECK_NICKNAME), Codec.TextFrame("Registered successfully", REGISTERED)];
    }

    /** commandProcessing */
    method CommandProcessing(text: string, env: Env) returns (go: Go)
      requires Valid()
      modifies this, db
      ensures Valid()
      ensures (Snapshot(), go) == CommandStep(old(Snapshot()), Words(text), env)
    {
      var words := Words(text);
      if words == [] {
        return Undefined;
      }
      go := Continue;
      if DatabaseCommand(words[0]) {
        DatabaseCommandMessage(words, env);
      } else if words[0] == "/connect" {
        go := Closed;
      } else if words[0] == "/channels" {
        var answer := db.ListOfChannelsOnServer(Voice.MemberOrder(db.disk.channels));
        sent := sent + [Codec.TextFrame(answer, COMMAND)];
      } else if words[0] == "/time_on" {
        user := user.(timeFlag := true);
        sent := sent + [Codec.TextFrame("Time on", TIME_ON)];
      } else if words[0] == "/time_off" {
        user := user.(timeFlag := false);
        sent := sent + [Codec.TextFrame("Time off", COMMAND)];
      } else if words[0] == "/voicemail_on" {
        if |words| < 2 {
          return Undefined;
        }
        var reply := AudioFileMessage(words[1], env.voicemail);
        sent := sent + [reply];
      } else {
        sent := sent + [Codec.TextFrame("Wrong command", COMMAND)];
      }
    }

    /** The database commands of commandProcessing, through their handlers. */
    method DatabaseCommandMessage(words: seq<string>, env: Env)
      requires Valid() && words != [] && DatabaseCommand(words[0])
      modifies this, db
      ensures Snapshot() == DatabaseCommandStep(old(Snapshot()), words, env)
    {
      var answer: string;
      if words[0] == "/read" {
        answer := Commands.HandleRead(words, db, user);
        sent := sent + [Codec.TextFrame(answer, COMMAND)];
      } else if words[0] == "/send" {
        answer := Commands.HandleSend(words, db, user, env.time);
        sent := sent + [Codec.TextFrame(answer, COMMAND)];
      } else if words[0] == "/join" {
        answer := Commands.HandleJoin(words, db, user);
        var flag := if answer == "Channel does not exist" then NO_CHANNEL else COMMAND;
        sent := sent + [Codec.TextFrame(answer, flag)];
      } else if words[0] == "/exit" {
        answer := Commands.HandleExit(words, db, user);
        sent := sent + [Codec.TextFrame(answer, COMMAND)];
      } else {
        answer := Commands.HandleNick(words, db, user);
        sent := sent + [Codec.TextFrame(answer, CHANGE_NICK)];
      }
    }

    /** sendAudiofiletoClient: a fresh message, flagged as an error or filled by setAudioMessage, is what gets sent either way. */
    method AudioFileMessage(audioId: string, file: WavFile) returns (reply: Frame)
      ensures reply == VoicemailFrame(audioId, file)
    {
      var msg := new Socket.Message();
      var audioFilePath := "channels/audio/" + audioId + ".wav";
      if file.Absent? {
        reply := Socket.FlagOn(msg, FlagCode(AUDIOFILE_ERROR));
        return;
      }
      var status := msg.SetAudioReply(audioFilePath, if file.Present? then Some(file.data) else None);
      reply := msg.Value();
    }
  }
}

/**
 * The command handlers join, exit, send, read and nick. Each handler is a
 * function of the token list, the files and the user that gives the reply
 * and the files afterwards, plus the handler itself, which works on a
 * DataBase object as the source does: it refreshes the cached channel and
 * member sets, decides on them, then calls the store.
 */
module Commands {
  import opened Text
  import opened HistoryLog
  import opened Store

  const JOIN_USAGE := "Error command, use: join <channel>"
  const EXIT_USAGE := "Error command, usage: exit <channel>"
  const SEND_USAGE := "Error command, use: send <channel> <message>"
  const READ_USAGE := "Error command, use: read <channel>"
  const NICK_USAGE := "Error command, usage: /nick <new_nickname>"
  const NO_ACCESS := "You don't have access to this channel, use join <channel> for adding"
  const NOT_FOUND_SEE_CHANNELS := "Channel not found, use /channels to see available channels"

  // ---------------------------------------------------------------- join

  function Join(tokens: seq<string>, d: Disk, id: string): (string, Disk)
  {
    if |tokens| != 2 then (JOIN_USAGE, d)
    else
      var channel := tokens[1];
      if channel !in TokenSet(d.channels) then ("Channel does not exist", d)
      else if id in TokenSet(MembersOf(d, channel)) then ("You already on this channel", d)
      else ("You have joined the channel", d.(members := d.members[channel := MembersOf(d, channel) + id + "\n"]))
  }

  /** A wrong token count, a missing channel and a repeated join leave the files alone. */
  lemma JoinWithoutChange(tokens: seq<string>, d: Disk, id: string)
    ensures |tokens| != 2 ==> Join(tokens, d, id) == (JOIN_USAGE, d)
    ensures |tokens| == 2 && tokens[1] !in TokenSet(d.channels) ==> Join(tokens, d, id) == ("Channel does not exist", d)
    ensures Join(tokens, d, id).0 != "You have joined the channel" <==> Join(tokens, d, id).1 == d
  {
    if |tokens| == 2 && tokens[1] in TokenSet(d.channels) && id !in TokenSet(MembersOf(d, tokens[1])) {
      var c := tokens[1];
      var d1 := Join(tokens, d, id).1;
      assert c in d1.members;
      assert |MembersOf(d1, c)| > |MembersOf(d, c)|;
    }
  }

  /** Appending "id\n" to a text that ends with a line makes id one of its tokens. */
  lemma TokenAfterAppend(c: string, id: string)
    requires EndsLine(c) && IsWord(id)
    ensures TokenSet(c + id + "\n") == TokenSet(c) + {id}
  {
    assert c + id + "\n" == c + (id + "\n");
    WordsAppend(c, id + "\n");
    WordsOfWordThen(id, "\n");
    assert Words("\n") == [] by {
      assert IsSpace("\n"[0]);
      assert "\n"[1..] == [];
    }
  }

  /**
   * A successful join adds exactly the user to the channel's members; the
   * second join of the same user is refused and adds nothing, so a member
   * is never listed twice.
   */
  lemma JoinTwice(tokens: seq<string>, d: Disk, id: string)
    requires |tokens| == 2 && tokens[1] in TokenSet(d.channels) && id !in TokenSet(MembersOf(d, tokens[1]))
    requires EndsLine(MembersOf(d, tokens[1])) && IsWord(id)
    ensures var (reply, d1) := Join(tokens, d, id);
      reply == "You have joined the channel" &&
      TokenSet(MembersOf(d1, tokens[1])) == TokenSet(MembersOf(d, tokens[1])) + {id} &&
      Join(tokens, d1, id) == ("You already on this channel", d1)
  {
    var c := tokens[1];
    var d1 := Join(tokens, d, id).1;
    assert MembersOf(d1, c) == MembersOf(d, c) + id + "\n";
    TokenAfterAppend(MembersOf(d, c), id);
  }

  /**
   * The empty id, which a session holds after an ID frame and before any log-in
   * or for an unknown login, is never one of the members file's tokens: every
   * join of an existing channel answers as a first join does and appends one
   * more empty line.
   */
  lemma JoinEmptyIdRepeats(tokens: seq<string>, d: Disk)
    requires |tokens| == 2 && tokens[1] in TokenSet(d.channels)
    ensures var (reply, d1) := Join(tokens, d, "");
      reply == "You have joined the channel"
      && MembersOf(d1, tokens[1]) == MembersOf(d, tokens[1]) + "\n"
      && d1.channels == d.channels
      && Join(tokens, d1, "").0 == "You have joined the channel"
      && MembersOf(Join(tokens, d1, "").1, tokens[1]) == MembersOf(d, tokens[1]) + "\n" + "\n"
  {
    var c := tokens[1];
    var d1 := Join(tokens, d, "").1;
    assert "" !in Words(MembersOf(d, c));
    assert MembersOf(d1, c) == MembersOf(d, c) + "\n";
    assert "" !in Words(MembersOf(d1, c));
  }

  /** join: refresh database_channels and database_channels_members, then decide on them. */
  method HandleJoin(tokens: seq<string>, db: DataBase, user: User) returns (reply: string)
    modifies db
    ensures (reply, db.disk) == Join(tokens, old(db.disk), user.id)
    ensures |tokens| == 2 ==> db.channels == TokenSet(old(db.disk).channels) && db.channelMembers == TokenSet(MembersOf(old(db.disk), tokens[1]))
    ensures |tokens| != 2 ==> db.channels == old(db.channels) && db.channelMembers == old(db.channelMembers)
    ensures db.names == old(db.names) && db.channelHistory == old(db.channelHistory)
  {
    if |tokens| != 2 {
      return JOIN_USAGE;
    }
    var channel := tokens[1];
    db.channels := AddFile(db.disk.channels);
    db.channelMembers := AddFile(MembersOf(db.disk, channel));
    if db.ChannelExists(channel) {
      if db.MemberInChannel(user.id) {
        return "You already on this channel";
      }
      db.AddChannelMember(user.id, channel);
      return "You have joined the channel";
    }
    return "Channel does not exist";
  }

  // ---------------------------------------------------------------- exit

  /** deleteChannelMember on the files. */
  function DeleteMember(d: Disk, id: string, channel: string): Disk
  {
    if channel in d.members then d.(members := d.members[channel := WithoutLine(d.members[channel], id)]) else d
  }

  function Exit(tokens: seq<string>, d: Disk, id: string): (string, Disk)
  {
    if |tokens| != 2 then (EXIT_USAGE, d)
    else
      var channel := tokens[1];
      if channel !in TokenSet(d.channels) then ("Channel not found", d)
      else if id !in TokenSet(MembersOf(d, channel)) then ("You are not in this channel", d)
      else ("You have left the channel", DeleteMember(d, id, channel))
  }

  /**
   * A successful exit from a members file of token lines removes the user
   * and nobody else; an exit that is refused changes nothing.
   */
  lemma ExitRemovesMember(tokens: seq<string>, d: Disk, id: string, ls: seq<string>)
    requires |tokens| == 2 && MembersOf(d, tokens[1]) == Unlines(ls) && TokenLines(ls)
    ensures var (reply, d1) := Exit(tokens, d, id);
      (reply == "You have left the channel" ==>
        id !in TokenSet(MembersOf(d1, tokens[1])) &&
        TokenSet(MembersOf(d1, tokens[1])) == TokenSet(MembersOf(d, tokens[1])) - {id} &&
        d1.users == d.users && d1.channels == d.channels && d1.history == d.history) &&
      (reply != "You have left the channel" ==> d1 == d)
  {
    var c := tokens[1];
    assert Words("") == [];
    if c in TokenSet(d.channels) && id in TokenSet(MembersOf(d, c)) {
      MembersAfterDelete(ls, id);
    }
  }

  /** exit: refresh the caches, then remove the member when the channel exists and holds the user. */
  method HandleExit(tokens: seq<string>, db: DataBase, user: User) returns (reply: string)
    modifies db
    ensures (reply, db.disk) == Exit(tokens, old(db.disk), user.id)
    ensures |tokens| == 2 ==> db.channels == TokenSet(old(db.disk).channels) && db.channelMembers == TokenSet(MembersOf(old(db.disk), tokens[1]))
    ensures |tokens| != 2 ==> db.channels == old(db.channels) && db.channelMembers == old(db.channelMembers)
    ensures db.names == old(db.names) && db.channelHistory == old(db.channelHistory)
  {
    if |tokens| != 2 {
      return EXIT_USAGE;
    }
    var channel := tokens[1];
    db.channels := AddFile(db.disk.channels);
    db.channelMembers := AddFile(MembersOf(db.disk, channel));
    if db.ChannelExists(channel) {
      if db.MemberInChannel(user.id) {
        db.DeleteChannelMember(user.id, channel);
        return "You have left the channel";
      }
      return "You are not in this channel";
    }
    return "Channel not found";
  }

  // ---------------------------------------------------------------- send

  /** The message of parseSendCommand: every token from the third on, each followed by one space. */
  function Spaced(ws: seq<string>): (r: string)
    ensures ws != [] ==> |r| > 0 && r[|r| - 1] == ' '
  {
    if ws == [] then "" else ws[0] + " " + Spaced(ws[1..])
  }

  /** The stored message tokenises back into the words that were sent. */
  lemma {:induction false} WordsOfSpaced(ws: seq<string>)
    requires forall k :: 0 <= k < |ws| ==> IsWord(ws[k])
    ensures Words(Spaced(ws)) == ws
    decreases |ws|
  {
    if ws != [] {
      var rest := Spaced(ws[1..]);
      assert ws[0] + " " + rest == ws[0] + (" " + rest);
      WordsOfWordThen(ws[0], " " + rest);
      assert forall k :: 0 <= k < 1 ==> IsSpace(" "[k]);
      WordsAfterSpaces(" ", rest);
      WordsOfSpaced(ws[1..]);
    }
  }

  /** parseSendCommand: the channel is the second token, the message is built token by token. */
  method ParseSendCommand(tokens: seq<string>) returns (channel: string, message: string)
    requires |tokens| >= 3
    ensures channel == tokens[1] && message == Spaced(tokens[2..])
  {
    channel := tokens[1];
    message := "";
    var i := 2;
    while i < |tokens|
      invariant 2 <= i <= |tokens|
      invariant message + Spaced(tokens[i..]) == Spaced(tokens[2..])
    {
      SpacedStep(tokens, i, message);
      message := message + tokens[i] + " ";
      i := i + 1;
    }
    assert tokens[i..] == [];
  }

  lemma SpacedStep(tokens: seq<string>, i: nat, message: string)
    requires i < |tokens|
    ensures message + Spaced(tokens[i..]) == (message + tokens[i] + " ") + Spaced(tokens[i + 1..])
  {
    assert tokens[i..][0] == tokens[i];
    assert tokens[i..][1..] == tokens[i + 1..];
    var rest := Spaced(tokens[i + 1..]);
    assert message + (tokens[i] + " " + rest) == message + tokens[i] + " " + rest;
  }

  /** send, with the wall-clock time of addMessageInChannel as a parameter. */
  function Send(tokens: seq<string>, d: Disk, id: string, time: string): (string, Disk)
  {
    if |tokens| < 3 then (SEND_USAGE, d)
    else
      var channel := tokens[1];
      if channel !in TokenSet(d.channels) then (NOT_FOUND_SEE_CHANNELS, d)
      else if id !in TokenSet(MembersOf(d, channel)) then (NO_ACCESS, d)
      else ("Message sent", d.(history := d.history[channel := HistoryOf(d, channel) + HistoryLine(time, id, Spaced(tokens[2..])) + "\n"]))
  }

  /**
   * A member's send adds exactly one entry, keyed by the sender's id, at the
   * end of the channel's history; every other file is unchanged.
   */
  lemma SendAppendsOneEntry(tokens: seq<string>, d: Disk, id: string, time: string)
    requires |tokens| >= 3 && tokens[1] in TokenSet(d.channels) && id in TokenSet(MembersOf(d, tokens[1]))
    requires forall k :: 0 <= k < |tokens| ==> IsWord(tokens[k])
    requires EndsLine(HistoryOf(d, tokens[1])) && AllDot(id) && ':' !in id
    requires |time| > 0 && AllDot(time) && ']' !in time
    ensures var (reply, d1) := Send(tokens, d, id, time);
      reply == "Message sent" &&
      Entries(Lines(HistoryOf(d1, tokens[1]))) == Entries(Lines(HistoryOf(d, tokens[1]))) + [TextEntry(time, id, Spaced(tokens[2..]))] &&
      d1.users == d.users && d1.channels == d.channels && d1.members == d.members
  {
    assert |id| > 0 by {
      assert Words("") == [];
    }
    SpacedIsDot(tokens[2..]);
    AppendedMessageReadBack(HistoryOf(d, tokens[1]), time, id, Spaced(tokens[2..]));
  }

  lemma {:induction false} SpacedIsDot(ws: seq<string>)
    requires forall k :: 0 <= k < |ws| ==> IsWord(ws[k])
    ensures AllDot(Spaced(ws))
    decreases |ws|
  {
    if ws != [] {
      assert AllDot(ws[0]) by {
        forall j | 0 <= j < |ws[0]| ensures IsDot(ws[0][j]) {
          assert !IsSpace(ws[0][j]);
        }
      }
      SpacedIsDot(ws[1..]);
      AllDotConcat(ws[0], " ");
      AllDotConcat(ws[0] + " ", Spaced(ws[1..]));
    }
  }

  /** A refused send leaves the files alone. */
  lemma SendRefusedWithoutChange(tokens: seq<string>, d: Disk, id: string, time: string)
    requires Send(tokens, d, id, time).0 != "Message sent"
    ensures Send(tokens, d, id, time).1 == d
  {
  }

  /** send: refresh the caches; for a member, reload database_channels_history, then append the line. */
  method HandleSend(tokens: seq<string>, db: DataBase, user: User, time: string) returns (reply: string)
    modifies db
    ensures (reply, db.disk) == Send(tokens, old(db.disk), user.id, time)
    ensures |tokens| >= 3 ==> db.channels == TokenSet(old(db.disk).channels) && db.channelMembers == TokenSet(MembersOf(old(db.disk), tokens[1]))
    ensures |tokens| < 3 ==> db.channels == old(db.channels) && db.channelMembers == old(db.channelMembers)
    ensures reply == "Message sent" ==> db.channelHistory == Entries(Lines(HistoryOf(old(db.disk), tokens[1])))
    ensures reply != "Message sent" ==> db.channelHistory == old(db.channelHistory)
    ensures db.names == old(db.names)
  {
    if |tokens| < 3 {
      return SEND_USAGE;
    }
    var channel, message := ParseSendCommand(tokens);
    db.channels := AddFile(db.disk.channels);
    db.channelMembers := AddFile(MembersOf(db.disk, channel));
    if db.ChannelExists(channel) {
      if db.MemberInChannel(user.id) {
        db.channelHistory := db.ChannelsHistoryFile(channel);
        db.AddMessageInChannel(user.id, channel, message, time);
        return "Message sent";
      }
      return NO_ACCESS;
    }
    return NOT_FOUND_SEE_CHANNELS;
  }

  // ---------------------------------------------------------------- read

  /** The sender's name shown by readCommandHistory: the stored nickname of the first user with that id, else the id. */
  function Nick(names: seq<User>, id: string): string
  {
    var k := FirstWithId(names, id);
    if k < |names| then names[k].nickname else id
  }

  function Body(e: History): string
  {
    if e.isAudio then "[Voicemail_ID: " + e.voicemailID + ", Duration: " + e.duration + "]"
    else if e.isFile then
      "[File_ID: " + e.fileID + ", Name: " + e.filename
      + (if e.extension != "" then ", Extension: " + e.extension else "")
      + ", Size: " + NatToString(e.fileSize) + " bytes]"
    else e.message
  }

  /** One rendered entry, without a separator. */
  function EntryText(e: History, names: seq<User>, timeFlag: bool): string
  {
    (if timeFlag then "[" + e.time + "] " else "") + Nick(names, e.id) + ": " + Body(e)
  }

  /** The separator written before an entry: a newline unless nothing was written yet. */
  function Sep(first: bool): string
  {
    if first then "" else "\n"
  }

  /** The rendered entries: those with a non-empty id, in history order. */
  function Shown(entries: seq<History>, names: seq<User>, timeFlag: bool): (r: seq<string>)
    ensures |r| <= |entries|
  {
    if entries == [] then []
    else if entries[0].id == "" then Shown(entries[1..], names, timeFlag)
    else [EntryText(entries[0], names, timeFlag)] + Shown(entries[1..], names, timeFlag)
  }

  /** Strings joined by single newlines, with none at the end. */
  function JoinLines(xs: seq<string>): string
  {
    if xs == [] then "" else if |xs| == 1 then xs[0] else xs[0] + "\n" + JoinLines(xs[1..])
  }

  /** What readCommandHistory returns: the shown entries joined by newlines. */
  function Render(entries: seq<History>, names: seq<User>, timeFlag: bool): string
  {
    JoinLines(Shown(entries, names, timeFlag))
  }

  lemma {:induction false} LinesOfJoinLines(xs: seq<string>)
    requires forall k :: 0 <= k < |xs| ==> xs[k] != "" && '\n' !in xs[k]
    ensures Lines(JoinLines(xs)) == xs
    decreases |xs|
  {
    if |xs| == 1 {
      NewlineIndexOf(xs[0], []);
      assert xs[0] + [] == xs[0];
    } else if |xs| > 1 {
      LinesOfLineThen(xs[0], JoinLines(xs[1..]));
      LinesOfJoinLines(xs[1..]);
    }
  }

  lemma {:induction false} JoinLinesLast(xs: seq<string>)
    requires xs != [] && xs[|xs| - 1] != ""
    ensures var j := JoinLines(xs); |j| > 0 && j[|j| - 1] == xs[|xs| - 1][|xs[|xs| - 1]| - 1]
    decreases |xs|
  {
    if |xs| > 1 {
      JoinLinesLast(xs[1..]);
    }
  }

  lemma EntryTextNotEmpty(e: History, names: seq<User>, timeFlag: bool)
    ensures |EntryText(e, names, timeFlag)| >= 2
  {
  }

  /**
   * The rendered history has one line per shown entry, in history order,
   * and no newline at the end.
   */
  lemma RenderedLines(entries: seq<History>, names: seq<User>, timeFlag: bool)
    requires forall k :: 0 <= k < |Shown(entries, names, timeFlag)| ==> '\n' !in Shown(entries, names, timeFlag)[k]
    ensures Lines(Render(entries, names, timeFlag)) == Shown(entries, names, timeFlag)
    ensures var r := Render(entries, names, timeFlag); r == "" || r[|r| - 1] != '\n'
  {
    var xs := Shown(entries, names, timeFlag);
    ShownNotEmpty(entries, names, timeFlag);
    LinesOfJoinLines(xs);
    if xs != [] {
      JoinLinesLast(xs);
      var last := xs[|xs| - 1];
      assert last[|last| - 1] in last;
    }
  }

  lemma {:induction false} ShownNotEmpty(entries: seq<History>, names: seq<User>, timeFlag: bool)
    ensures forall k :: 0 <= k < |Shown(entries, names, timeFlag)| ==> Shown(entries, names, timeFlag)[k] != ""
    decreases |entries|
  {
    if entries != [] {
      ShownNotEmpty(entries[1..], names, timeFlag);
      if entries[0].id != "" {
        EntryTextNotEmpty(entries[0], names, timeFlag);
        var t := EntryText(entries[0], names, timeFlag);
        var rest := Shown(entries[1..], names, timeFlag);
        assert forall k :: 1 <= k < |[t] + rest| ==> ([t] + rest)[k] == rest[k - 1];
      }
    }
  }

  /** An entry appended to the history is shown last, unless its id is empty. */
  lemma {:induction false} ShownAppend(entries: seq<History>, e: History, names: seq<User>, timeFlag: bool)
    ensures Shown(entries + [e], names, timeFlag) == Shown(entries, names, timeFlag) + (if e.id == "" then [] else [EntryText(e, names, timeFlag)])
    decreases |entries|
  {
    if entries == [] {
      assert entries + [e] == [e];
      assert [e][1..] == [];
    } else {
      assert (entries + [e])[0] == entries[0];
      assert (entries + [e])[1..] == entries[1..] + [e];
      ShownAppend(entries[1..], e, names, timeFlag);
    }
  }

  lemma {:induction false} JoinLinesAppend(xs: seq<string>, x: string)
    ensures JoinLines(xs + [x]) == if xs == [] then x else JoinLines(xs) + "\n" + x
    decreases |xs|
  {
    if xs == [] {
      assert xs + [x] == [x];
    } else if |xs| == 1 {
      assert (xs + [x])[1..] == [x];
    } else {
      assert (xs + [x])[0] == xs[0];
      assert (xs + [x])[1..] == xs[1..] + [x];
      JoinLinesAppend(xs[1..], x);
    }
  }

  /** read: the reply and, when the reader is a member, what readCommandHistory prints. */
  function Read(tokens: seq<string>, d: Disk, user: User): string
  {
    if |tokens| != 2 then READ_USAGE
    else
      var channel := tokens[1];
      if channel !in TokenSet(d.channels) then NOT_FOUND_SEE_CHANNELS
      else if user.id !in TokenSet(MembersOf(d, channel)) then NO_ACCESS
      else
        var entries := Entries(Lines(HistoryOf(d, channel)));
        if entries == [] then "Channel is empty"
        else Render(entries, Users(d.users), user.timeFlag)
  }

  /**
   * send followed by read: a member who reads after another member's send
   * sees what was shown before, then a newline, then the new message under
   * the sender's current nickname.
   */
  lemma ReadAfterSend(tokens: seq<string>, d: Disk, sender: string, time: string, reader: User)
    requires |tokens| >= 3 && tokens[1] in TokenSet(d.channels)
    requires sender in TokenSet(MembersOf(d, tokens[1])) && reader.id in TokenSet(MembersOf(d, tokens[1]))
    requires forall k :: 0 <= k < |tokens| ==> IsWord(tokens[k])
    requires EndsLine(HistoryOf(d, tokens[1])) && AllDot(sender) && ':' !in sender
    requires |time| > 0 && AllDot(time) && ']' !in time
    ensures var d1 := Send(tokens, d, sender, time).1;
      var names := Users(d.users);
      var before := Entries(Lines(HistoryOf(d, tokens[1])));
      var line := EntryText(TextEntry(time, sender, Spaced(tokens[2..])), names, reader.timeFlag);
      Read(tokens[..2], d1, reader) ==
        if Shown(before, names, reader.timeFlag) == [] then line
        else Render(before, names, reader.timeFlag) + "\n" + line
  {
    var c := tokens[1];
    var d1 := Send(tokens, d, sender, time).1;
    var names := Users(d.users);
    var before := Entries(Lines(HistoryOf(d, c)));
    var e := TextEntry(time, sender, Spaced(tokens[2..]));
    SendAppendsOneEntry(tokens, d, sender, time);
    assert Entries(Lines(HistoryOf(d1, c))) == before + [e];
    assert |sender| > 0 by {
      assert Words("") == [];
    }
    assert tokens[..2][1] == c;
    ShownAppend(before, e, names, reader.timeFlag);
    JoinLinesAppend(Shown(before, names, reader.timeFlag), EntryText(e, names, reader.timeFlag));
  }

  /** One entry written to readCommandHistory's stream, after a newline unless it is the first. */
  method WriteEntry(out: string, line: History, names: seq<User>, nickname: string, first: bool, timeFlag: bool) returns (written: string)
    requires nickname == Nick(names, line.id)
    ensures written == out + (Sep(first) + EntryText(line, names, timeFlag))
  {
    written := out;
    if !first {
      written := written + "\n";
    }
    if timeFlag {
      written := written + "[" + line.time + "] ";
    }
    written := written + nickname + ": ";
    written := written + Body(line);
  }

  /** The loop of readCommandHistory over the entries, with its `first` flag and output stream. */
  method RenderHistory(entries: seq<History>, names: seq<User>, timeFlag: bool) returns (out: string)
    ensures out == Render(entries, names, timeFlag)
  {
    out := "";
    var first := true;
    var i := 0;
    ghost var shown: seq<string> := [];
    while i < |entries|
      invariant 0 <= i <= |entries|
      invariant shown == Shown(entries[..i], names, timeFlag)
      invariant first <==> |shown| == 0
      invariant out == JoinLines(shown)
    {
      ShownStep(entries, i, names, timeFlag);
      var line := entries[i];
      if line.id != "" {
        ghost var text := EntryText(line, names, timeFlag);
        WrittenEntry(shown, text, first, out);
        var nickname := Nick(names, line.id);
        out := WriteEntry(out, line, names, nickname, first, timeFlag);
        shown := shown + [text];
        first := false;
      }
      i := i + 1;
    }
    assert entries[..i] == entries;
  }

  /** Writing the separator and the next entry extends the joined output by that entry. */
  lemma WrittenEntry(shown: seq<string>, text: string, first: bool, out: string)
    requires out == JoinLines(shown) && (first <==> |shown| == 0)
    ensures out + (Sep(first) + text) == JoinLines(shown + [text])
  {
    JoinLinesAppend(shown, text);
    if first {
      assert shown == [] && out == "" && Sep(first) == "";
    } else {
      assert Sep(first) == "\n";
    }
  }

  lemma ShownStep(entries: seq<History>, i: nat, names: seq<User>, timeFlag: bool)
    requires i < |entries|
    ensures Shown(entries[..i + 1], names, timeFlag) ==
      Shown(entries[..i], names, timeFlag) + (if entries[i].id == "" then [] else [EntryText(entries[i], names, timeFlag)])
  {
    assert entries[..i + 1] == entries[..i] + [entries[i]];
    ShownAppend(entries[..i], entries[i], names, timeFlag);
  }

  /** readCommandHistory: reload database_names, then render database_channels_history. */
  method ReadCommandHistory(db: DataBase, user: User) returns (out: string)
    modifies db
    ensures db.names == Users(db.disk.users)
    ensures out == Render(db.channelHistory, db.names, user.timeFlag)
    ensures db.disk == old(db.disk) && db.channels == old(db.channels) && db.channelMembers == old(db.channelMembers) && db.channelHistory == old(db.channelHistory)
  {
    db.names := AddFileNicknames(db.disk.users);
    out := RenderHistory(db.channelHistory, db.names, user.timeFlag);
  }

  /** read: refresh the caches; for a member, reload the history and the users, then render. */
  method HandleRead(tokens: seq<string>, db: DataBase, user: User) returns (reply: string)
    modifies db
    ensures reply == Read(tokens, old(db.disk), user)
    ensures db.disk == old(db.disk)
    ensures |tokens| == 2 ==> db.channels == TokenSet(old(db.disk).channels) && db.channelMembers == TokenSet(MembersOf(old(db.disk), tokens[1]))
    ensures |tokens| != 2 ==> db.channels == old(db.channels) && db.channelMembers == old(db.channelMembers)
  {
    if |tokens| != 2 {
      return READ_USAGE;
    }
    var channel := tokens[1];
    db.channels := AddFile(db.disk.channels);
    db.channelMembers := AddFile(MembersOf(db.disk, channel));
    if db.ChannelExists(channel) {
      if db.MemberInChannel(user.id) {
        db.channelHistory := db.ChannelsHistoryFile(channel);
        db.names := AddFileNicknames(db.disk.users);
        if db.channelHistory == [] {
          return "Channel is empty";
        }
        reply := ReadCommandHistory(db, user);
        return;
      }
      return NO_ACCESS;
    }
    return NOT_FOUND_SEE_CHANNELS;
  }

  // ---------------------------------------------------------------- nick

  function NickCommand(tokens: seq<string>, d: Disk, id: string): (string, Disk)
  {
    if |tokens| != 2 then (NICK_USAGE, d)
    else (tokens[1], d.(users := Renamed(d.users, id, tokens[1])))
  }

  /**
   * nick: the reply is the new nickname, and the users with the id now carry
   * it, whoever else already does: no uniqueness check is made.
   */
  lemma NickRenames(tokens: seq<string>, d: Disk, id: string)
    requires |tokens| == 2 && IsWord(tokens[1]) && ':' !in tokens[1]
    ensures var (reply, d1) := NickCommand(tokens, d, id);
      reply == tokens[1] &&
      Users(d1.users) == RenameUsers(Users(d.users), id, tokens[1]) &&
      d1.channels == d.channels && d1.members == d.members && d1.history == d.history
  {
    forall j | 0 <= j < |tokens[1]|
      ensures tokens[1][j] != '\n'
    {
      assert !IsSpace(tokens[1][j]);
    }
    UsersAfterRename(d.users, id, tokens[1]);
  }

  /**
   * nick with a ':' in the new nickname, on a users file holding the user's
   * line alone: the line reads back as a user whose login is the old socket
   * number, so a log-in under the old login finds no user.
   */
  lemma ColonNickShiftsUser(tokens: seq<string>, d: Disk, u: User, a: string, b: string)
    requires |tokens| == 2 && tokens[1] == a + ":" + b && ':' !in a && ':' !in b && '\n' !in a && '\n' !in b
    requires d.users == UserLine(u) + "\n" && Storable(u) && '\n' !in UserLine(u)
    ensures var (reply, d1) := NickCommand(tokens, d, u.id);
      Users(d1.users) == [User(u.id, a, b, u.socketNumber, u.login + ":" + u.password, false)]
      && (u.login != u.socketNumber ==> forall v :: v in Users(d1.users) ==> v.login != u.login)
  {
    var nick := a + ":" + b;
    RenamedSingle(u, nick);
    var w := UserLine(u.(nickname := nick));
    ColonNicknameShiftsFields(u, a, b);
    UsersOfSingle(w);
  }

  method HandleNick(tokens: seq<string>, db: DataBase, user: User) returns (reply: string)
    modifies db
    ensures (reply, db.disk) == NickCommand(tokens, old(db.disk), user.id)
    ensures db.names == old(db.names) && db.channels == old(db.channels) && db.channelMembers == old(db.channelMembers) && db.channelHistory == old(db.channelHistory)
  {
    if |tokens| != 2 {
      return NICK_USAGE;
    }
    var newNickname := tokens[1];
    db.ChangeNickname(user.id, newNickname);
    return newNickname;
  }
}

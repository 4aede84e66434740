/**
 * The listening test script: it replays a file of messages through a
 * client, asks the server for the channel history after every plain
 * message it sends inside a channel, and checks that the history shows the
 * message. The pipes, the sleeps and the process handling are replaced by
 * the responses the script reads, given as parameters.
 */
module Listen {
  import opened Text
  import opened HistoryLog
  import opened Store
  import Commands
  import Client

  // ---------------------------------------------------------------- verifyResponse

  /** The characters find_last_not_of(" \n\r\t") skips. */
  predicate IsTrim(c: char)
  {
    c == ' ' || c == '\n' || c == '\r' || c == '\t'
  }

  /**
   * erase(find_last_not_of(" \n\r\t") + 1): the text without its trailing
   * trim characters (all of it when every character is one, as npos + 1 is 0).
   */
  function RightTrim(s: string): (r: string)
    ensures r <= s
    ensures r == [] || !IsTrim(r[|r| - 1])
    ensures forall i :: |r| <= i < |s| ==> IsTrim(s[i])
  {
    if s == [] || !IsTrim(s[|s| - 1]) then s
    else RightTrim(s[..|s| - 1])
  }

  /** ": " starts at position i of s. */
  predicate SepAt(s: string, i: nat)
    requires i + 1 < |s|
  {
    s[i] == ':' && s[i + 1] == ' '
  }

  /** line.find(": "): the first position where ": " starts, or |s| for npos. */
  function SeparatorIndex(s: string): (i: nat)
    ensures i <= |s|
    ensures i < |s| ==> i + 1 < |s| && SepAt(s, i)
    ensures forall j: nat :: j < i && j + 1 < |s| ==> !SepAt(s, j)
  {
    if |s| < 2 then |s|
    else if SepAt(s, 0) then 0
    else
      var k := SeparatorIndex(s[1..]);
      assert forall j: nat :: 0 < j < 1 + k && j + 1 < |s| ==> SepAt(s, j) == SepAt(s[1..], j - 1);
      if k == |s| - 1 then |s| else 1 + k
  }

  /** s holds no ": ". */
  predicate NoSep(s: string)
  {
    SeparatorIndex(s) == |s|
  }

  /**
   * One line passes the check: its first ": " is followed by at least one
   * character, and what follows it, right-trimmed, is the message.
   */
  predicate LineMatches(line: string, message: string)
  {
    var pos := SeparatorIndex(line);
    pos < |line| && pos + 2 < |line| && RightTrim(line[pos + 2..]) == message
  }

  /** What verifyResponse decides: some line of the response passes. */
  predicate Verifies(response: string, message: string)
  {
    exists k :: 0 <= k < |Lines(response)| && LineMatches(Lines(response)[k], message)
  }

  /**
   * verifyResponse: std::getline over the response, one line at a time,
   * stopping at the first line that passes.
   */
  method VerifyResponse(response: string, message: string) returns (checkPassed: bool)
    ensures checkPassed <==> Verifies(response, message)
  {
    checkPassed := false;
    var rest := response;
    ghost var seen: seq<string> := [];
    while rest != []
      invariant Lines(response) == seen + Lines(rest)
      invariant forall k :: 0 <= k < |seen| ==> !LineMatches(seen[k], message)
      decreases |rest|
    {
      var i := NewlineIndex(rest);
      var line := rest[..i];
      if i == |rest| {
        assert line == rest;
      }
      assert Lines(rest) == [line] + (if i == |rest| then [] else Lines(rest[i + 1..]));
      if LineMatches(line, message) {
        assert Lines(response)[|seen|] == line;
        checkPassed := true;
        break;
      }
      seen := seen + [line];
      rest := if i == |rest| then [] else rest[i + 1..];
    }
  }

  /** Dropping the first character keeps a text free of ": ". */
  lemma NoSepTail(x: string)
    requires |x| > 0 && NoSep(x)
    ensures NoSep(x[1..])
  {
    var t := x[1..];
    forall j: nat | j + 1 < |t|
      ensures !SepAt(t, j)
    {
      assert SepAt(t, j) == SepAt(x, j + 1);
    }
  }

  /** A line whose first ": " ends it is skipped, whatever message is looked for. */
  lemma SeparatorAtEndIgnored(x: string, message: string)
    requires NoSep(x)
    ensures !LineMatches(x + ": ", message)
  {
    SeparatorAfter(x, ": ");
  }

  /** When a text with no ": " is followed by ": ", that is the first ": ". */
  lemma {:induction false} SeparatorAfter(x: string, rest: string)
    requires NoSep(x)
    requires |rest| >= 2 && SepAt(rest, 0)
    ensures SeparatorIndex(x + rest) == |x|
    decreases |x|
  {
    var s := x + rest;
    if x != [] {
      if |x| >= 2 {
        assert s[0] == x[0] && s[1] == x[1];
        assert !SepAt(x, 0);
      } else {
        assert s[1] == ':';
      }
      assert !SepAt(s, 0);
      assert s[1..] == x[1..] + rest;
      NoSepTail(x);
      SeparatorAfter(x[1..], rest);
    }
  }

  /**
   * A line "prefix: message", where the prefix holds no ": " and the message
   * is not empty and does not end in a trim character, passes for that
   * message.
   */
  lemma SenderLineMatches(prefix: string, message: string)
    requires NoSep(prefix)
    requires message != [] && !IsTrim(message[|message| - 1])
    ensures LineMatches(prefix + ": " + message, message)
  {
    var line := prefix + ": " + message;
    assert line == prefix + (": " + message);
    SeparatorAfter(prefix, ": " + message);
    assert line[|prefix| + 2..] == message;
  }

  /** Two texts without ": " joined so that the seam does not form one have none either. */
  lemma {:induction false} NoSepConcat(a: string, b: string)
    requires NoSep(a) && NoSep(b)
    requires a == [] || b == [] || a[|a| - 1] != ':' || b[0] != ' '
    ensures NoSep(a + b)
    decreases |a|
  {
    var s := a + b;
    if a == [] {
      assert s == b;
    } else {
      assert s[1..] == a[1..] + b;
      NoSepTail(a);
      NoSepConcat(a[1..], b);
      if |a| >= 2 {
        assert s[0] == a[0] && s[1] == a[1];
        assert !SepAt(a, 0);
        assert !SepAt(s, 0);
      } else if |s| >= 2 {
        assert s[0] == a[0] && s[1] == b[0];
        assert !SepAt(s, 0);
      }
      assert SeparatorIndex(s) == |s| by {
        var k := SeparatorIndex(s[1..]);
        assert k == |s| - 1;
      }
    }
  }

  /**
   * The line readCommandHistory prints for a text entry passes the check
   * for that entry's message, when neither the time shown nor the sender's
   * nickname holds ": " and the message does not end in a trim character.
   */
  lemma EchoedEntryMatches(e: History, names: seq<User>, timeFlag: bool)
    requires !e.isAudio && !e.isFile
    requires NoSep(e.time) && NoSep(Commands.Nick(names, e.id))
    requires e.message != [] && !IsTrim(e.message[|e.message| - 1])
    ensures LineMatches(Commands.EntryText(e, names, timeFlag), e.message)
  {
    var nick := Commands.Nick(names, e.id);
    var prefix := (if timeFlag then "[" + e.time + "] " else "") + nick;
    if timeFlag {
      assert NoSep("[") && NoSep("] ");
      NoSepConcat("[", e.time);
      NoSepConcat("[" + e.time, "] ");
      NoSepConcat("[" + e.time + "] ", nick);
    } else {
      assert prefix == nick;
    }
    SenderLineMatches(prefix, e.message);
    assert Commands.EntryText(e, names, timeFlag) == prefix + ": " + e.message;
  }

  // ---------------------------------------------------------------- isCommand, isValidFormat

  /** The script's isCommand: the line starts with '/'. */
  predicate IsCommand(s: string)
  {
    |s| > 0 && s[0] == '/'
  }

  /**
   * The script's test is stricter than the client's: every line the script
   * treats as a command the client does too, but a slash inside a plain
   * message makes the client take it for a command.
   */
  lemma CommandTestsDiffer()
    ensures forall s :: IsCommand(s) ==> Client.IsCommand(s)
    ensures Client.IsCommand("a/b") && !IsCommand("a/b")
  {
    assert "a/b"[1] == '/';
  }

  /** isValidFormat: four strings can be read from the line. */
  predicate IsValidFormat(line: string)
  {
    |Words(line)| >= 4
  }

  /** The first line "address login password nickname" is accepted, and so is any longer line. */
  lemma ConfigLineAccepted(ws: seq<string>)
    requires |ws| >= 4 && forall k :: 0 <= k < |ws| ==> IsWord(ws[k])
    ensures IsValidFormat(JoinSpaced(ws))
  {
    WordsOfJoinSpaced(ws);
  }

  /** A line with fewer than four words is refused. */
  lemma ShortLineRefused(ws: seq<string>)
    requires |ws| < 4 && forall k :: 0 <= k < |ws| ==> IsWord(ws[k])
    ensures !IsValidFormat(JoinSpaced(ws))
  {
    WordsOfJoinSpaced(ws);
  }

  // ---------------------------------------------------------------- handleMessages

  /** The variables of handleMessages and the lines it has written to the client. */
  datatype Script = Script(passed: bool, count: int, nick: string, channel: string, sent: seq<string>)

  predicate StartsWith(s: string, p: string)
  {
    |p| <= |s| && s[..|p|] == p
  }

  /**
   * One message of the file, given the response the script reads after
   * sending it. A plain message inside a channel is not sent itself: the
   * script asks for the channel's history and checks that the message is
   * there.
   */
  function StepOf(st: Script, message: string, response: string): (r: Script)
    ensures |r.sent| == |st.sent| + 1 && r.sent[..|st.sent|] == st.sent
    ensures r.passed ==> st.passed
  {
    if !IsCommand(message) && st.channel != "" then
      st.(count := st.count + 1, sent := st.sent + ["/read " + st.channel],
          passed := st.passed && Verifies(response, message))
    else
      var st1 := st.(sent := st.sent + [message]);
      if StartsWith(message, "/join ") then st1.(channel := message[6..])
      else if StartsWith(message, "/change nickname ") then st1.(nick := message[17..])
      else if StartsWith(message, "/exit ") then st1.(channel := "")
      else if !IsCommand(message) then st1.(count := st1.count + 1)
      else st1
  }

  /** The messages of the file in order, each with its response. */
  function StepsOf(st: Script, messages: seq<string>, responses: seq<string>): (r: Script)
    requires |responses| == |messages|
    ensures |r.sent| == |st.sent| + |messages|
  {
    if messages == [] then st
    else
      var n := |messages| - 1;
      StepOf(StepsOf(st, messages[..n], responses[..n]), messages[n], responses[n])
  }

  /** std::count(response.begin(), response.end(), '\n'). */
  function Newlines(s: string): (n: nat)
    ensures n <= |s|
  {
    if s == [] then 0 else Newlines(s[..|s| - 1]) + (if s[|s| - 1] == '\n' then 1 else 0)
  }

  /** After the last message, inside a channel: one more read, whose response must have a newline per plain message. */
  function FinishOf(st: Script, response: string): Script
  {
    if st.channel == "" then st
    else st.(sent := st.sent + ["/read " + st.channel], passed := st.passed && Newlines(response) >= st.count)
  }

  /**
   * handleMessages: the loop over the messages, then the final read.
   * responses[i] is what readResponse returns after the i-th message and
   * finalResponse what it returns after the final "/read".
   */
  method HandleMessages(messages: seq<string>, responses: seq<string>, finalResponse: string, nick0: string, channel0: string)
    returns (allChecksPassed: bool, nick: string, currentChannel: string, sent: seq<string>)
    requires |responses| == |messages|
    ensures var r := FinishOf(StepsOf(Script(true, 0, nick0, channel0, []), messages, responses), finalResponse);
      allChecksPassed == r.passed && nick == r.nick && currentChannel == r.channel && sent == r.sent
  {
    allChecksPassed, nick, currentChannel, sent := true, nick0, channel0, [];
    var countMessages := 0;
    var i := 0;
    while i < |messages|
      invariant 0 <= i <= |messages|
      invariant Script(allChecksPassed, countMessages, nick, currentChannel, sent)
                == StepsOf(Script(true, 0, nick0, channel0, []), messages[..i], responses[..i])
    {
      var message, response := messages[i], responses[i];
      assert messages[..i + 1][..i] == messages[..i] && responses[..i + 1][..i] == responses[..i];
      if !IsCommand(message) && currentChannel != "" {
        countMessages := countMessages + 1;
        sent := sent + ["/read " + currentChannel];
        var ok := VerifyResponse(response, message);
        allChecksPassed := allChecksPassed && ok;
      } else {
        sent := sent + [message];
        if StartsWith(message, "/join ") {
          currentChannel := message[6..];
        } else if StartsWith(message, "/change nickname ") {
          nick := message[17..];
        } else if StartsWith(message, "/exit ") {
          currentChannel := "";
        } else if !IsCommand(message) {
          countMessages := countMessages + 1;
        }
      }
      i := i + 1;
    }
    assert messages[..i] == messages && responses[..i] == responses;
    if currentChannel != "" {
      sent := sent + ["/read " + currentChannel];
      var count := Newlines(finalResponse);
      if count < countMessages {
        allChecksPassed := false;
      }
    }
  }

  /** The number of plain (non-command) messages. */
  function PlainCount(messages: seq<string>): (n: nat)
    ensures n <= |messages|
  {
    if messages == [] then 0
    else PlainCount(messages[..|messages| - 1]) + (if IsCommand(messages[|messages| - 1]) then 0 else 1)
  }

  /**
   * The channel after the messages, from the commands alone: the text
   * after the last "/join ", or "" after a later "/exit ".
   */
  function ChannelAfter(channel: string, messages: seq<string>): string
  {
    if messages == [] then channel
    else
      var m := messages[|messages| - 1];
      if StartsWith(m, "/join ") then m[6..]
      else if StartsWith(m, "/exit ") then ""
      else ChannelAfter(channel, messages[..|messages| - 1])
  }

  lemma PrefixIsCommand(m: string, p: string)
    requires StartsWith(m, p) && |p| > 0 && p[0] == '/'
    ensures IsCommand(m)
  {
    assert m[0] == m[..|p|][0];
  }

  /**
   * Every plain message is counted once, inside a channel or not, and the
   * channel follows the "/join " and "/exit " commands and nothing else.
   */
  lemma {:induction false} ScriptTracks(st: Script, messages: seq<string>, responses: seq<string>)
    requires |responses| == |messages|
    ensures StepsOf(st, messages, responses).count == st.count + PlainCount(messages)
    ensures StepsOf(st, messages, responses).channel == ChannelAfter(st.channel, messages)
  {
    if messages != [] {
      var n := |messages| - 1;
      ScriptTracks(st, messages[..n], responses[..n]);
      var m := messages[n];
      if StartsWith(m, "/join ") {
        PrefixIsCommand(m, "/join ");
      } else if StartsWith(m, "/exit ") {
        PrefixIsCommand(m, "/exit ");
      } else if StartsWith(m, "/change nickname ") {
        PrefixIsCommand(m, "/change nickname ");
      }
    }
  }

  /** The k-th message is plain and is sent while the script is inside a channel. */
  predicate CheckedAt(channel: string, messages: seq<string>, k: nat)
    requires k < |messages|
  {
    !IsCommand(messages[k]) && ChannelAfter(channel, messages[..k]) != ""
  }

  /**
   * The loop keeps its verdict exactly when it started with one and every
   * plain message sent inside a channel was found in the history read
   * after it.
   */
  lemma {:induction false} PassedIffAllVerified(st: Script, messages: seq<string>, responses: seq<string>)
    requires |responses| == |messages|
    ensures StepsOf(st, messages, responses).passed
            <==> st.passed && forall k :: 0 <= k < |messages| && CheckedAt(st.channel, messages, k) ==> Verifies(responses[k], messages[k])
  {
    if messages != [] {
      var n := |messages| - 1;
      var ms, rs := messages[..n], responses[..n];
      PassedIffAllVerified(st, ms, rs);
      ScriptTracks(st, ms, rs);
      assert forall k :: 0 <= k < n ==> messages[..k] == ms[..k] && messages[k] == ms[k] && responses[k] == rs[k];
      assert forall k :: 0 <= k < n ==> (CheckedAt(st.channel, messages, k) <==> CheckedAt(st.channel, ms, k));
      assert messages[..n] == ms;
    }
  }

  /** Inside a channel at the end, the final response must hold at least one newline per plain message of the file. */
  lemma FinalCountCheck(messages: seq<string>, responses: seq<string>, finalResponse: string, nick: string, channel: string)
    requires |responses| == |messages|
    requires ChannelAfter(channel, messages) != ""
    ensures var st := StepsOf(Script(true, 0, nick, channel, []), messages, responses);
      FinishOf(st, finalResponse).passed <==> st.passed && Newlines(finalResponse) >= PlainCount(messages)
  {
    ScriptTracks(Script(true, 0, nick, channel, []), messages, responses);
  }
}

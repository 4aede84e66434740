/**
 * Channel history lines. addMessageInChannel writes "[time] id: message";
 * channelsHistoryFile reads each line back with std::regex_match against
 * the ECMAScript pattern `\[(.+?)\] (.+?): (.+)`, the text pattern, which
 * it tries before the audio and file patterns.
 *
 * The regex is modelled by its backtracking order: group 1 is the shortest
 * time for which the rest of the line can still match, then group 2 the
 * shortest sender for which `: ` and a non-empty message end the line.
 */
module HistoryLog {
  import opened Wrappers
  import opened Bytes
  import Text

  /**
   * A parsed history entry, the History record. A text entry leaves the
   * audio and file fields at their defaults; the source leaves fileSize
   * uninitialised there, here it is 0.
   */
  datatype History = History(
    time: string, id: string, message: string,
    isAudio: bool, isFile: bool,
    voicemailID: string, duration: string,
    fileID: string, filename: string, extension: string, fileSize: U32)

  function TextEntry(time: string, id: string, message: string): History
  {
    History(time, id, message, false, false, "", "", "", "", "", 0)
  }

  /** ECMAScript `.`: any character but a line terminator (the program's strings hold bytes). */
  predicate IsDot(c: char)
  {
    c != '\n' && c != '\r'
  }

  predicate AllDot(s: string)
  {
    forall k :: 0 <= k < |s| ==> IsDot(s[k])
  }

  lemma AllDotConcat(a: string, b: string)
    requires AllDot(a) && AllDot(b)
    ensures AllDot(a + b)
  {
    forall k | 0 <= k < |a + b|
      ensures IsDot((a + b)[k])
    {
      if k >= |a| {
        assert (a + b)[k] == b[k - |a|];
      }
    }
  }

  /** The line addMessageInChannel writes for one message, without its newline. */
  function HistoryLine(time: string, id: string, message: string): string
  {
    "[" + time + "] " + id + ": " + message
  }

  /** The line is "[t] i: m" with three non-empty groups of `.` characters: the text pattern's language. */
  predicate Splits(s: string, t: string, i: string, m: string)
  {
    s == HistoryLine(t, i, m) && |t| > 0 && |i| > 0 && |m| > 0 && AllDot(t) && AllDot(i) && AllDot(m)
  }

  /** Group 1 fixed as s[1..e]; group 2 tried as s[e + 2..f], f growing. */
  function SearchId(s: string, e: nat, f: nat): Option<(string, string, string)>
    requires 2 <= e && e + 3 <= f
    decreases |s| - f
  {
    if f + 2 >= |s| then None
    else if !AllDot(s[e + 2..f]) then None
    else if s[f] == ':' && s[f + 1] == ' ' && AllDot(s[f + 2..]) then Some((s[1..e], s[e + 2..f], s[f + 2..]))
    else SearchId(s, e, f + 1)
  }

  /** Group 1 tried as s[1..e], e growing. */
  function SearchTime(s: string, e: nat): Option<(string, string, string)>
    requires 2 <= e
    decreases |s| - e
  {
    if |s| < e + 6 then None
    else if !AllDot(s[1..e]) then None
    else if s[e] == ']' && s[e + 1] == ' ' && SearchId(s, e, e + 3).Some? then SearchId(s, e, e + 3)
    else SearchTime(s, e + 1)
  }

  /** std::regex_match(line, matches, textMessagePattern): the three groups, or None. */
  function MatchText(s: string): Option<(string, string, string)>
  {
    if |s| > 0 && s[0] == '[' then SearchTime(s, 2) else None
  }

  lemma SplitAt(s: string, e: nat, f: nat)
    requires 2 <= e && e + 3 <= f && f + 2 < |s|
    requires s[0] == '[' && s[e] == ']' && s[e + 1] == ' ' && s[f] == ':' && s[f + 1] == ' '
    ensures s == HistoryLine(s[1..e], s[e + 2..f], s[f + 2..])
  {
    var h := HistoryLine(s[1..e], s[e + 2..f], s[f + 2..]);
    assert |h| == |s|;
    forall k | 0 <= k < |s|
      ensures h[k] == s[k]
    {
      if k == 0 {
      } else if k < e {
        assert h[k] == s[1..e][k - 1];
      } else if k < e + 2 {
      } else if k < f {
        assert h[k] == s[e + 2..f][k - e - 2];
      } else if k < f + 2 {
      } else {
        assert h[k] == s[f + 2..][k - f - 2];
      }
    }
  }

  /** The fields of a split sit at fixed positions of the line. */
  lemma SplitPositions(s: string, t: string, i: string, m: string)
    requires s == HistoryLine(t, i, m)
    ensures |s| == |t| + |i| + |m| + 5
    ensures s[0] == '[' && s[1..|t| + 1] == t && s[|t| + 1] == ']' && s[|t| + 2] == ' '
    ensures s[|t| + 3..|t| + 3 + |i|] == i && s[|t| + 3 + |i|] == ':' && s[|t| + 4 + |i|] == ' '
    ensures s[|t| + |i| + 5..] == m
  {
    var a := "[" + t + "] ";
    var b := i + ": ";
    assert s == a + b + m;
    assert s[|a| + |b|..] == m;
    assert s[1..|t| + 1] == a[1..|t| + 1];
    assert s[|t| + 3..|t| + 3 + |i|] == b[..|i|];
  }

  lemma {:induction false} SearchIdSound(s: string, e: nat, f: nat)
    requires 2 <= e && e + 3 <= f && e + 1 < |s|
    requires s[0] == '[' && s[e] == ']' && s[e + 1] == ' ' && AllDot(s[1..e])
    ensures SearchId(s, e, f).Some? ==>
      var r := SearchId(s, e, f).value;
      Splits(s, r.0, r.1, r.2) && |r.0| == e - 1 && e + 2 + |r.1| >= f
    decreases |s| - f
  {
    if f + 2 >= |s| || !AllDot(s[e + 2..f]) {
    } else if s[f] == ':' && s[f + 1] == ' ' && AllDot(s[f + 2..]) {
      SplitAt(s, e, f);
    } else {
      SearchIdSound(s, e, f + 1);
    }
  }

  lemma {:induction false} SearchIdComplete(s: string, e: nat, f: nat, i: string, m: string)
    requires 2 <= e && e + 3 <= f <= |s|
    requires Splits(s, s[1..e], i, m) && e + 2 + |i| >= f
    ensures SearchId(s, e, f).Some? && |SearchId(s, e, f).value.1| <= |i|
    decreases |s| - f
  {
    var t := s[1..e];
    SplitPositions(s, t, i, m);
    assert |t| == e - 1;
    assert f + 2 < |s|;
    var sub := s[e + 2..f];
    assert AllDot(sub) by {
      forall k | 0 <= k < |sub|
        ensures IsDot(sub[k])
      {
        assert sub[k] == i[k];
      }
    }
    if s[f] == ':' && s[f + 1] == ' ' && AllDot(s[f + 2..]) {
    } else {
      assert f < e + 2 + |i|;
      SearchIdComplete(s, e, f + 1, i, m);
    }
  }

  lemma {:induction false} SearchTimeSound(s: string, e: nat)
    requires 2 <= e && |s| > 0 && s[0] == '['
    ensures SearchTime(s, e).Some? ==>
      var r := SearchTime(s, e).value;
      Splits(s, r.0, r.1, r.2) && |r.0| >= e - 1
    decreases |s| - e
  {
    if |s| < e + 6 || !AllDot(s[1..e]) {
    } else if s[e] == ']' && s[e + 1] == ' ' && SearchId(s, e, e + 3).Some? {
      SearchIdSound(s, e, e + 3);
    } else {
      SearchTimeSound(s, e + 1);
    }
  }

  lemma {:induction false} SearchTimeComplete(s: string, e: nat, t: string, i: string, m: string)
    requires 2 <= e
    requires Splits(s, t, i, m) && |t| >= e - 1
    ensures SearchTime(s, e).Some?
    ensures var r := SearchTime(s, e).value; |r.0| <= |t| && (|r.0| == |t| ==> |r.1| <= |i|)
    decreases |s| - e
  {
    SplitPositions(s, t, i, m);
    assert |s| >= e + 6;
    var pre := s[1..e];
    assert AllDot(pre) by {
      forall k | 0 <= k < |pre|
        ensures IsDot(pre[k])
      {
        assert pre[k] == t[k];
      }
    }
    if s[e] == ']' && s[e + 1] == ' ' && SearchId(s, e, e + 3).Some? {
      SearchIdSound(s, e, e + 3);
      if |t| == e - 1 {
        assert s[1..e] == t;
        SearchIdComplete(s, e, e + 3, i, m);
      }
    } else {
      if |t| == e - 1 {
        assert s[1..e] == t;
        SearchIdComplete(s, e, e + 3, i, m);
      }
      SearchTimeComplete(s, e + 1, t, i, m);
    }
  }

  /** Whatever the text pattern captures is a split of the line. */
  lemma MatchTextSound(s: string)
    ensures MatchText(s).Some? ==> Splits(s, MatchText(s).value.0, MatchText(s).value.1, MatchText(s).value.2)
  {
    if |s| > 0 && s[0] == '[' {
      SearchTimeSound(s, 2);
    }
  }

  /**
   * Every line of the pattern's language matches, and the groups are the
   * lazy ones: the shortest time, then the shortest sender for that time.
   */
  lemma MatchTextLeast(s: string, t: string, i: string, m: string)
    requires Splits(s, t, i, m)
    ensures MatchText(s).Some?
    ensures var r := MatchText(s).value; |r.0| <= |t| && (|r.0| == |t| ==> |r.1| <= |i|)
  {
    SplitPositions(s, t, i, m);
    SearchTimeComplete(s, 2, t, i, m);
  }

  /** Two splits with groups of the same lengths are the same split. */
  lemma SplitsUnique(s: string, t: string, i: string, m: string, t': string, i': string, m': string)
    requires Splits(s, t, i, m) && Splits(s, t', i', m')
    requires |t| == |t'| && |i| == |i'|
    ensures t == t' && i == i' && m == m'
  {
    SplitPositions(s, t, i, m);
    SplitPositions(s, t', i', m');
  }

  /**
   * A line written by addMessageInChannel reads back as the same three
   * fields, when the time holds no ']' and the sender no ':' (the message
   * may hold anything but a line terminator).
   */
  lemma HistoryLineRoundTrip(t: string, i: string, m: string)
    requires |t| > 0 && |i| > 0 && |m| > 0 && AllDot(t) && AllDot(i) && AllDot(m)
    requires ']' !in t && ':' !in i
    ensures MatchText(HistoryLine(t, i, m)) == Some((t, i, m))
  {
    var s := HistoryLine(t, i, m);
    MatchTextLeast(s, t, i, m);
    MatchTextSound(s);
    var r := MatchText(s).value;
    SplitPositions(s, t, i, m);
    SplitPositions(s, r.0, r.1, r.2);
    SplitsUnique(s, t, i, m, r.0, r.1, r.2);
  }

  /**
   * One line of the history file, as channelsHistoryFile classifies it: the
   * text pattern or nothing. The audio and file patterns are tried only
   * when the text pattern fails, and AudioPatternShadowed and
   * FilePatternShadowed show that then they fail too.
   */
  function ParseHistoryLine(line: string): (r: Option<History>)
    ensures r.Some? ==> HistoryLine(r.value.time, r.value.id, r.value.message) == line && !r.value.isAudio && !r.value.isFile
    ensures r.Some? ==> AllDot(r.value.time) && AllDot(r.value.id) && AllDot(r.value.message) && |r.value.id| > 0
  {
    MatchTextSound(line);
    match MatchText(line)
    case None => None
    case Some((t, i, m)) => Some(TextEntry(t, i, m))
  }

  /** Every line the audio pattern `\[(.+?)\] (.+?): \[Voicemail_ID: (.+), duration: (.+)\]` accepts, the text pattern accepts first. */
  lemma AudioPatternShadowed(t: string, i: string, v: string, d: string)
    requires |t| > 0 && |i| > 0 && |v| > 0 && |d| > 0
    requires AllDot(t) && AllDot(i) && AllDot(v) && AllDot(d)
    ensures ParseHistoryLine(HistoryLine(t, i, "[Voicemail_ID: " + v + ", duration: " + d + "]")).Some?
  {
    var m := "[Voicemail_ID: " + v + ", duration: " + d + "]";
    AllDotConcat("[Voicemail_ID: ", v);
    AllDotConcat("[Voicemail_ID: " + v, ", duration: ");
    AllDotConcat("[Voicemail_ID: " + v + ", duration: ", d);
    AllDotConcat("[Voicemail_ID: " + v + ", duration: " + d, "]");
    MatchTextLeast(HistoryLine(t, i, m), t, i, m);
  }

  /**
   * Every line the file pattern accepts, the text pattern accepts first;
   * ext is the optional group, "" or " Extension: x,".
   */
  lemma FilePatternShadowed(t: string, i: string, f: string, n: string, ext: string, size: string)
    requires |t| > 0 && |i| > 0 && |f| > 0 && |n| > 0 && |size| > 0
    requires AllDot(t) && AllDot(i) && AllDot(f) && AllDot(n) && AllDot(ext) && Text.AllDigits(size)
    ensures ParseHistoryLine(HistoryLine(t, i, "[File_ID: " + f + ", Name: " + n + "," + ext + " Size: " + size + " ]")).Some?
  {
    var m := "[File_ID: " + f + ", Name: " + n + "," + ext + " Size: " + size + " ]";
    assert AllDot(size) by {
      forall k | 0 <= k < |size| ensures IsDot(size[k]) {
        assert Text.IsDigit(size[k]);
      }
    }
    AllDotConcat("[File_ID: ", f);
    AllDotConcat("[File_ID: " + f, ", Name: ");
    AllDotConcat("[File_ID: " + f + ", Name: ", n);
    AllDotConcat("[File_ID: " + f + ", Name: " + n, ",");
    AllDotConcat("[File_ID: " + f + ", Name: " + n + ",", ext);
    AllDotConcat("[File_ID: " + f + ", Name: " + n + "," + ext, " Size: ");
    AllDotConcat("[File_ID: " + f + ", Name: " + n + "," + ext + " Size: ", size);
    AllDotConcat("[File_ID: " + f + ", Name: " + n + "," + ext + " Size: " + size, " ]");
    MatchTextLeast(HistoryLine(t, i, m), t, i, m);
  }

  /** The entries read from a history file, in line order; lines no pattern matches are dropped. */
  function Entries(lines: seq<string>): (r: seq<History>)
    ensures |r| <= |lines|
  {
    if lines == [] then []
    else
      var rest := Entries(lines[1..]);
      match ParseHistoryLine(lines[0])
      case None => rest
      case Some(h) => [h] + rest
  }

  lemma {:induction false} EntriesAppend(a: seq<string>, b: seq<string>)
    ensures Entries(a + b) == Entries(a) + Entries(b)
    decreases |a|
  {
    if a == [] {
      assert a + b == b;
    } else {
      assert (a + b)[0] == a[0];
      assert (a + b)[1..] == a[1..] + b;
      EntriesAppend(a[1..], b);
    }
  }

  /**
   * addMessageInChannel followed by channelsHistoryFile: the history gains
   * exactly one entry, at the end, holding the time, sender and message.
   */
  lemma AppendedMessageReadBack(content: string, t: string, i: string, m: string)
    requires Text.EndsLine(content)
    requires |t| > 0 && |i| > 0 && |m| > 0 && AllDot(t) && AllDot(i) && AllDot(m)
    requires ']' !in t && ':' !in i
    ensures Entries(Text.Lines(content + HistoryLine(t, i, m) + "\n")) == Entries(Text.Lines(content)) + [TextEntry(t, i, m)]
  {
    var line := HistoryLine(t, i, m);
    assert '\n' !in line by {
      AllDotConcat("[" + t + "] " + i + ": ", m);
      AllDotConcat("[" + t + "] " + i, ": ");
      AllDotConcat("[" + t + "] ", i);
      AllDotConcat("[" + t, "] ");
      AllDotConcat("[", t);
      assert AllDot(line);
    }
    Text.LinesOfAppendedLine(content, line);
    HistoryLineRoundTrip(t, i, m);
    EntriesAppend(Text.Lines(content), [line]);
    assert [line][1..] == [];
  }

  // ---------------------------------------------------------------- audio and file lines

  /** std::setw(2) with std::setfill('0') for a non-negative number. */
  function Pad2(n: nat): (r: string)
    ensures |r| >= 2 && Text.AllDigits(r)
  {
    var d := Text.NatToString(n);
    if n < 10 then "0" + d else d
  }

  /** The MM:SS duration of addAudioMessageToChannelHistory, for a whole number of seconds. */
  function Duration(seconds: nat): string
  {
    Pad2(seconds / 60) + ":" + Pad2(seconds % 60)
  }

  /** The message part addAudioMessageToChannelHistory writes after "[time] nickname: ". */
  function VoicemailText(audioId: string, seconds: nat): string
  {
    "[Voicemail_ID: " + audioId + ", duration: " + Duration(seconds) + "]"
  }

  /** The message part addFileMessageToChannelHistory writes; the size is formatFileSize's text. */
  function FileText(fileId: string, filename: string, sizeText: string): string
  {
    "[File_ID: " + fileId + ", Name: " + filename + ", Size: " + sizeText + "]"
  }

  lemma DigitsAreDots(s: string)
    requires Text.AllDigits(s)
    ensures AllDot(s)
  {
    forall k | 0 <= k < |s| ensures IsDot(s[k]) {
      assert Text.IsDigit(s[k]);
    }
  }

  /**
   * A voicemail line written to the history is read back as a TEXT entry
   * whose message is the bracketed voicemail text: isAudio stays false.
   */
  lemma VoicemailLineReadsAsText(t: string, nick: string, audioId: string, seconds: nat)
    requires |t| > 0 && |nick| > 0 && AllDot(t) && AllDot(nick) && AllDot(audioId)
    requires ']' !in t && ':' !in nick
    ensures AllDot(VoicemailText(audioId, seconds))
    ensures ParseHistoryLine(HistoryLine(t, nick, VoicemailText(audioId, seconds))) == Some(TextEntry(t, nick, VoicemailText(audioId, seconds)))
  {
    var mm := Pad2(seconds / 60);
    var ss := Pad2(seconds % 60);
    DigitsAreDots(mm);
    DigitsAreDots(ss);
    AllDotConcat(mm, ":");
    AllDotConcat(mm + ":", ss);
    var d := Duration(seconds);
    AllDotConcat("[Voicemail_ID: ", audioId);
    AllDotConcat("[Voicemail_ID: " + audioId, ", duration: ");
    AllDotConcat("[Voicemail_ID: " + audioId + ", duration: ", d);
    AllDotConcat("[Voicemail_ID: " + audioId + ", duration: " + d, "]");
    HistoryLineRoundTrip(t, nick, VoicemailText(audioId, seconds));
  }

  /** A file line written to the history is read back as a TEXT entry: isFile stays false. */
  lemma FileLineReadsAsText(t: string, nick: string, fileId: string, filename: string, sizeText: string)
    requires |t| > 0 && |nick| > 0 && AllDot(t) && AllDot(nick)
    requires AllDot(fileId) && AllDot(filename) && AllDot(sizeText)
    requires ']' !in t && ':' !in nick
    ensures ParseHistoryLine(HistoryLine(t, nick, FileText(fileId, filename, sizeText))) == Some(TextEntry(t, nick, FileText(fileId, filename, sizeText)))
  {
    AllDotConcat("[File_ID: ", fileId);
    AllDotConcat("[File_ID: " + fileId, ", Name: ");
    AllDotConcat("[File_ID: " + fileId + ", Name: ", filename);
    AllDotConcat("[File_ID: " + fileId + ", Name: " + filename, ", Size: ");
    AllDotConcat("[File_ID: " + fileId + ", Name: " + filename + ", Size: ", sizeText);
    AllDotConcat("[File_ID: " + fileId + ", Name: " + filename + ", Size: " + sizeText, "]");
    HistoryLineRoundTrip(t, nick, FileText(fileId, filename, sizeText));
  }
}

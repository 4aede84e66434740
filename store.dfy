/**
 * The file store of the server, class DataBase. Each file is its content,
 * a string; a file that does not exist reads as "". The users file holds
 * one "id:nickname:socket:login:password" line per user, the channels file
 * one channel name per line, every channel a members file (one id per
 * line) and a history file (one "[time] id: message" line per message).
 *
 * Readers follow the source: `>>` loops (addFile) read whitespace tokens,
 * getline loops read lines. The cached fields database_names,
 * database_channels, database_channels_members and
 * database_channels_history are fields of the class, reassigned where the
 * source reassigns them.
 */
module Store {
  import opened Wrappers
  import opened Text
  import opened HistoryLog

  /** The User record; socketNumber is kept as the text read from the file. */
  datatype User = User(id: string, nickname: string, socketNumber: string, login: string, password: string, timeFlag: bool)

  /** The files: users.txt, channels.txt, and per channel its _members.txt and _history.txt. */
  datatype Disk = Disk(users: string, channels: string, members: map<string, string>, history: map<string, string>)

  function MembersOf(d: Disk, channel: string): string
  {
    if channel in d.members then d.members[channel] else ""
  }

  function HistoryOf(d: Disk, channel: string): string
  {
    if channel in d.history then d.history[channel] else ""
  }

  /** The set that addFile builds from a file: its whitespace-separated tokens. */
  function TokenSet(content: string): set<string>
  {
    set w | w in Words(content)
  }

  // ---------------------------------------------------------------- user lines

  /** Index of the first c in s, or |s|. */
  function IndexOf(s: string, c: char): (k: nat)
    ensures k <= |s|
    ensures forall j :: 0 <= j < k ==> s[j] != c
    ensures k < |s| ==> s[k] == c
  {
    if s == [] || s[0] == c then 0 else 1 + IndexOf(s[1..], c)
  }

  /**
   * getline(iss, field, ':') followed by a further getline: the text before
   * the first ':' and the text after it; None when there is no ':', since
   * the stream then reaches its end and the next read fails.
   */
  function SplitField(s: string): (r: Option<(string, string)>)
    ensures r.None? <==> ':' !in s
    ensures r.Some? ==> s == r.value.0 + ":" + r.value.1 && ':' !in r.value.0
  {
    var k := IndexOf(s, ':');
    if k == |s| then None
    else
      assert s == s[..k] + ":" + s[k + 1..];
      Some((s[..k], s[k + 1..]))
  }

  lemma {:induction false} IndexOfAt(a: string, c: char, rest: string)
    requires c !in a
    ensures IndexOf(a + [c] + rest, c) == |a|
    decreases |a|
  {
    if a != [] {
      assert a[0] in a;
      assert (a + [c] + rest)[1..] == a[1..] + [c] + rest;
      IndexOfAt(a[1..], c, rest);
    }
  }

  lemma SplitFieldOf(a: string, rest: string)
    requires ':' !in a
    ensures SplitField(a + ":" + rest) == Some((a, rest))
  {
    var s := a + ":" + rest;
    IndexOfAt(a, ':', rest);
    assert s[..|a|] == a;
    assert s[|a| + 1..] == rest;
  }

  /** The line addUser writes (without its newline) for a user. */
  function UserLine(u: User): string
  {
    u.id + ":" + u.nickname + ":" + u.socketNumber + ":" + u.login + ":" + u.password
  }

  lemma UserLineNested(u: User)
    ensures UserLine(u) == u.id + ":" + (u.nickname + ":" + (u.socketNumber + ":" + (u.login + ":" + u.password)))
  {
  }

  /** The fields of a user that its line stores and gives back: four ':'-free fields and a non-empty password. */
  predicate Storable(u: User)
  {
    ':' !in u.id && ':' !in u.nickname && ':' !in u.socketNumber && ':' !in u.login && |u.password| > 0 && !u.timeFlag
  }

  /**
   * One line of the users file as addFileNicknames and changeNickname read
   * it: four ':'-terminated fields, then the rest of the line, which must be
   * non-empty, as the password.
   */
  function ParseUserLine(line: string): (r: Option<User>)
    ensures r.Some? ==> UserLine(r.value) == line && Storable(r.value)
  {
    var f1 := SplitField(line);
    if f1.None? then None
    else
      var f2 := SplitField(f1.value.1);
      if f2.None? then None
      else
        var f3 := SplitField(f2.value.1);
        if f3.None? then None
        else
          var f4 := SplitField(f3.value.1);
          if f4.None? || f4.value.1 == "" then None
          else
            var u := User(f1.value.0, f2.value.0, f3.value.0, f4.value.0, f4.value.1, false);
            UserLineNested(u);
            Some(u)
  }

  /** A storable user's line reads back as the same user. */
  lemma UserLineRoundTrip(u: User)
    requires Storable(u)
    ensures ParseUserLine(UserLine(u)) == Some(u)
  {
    var r4 := u.login + ":" + u.password;
    var r3 := u.socketNumber + ":" + r4;
    var r2 := u.nickname + ":" + r3;
    UserLineNested(u);
    SplitFieldOf(u.id, r2);
    SplitFieldOf(u.nickname, r3);
    SplitFieldOf(u.socketNumber, r4);
    SplitFieldOf(u.login, u.password);
  }

  /** A line with fewer than four ':' or nothing after the fourth is dropped. */
  lemma ShortUserLineDropped(line: string)
    requires ParseUserLine(line).None?
    ensures forall u :: Storable(u) ==> UserLine(u) != line
  {
    forall u | Storable(u)
      ensures UserLine(u) != line
    {
      UserLineRoundTrip(u);
    }
  }

  /** The users of a users file, in line order; malformed lines are dropped. */
  function UsersOf(lines: seq<string>): (r: seq<User>)
    ensures |r| <= |lines|
  {
    if lines == [] then []
    else
      var rest := UsersOf(lines[1..]);
      var p := ParseUserLine(lines[0]);
      if p.None? then rest else [p.value] + rest
  }

  function Users(content: string): seq<User>
  {
    UsersOf(Lines(content))
  }

  lemma {:induction false} UsersOfAppend(a: seq<string>, b: seq<string>)
    ensures UsersOf(a + b) == UsersOf(a) + UsersOf(b)
    decreases |a|
  {
    if a == [] {
      assert a + b == b;
    } else {
      assert (a + b)[0] == a[0];
      assert (a + b)[1..] == a[1..] + b;
      UsersOfAppend(a[1..], b);
    }
  }

  /** addUser then addFileNicknames: the new user is read back last, after the users already there. */
  lemma UsersAfterAddUser(content: string, u: User)
    requires EndsLine(content)
    requires Storable(u) && '\n' !in UserLine(u)
    ensures Users(content + UserLine(u) + "\n") == Users(content) + [u]
  {
    LinesOfAppendedLine(content, UserLine(u));
    UsersOfAppend(Lines(content), [UserLine(u)]);
    UserLineRoundTrip(u);
    assert [UserLine(u)][1..] == [];
  }

  /** Index of the first user with the login, or |users|. */
  function FirstWithLogin(users: seq<User>, login: string): (k: nat)
    ensures k <= |users|
    ensures forall j :: 0 <= j < k ==> users[j].login != login
    ensures k < |users| ==> users[k].login == login
  {
    if users == [] || users[0].login == login then 0 else 1 + FirstWithLogin(users[1..], login)
  }

  /** Index of the first user with the id, or |users|. */
  function FirstWithId(users: seq<User>, id: string): (k: nat)
    ensures k <= |users|
    ensures forall j :: 0 <= j < k ==> users[j].id != id
    ensures k < |users| ==> users[k].id == id
  {
    if users == [] || users[0].id == id then 0 else 1 + FirstWithId(users[1..], id)
  }

  // ---------------------------------------------------------------- rewrites

  /** The lines that deleteChannelMember and deleteChannel copy: all but those equal to x, in order. */
  function RemoveAll(lines: seq<string>, x: string): (r: seq<string>)
    ensures x !in r
    ensures forall y :: y != x ==> multiset(r)[y] == multiset(lines)[y]
  {
    if lines == [] then []
    else
      var rest := RemoveAll(lines[1..], x);
      assert lines == [lines[0]] + lines[1..];
      if lines[0] == x then rest else [lines[0]] + rest
  }

  /** Removal keeps the relative order: it distributes over concatenation. */
  lemma {:induction false} RemoveAllAppend(a: seq<string>, b: seq<string>, x: string)
    ensures RemoveAll(a + b, x) == RemoveAll(a, x) + RemoveAll(b, x)
    decreases |a|
  {
    if a == [] {
      assert a + b == b;
    } else {
      assert (a + b)[0] == a[0];
      assert (a + b)[1..] == a[1..] + b;
      RemoveAllAppend(a[1..], b, x);
    }
  }

  /** The file that deleteChannelMember and deleteChannel write back. */
  function WithoutLine(content: string, x: string): string
  {
    Unlines(RemoveAll(Lines(content), x))
  }

  /** Rereading the rewritten file gives exactly the kept lines. */
  lemma LinesOfWithoutLine(content: string, x: string)
    ensures Lines(WithoutLine(content, x)) == RemoveAll(Lines(content), x)
  {
    var r := RemoveAll(Lines(content), x);
    forall k | 0 <= k < |r|
      ensures '\n' !in r[k]
    {
      assert r[k] in multiset(r);
      assert r[k] in multiset(Lines(content));
    }
    LinesOfUnlines(r);
  }

  /** The rewritten line of a matching user, field by field as changeNickname writes it. */
  lemma RenamedFields(v: User, nickname: string)
    ensures v.id + ":" + nickname + ":" + v.socketNumber + ":" + v.login + ":" + v.password == UserLine(v.(nickname := nickname))
  {
  }

  /** A line that changeNickname writes back: the matching user's line with the new nickname, any other line as it was. */
  function RenameLine(line: string, id: string, nickname: string): (r: string)
    ensures ParseUserLine(line).None? ==> r == line
    ensures ParseUserLine(line).Some? && ParseUserLine(line).value.id != id ==> r == line
  {
    match ParseUserLine(line)
    case None => line
    case Some(u) => if u.id != id then line else UserLine(u.(nickname := nickname))
  }

  function RenameAll(lines: seq<string>, id: string, nickname: string): (r: seq<string>)
    ensures |r| == |lines|
  {
    if lines == [] then [] else [RenameLine(lines[0], id, nickname)] + RenameAll(lines[1..], id, nickname)
  }

  /** Each line is rewritten on its own. */
  lemma {:induction false} RenameAllAt(lines: seq<string>, id: string, nickname: string, k: nat)
    requires k < |lines|
    ensures RenameAll(lines, id, nickname)[k] == RenameLine(lines[k], id, nickname)
    decreases k
  {
    if k > 0 {
      RenameAllAt(lines[1..], id, nickname, k - 1);
    }
  }

  /**
   * changeNickname writes the new nickname into the line as it is, so a
   * nickname holding a ':' is read back as two fields and every later field
   * moves one place on: the nickname's second part becomes the socket, the
   * old socket the login, and the old login and password, joined by ':', the
   * password.
   */
  lemma ColonNicknameShiftsFields(u: User, a: string, b: string)
    requires Storable(u) && ':' !in a && ':' !in b
    ensures ParseUserLine(UserLine(u.(nickname := a + ":" + b))) == Some(User(u.id, a, b, u.socketNumber, u.login + ":" + u.password, false))
  {
    var v := User(u.id, a, b, u.socketNumber, u.login + ":" + u.password, false);
    assert UserLine(u.(nickname := a + ":" + b)) == UserLine(v);
    UserLineRoundTrip(v);
  }

  /** The users file after changeNickname. */
  function Renamed(content: string, id: string, nickname: string): string
  {
    Unlines(RenameAll(Lines(content), id, nickname))
  }

  /** The users with the id get the new nickname, all other users and fields stay. */
  function RenameUsers(users: seq<User>, id: string, nickname: string): (r: seq<User>)
    ensures |r| == |users|
    ensures forall k :: 0 <= k < |r| ==> r[k] == if users[k].id == id then users[k].(nickname := nickname) else users[k]
  {
    if users == [] then [] else [if users[0].id == id then users[0].(nickname := nickname) else users[0]] + RenameUsers(users[1..], id, nickname)
  }

  lemma {:induction false} UsersOfRenameAll(lines: seq<string>, id: string, nickname: string)
    requires ':' !in nickname
    ensures UsersOf(RenameAll(lines, id, nickname)) == RenameUsers(UsersOf(lines), id, nickname)
    decreases |lines|
  {
    if lines != [] {
      var r := RenameAll(lines, id, nickname);
      assert r[1..] == RenameAll(lines[1..], id, nickname);
      UsersOfRenameAll(lines[1..], id, nickname);
      match ParseUserLine(lines[0])
      case None =>
      case Some(u) =>
        if u.id == id {
          UserLineRoundTrip(u.(nickname := nickname));
        }
    }
  }

  /**
   * changeNickname then addFileNicknames: exactly the users with that id
   * now carry the new nickname; every other user, and every other field, is
   * as before (malformed lines are written back unchanged by RenameLine).
   */
  lemma UsersAfterRename(content: string, id: string, nickname: string)
    requires ':' !in nickname && '\n' !in nickname
    ensures Users(Renamed(content, id, nickname)) == RenameUsers(Users(content), id, nickname)
  {
    var ls := Lines(content);
    var r := RenameAll(ls, id, nickname);
    forall k | 0 <= k < |r|
      ensures '\n' !in r[k]
    {
      RenameAllAt(ls, id, nickname, k);
      assert '\n' !in ls[k];
      match ParseUserLine(ls[k])
      case None =>
      case Some(u) =>
        if u.id == id {
          assert UserLine(u) == ls[k];
          var v := u.(nickname := nickname);
          assert UserLine(v) == u.id + ":" + nickname + ":" + u.socketNumber + ":" + u.login + ":" + u.password;
          assert UserLine(u) == u.id + ":" + u.nickname + ":" + u.socketNumber + ":" + u.login + ":" + u.password;
          NoNewlineParts(u, nickname);
        }
    }
    LinesOfUnlines(r);
    UsersOfRenameAll(ls, id, nickname);
  }

  /** changeNickname on a users file that holds one user's line. */
  lemma RenamedSingle(u: User, nickname: string)
    requires Storable(u) && '\n' !in UserLine(u)
    ensures Renamed(UserLine(u) + "\n", u.id, nickname) == UserLine(u.(nickname := nickname)) + "\n"
  {
    RenameLineOf(u, nickname);
    RenamedOneLine(UserLine(u), u.id, nickname);
  }

  /** changeNickname rewrites the line of the user it renames. */
  lemma RenameLineOf(u: User, nickname: string)
    requires Storable(u)
    ensures RenameLine(UserLine(u), u.id, nickname) == UserLine(u.(nickname := nickname))
  {
    UserLineRoundTrip(u);
  }

  /** changeNickname on a file of one line rewrites that line. */
  lemma RenamedOneLine(line: string, id: string, nickname: string)
    requires '\n' !in line
    ensures Renamed(line + "\n", id, nickname) == RenameLine(line, id, nickname) + "\n"
  {
    RecordLinesSingle(line);
    assert RenameAll([line], id, nickname) == [RenameLine(line, id, nickname)] by {
      assert [line][1..] == [];
    }
    var r := RenameLine(line, id, nickname);
    assert Unlines([r]) == r + "\n" + Unlines([]);
  }

  /** The users of a file of one line. */
  lemma UsersOfSingle(line: string)
    requires '\n' !in line
    ensures Users(line + "\n") == if ParseUserLine(line).Some? then [ParseUserLine(line).value] else []
  {
    RecordLinesSingle(line);
    assert [line][1..] == [];
  }

  lemma NoNewlineParts(u: User, nickname: string)
    requires '\n' !in UserLine(u) && '\n' !in nickname
    ensures '\n' !in UserLine(u.(nickname := nickname))
  {
    var a := u.id + ":";
    var b := ":" + u.socketNumber + ":" + u.login + ":" + u.password;
    assert UserLine(u) == a + u.nickname + b;
    assert UserLine(u.(nickname := nickname)) == a + nickname + b;
    forall c | c in a + nickname + b
      ensures c != '\n'
    {
      if c in a {
        assert c in a + u.nickname + b;
      } else if c in b {
        assert c in a + u.nickname + b;
      }
    }
  }

  // ---------------------------------------------------------------- members files

  /** Lines that are tokens or empty: what addChannelMember writes for ids without whitespace. */
  predicate TokenLines(ls: seq<string>)
  {
    forall k :: 0 <= k < |ls| ==> ls[k] == "" || IsWord(ls[k])
  }

  function NonEmpty(ls: seq<string>): (r: seq<string>)
    ensures forall k :: 0 <= k < |r| ==> r[k] in ls
  {
    if ls == [] then [] else if ls[0] == "" then NonEmpty(ls[1..]) else [ls[0]] + NonEmpty(ls[1..])
  }

  lemma {:induction false} NonEmptyMembers(ls: seq<string>, x: string)
    ensures x in NonEmpty(ls) <==> x != "" && x in ls
    decreases |ls|
  {
    if ls != [] {
      NonEmptyMembers(ls[1..], x);
      assert ls == [ls[0]] + ls[1..];
    }
  }

  /** The tokens of a file of token lines are its non-empty lines. */
  lemma ConcatAssoc(a: string, b: string, c: string)
    ensures a + b + c == a + (b + c)
  {
  }

  lemma {:induction false} WordsOfTokenLines(ls: seq<string>)
    requires TokenLines(ls)
    ensures Words(Unlines(ls)) == NonEmpty(ls)
    decreases |ls|
  {
    if ls != [] {
      var rest := Unlines(ls[1..]);
      assert TokenLines(ls[1..]) by {
        forall k | 0 <= k < |ls[1..]| ensures ls[1..][k] == "" || IsWord(ls[1..][k]) {
          assert ls[1..][k] == ls[k + 1];
        }
      }
      WordsOfTokenLines(ls[1..]);
      assert Words(rest) == NonEmpty(ls[1..]);
      assert forall k :: 0 <= k < 1 ==> IsSpace("\n"[k]);
      WordsAfterSpaces("\n", rest);
      if ls[0] == "" {
        assert Unlines(ls) == "" + "\n" + rest;
        assert "" + "\n" + rest == "\n" + rest;
      } else {
        assert Unlines(ls) == ls[0] + "\n" + rest;
        ConcatAssoc(ls[0], "\n", rest);
        WordsOfWordThen(ls[0], "\n" + rest);
      }
    }
  }

  lemma {:induction false} UnlinesAppend(ls: seq<string>, x: string)
    ensures Unlines(ls + [x]) == Unlines(ls) + x + "\n"
    decreases |ls|
  {
    if ls == [] {
      assert ls + [x] == [x];
    } else {
      assert (ls + [x])[0] == ls[0];
      assert (ls + [x])[1..] == ls[1..] + [x];
      UnlinesAppend(ls[1..], x);
    }
  }

  /**
   * deleteChannelMember on a members file of token lines: the tokens
   * addFile reads afterwards are the old ones without the id.
   */
  lemma MembersAfterDelete(ls: seq<string>, id: string)
    requires TokenLines(ls)
    ensures TokenLines(RemoveAll(ls, id))
    ensures TokenSet(WithoutLine(Unlines(ls), id)) == TokenSet(Unlines(ls)) - {id}
  {
    var r := RemoveAll(ls, id);
    RemoveAllTokenLines(ls, id);
    TokenLinesHaveNoNewline(ls);
    LinesOfUnlines(ls);
    WordsOfTokenLines(ls);
    WordsOfTokenLines(r);
    forall w
      ensures w in TokenSet(Unlines(r)) <==> w in TokenSet(Unlines(ls)) && w != id
    {
      NonEmptyMembers(ls, w);
      NonEmptyMembers(r, w);
      assert w in r <==> w in multiset(r);
      assert w in ls <==> w in multiset(ls);
    }
  }

  lemma {:induction false} RemoveAllTokenLines(ls: seq<string>, x: string)
    requires TokenLines(ls)
    ensures TokenLines(RemoveAll(ls, x))
    decreases |ls|
  {
    if ls != [] {
      assert TokenLines(ls[1..]) by {
        forall k | 0 <= k < |ls[1..]| ensures ls[1..][k] == "" || IsWord(ls[1..][k]) {
          assert ls[1..][k] == ls[k + 1];
        }
      }
      RemoveAllTokenLines(ls[1..], x);
      var rest := RemoveAll(ls[1..], x);
      if ls[0] != x {
        assert RemoveAll(ls, x) == [ls[0]] + rest;
        forall k | 0 <= k < |[ls[0]] + rest| ensures ([ls[0]] + rest)[k] == "" || IsWord(([ls[0]] + rest)[k]) {
          if k > 0 {
            assert ([ls[0]] + rest)[k] == rest[k - 1];
          }
        }
      }
    }
  }

  lemma TokenLinesHaveNoNewline(ls: seq<string>)
    requires TokenLines(ls)
    ensures forall k :: 0 <= k < |ls| ==> '\n' !in ls[k]
  {
    forall k | 0 <= k < |ls| ensures '\n' !in ls[k] {
      if ls[k] != "" {
        assert IsWord(ls[k]);
        forall j | 0 <= j < |ls[k]| ensures ls[k][j] != '\n' {
          assert !IsSpace(ls[k][j]);
        }
      }
    }
  }

  lemma TokenLinesAppend(ls: seq<string>, id: string)
    requires TokenLines(ls) && (id == "" || IsWord(id))
    ensures TokenLines(ls + [id])
  {
    forall k | 0 <= k < |ls + [id]| ensures (ls + [id])[k] == "" || IsWord((ls + [id])[k]) {
      if k < |ls| {
        assert (ls + [id])[k] == ls[k];
      }
    }
  }

  /** addChannelMember on a members file of token lines: the id becomes a member, nobody else changes. */
  lemma MembersAfterAdd(ls: seq<string>, id: string)
    requires TokenLines(ls) && (id == "" || IsWord(id))
    ensures TokenLines(ls + [id])
    ensures Unlines(ls) + id + "\n" == Unlines(ls + [id])
    ensures TokenSet(Unlines(ls + [id])) == TokenSet(Unlines(ls)) + (if id == "" then {} else {id})
  {
    UnlinesAppend(ls, id);
    TokenLinesAppend(ls, id);
    WordsOfTokenLines(ls);
    WordsOfTokenLines(ls + [id]);
    NonEmptyAppend(ls, id);
    var a := NonEmpty(ls);
    var added := if id == "" then [] else [id];
    assert Words(Unlines(ls + [id])) == a + added;
    forall w
      ensures w in TokenSet(Unlines(ls + [id])) <==> w in TokenSet(Unlines(ls)) || (w == id && id != "")
    {
      assert w in a + added <==> w in a || w in added;
    }
  }

  lemma {:induction false} NonEmptyAppend(ls: seq<string>, x: string)
    ensures NonEmpty(ls + [x]) == NonEmpty(ls) + (if x == "" then [] else [x])
    decreases |ls|
  {
    if ls == [] {
      assert ls + [x] == [x];
      assert [x][1..] == [];
    } else {
      assert (ls + [x])[0] == ls[0];
      assert (ls + [x])[1..] == ls[1..] + [x];
      NonEmptyAppend(ls[1..], x);
    }
  }

  // ---------------------------------------------------------------- listing

  /** One line of listOfChannelsOnServer. */
  function Summary(channel: string, count: int): string
  {
    "Name: " + channel + ", Number of active users: " + IntToString(count)
  }

  function ListingOf(d: Disk, order: seq<string>): string
  {
    if order == [] then "" else Summary(order[0], |Lines(MembersOf(d, order[0]))|) + "\n" + ListingOf(d, order[1..])
  }

  /**
   * listOfChannelsOnServer, the channels taken in the iteration order of the
   * hash set, which the caller supplies.
   */
  function Listing(d: Disk, order: seq<string>): (r: string)
    ensures TokenSet(d.channels) == {} ==> r == "No existing channels.\n"
  {
    if TokenSet(d.channels) == {} then "No existing channels.\n" else ListingOf(d, order)
  }

  lemma {:induction false} LinesOfListing(d: Disk, order: seq<string>)
    requires forall k :: 0 <= k < |order| ==> IsWord(order[k])
    ensures |Lines(ListingOf(d, order))| == |order|
    ensures forall k :: 0 <= k < |order| ==> Lines(ListingOf(d, order))[k] == Summary(order[k], |Lines(MembersOf(d, order[k]))|)
    decreases |order|
  {
    if order != [] {
      var c := order[0];
      var n := |Lines(MembersOf(d, c))|;
      var rest := ListingOf(d, order[1..]);
      SummaryHasNoNewline(c, n);
      LinesOfLineThen(Summary(c, n), rest);
      forall k | 0 <= k < |order[1..]|
        ensures IsWord(order[1..][k])
      {
        assert order[1..][k] == order[k + 1];
      }
      LinesOfListing(d, order[1..]);
      var ls := Lines(ListingOf(d, order));
      var tail := Lines(rest);
      assert ls == [Summary(c, n)] + tail;
      forall k | 1 <= k < |order|
        ensures ls[k] == Summary(order[k], |Lines(MembersOf(d, order[k]))|)
      {
        ConsIndex(Summary(c, n), tail, k);
        assert order[1..][k - 1] == order[k];
      }
    }
  }

  lemma ConsIndex(x: string, t: seq<string>, k: nat)
    requires 1 <= k <= |t|
    ensures ([x] + t)[k] == t[k - 1]
  {
  }

  lemma SummaryHasNoNewline(c: string, count: nat)
    requires IsWord(c)
    ensures '\n' !in Summary(c, count)
  {
    var n := IntToString(count);
    var a := "Name: ";
    var b := ", Number of active users: ";
    var line := Summary(c, count);
    assert line == a + c + b + n;
    assert n == NatToString(count);
    forall j | 0 <= j < |line| ensures line[j] != '\n' {
      if j < |a| {
        assert line[j] == a[j];
      } else if j < |a| + |c| {
        assert line[j] == c[j - |a|];
        assert !IsSpace(c[j - |a|]);
      } else if j < |a| + |c| + |b| {
        assert line[j] == b[j - |a| - |c|];
      } else {
        assert line[j] == n[j - |a| - |c| - |b|];
        assert IsDigit(n[j - |a| - |c| - |b|]);
      }
    }
  }

  /**
   * listOfChannelsOnServer with channels: one "Name: c, Number of active
   * users: n" line per channel, n the line count of the channel's members file.
   */
  lemma ListingHasOneLinePerChannel(d: Disk, order: seq<string>)
    requires forall c :: c in order <==> c in TokenSet(d.channels)
    requires TokenSet(d.channels) != {}
    ensures |Lines(Listing(d, order))| == |order|
    ensures forall k :: 0 <= k < |order| ==> Lines(Listing(d, order))[k] == Summary(order[k], |Lines(MembersOf(d, order[k]))|)
  {
    forall k | 0 <= k < |order| ensures IsWord(order[k]) {
      assert order[k] in TokenSet(d.channels);
    }
    LinesOfListing(d, order);
  }

  lemma ListingStep(d: Disk, order: seq<string>, i: nat, output: string)
    requires i < |order|
    ensures output + ListingOf(d, order[i..]) ==
      (output + Summary(order[i], |Lines(MembersOf(d, order[i]))|) + "\n") + ListingOf(d, order[i + 1..])
  {
    var sub := order[i..];
    assert sub[0] == order[i] && sub[1..] == order[i + 1..];
    ListingUnfold(d, sub);
    AppendLine(output, Summary(order[i], |Lines(MembersOf(d, order[i]))|), ListingOf(d, order[i + 1..]));
  }

  lemma ListingUnfold(d: Disk, order: seq<string>)
    requires order != []
    ensures ListingOf(d, order) == Summary(order[0], |Lines(MembersOf(d, order[0]))|) + "\n" + ListingOf(d, order[1..])
  {
  }

  lemma AppendLine(out: string, line: string, tail: string)
    ensures out + (line + "\n" + tail) == (out + line + "\n") + tail
  {
  }

  // ---------------------------------------------------------------- file readers

  /** addFile: every token of the file, read with `>>`, into a set. */
  method AddFile(content: string) returns (r: set<string>)
    ensures r == TokenSet(content)
  {
    var words := Words(content);
    r := {};
    var i := 0;
    while i < |words|
      invariant 0 <= i <= |words|
      invariant r == set w | w in words[..i]
    {
      assert words[..i + 1] == words[..i] + [words[i]];
      r := r + {words[i]};
      i := i + 1;
    }
    assert words[..i] == words;
  }

  /** addFileNicknames: the well-formed user lines of the file, in order. */
  method AddFileNicknames(content: string) returns (users: seq<User>)
    ensures users == Users(content)
  {
    var lines := Lines(content);
    users := [];
    var i := 0;
    while i < |lines|
      invariant 0 <= i <= |lines|
      invariant users + UsersOf(lines[i..]) == UsersOf(lines)
    {
      UsersStep(lines, i, users);
      var u := ParseUserLine(lines[i]);
      if u.Some? {
        users := users + [u.value];
      }
      i := i + 1;
    }
  }

  lemma UsersStep(lines: seq<string>, i: nat, users: seq<User>)
    requires i < |lines|
    ensures var p := ParseUserLine(lines[i]);
      users + UsersOf(lines[i..]) == (if p.Some? then users + [p.value] else users) + UsersOf(lines[i + 1..])
  {
    assert lines[i..][0] == lines[i];
    assert lines[i..][1..] == lines[i + 1..];
  }

  /** The source's int count of a file's lines, by repeated getline. */
  method CountLines(content: string) returns (count: int)
    ensures count == |Lines(content)|
  {
    var lines := Lines(content);
    count := 0;
    var i := 0;
    while i < |lines|
      invariant 0 <= i <= |lines| && count == i
    {
      count := count + 1;
      i := i + 1;
    }
  }

  /** The entries of a history file, by a getline loop over ParseHistoryLine. */
  method ReadHistory(content: string) returns (entries: seq<History>)
    ensures entries == Entries(Lines(content))
  {
    var lines := Lines(content);
    entries := [];
    var i := 0;
    while i < |lines|
      invariant 0 <= i <= |lines|
      invariant entries + Entries(lines[i..]) == Entries(lines)
    {
      EntriesStep(lines, i, entries);
      var h := ParseHistoryLine(lines[i]);
      if h.Some? {
        entries := entries + [h.value];
      }
      i := i + 1;
    }
  }

  lemma EntriesStep(lines: seq<string>, i: nat, entries: seq<History>)
    requires i < |lines|
    ensures var h := ParseHistoryLine(lines[i]);
      entries + Entries(lines[i..]) == (if h.Some? then entries + [h.value] else entries) + Entries(lines[i + 1..])
  {
    assert lines[i..][0] == lines[i];
    assert lines[i..][1..] == lines[i + 1..];
  }

  /** The getline loop of deleteChannelMember and deleteChannel, writing the kept lines to the temporary file. */
  method CopyWithout(content: string, x: string) returns (out: string)
    ensures out == WithoutLine(content, x)
  {
    var lines := Lines(content);
    out := "";
    var i := 0;
    while i < |lines|
      invariant 0 <= i <= |lines|
      invariant out + Unlines(RemoveAll(lines[i..], x)) == Unlines(RemoveAll(lines, x))
    {
      WithoutStep(lines, i, x, out);
      if lines[i] != x {
        out := out + lines[i] + "\n";
      }
      i := i + 1;
    }
  }

  lemma WithoutStep(lines: seq<string>, i: nat, x: string, out: string)
    requires i < |lines|
    ensures out + Unlines(RemoveAll(lines[i..], x)) ==
      (if lines[i] != x then out + lines[i] + "\n" else out) + Unlines(RemoveAll(lines[i + 1..], x))
  {
    assert lines[i..][0] == lines[i];
    assert lines[i..][1..] == lines[i + 1..];
    if lines[i] != x {
      var rest := Unlines(RemoveAll(lines[i + 1..], x));
      assert Unlines(RemoveAll(lines[i..], x)) == lines[i] + "\n" + rest;
      assert out + (lines[i] + "\n" + rest) == out + lines[i] + "\n" + rest;
    }
  }

  /** One iteration of changeNickname: the line to write for one line read. */
  method RewriteUserLine(line: string, id: string, nickname: string) returns (written: string)
    ensures written == RenameLine(line, id, nickname)
  {
    var u := ParseUserLine(line);
    if u.Some? && u.value.id == id {
      var v := u.value;
      written := v.id + ":" + nickname + ":" + v.socketNumber + ":" + v.login + ":" + v.password;
      RenamedFields(v, nickname);
    } else {
      written := line;
    }
  }

  lemma RenameStep(lines: seq<string>, i: nat, id: string, nickname: string, out: string)
    requires i < |lines|
    ensures out + Unlines(RenameAll(lines[i..], id, nickname)) ==
      (out + RenameLine(lines[i], id, nickname) + "\n") + Unlines(RenameAll(lines[i + 1..], id, nickname))
  {
    var a := RenameLine(lines[i], id, nickname);
    var r := RenameAll(lines[i + 1..], id, nickname);
    assert lines[i..][0] == lines[i];
    assert lines[i..][1..] == lines[i + 1..];
    assert RenameAll(lines[i..], id, nickname) == [a] + r;
    UnlinesCons(out, a, r);
  }

  /** Writing one more line ahead of the lines still to come. */
  lemma UnlinesCons(out: string, a: string, r: seq<string>)
    ensures out + Unlines([a] + r) == (out + a + "\n") + Unlines(r)
  {
    assert ([a] + r)[0] == a;
    assert ([a] + r)[1..] == r;
    assert out + (a + "\n" + Unlines(r)) == out + a + "\n" + Unlines(r);
  }

  /** The getline loop of changeNickname, writing each line or its rewrite to the new file. */
  method CopyRenamed(content: string, id: string, nickname: string) returns (out: string)
    ensures out == Renamed(content, id, nickname)
  {
    var lines := Lines(content);
    out := "";
    var i := 0;
    while i < |lines|
      invariant 0 <= i <= |lines|
      invariant out + Unlines(RenameAll(lines[i..], id, nickname)) == Unlines(RenameAll(lines, id, nickname))
    {
      var written := RewriteUserLine(lines[i], id, nickname);
      RenameStep(lines, i, id, nickname, out);
      out := out + written + "\n";
      i := i + 1;
    }
  }

  /** The loop of listOfChannelsOnServer over the channels, counting each members file with channelsMembersCount. */
  method ChannelLines(d: Disk, order: seq<string>) returns (output: string)
    ensures output == ListingOf(d, order)
  {
    output := "";
    var i := 0;
    while i < |order|
      invariant 0 <= i <= |order|
      invariant output + ListingOf(d, order[i..]) == ListingOf(d, order)
    {
      var countMembers := CountLines(MembersOf(d, order[i]));
      var line := "Name: " + order[i] + ", Number of active users: " + IntToString(countMembers);
      ListingStep(d, order, i, output);
      output := output + line + "\n";
      i := i + 1;
    }
    assert order[i..] == [];
  }

  // ---------------------------------------------------------------- the DataBase object

  class DataBase {
    var disk: Disk
    /** database_names */
    var names: seq<User>
    /** database_channels */
    var channels: set<string>
    /** database_channels_members */
    var channelMembers: set<string>
    /** database_channels_history */
    var channelHistory: seq<History>

    constructor(d: Disk)
      ensures disk == d && names == [] && channels == {} && channelMembers == {} && channelHistory == []
    {
      disk := d;
      names := [];
      channels := {};
      channelMembers := {};
      channelHistory := [];
    }

    /** ChannelExists: judged on the cached channel set. */
    predicate ChannelExists(channel: string)
      reads this
    {
      channel in channels
    }

    /** MemberInChannel: judged on the cached member set. */
    predicate MemberInChannel(id: string)
      reads this
    {
      id in channelMembers
    }

    method ChannelsMembersCount(channel: string) returns (count: int)
      ensures count == |Lines(MembersOf(disk, channel))|
    {
      count := CountLines(MembersOf(disk, channel));
    }

    method ChannelsHistoryFile(channel: string) returns (entries: seq<History>)
      ensures entries == Entries(Lines(HistoryOf(disk, channel)))
    {
      entries := ReadHistory(HistoryOf(disk, channel));
    }

    /** addUser; the uuid, drawn by a random generator in the source, is a parameter. */
    method AddUser(uuid: string, username: string, socketNumber: int, login: string, password: string)
      modifies this
      ensures disk == old(disk).(users := old(disk).users + UserLine(User(uuid, username, IntToString(socketNumber), login, password, false)) + "\n")
      ensures names == old(names) && channels == old(channels) && channelMembers == old(channelMembers) && channelHistory == old(channelHistory)
    {
      var line := uuid + ":" + username + ":" + IntToString(socketNumber) + ":" + login + ":" + password;
      disk := disk.(users := disk.users + line + "\n");
    }

    method AddChannel(channel: string)
      modifies this
      ensures disk == old(disk).(channels := old(disk).channels + channel + "\n")
      ensures names == old(names) && channels == old(channels) && channelMembers == old(channelMembers) && channelHistory == old(channelHistory)
    {
      disk := disk.(channels := disk.channels + channel + "\n");
    }

    method AddChannelMember(id: string, channel: string)
      modifies this
      ensures disk == old(disk).(members := old(disk).members[channel := MembersOf(old(disk), channel) + id + "\n"])
      ensures names == old(names) && channels == old(channels) && channelMembers == old(channelMembers) && channelHistory == old(channelHistory)
    {
      disk := disk.(members := disk.members[channel := MembersOf(disk, channel) + id + "\n"]);
    }

    /** addMessageInChannel; the HH:MM:SS wall-clock time is a parameter. */
    method AddMessageInChannel(id: string, channel: string, message: string, time: string)
      modifies this
      ensures disk == old(disk).(history := old(disk).history[channel := HistoryOf(old(disk), channel) + HistoryLine(time, id, message) + "\n"])
      ensures names == old(names) && channels == old(channels) && channelMembers == old(channelMembers) && channelHistory == old(channelHistory)
    {
      var line := "[" + time + "] " + id + ": " + message;
      disk := disk.(history := disk.history[channel := HistoryOf(disk, channel) + line + "\n"]);
    }

    /** addAudioMessageToChannelHistory, the duration in whole seconds and the time a parameter. */
    method AddAudioMessageToChannelHistory(nickname: string, channel: string, audioId: string, seconds: nat, time: string)
      modifies this
      ensures disk == old(disk).(history := old(disk).history[channel := HistoryOf(old(disk), channel) + HistoryLine(time, nickname, VoicemailText(audioId, seconds)) + "\n"])
      ensures names == old(names) && channels == old(channels) && channelMembers == old(channelMembers) && channelHistory == old(channelHistory)
    {
      var duration := Pad2(seconds / 60) + ":" + Pad2(seconds % 60);
      var line := "[" + time + "] " + nickname + ": " + ("[Voicemail_ID: " + audioId + ", duration: " + duration + "]");
      disk := disk.(history := disk.history[channel := HistoryOf(disk, channel) + line + "\n"]);
    }

    /** addFileMessageToChannelHistory; formatFileSize's text and the time are parameters. */
    method AddFileMessageToChannelHistory(nickname: string, channel: string, fileId: string, filename: string, sizeText: string, time: string)
      modifies this
      ensures disk == old(disk).(history := old(disk).history[channel := HistoryOf(old(disk), channel) + HistoryLine(time, nickname, FileText(fileId, filename, sizeText)) + "\n"])
      ensures names == old(names) && channels == old(channels) && channelMembers == old(channelMembers) && channelHistory == old(channelHistory)
    {
      var line := "[" + time + "] " + nickname + ": " + ("[File_ID: " + fileId + ", Name: " + filename + ", Size: " + sizeText + "]");
      disk := disk.(history := disk.history[channel := HistoryOf(disk, channel) + line + "\n"]);
    }

    /** deleteChannelMember: a missing members file is left alone. */
    method DeleteChannelMember(id: string, channel: string)
      modifies this
      ensures channel in old(disk).members ==> disk == old(disk).(members := old(disk).members[channel := WithoutLine(old(disk).members[channel], id)])
      ensures channel !in old(disk).members ==> disk == old(disk)
      ensures names == old(names) && channels == old(channels) && channelMembers == old(channelMembers) && channelHistory == old(channelHistory)
    {
      if channel !in disk.members {
        return;
      }
      var out := CopyWithout(disk.members[channel], id);
      disk := disk.(members := disk.members[channel := out]);
    }

    /** deleteChannel: the channel's line is dropped from the channel list. */
    method DeleteChannel(channel: string)
      modifies this
      ensures disk == old(disk).(channels := WithoutLine(old(disk).channels, channel))
      ensures names == old(names) && channels == old(channels) && channelMembers == old(channelMembers) && channelHistory == old(channelHistory)
    {
      var out := CopyWithout(disk.channels, channel);
      disk := disk.(channels := out);
    }

    method ChangeNickname(id: string, newUsername: string)
      modifies this
      ensures disk == old(disk).(users := Renamed(old(disk).users, id, newUsername))
      ensures names == old(names) && channels == old(channels) && channelMembers == old(channelMembers) && channelHistory == old(channelHistory)
    {
      var out := CopyRenamed(disk.users, id, newUsername);
      disk := disk.(users := out);
    }

    /** userId: reloads database_names and returns the id of the first user with the login, "" if none. */
    method UserId(login: string) returns (id: string)
      modifies this
      ensures names == Users(disk.users)
      ensures var k := FirstWithLogin(names, login); id == if k < |names| then names[k].id else ""
      ensures disk == old(disk) && channels == old(channels) && channelMembers == old(channelMembers) && channelHistory == old(channelHistory)
    {
      names := AddFileNicknames(disk.users);
      id := "";
      var i := 0;
      while i < |names|
        invariant 0 <= i <= |names|
        invariant forall j :: 0 <= j < i ==> names[j].login != login
      {
        if names[i].login == login {
          id := names[i].id;
          return;
        }
        i := i + 1;
      }
    }

    /** userNickbyId: reloads database_names and returns the nickname of the first user with the id, "" if none. */
    method UserNickById(id: string) returns (nickname: string)
      modifies this
      ensures names == Users(disk.users)
      ensures var k := FirstWithId(names, id); nickname == if k < |names| then names[k].nickname else ""
      ensures disk == old(disk) && channels == old(channels) && channelMembers == old(channelMembers) && channelHistory == old(channelHistory)
    {
      names := AddFileNicknames(disk.users);
      nickname := "";
      var i := 0;
      while i < |names|
        invariant 0 <= i <= |names|
        invariant forall j :: 0 <= j < i ==> names[j].id != id
      {
        if names[i].id == id {
          nickname := names[i].nickname;
          return;
        }
        i := i + 1;
      }
    }

    /**
     * channelMessage, given the frame's text: the channel becomes that
     * text, the member cache is refreshed, and the channel is appended to the
     * channel list when the cached channel set lacks it. The cache itself is
     * not refreshed.
     */
    method ChannelMessage(text: string) returns (channel: string)
      modifies this
      ensures channel == text
      ensures channelMembers == TokenSet(MembersOf(old(disk), text))
      ensures disk == if text in old(channels) then old(disk) else old(disk).(channels := old(disk).channels + text + "\n")
      ensures names == old(names) && channels == old(channels) && channelHistory == old(channelHistory)
    {
      channel := text;
      channelMembers := AddFile(MembersOf(disk, channel));
      if !ChannelExists(channel) {
        AddChannel(channel);
      }
    }

    /** listOfChannelsOnServer; order is the iteration order of the reloaded channel set, each channel once. */
    method ListOfChannelsOnServer(order: seq<string>) returns (output: string)
      requires forall c :: c in order <==> c in TokenSet(disk.channels)
      requires forall i, j :: 0 <= i < j < |order| ==> order[i] != order[j]
      modifies this
      ensures channels == TokenSet(disk.channels)
      ensures output == Listing(disk, order)
      ensures disk == old(disk) && names == old(names) && channelMembers == old(channelMembers) && channelHistory == old(channelHistory)
    {
      channels := AddFile(disk.channels);
      output := "";
      if channels == {} {
        output := output + "No existing channels.\n";
        return;
      }
      output := ChannelLines(disk, order);
    }
  }

  /** idMessage: idReceived becomes true whatever the outcome; the result says whether the echoed id matches. */
  method IdMessage(receivedId: string, id: string) returns (idReceived: bool, ok: bool)
    ensures idReceived
    ensures ok <==> receivedId == id
  {
    idReceived := true;
    ok := receivedId == id;
  }

  /** nickameInSet. */
  predicate NicknameInSet(nickname: string, s: set<string>)
  {
    nickname in s
  }
}

/**
 * The client's pure checks and parsers: the login/nickname and password
 * rules applied before sign-up and log-in, the "ip:port" validators and
 * parser, the /connect command parser, isCommand, toUpper, and the two
 * variables the client keeps about channels (currentChannel, which the
 * prompt shows, and lastChannel, which a refused /join falls back to).
 */
module Client {
  import opened Wrappers
  import opened Text
  import opened Bytes
  import opened Protocol

  // ---------------------------------------------------------------- login and nickname rule

  /** A character checkLoginOrNick lets through: a C-locale letter or digit, '_', '.' or '-'. */
  predicate LoginChar(c: char)
  {
    IsAlnum(c) || c == '_' || c == '.' || c == '-'
  }

  predicate UnderscoresAt(s: string, i: nat)
    requires i + 1 < |s|
  {
    s[i] == '_' && s[i + 1] == '_'
  }

  /** login.find("__") != npos. */
  predicate HasDoubleUnderscore(s: string)
  {
    exists i: nat :: i + 1 < |s| && UnderscoresAt(s, i)
  }

  /** The rule checkLoginOrNick enforces, stated as a whole. */
  predicate ValidLogin(s: string)
  {
    && 3 <= |s| <= 24
    && s[0] != '_' && s[0] != '.' && s[0] != '-'
    && (forall i :: 0 <= i < |s| ==> LoginChar(s[i]))
    && !HasDoubleUnderscore(s)
  }

  /**
   * checkLoginOrNick: the length, then the first character, then each
   * character in turn, where an underscore triggers the search for "__".
   */
  method CheckLoginOrNick(login: string) returns (ok: bool)
    ensures ok <==> ValidLogin(login)
  {
    if |login| < 3 || |login| > 24 {
      return false;
    }
    if login[0] == '_' || login[0] == '.' || login[0] == '-' {
      return false;
    }
    var i := 0;
    while i < |login|
      invariant 0 <= i <= |login|
      invariant forall j :: 0 <= j < i ==> LoginChar(login[j])
      invariant (exists j :: 0 <= j < i && login[j] == '_') ==> !HasDoubleUnderscore(login)
    {
      var c := login[i];
      if !LoginChar(c) {
        return false;
      }
      if c == '_' && HasDoubleUnderscore(login) {
        return false;
      }
      i := i + 1;
    }
    return true;
  }

  /**
   * The help text promises a login that starts with a letter, but the
   * check lets a leading digit through.
   */
  lemma LeadingDigitAccepted()
    ensures ValidLogin("7seas")
    ensures !IsUpper('7') && !IsLower('7')
  {
    var s := "7seas";
    assert forall i: nat :: i + 1 < |s| ==> !UnderscoresAt(s, i);
  }

  /** A name with "__" anywhere is refused, whatever else it holds. */
  lemma DoubleUnderscoreRefused(a: string, b: string)
    ensures !ValidLogin(a + "__" + b)
  {
    var s := a + "__" + b;
    assert UnderscoresAt(s, |a|);
  }

  // ---------------------------------------------------------------- password rule

  /** The special characters checkPassword counts; the back-quote the help text lists is not among them. */
  predicate IsSpecial(c: char)
  {
    || c == '!' || c == '@' || c == '#' || c == '$' || c == '%'
    || c == '^' || c == '&' || c == '*' || c == '(' || c == ')'
    || c == '-' || c == '_' || c == '=' || c == '+' || c == '['
    || c == ']' || c == '{' || c == '}' || c == '|' || c == ';'
    || c == ':' || c == ',' || c == '.' || c == '<' || c == '>'
    || c == '?' || c == '/' || c == '~'
  }

  /** s[i..i + 4] is four copies of c. */
  predicate RunAt(s: string, c: char, i: nat)
    requires i + 3 < |s|
  {
    s[i] == c && s[i + 1] == c && s[i + 2] == c && s[i + 3] == c
  }

  /** password.find(std::string(4, c)) != npos. */
  predicate HasRunOf(s: string, c: char)
  {
    exists i: nat :: i + 3 < |s| && RunAt(s, c, i)
  }

  /** Some character occurs four times in a row. */
  predicate HasRepeat(s: string)
  {
    exists i: nat :: i + 3 < |s| && RunAt(s, s[i], i)
  }

  predicate HasUpper(s: string)
  {
    exists i :: 0 <= i < |s| && IsUpper(s[i])
  }

  predicate HasLower(s: string)
  {
    exists i :: 0 <= i < |s| && IsLower(s[i])
  }

  predicate HasDigit(s: string)
  {
    exists i :: 0 <= i < |s| && IsDigit(s[i])
  }

  predicate HasSpecial(s: string)
  {
    exists i :: 0 <= i < |s| && IsSpecial(s[i])
  }

  /** The rule Client::checkPassword enforces, stated as a whole. */
  predicate ValidPassword(p: string)
  {
    && 8 <= |p| <= 64
    && ' ' !in p
    && !HasRepeat(p)
    && HasUpper(p) && HasLower(p) && HasDigit(p) && HasSpecial(p)
  }

  /** The four flags of checkPassword: upper-case, lower-case, digit and special seen so far. */
  datatype Seen = Seen(upper: bool, lower: bool, digit: bool, special: bool)

  /** The flags after one more character: the first class it belongs to is marked. */
  function Mark(f: Seen, c: char): (r: Seen)
    ensures r.upper == (f.upper || IsUpper(c)) && r.lower == (f.lower || IsLower(c))
    ensures r.digit == (f.digit || IsDigit(c)) && r.special == (f.special || IsSpecial(c))
  {
    if IsUpper(c) then f.(upper := true)
    else if IsLower(c) then f.(lower := true)
    else if IsDigit(c) then f.(digit := true)
    else if IsSpecial(c) then f.(special := true)
    else f
  }

  /** The flags after scanning s from the left. */
  function SeenIn(s: string): (r: Seen)
  {
    if s == [] then Seen(false, false, false, false) else Mark(SeenIn(s[..|s| - 1]), s[|s| - 1])
  }

  /** Each flag is set exactly when some character of its class occurs. */
  lemma {:induction false} SeenInMeans(s: string)
    ensures SeenIn(s).upper <==> HasUpper(s)
    ensures SeenIn(s).lower <==> HasLower(s)
    ensures SeenIn(s).digit <==> HasDigit(s)
    ensures SeenIn(s).special <==> HasSpecial(s)
    decreases |s|
  {
    if s != [] {
      var init := s[..|s| - 1];
      SeenInMeans(init);
      assert forall j :: 0 <= j < |init| ==> init[j] == s[j];
      assert s == init + [s[|s| - 1]];
    }
  }

  /**
   * Client::checkPassword: one pass that records the four character
   * classes seen and stops at a space or at a character that occurs four
   * times in a row somewhere in the password.
   */
  method CheckPassword(password: string) returns (ok: bool)
    ensures ok <==> ValidPassword(password)
  {
    if |password| < 8 || |password| > 64 {
      return false;
    }
    var hasUpper, hasLower, hasDigit, hasSpecial := false, false, false, false;
    var i := 0;
    while i < |password|
      invariant 0 <= i <= |password|
      invariant Seen(hasUpper, hasLower, hasDigit, hasSpecial) == SeenIn(password[..i])
      invariant forall j :: 0 <= j < i ==> password[j] != ' ' && !HasRunOf(password, password[j])
    {
      var c := password[i];
      assert password[..i + 1][..i] == password[..i];
      if IsUpper(c) {
        hasUpper := true;
      } else if IsLower(c) {
        hasLower := true;
      } else if IsDigit(c) {
        hasDigit := true;
      } else if IsSpecial(c) {
        hasSpecial := true;
      }
      if c == ' ' {
        assert c in password;
        return false;
      }
      if HasRunOf(password, c) {
        RunIsRepeat(password, c);
        return false;
      }
      i := i + 1;
    }
    assert password[..i] == password;
    ScannedVerdict(password);
    if !hasUpper || !hasLower || !hasDigit || !hasSpecial {
      return false;
    }
    return true;
  }

  /** A character that occurs four times in a row gives a repeat. */
  lemma RunIsRepeat(p: string, c: char)
    requires HasRunOf(p, c)
    ensures HasRepeat(p)
  {
    var k: nat :| k + 3 < |p| && RunAt(p, c, k);
    assert RunAt(p, p[k], k);
  }

  /** After a full scan that met no space and no run of four, only the length and the four classes decide. */
  lemma ScannedVerdict(p: string)
    requires 8 <= |p| <= 64
    requires forall j :: 0 <= j < |p| ==> p[j] != ' ' && !HasRunOf(p, p[j])
    ensures var f := SeenIn(p); ValidPassword(p) <==> f.upper && f.lower && f.digit && f.special
  {
    SeenInMeans(p);
    forall i: nat | i + 3 < |p|
      ensures !RunAt(p, p[i], i)
    {
      assert !HasRunOf(p, p[i]);
    }
  }

  /** The back-quote the help text lists as special is not counted as one. */
  lemma BackQuoteNotSpecial()
    ensures !IsSpecial('`')
    ensures !ValidPassword("Abcdef1`")
  {
    var p := "Abcdef1`";
    assert forall i :: 0 <= i < |p| ==> !IsSpecial(p[i]);
  }

  /** Four equal characters in a row anywhere refuse the password. */
  lemma RepeatRefused(a: string, c: char, b: string)
    ensures !ValidPassword(a + [c, c, c, c] + b)
  {
    var s := a + [c, c, c, c] + b;
    assert RunAt(s, s[|a|], |a|);
  }

  // ---------------------------------------------------------------- ip:port

  /** Index of the first c in s (std::string::find), or |s| for npos. */
  function IndexOf(s: string, c: char): (i: nat)
    ensures i <= |s|
    ensures forall j :: 0 <= j < i ==> s[j] != c
    ensures i < |s| ==> s[i] == c
  {
    if s == [] || s[0] == c then 0 else 1 + IndexOf(s[1..], c)
  }

  /** The fields of s between the separators c. */
  function Split(s: string, c: char): (r: seq<string>)
    ensures |r| >= 1
    ensures forall k :: 0 <= k < |r| ==> c !in r[k]
    decreases |s|
  {
    var i := IndexOf(s, c);
    if i == |s| then [s] else [s[..i]] + Split(s[i + 1..], c)
  }

  lemma SplitNone(s: string, c: char)
    requires c !in s
    ensures Split(s, c) == [s]
  {
    assert IndexOf(s, c) == |s|;
  }

  lemma SplitFirst(x: string, c: char, y: string)
    requires c !in x
    ensures Split(x + [c] + y, c) == [x] + Split(y, c)
  {
    var s := x + [c] + y;
    assert s[|x|] == c;
    assert IndexOf(s, c) == |x|;
    assert s[..|x|] == x && s[|x| + 1..] == y;
  }

  /** One number of a dotted quad as isValidIp accepts it: \d{1,3} with a value of at most 255. */
  predicate Octet(f: string)
  {
    1 <= |f| <= 3 && AllDigits(f) && DigitsValue(f) <= 255
  }

  /**
   * isValidIp: the whole text matches four groups of one to three digits
   * separated by dots, and std::stoi of each group is at most 255 (on three
   * digits stoi is just the digits' value).
   */
  predicate ValidIp(ip: string)
  {
    var f := Split(ip, '.');
    |f| == 4 && Octet(f[0]) && Octet(f[1]) && Octet(f[2]) && Octet(f[3])
  }

  /** isValidPort: one to five digits whose value lies in 1..65535. */
  predicate ValidPort(p: string)
  {
    1 <= |p| <= 5 && AllDigits(p) && 1 <= DigitsValue(p) <= 65535
  }

  /**
   * isValidIpPort: the text is an address, one ':' and a port. A match of
   * the combined pattern has exactly one colon, so it is the split at ':'
   * into two fields.
   */
  predicate ValidIpPort(s: string)
  {
    var f := Split(s, ':');
    |f| == 2 && ValidIp(f[0]) && ValidPort(f[1])
  }

  /**
   * Client::ParseIpPort: the text before the first ':' and atoi of the text
   * after it. With no ':' find returns npos, and npos + 1 wraps to 0, so the
   * port is read from the whole text.
   */
  function ParseIpPort(s: string): (r: (string, int))
    ensures ':' !in r.0 && r.0 <= s
    ensures |r.0| < |s| ==> s[|r.0|] == ':'
  {
    var i := IndexOf(s, ':');
    var portText := if i == |s| then s else s[i + 1..];
    assert s[..i] <= s && |s[..i]| == i;
    (s[..i], Atoi(portText))
  }

  /** Without a colon the address is the whole text and the port atoi of the whole text. */
  lemma ParseIpPortWithoutColon(s: string)
    requires ':' !in s
    ensures ParseIpPort(s) == (s, Atoi(s))
  {
    assert IndexOf(s, ':') == |s|;
    assert s[..|s|] == s;
  }

  /** atoi of a non-empty run of digits is the run's value. */
  lemma AtoiOfDigits(d: string)
    requires |d| > 0 && AllDigits(d)
    ensures Atoi(d) == DigitsValue(d)
  {
    assert IsDigit(d[0]) && !IsSpace(d[0]);
    assert SpaceRun(d) == 0;
    assert d[0..] == d;
    assert !(d[0] == '-' || d[0] == '+');
    assert DigitRun(d) == |d| by {
      DigitRunOf(d, []);
      assert d + [] == d;
    }
    assert d[..|d|] == d;
    assert LeadingInteger(d) == Some(DigitsValue(d));
  }

  /** On an accepted "ip:port", ParseIpPort yields the address field and the port's value, which lies in 1..65535. */
  lemma ParseValidIpPort(s: string)
    requires ValidIpPort(s)
    ensures ParseIpPort(s).0 == Split(s, ':')[0]
    ensures ParseIpPort(s).1 == DigitsValue(Split(s, ':')[1])
    ensures 1 <= ParseIpPort(s).1 <= 65535
  {
    var i := IndexOf(s, ':');
    assert i < |s|;
    var port := s[i + 1..];
    assert Split(s, ':') == [s[..i]] + Split(port, ':');
    assert IndexOf(port, ':') == |port|;
    AtoiOfDigits(port);
  }

  /** The text "a.b.c.d" that a dotted quad prints as. */
  function Dotted(a: nat, b: nat, c: nat, d: nat): string
  {
    NatToString(a) + "." + (NatToString(b) + "." + (NatToString(c) + "." + NatToString(d)))
  }

  /** The text "a.b.c.d:p". */
  function Address(a: nat, b: nat, c: nat, d: nat, p: nat): string
  {
    Dotted(a, b, c, d) + ":" + NatToString(p)
  }

  /** A number below 10^k prints in at most k digits. */
  lemma {:induction false} DigitCount(n: nat, k: nat)
    requires k >= 1 && n < Pow10(k)
    ensures |NatToString(n)| <= k
    decreases k
  {
    if n >= 10 {
      assert Pow10(1) == 10;
      assert k >= 2;
      assert n / 10 < Pow10(k - 1);
      DigitCount(n / 10, k - 1);
    }
  }

  lemma OctetOf(n: nat)
    requires n <= 255
    ensures Octet(NatToString(n)) && '.' !in NatToString(n) && ':' !in NatToString(n)
  {
    assert Pow10(3) == 1000 by {
      assert Pow10(1) == 10;
      assert Pow10(2) == 100;
    }
    DigitCount(n, 3);
    DigitsValueOfNatToString(n);
    NoSeparatorInDigits(NatToString(n));
  }

  lemma NoSeparatorInDigits(d: string)
    requires AllDigits(d)
    ensures '.' !in d && ':' !in d
  {
  }

  /** Four dot-free texts joined by dots split back into the four. */
  lemma SplitFour(w: string, x: string, y: string, z: string)
    requires '.' !in w && '.' !in x && '.' !in y && '.' !in z
    ensures var r := Split(w + "." + (x + "." + (y + "." + z)), '.');
      |r| == 4 && r[0] == w && r[1] == x && r[2] == y && r[3] == z
  {
    var t3 := y + "." + z;
    var t2 := x + "." + t3;
    SplitNone(z, '.');
    SplitFirst(y, '.', z);
    var r3 := Split(t3, '.');
    assert r3 == [y, z];
    SplitFirst(x, '.', t3);
    var r2 := Split(t2, '.');
    assert r2 == [x] + r3;
    SplitFirst(w, '.', t2);
    var r := Split(w + "." + t2, '.');
    assert r == [w] + r2;
    assert r[1..] == r2 && r2[1..] == r3;
  }

  /** A printed dotted quad is a valid address without a colon. */
  lemma DottedFields(a: nat, b: nat, c: nat, d: nat)
    requires a <= 255 && b <= 255 && c <= 255 && d <= 255
    ensures ValidIp(Dotted(a, b, c, d)) && ':' !in Dotted(a, b, c, d)
  {
    OctetOf(a);
    OctetOf(b);
    OctetOf(c);
    OctetOf(d);
    SplitFour(NatToString(a), NatToString(b), NatToString(c), NatToString(d));
  }

  /** A printed port in 1..65535 is a valid port text without a colon. */
  lemma PortText(p: nat)
    requires 1 <= p <= 65535
    ensures ValidPort(NatToString(p)) && ':' !in NatToString(p)
  {
    assert Pow10(5) == 100000 by {
      assert Pow10(1) == 10;
      assert Pow10(2) == 100;
      assert Pow10(3) == 1000;
      assert Pow10(4) == 10000;
    }
    DigitCount(p, 5);
    DigitsValueOfNatToString(p);
    NoSeparatorInDigits(NatToString(p));
  }

  /**
   * A well-formed "a.b.c.d:p" is accepted, and ParseIpPort reads back the
   * printed address and the port.
   */
  lemma AddressRoundTrip(a: nat, b: nat, c: nat, d: nat, p: nat)
    requires a <= 255 && b <= 255 && c <= 255 && d <= 255
    requires 1 <= p <= 65535
    ensures ValidIpPort(Address(a, b, c, d, p))
    ensures ParseIpPort(Address(a, b, c, d, p)) == (Dotted(a, b, c, d), p)
  {
    var ip, sp := Dotted(a, b, c, d), NatToString(p);
    DottedFields(a, b, c, d);
    PortText(p);
    DigitsValueOfNatToString(p);
    SplitFirst(ip, ':', sp);
    SplitNone(sp, ':');
    assert Split(Address(a, b, c, d, p), ':') == [ip, sp];
    ParseValidIpPort(Address(a, b, c, d, p));
  }

  // ---------------------------------------------------------------- /connect

  /** The out-parameters of parseConnectCommand together with its result. */
  datatype Connect = Connect(ok: bool, ipPort: string, nick: string, channel: string)

  /**
   * parseConnectCommand on inputs whose tokens are "/connect ip:port
   * [nick [channel]]". A refusal never touches nick or channel; an
   * acceptance always carries a valid ip:port.
   */
  function ConnectOf(input: string, ipPort: string, nick: string, channel: string): (r: Connect)
    ensures !r.ok ==> r.nick == nick && r.channel == channel
    ensures r.ok ==> ValidIpPort(r.ipPort)
  {
    var t := Words(input);
    if 2 <= |t| <= 4 && t[0] == "/connect" then
      if !ValidIpPort(t[1]) then Connect(false, "", nick, channel)
      else Connect(true, t[1], if |t| >= 3 then t[2] else nick, if |t| == 4 then t[3] else channel)
    else Connect(false, ipPort, nick, channel)
  }

  /**
   * Client::parseConnectCommand: the tokens of the input, then one branch
   * for each of the accepted token counts.
   */
  method ParseConnectCommand(input: string, ipPort0: string, nick0: string, channel0: string)
    returns (ok: bool, ipPort: string, nick: string, channel: string)
    ensures Connect(ok, ipPort, nick, channel) == ConnectOf(input, ipPort0, nick0, channel0)
  {
    var tokens := Words(input);
    ipPort, nick, channel := ipPort0, nick0, channel0;
    if |tokens| == 4 && tokens[0] == "/connect" {
      ipPort := tokens[1];
      if !ValidIpPort(ipPort) {
        ipPort := "";
        return false, ipPort, nick, channel;
      }
      nick := tokens[2];
      channel := tokens[3];
      return true, ipPort, nick, channel;
    } else if |tokens| == 3 && tokens[0] == "/connect" {
      ipPort := tokens[1];
      if !ValidIpPort(ipPort) {
        ipPort := "";
        return false, ipPort, nick, channel;
      }
      nick := tokens[2];
      return true, ipPort, nick, channel;
    } else if |tokens| == 2 && tokens[0] == "/connect" {
      ipPort := tokens[1];
      if !ValidIpPort(ipPort) {
        ipPort := "";
        return false, ipPort, nick, channel;
      }
      return true, ipPort, nick, channel;
    }
    return false, ipPort, nick, channel;
  }

  /**
   * A /connect line written as "/connect ip:port" followed by up to two more
   * words is parsed back into those words; what the line leaves out keeps
   * its previous value.
   */
  lemma ConnectRoundTrip(ipPort: string, extra: seq<string>, ip0: string, nick0: string, channel0: string)
    requires ValidIpPort(ipPort) && IsWord(ipPort)
    requires |extra| <= 2 && forall k :: 0 <= k < |extra| ==> IsWord(extra[k])
    ensures ConnectOf(JoinSpaced(["/connect", ipPort] + extra), ip0, nick0, channel0)
            == Connect(true, ipPort,
                       if |extra| >= 1 then extra[0] else nick0,
                       if |extra| == 2 then extra[1] else channel0)
  {
    var ws := ["/connect", ipPort] + extra;
    ConnectWords(ipPort, extra);
    WordsOfJoinSpaced(ws);
    assert ws[0] == "/connect" && ws[1] == ipPort;
    assert |extra| >= 1 ==> ws[2] == extra[0];
    assert |extra| == 2 ==> ws[3] == extra[1];
  }

  lemma ConnectWords(ipPort: string, extra: seq<string>)
    requires IsWord(ipPort)
    requires forall k :: 0 <= k < |extra| ==> IsWord(extra[k])
    ensures var ws := ["/connect", ipPort] + extra; forall k :: 0 <= k < |ws| ==> IsWord(ws[k])
  {
    var w := "/connect";
    assert forall i :: 0 <= i < |w| ==> !IsSpace(w[i]);
    var ws := ["/connect", ipPort] + extra;
    assert forall k :: 2 <= k < |ws| ==> ws[k] == extra[k - 2];
  }

  /** A command with the right shape but a malformed address clears ip_port and changes nothing else. */
  lemma BadAddressClears(input: string, ipPort: string, nick: string, channel: string)
    requires var t := Words(input); 2 <= |t| <= 4 && t[0] == "/connect" && !ValidIpPort(t[1])
    ensures ConnectOf(input, ipPort, nick, channel) == Connect(false, "", nick, channel)
  {
  }

  // ---------------------------------------------------------------- isCommand, toUpper

  /** The client's isCommand: a '/' anywhere in the line. */
  function IsCommand(s: string): (r: bool)
    ensures r <==> exists i :: 0 <= i < |s| && s[i] == '/'
  {
    IndexOf(s, '/') < |s|
  }

  /** ::toupper in the C locale. */
  function UpperChar(c: char): (u: char)
    ensures IsLower(c) ==> IsUpper(u) && u as int == c as int - 32
    ensures !IsLower(c) ==> u == c
  {
    if IsLower(c) then (c as int - 32) as char else c
  }

  /** toUpper: std::transform with ::toupper over a copy of the same size. */
  function ToUpper(s: string): (r: string)
    ensures |r| == |s|
    ensures forall i :: 0 <= i < |s| ==> r[i] == UpperChar(s[i])
  {
    if s == [] then [] else [UpperChar(s[0])] + ToUpper(s[1..])
  }

  /** The upper-cased text has no lower-case letter left, and upper-casing again changes nothing. */
  lemma ToUpperIdempotent(s: string)
    ensures forall i :: 0 <= i < |ToUpper(s)| ==> !IsLower(ToUpper(s)[i])
    ensures ToUpper(ToUpper(s)) == ToUpper(s)
  {
    var u := ToUpper(s);
    assert forall i :: 0 <= i < |u| ==> !IsLower(u[i]);
    assert forall i :: 0 <= i < |u| ==> ToUpper(u)[i] == u[i];
  }

  // ---------------------------------------------------------------- current and last channel

  /** The client's channel variables: currentChannel (shown in the prompt) and Client::lastChannel. */
  datatype Channels = Channels(current: string, last: string)

  /** The argument of a command: the second token, or "" when there is none. */
  function Argument(command: string): string
  {
    var t := Words(command);
    if |t| >= 2 then t[1] else ""
  }

  /** commandHandler's "/join": a non-empty argument becomes current and the old current is kept as last. */
  function AfterJoin(c: Channels, command: string): (r: Channels)
    ensures Argument(command) == "" ==> r == c
    ensures Argument(command) != "" ==> r.current == Argument(command) && r.last == c.current
  {
    var x := Argument(command);
    if x == "" then c else Channels(x, c.current)
  }

  /** commandHandler's "/exit": current is cleared only when the argument names it; last is untouched. */
  function AfterExit(c: Channels, command: string): (r: Channels)
    ensures r.last == c.last
    ensures r.current == (if Argument(command) != "" && Argument(command) == c.current then "" else c.current)
  {
    var x := Argument(command);
    if x != "" && c.current == x then Channels("", c.last) else c
  }

  /**
   * ReceiveMessage for a message that is neither AUDIO nor VOICE: NO_CHANNEL
   * falls back to last (when there is one) and forgets it, DEL_CHANNEL
   * clears current; other flags leave both alone.
   */
  function AfterReply(c: Channels, typ: Byte, flag: U32): (r: Channels)
    ensures typ == TypeCode(AUDIO) || typ == TypeCode(VOICE) ==> r == c
    ensures r.last == (if typ != TypeCode(AUDIO) && typ != TypeCode(VOICE) && flag == FlagCode(NO_CHANNEL) && c.last != "" then "" else c.last)
    ensures typ != TypeCode(AUDIO) && typ != TypeCode(VOICE) ==>
              r.current == (if flag == FlagCode(NO_CHANNEL) && c.last != "" then c.last
                            else if flag == FlagCode(NO_CHANNEL) || flag == FlagCode(DEL_CHANNEL) then ""
                            else c.current)
    ensures flag != FlagCode(NO_CHANNEL) && flag != FlagCode(DEL_CHANNEL) ==> r == c
  {
    if typ == TypeCode(AUDIO) || typ == TypeCode(VOICE) then c
    else if flag == FlagCode(DEL_CHANNEL) then Channels("", c.last)
    else if flag == FlagCode(NO_CHANNEL) then
      if c.last != "" then Channels(c.last, "") else Channels("", c.last)
    else c
  }

  function StartsWithWord(command: string, w: string): bool
  {
    var t := Words(command);
    t != [] && t[0] == w
  }

  /**
   * A /join the server refuses with NO_CHANNEL puts the client back in the
   * channel it was in and leaves no saved channel behind.
   */
  lemma RefusedJoinRestores(c: Channels, command: string)
    requires Argument(command) != "" && c.current != ""
    ensures AfterReply(AfterJoin(c, command), TypeCode(TEXT), FlagCode(NO_CHANNEL)) == Channels(c.current, "")
  {
  }

  /** Two joins before the first refusal: the refusal falls back to the first joined channel, not the original one. */
  lemma SecondJoinLosesOrigin(c: Channels, first: string, second: string)
    requires Argument(first) != "" && Argument(second) != ""
    ensures AfterReply(AfterJoin(AfterJoin(c, first), second), TypeCode(TEXT), FlagCode(NO_CHANNEL))
            == Channels(Argument(first), "")
  {
  }

  /** A refusal that finds no saved channel leaves the client in none. */
  lemma RefusalWithoutLastClears(c: Channels, typ: Byte)
    requires c.last == "" && typ != TypeCode(AUDIO) && typ != TypeCode(VOICE)
    ensures AfterReply(c, typ, FlagCode(NO_CHANNEL)) == Channels("", "")
    ensures AfterReply(c, typ, FlagCode(DEL_CHANNEL)) == Channels("", "")
  {
  }

  /** The parts of the client that commandHandler and ReceiveMessage share about channels. */
  class ChannelState {
    var current: string
    var last: string

    function State(): Channels
      reads this
    {
      Channels(current, last)
    }

    /** Both start empty: currentChannel in main, lastChannel in the class definition. */
    constructor ()
      ensures State() == Channels("", "")
    {
      current := "";
      last := "";
    }

    /**
     * commandHandler's "/join" branch: with an argument it records the
     * channels and returns the request "/join X" it sends; without one it
     * refuses and sends nothing.
     */
    method Join(command: string) returns (ok: bool, request: Option<string>)
      requires StartsWithWord(command, "/join")
      modifies this
      ensures State() == AfterJoin(old(State()), command)
      ensures ok <==> Argument(command) != ""
      ensures request == if ok then Some("/join " + current) else None
    {
      var newChannel := Argument(command);
      if newChannel != "" {
        last := current;
        current := newChannel;
        ok, request := true, Some("/join " + current);
      } else {
        ok, request := false, None;
      }
    }

    /** commandHandler's "/exit" branch: with an argument it sends the command as typed. */
    method Exit(command: string) returns (ok: bool, request: Option<string>)
      requires StartsWithWord(command, "/exit")
      modifies this
      ensures State() == AfterExit(old(State()), command)
      ensures ok <==> Argument(command) != ""
      ensures request == if ok then Some(command) else None
    {
      var channel := Argument(command);
      if channel != "" {
        if current == channel {
          current := "";
        }
        ok, request := true, Some(command);
      } else {
        ok, request := false, None;
      }
    }

    /** ReceiveMessage's channel updates for one received header. */
    method Reply(typ: Byte, flag: U32)
      modifies this
      ensures State() == AfterReply(old(State()), typ, flag)
    {
      if typ == TypeCode(AUDIO) || typ == TypeCode(VOICE) {
        return;
      }
      if flag == FlagCode(DEL_CHANNEL) || flag == FlagCode(NO_CHANNEL) {
        if flag == FlagCode(NO_CHANNEL) {
          if last != "" {
            current := last;
            last := "";
          } else {
            current := "";
          }
        } else {
          current := "";
        }
      }
    }
  }
}

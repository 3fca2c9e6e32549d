/**
 * Pure line handling of the chat client: splitting an inbound payload into
 * lines, the `trim()` test that drops blank lines, and the classification of
 * one line as a keepalive probe, a chat message or noise.
 *
 * A chat line follows the message layout of section 2.3.1 of RFC 1459 --
 * `:<prefix> <command> <params> :<trailing>` -- restricted to the form
 *   `:<nick>!<user>@<host>.tmi.twitch.tv PRIVMSG #nthnunes :<body>`
 * which the client recognises with the regular expression
 *   `^:(\w+)!\w+@\w+\.tmi\.twitch\.tv PRIVMSG #nthnunes :(.+)$`.
 * That expression is replaced here by an explicit parser, `ParsePrivmsg`, and
 * its inverse, `Render`.
 */
module IrcLine {
  import opened Wrappers

  const Crlf: string := "\r\n"
  const PingKeyword: string := "PING"
  const ChatCommand: string := "PRIVMSG"
  /** Everything between the host name and the body in a chat line. */
  const HostAndChannel: string := ".tmi.twitch.tv PRIVMSG #nthnunes :"

  // ---------------------------------------------------------------------
  // Character classes
  // ---------------------------------------------------------------------

  /** The regex class `\w`, i.e. `[A-Za-z0-9_]` (no `u` or `i` flag). */
  predicate IsWordChar(c: char) {
    ('a' <= c <= 'z') || ('A' <= c <= 'Z') || ('0' <= c <= '9') || c == '_'
  }

  /** The characters the regex `.` does not match: the four line terminators. */
  predicate IsLineTerminator(c: char) {
    c == '\n' || c == '\r' || c == '\U{2028}' || c == '\U{2029}'
  }

  /** What `String.prototype.trim` removes: the line terminators and the
      ECMAScript WhiteSpace characters (tab, vertical tab, form feed, the byte
      order mark and the Unicode space separators). */
  predicate IsTrimmable(c: char) {
    IsLineTerminator(c) ||
    c == '\t' || c == '\U{000B}' || c == '\U{000C}' || c == '\U{FEFF}' ||
    c == ' ' || c == '\U{00A0}' || c == '\U{1680}' ||
    ('\U{2000}' <= c <= '\U{200A}') ||
    c == '\U{202F}' || c == '\U{205F}' || c == '\U{3000}'
  }

  // ---------------------------------------------------------------------
  // startsWith / includes
  // ---------------------------------------------------------------------

  predicate StartsWith(s: string, prefix: string) {
    |prefix| <= |s| && s[..|prefix|] == prefix
  }

  /** `s.includes(t)`. */
  predicate Contains(s: string, t: string)
    decreases |s|
  {
    StartsWith(s, t) || (|s| > 0 && Contains(s[1..], t))
  }

  lemma {:induction false} ContainsAt(s: string, t: string, i: nat)
    requires i + |t| <= |s| && s[i..i + |t|] == t
    ensures Contains(s, t)
  {
    if i > 0 {
      assert s[1..][i - 1..i - 1 + |t|] == s[i..i + |t|];
      ContainsAt(s[1..], t, i - 1);
    }
  }

  // ---------------------------------------------------------------------
  // data.split('\r\n')
  // ---------------------------------------------------------------------

  /** `s.split("\r\n")`: the pieces between non-overlapping occurrences of
      CR LF, found from left to right.  There is always at least one
      piece. */
  function SplitCrlf(s: string): (r: seq<string>)
    ensures |r| >= 1
    decreases |s|
  {
    if |s| < 2 then [s]
    else if s[..2] == Crlf then [""] + SplitCrlf(s[2..])
    else
      var rest := SplitCrlf(s[1..]);
      [[s[0]] + rest[0]] + rest[1..]
  }

  /** `pieces.join("\r\n")`, the inverse of `SplitCrlf`. */
  function JoinCrlf(pieces: seq<string>): string
  {
    if |pieces| == 0 then ""
    else if |pieces| == 1 then pieces[0]
    else pieces[0] + Crlf + JoinCrlf(pieces[1..])
  }

  predicate HasCrlf(t: string) {
    exists i :: 0 <= i < |t| - 1 && t[i] == '\r' && t[i + 1] == '\n'
  }

  /** Splitting loses nothing: joining the pieces back gives the payload. */
  lemma {:induction false} JoinSplit(s: string)
    ensures JoinCrlf(SplitCrlf(s)) == s
    decreases |s|
  {
    if |s| < 2 {
    } else if s[..2] == Crlf {
      JoinSplit(s[2..]);
      JoinSplitAtCrlf(s);
    } else {
      JoinSplit(s[1..]);
      JoinSplitAtOther(s);
    }
  }

  /** The step of `JoinSplit` for a payload that starts with CR LF. */
  lemma JoinSplitAtCrlf(s: string)
    requires |s| >= 2 && s[..2] == Crlf
    requires JoinCrlf(SplitCrlf(s[2..])) == s[2..]
    ensures JoinCrlf(SplitCrlf(s)) == s
  {
    var r := SplitCrlf(s);
    assert r[1..] == SplitCrlf(s[2..]);
    calc {
      JoinCrlf(r);
      r[0] + Crlf + JoinCrlf(r[1..]);
      s[..2] + s[2..];
      s;
    }
  }

  /** The step of `JoinSplit` for a payload that does not start with CR LF:
      its first character joins the first piece of the rest. */
  lemma JoinSplitAtOther(s: string)
    requires |s| >= 2 && s[..2] != Crlf
    requires JoinCrlf(SplitCrlf(s[1..])) == s[1..]
    ensures JoinCrlf(SplitCrlf(s)) == s
  {
    var rest := SplitCrlf(s[1..]);
    assert rest == [rest[0]] + rest[1..];
    assert SplitCrlf(s) == [[s[0]] + rest[0]] + rest[1..];
    JoinConsHead(s[0], rest[0], rest[1..]);
    assert s == [s[0]] + s[1..];
  }

  /** Putting a character in front of the first piece puts it in front of
      the joined text. */
  lemma JoinConsHead(c: char, first: string, others: seq<string>)
    ensures JoinCrlf([[c] + first] + others) == [c] + JoinCrlf([first] + others)
  {
    var r := [[c] + first] + others;
    var q := [first] + others;
    assert r[0] == [c] + first && q[0] == first;
    assert r[1..] == others && q[1..] == others;
    if |others| > 0 {
      var tail := Crlf + JoinCrlf(others);
      assert JoinCrlf(r) == ([c] + first) + tail;
      assert JoinCrlf(q) == first + tail;
    }
  }

  /** No piece contains the separator: every CR LF of the payload was cut. */
  lemma {:induction false} SplitPiecesHaveNoCrlf(s: string)
    ensures forall k :: 0 <= k < |SplitCrlf(s)| ==> !HasCrlf(SplitCrlf(s)[k])
    decreases |s|
  {
    if |s| < 2 {
    } else if s[..2] == Crlf {
      SplitPiecesHaveNoCrlf(s[2..]);
      var r := SplitCrlf(s);
      assert !HasCrlf(r[0]);
      forall k | 1 <= k < |r| ensures !HasCrlf(r[k]) {
        assert r[k] == SplitCrlf(s[2..])[k - 1];
      }
    } else {
      var rest := SplitCrlf(s[1..]);
      SplitPiecesHaveNoCrlf(s[1..]);
      var r := SplitCrlf(s);
      forall k | 1 <= k < |r| ensures !HasCrlf(r[k]) {
        assert r[k] == rest[k];
      }
    }
  }

  // ---------------------------------------------------------------------
  // .filter(line => line.trim())
  // ---------------------------------------------------------------------

  function TrimStart(s: string): (r: string)
    ensures |r| > 0 ==> !IsTrimmable(r[0])
    decreases |s|
  {
    if |s| > 0 && IsTrimmable(s[0]) then TrimStart(s[1..]) else s
  }

  function TrimEnd(s: string): string
    decreases |s|
  {
    if |s| > 0 && IsTrimmable(s[|s| - 1]) then TrimEnd(s[..|s| - 1]) else s
  }

  /** `s.trim()`. */
  function Trim(s: string): string {
    TrimEnd(TrimStart(s))
  }

  /** A line is blank when every character of it is removed by `trim()`. */
  predicate Blank(s: string) {
    forall k :: 0 <= k < |s| ==> IsTrimmable(s[k])
  }

  lemma {:induction false} TrimStartEmptyIffBlank(s: string)
    ensures TrimStart(s) == [] <==> Blank(s)
    decreases |s|
  {
    if |s| > 0 && IsTrimmable(s[0]) {
      TrimStartEmptyIffBlank(s[1..]);
      assert Blank(s) <==> Blank(s[1..]) by {
        if Blank(s[1..]) {
          forall k | 0 <= k < |s| ensures IsTrimmable(s[k]) {
            if k > 0 { assert s[k] == s[1..][k - 1]; }
          }
        }
      }
    }
  }

  lemma {:induction false} TrimEndKeepsNonBlankHead(t: string)
    requires |t| > 0 && !IsTrimmable(t[0])
    ensures TrimEnd(t) != []
    decreases |t|
  {
    if IsTrimmable(t[|t| - 1]) {
      TrimEndKeepsNonBlankHead(t[..|t| - 1]);
    }
  }

  /** The filter test of the handler: `line.trim()` is the empty string, and
      so falsy, exactly when the line is blank. */
  lemma TrimEmptyIffBlank(s: string)
    ensures Trim(s) == [] <==> Blank(s)
  {
    TrimStartEmptyIffBlank(s);
    var t := TrimStart(s);
    if t != [] {
      TrimEndKeepsNonBlankHead(t);
    }
  }

  /** The pieces whose trim is non-empty, untrimmed and in their order. */
  function KeepNonBlank(pieces: seq<string>): (r: seq<string>)
    ensures |r| <= |pieces|
  {
    if |pieces| == 0 then []
    else
      (if Trim(pieces[0]) != [] then [pieces[0]] else []) + KeepNonBlank(pieces[1..])
  }

  /** The filter keeps exactly the pieces whose trim is non-empty. */
  lemma {:induction false} KeepNonBlankMembers(pieces: seq<string>)
    ensures forall x :: x in KeepNonBlank(pieces) <==> x in pieces && Trim(x) != []
  {
    if |pieces| > 0 {
      KeepNonBlankMembers(pieces[1..]);
      assert pieces == [pieces[0]] + pieces[1..];
    }
  }

  /** Filtering works piece by piece, so it keeps the original order. */
  lemma {:induction false} KeepNonBlankAppend(a: seq<string>, b: seq<string>)
    ensures KeepNonBlank(a + b) == KeepNonBlank(a) + KeepNonBlank(b)
    decreases |a|
  {
    if |a| > 0 {
      var ab := a + b;
      var head := if Trim(a[0]) != [] then [a[0]] else [];
      assert ab[0] == a[0];
      assert ab[1..] == a[1..] + b;
      KeepNonBlankAppend(a[1..], b);
      calc {
        KeepNonBlank(ab);
        head + KeepNonBlank(a[1..] + b);
        head + (KeepNonBlank(a[1..]) + KeepNonBlank(b));
        (head + KeepNonBlank(a[1..])) + KeepNonBlank(b);
      }
    } else {
      assert a + b == b;
    }
  }

  /** The lines the handler processes for one payload. */
  function Lines(data: string): (r: seq<string>)
    ensures forall x :: x in r ==> !Blank(x)
  {
    var r := KeepNonBlank(SplitCrlf(data));
    KeepNonBlankMembers(SplitCrlf(data));
    forall x | x in r ensures !Blank(x) { TrimEmptyIffBlank(x); }
    r
  }

  // ---------------------------------------------------------------------
  // The chat-line grammar
  // ---------------------------------------------------------------------

  /** The parts of a chat line: the three names of the prefix (independent of
      each other, as in the regular expression) and the trailing body. */
  datatype Privmsg = Privmsg(nick: string, user: string, host: string, body: string)

  /** A non-empty run of `\w`. */
  predicate IsWord(w: string) {
    |w| > 0 && forall k :: 0 <= k < |w| ==> IsWordChar(w[k])
  }

  /** `(.+)$`: at least one character, none of them a line terminator. */
  predicate IsBody(b: string) {
    |b| > 0 && forall k :: 0 <= k < |b| ==> !IsLineTerminator(b[k])
  }

  predicate WellFormed(p: Privmsg) {
    IsWord(p.nick) && IsWord(p.user) && IsWord(p.host) && IsBody(p.body)
  }

  /** The grammar is stated for any fixed text `mid` between the host name
      and the body that begins with a character outside `\w`; the client's
      own grammar is the instance `mid == HostAndChannel`. */
  predicate IsSeparator(mid: string) {
    |mid| > 0 && !IsWordChar(mid[0])
  }

  /** `:<nick>!<user>@<host><mid><body>`. */
  function Render(p: Privmsg, mid: string): string {
    ":" + (p.nick + ("!" + (p.user + ("@" + (p.host + (mid + p.body))))))
  }

  /** Length of the run of `\w` characters that starts at `i`. */
  function WordRun(s: string, i: nat): (n: nat)
    requires i <= |s|
    ensures i + n <= |s|
    decreases |s| - i
  {
    if i < |s| && IsWordChar(s[i]) then 1 + WordRun(s, i + 1) else 0
  }

  /** The run is made of word characters and cannot be extended. */
  lemma {:induction false} WordRunIsMaximal(s: string, i: nat)
    requires i <= |s|
    ensures forall k :: i <= k < i + WordRun(s, i) ==> IsWordChar(s[k])
    ensures i + WordRun(s, i) == |s| || !IsWordChar(s[i + WordRun(s, i)])
    decreases |s| - i
  {
    if i < |s| && IsWordChar(s[i]) {
      WordRunIsMaximal(s, i + 1);
    }
  }

  /** The run of word characters is exactly the given word when a non-word
      character (or the end) follows it. */
  lemma {:induction false} WordRunExact(s: string, i: nat, n: nat)
    requires i + n <= |s|
    requires forall k :: i <= k < i + n ==> IsWordChar(s[k])
    requires i + n == |s| || !IsWordChar(s[i + n])
    ensures WordRun(s, i) == n
    decreases n
  {
    if n > 0 {
      WordRunExact(s, i + 1, n - 1);
    }
  }

  /** One `\w+` of the regular expression followed by the literal character
      `delim`: the index of `delim` when a non-empty run of word characters
      starts at `i` and `delim` comes right after it.  As `delim` is never a
      word character, the run has to be the whole run. */
  function WordThen(s: string, i: nat, delim: char): (r: Option<nat>)
    requires i <= |s|
    ensures r.Some? ==> i < r.value < |s| && s[r.value] == delim
  {
    var e := i + WordRun(s, i);
    if e == i || e >= |s| || s[e] != delim then None else Some(e)
  }

  /** What `WordThen` skips over is a word. */
  lemma WordThenSound(s: string, i: nat, delim: char)
    requires i <= |s| && WordThen(s, i, delim).Some?
    ensures IsWord(s[i..WordThen(s, i, delim).value])
  {
    WordRunIsMaximal(s, i);
  }

  /** A word ended by `delim` is found by `WordThen`. */
  lemma WordThenExact(s: string, i: nat, e: nat, delim: char)
    requires i < e < |s| && IsWord(s[i..e]) && s[e] == delim && !IsWordChar(delim)
    ensures WordThen(s, i, delim) == Some(e)
  {
    forall k | i <= k < e ensures IsWordChar(s[k]) {
      assert s[k] == s[i..e][k - i];
    }
    WordRunExact(s, i, e - i);
  }

  /** Where a chat line is cut: the positions of the `!`, of the `@` and of
      the first character of `mid`. */
  datatype Cuts = Cuts(bang: nat, at: nat, dot: nat)

  /** The regular expression matches `line` with its three words ending at
      the cuts `c`. */
  predicate ValidCuts(line: string, mid: string, c: Cuts) {
    0 < c.bang < c.at < c.dot && c.dot + |mid| <= |line| &&
    line[0] == ':' && line[c.bang] == '!' && line[c.at] == '@' &&
    IsWord(line[1..c.bang]) && IsWord(line[c.bang + 1..c.at]) && IsWord(line[c.at + 1..c.dot]) &&
    line[c.dot..c.dot + |mid|] == mid &&
    IsBody(line[c.dot + |mid|..])
  }

  /** The regular expression, read from left to right: `^:`, then three
      `\w+` runs ended by `!`, `@` and the first character of `mid`, then the
      rest of `mid`, then `(.+)$`. */
  function ChatCuts(line: string, mid: string): (r: Option<Cuts>)
    requires IsSeparator(mid)
    ensures r.Some? ==> 0 < r.value.bang < r.value.at < r.value.dot && r.value.dot + |mid| <= |line|
  {
    if |line| == 0 || line[0] != ':' then None
    else
      match WordThen(line, 1, '!')
      case None => None
      case Some(e1) =>
        match WordThen(line, e1 + 1, '@')
        case None => None
        case Some(e2) =>
          match WordThen(line, e2 + 1, mid[0])
          case None => None
          case Some(e3) =>
            if !StartsWith(line[e3..], mid) || !IsBody(line[e3 + |mid|..]) then None
            else Some(Cuts(e1, e2, e3))
  }

  /** Every cut the parser finds is a valid one. */
  lemma ChatCutsSound(line: string, mid: string)
    requires IsSeparator(mid) && ChatCuts(line, mid).Some?
    ensures ValidCuts(line, mid, ChatCuts(line, mid).value)
  {
    var c := ChatCuts(line, mid).value;
    WordThenSound(line, 1, '!');
    WordThenSound(line, c.bang + 1, '@');
    WordThenSound(line, c.at + 1, mid[0]);
    assert line[c.dot..][..|mid|] == line[c.dot..c.dot + |mid|];
  }

  /** Valid cuts are found by the parser: with `ChatCutsSound`, `ChatCuts`
      returns `Some(c)` exactly when `c` is valid, so valid cuts are unique. */
  lemma ChatCutsComplete(line: string, mid: string, c: Cuts)
    requires IsSeparator(mid) && ValidCuts(line, mid, c)
    ensures ChatCuts(line, mid) == Some(c)
  {
    WordThenExact(line, 1, c.bang, '!');
    WordThenExact(line, c.bang + 1, c.at, '@');
    assert line[c.dot] == line[c.dot..c.dot + |mid|][0];
    WordThenExact(line, c.at + 1, c.dot, mid[0]);
    assert line[c.dot..][..|mid|] == line[c.dot..c.dot + |mid|];
  }

  /** The parts of a matching line, or `None` (the regex's `null`). */
  function ParsePrivmsg(line: string, mid: string): (r: Option<Privmsg>)
    requires IsSeparator(mid)
  {
    match ChatCuts(line, mid)
    case None => None
    case Some(c) =>
      Some(Privmsg(line[1..c.bang], line[c.bang + 1..c.at], line[c.at + 1..c.dot],
                   line[c.dot + |mid|..]))
  }

  /** A suffix of a sequence is the slice up to `j` followed by the rest. */
  lemma SuffixSplit(s: string, i: nat, j: nat)
    requires i <= j <= |s|
    ensures s[i..] == s[i..j] + s[j..]
  {
  }

  /** Every match is a well-formed chat line, and printing it back gives the
      line that was matched. */
  lemma ParseSound(line: string, mid: string)
    requires IsSeparator(mid)
    requires ParsePrivmsg(line, mid).Some?
    ensures WellFormed(ParsePrivmsg(line, mid).value)
    ensures Render(ParsePrivmsg(line, mid).value, mid) == line
  {
    var c := ChatCuts(line, mid).value;
    var p := Privmsg(line[1..c.bang], line[c.bang + 1..c.at], line[c.at + 1..c.dot], line[c.dot + |mid|..]);
    assert ParsePrivmsg(line, mid).value == p;
    ChatCutsSound(line, mid);
    SoundAtCuts(line, mid, c);
  }

  /** The parts between valid cuts are well formed and render back to the
      line. */
  lemma SoundAtCuts(line: string, mid: string, c: Cuts)
    requires ValidCuts(line, mid, c)
    ensures var p := Privmsg(line[1..c.bang], line[c.bang + 1..c.at], line[c.at + 1..c.dot], line[c.dot + |mid|..]);
      WellFormed(p) && Render(p, mid) == line
  {
    RenderAtCuts(line, mid, c.bang, c.at, c.dot);
  }

  /** A line cut at `!`, `@` and the start of `mid` is the rendering of the
      pieces between the cuts. */
  lemma RenderAtCuts(line: string, mid: string, e1: nat, e2: nat, e3: nat)
    requires 0 < e1 < e2 < e3 && e3 + |mid| <= |line|
    requires line[0] == ':' && line[e1] == '!' && line[e2] == '@' && line[e3..e3 + |mid|] == mid
    ensures Render(Privmsg(line[1..e1], line[e1 + 1..e2], line[e2 + 1..e3], line[e3 + |mid|..]), mid) == line
  {
    RenderTailAtCuts(line, mid, e2, e3);
    var t1 := line[e2..];
    SuffixSplit(line, e1 + 1, e2);
    var t0 := line[e1 + 1..];
    assert t0 == line[e1 + 1..e2] + t1;
    SuffixSplit(line, e1, e1 + 1);
    assert line[e1..] == "!" + t0;
    SuffixSplit(line, 1, e1);
    assert line[1..] == line[1..e1] + line[e1..];
    SuffixSplit(line, 0, 1);
    assert line == ":" + line[1..];
  }

  /** The part of a cut line from the `@` on. */
  lemma RenderTailAtCuts(line: string, mid: string, e2: nat, e3: nat)
    requires e2 < e3 && e3 + |mid| <= |line|
    requires line[e2] == '@' && line[e3..e3 + |mid|] == mid
    ensures line[e2..] == "@" + (line[e2 + 1..e3] + (mid + line[e3 + |mid|..]))
  {
    var body := line[e3 + |mid|..];
    SuffixSplit(line, e3, e3 + |mid|);
    var t3 := line[e3..];
    assert t3 == mid + body;
    SuffixSplit(line, e2 + 1, e3);
    var t2 := line[e2 + 1..];
    assert t2 == line[e2 + 1..e3] + t3;
    SuffixSplit(line, e2, e2 + 1);
    assert line[e2..] == "@" + t2;
  }

  /** Every well-formed chat line is matched, with exactly its own parts:
      with `ParseSound`, `ParsePrivmsg` and `Render` are inverse bijections
      between matching lines and well-formed parts. */
  lemma ParseComplete(p: Privmsg, mid: string)
    requires IsSeparator(mid) && WellFormed(p)
    ensures ParsePrivmsg(Render(p, mid), mid) == Some(p)
  {
    RenderLayout(p, mid);
    ParseOfLayout(Render(p, mid), p, mid);
  }

  /** A line laid out from well-formed parts is matched with those parts. */
  lemma ParseOfLayout(line: string, p: Privmsg, mid: string)
    requires IsSeparator(mid) && WellFormed(p)
    requires var e1 := 1 + |p.nick|; var e2 := e1 + 1 + |p.user|; var e3 := e2 + 1 + |p.host|;
      e3 + |mid| <= |line| &&
      line[0] == ':' && line[1..e1] == p.nick && line[e1] == '!' &&
      line[e1 + 1..e2] == p.user && line[e2] == '@' &&
      line[e2 + 1..e3] == p.host &&
      line[e3..e3 + |mid|] == mid && line[e3 + |mid|..] == p.body
    ensures ParsePrivmsg(line, mid) == Some(p)
  {
    var e1 := 1 + |p.nick|;
    var e2 := e1 + 1 + |p.user|;
    var e3 := e2 + 1 + |p.host|;
    var c := Cuts(e1, e2, e3);
    assert ValidCuts(line, mid, c);
    ChatCutsComplete(line, mid, c);
    ParseAtCuts(line, mid, c);
  }

  /** The parts `ParsePrivmsg` returns are the pieces between the cuts. */
  lemma ParseAtCuts(line: string, mid: string, c: Cuts)
    requires IsSeparator(mid) && ChatCuts(line, mid) == Some(c)
    ensures ParsePrivmsg(line, mid) ==
      Some(Privmsg(line[1..c.bang], line[c.bang + 1..c.at], line[c.at + 1..c.dot], line[c.dot + |mid|..]))
  {
  }

  /** Where the pieces of a rendered chat line lie. */
  lemma RenderLayout(p: Privmsg, mid: string)
    requires |mid| > 0
    ensures var line := Render(p, mid);
      var e1 := 1 + |p.nick|; var e2 := e1 + 1 + |p.user|; var e3 := e2 + 1 + |p.host|;
      e3 + |mid| <= |line| &&
      line[0] == ':' && line[1..e1] == p.nick && line[e1] == '!' &&
      line[e1 + 1..e2] == p.user && line[e2] == '@' &&
      line[e2 + 1..e3] == p.host && line[e3] == mid[0] &&
      line[e3..e3 + |mid|] == mid && line[e3 + |mid|..] == p.body
  {
    var line := Render(p, mid);
    var e1 := 1 + |p.nick|;
    var e2 := e1 + 1 + |p.user|;
    var e3 := e2 + 1 + |p.host|;
    var t3 := mid + p.body;
    var t2 := p.host + t3;
    var t1 := "@" + t2;
    var t0 := p.user + t1;
    assert line[1..] == p.nick + ("!" + t0);
    assert line[1..e1] == p.nick && line[e1] == '!';
    assert line[e1 + 1..] == t0;
    assert line[e1 + 1..e2] == p.user && line[e2] == '@';
    assert line[e2 + 1..] == t2;
    assert line[e2 + 1..e3] == p.host;
    assert line[e3..] == t3;
  }

  // ---------------------------------------------------------------------
  // Classification of one line
  // ---------------------------------------------------------------------

  /** The chat line of the client's grammar:
      `:<nick>!<user>@<host>.tmi.twitch.tv PRIVMSG #nthnunes :<body>`. */
  function ChatLine(p: Privmsg): string {
    Render(p, HostAndChannel)
  }

  lemma HostAndChannelIsSeparator()
    ensures IsSeparator(HostAndChannel)
  {
    assert HostAndChannel[0] == '.';
  }

  /** The client's regular expression applied to one line. */
  function MatchChat(line: string): Option<Privmsg> {
    HostAndChannelIsSeparator();
    ParsePrivmsg(line, HostAndChannel)
  }

  datatype LineKind = Ping | Chat(username: string, body: string) | Ignore

  /** The decision the handler takes for one line: a line starting with
      `PING` is a keepalive probe (even if it also contains `PRIVMSG`); a line
      containing `PRIVMSG` that matches the chat grammar is a chat message;
      anything else is ignored. */
  function Classify(line: string): (k: LineKind)
    ensures k == Ping <==> StartsWith(line, PingKeyword)
    ensures k.Chat? ==> MatchChat(line).Some? && !StartsWith(line, PingKeyword)
  {
    if StartsWith(line, PingKeyword) then Ping
    else if Contains(line, ChatCommand) then
      match MatchChat(line)
      case Some(p) => Chat(p.nick, p.body)
      case None => Ignore
    else Ignore
  }

  /** Every chat line contains the word `PRIVMSG`, so the `includes` test
      before the match never turns a chat line away. */
  lemma ChatLineContainsCommand(p: Privmsg)
    ensures Contains(ChatLine(p), ChatCommand)
  {
    var line := ChatLine(p);
    var at := 1 + |p.nick| + 1 + |p.user| + 1 + |p.host|;
    var t := HostAndChannel + p.body;
    assert line[at..] == t;
    assert HostAndChannel[15..22] == ChatCommand;
    assert t[15..22] == ChatCommand;
    assert line[at + 15..at + 22] == ChatCommand;
    ContainsAt(line, ChatCommand, at + 15);
  }

  /** Every line the regular expression matches contains `PRIVMSG`. */
  lemma MatchContainsCommand(line: string)
    requires MatchChat(line).Some?
    ensures Contains(line, ChatCommand)
  {
    HostAndChannelIsSeparator();
    ParseSound(line, HostAndChannel);
    ChatLineContainsCommand(MatchChat(line).value);
  }

  /** A line is classified as the chat message `(u, b)` exactly when it does
      not start with `PING` and the regular expression matches it with nick
      `u` and body `b`. */
  lemma ClassifyChatIff(line: string, u: string, b: string)
    ensures Classify(line) == Chat(u, b) <==>
      !StartsWith(line, PingKeyword) && MatchChat(line).Some? &&
      MatchChat(line).value.nick == u && MatchChat(line).value.body == b
  {
    if MatchChat(line).Some? {
      MatchContainsCommand(line);
    }
  }

  /** A line that does not start with `PING` and does not match the grammar
      is ignored, whether or not it contains `PRIVMSG`. */
  lemma IgnoreIffNoMatch(line: string)
    ensures Classify(line) == Ignore <==>
      !StartsWith(line, PingKeyword) && MatchChat(line).None?
  {
    if MatchChat(line).Some? {
      MatchContainsCommand(line);
    }
  }

  /** Round trip: a well-formed chat line -- bodies may contain `:`, and the
      three names need not agree -- is classified as the chat message of its
      nick and body. */
  lemma ChatRoundTrip(p: Privmsg)
    requires WellFormed(p)
    ensures Classify(ChatLine(p)) == Chat(p.nick, p.body)
  {
    HostAndChannelIsSeparator();
    ParseComplete(p, HostAndChannel);
    var line := ChatLine(p);
    assert line[0] == ':';
    NotProbe(line);
    ClassifyMatched(line, p);
  }

  /** A line whose first character is not `P` is not a keepalive probe. */
  lemma NotProbe(line: string)
    requires |line| > 0 && line[0] != 'P'
    ensures !StartsWith(line, PingKeyword)
  {
    if |PingKeyword| <= |line| {
      assert line[..|PingKeyword|][0] == line[0];
    }
  }

  /** A line that does not start with `PING` and is matched with parts `p`
      is the chat message of `p`'s nick and body. */
  lemma ClassifyMatched(line: string, p: Privmsg)
    requires !StartsWith(line, PingKeyword) && MatchChat(line) == Some(p)
    ensures Classify(line) == Chat(p.nick, p.body)
  {
    MatchContainsCommand(line);
  }
}

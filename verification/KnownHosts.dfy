/** Host and port splitting and the known-hosts update of allama/ssh.py. Lines stand for
    the lines of the file and of the scanner's output, without their ends. */
module KnownHosts {
  import opened Prelude

  predicate Digits(s: string) {
    s != "" && forall i :: 0 <= i < |s| ==> '0' <= s[i] <= '9'
  }

  /** The place of the first `c` in `s`, or the length of `s`. */
  function IndexOf(s: string, c: char): (i: nat)
    ensures i <= |s| && (i < |s| ==> s[i] == c)
    ensures forall k :: 0 <= k < i ==> s[k] != c
  {
    if s == "" || s[0] == c then 0 else 1 + IndexOf(s[1..], c)
  }

  lemma IndexOfFirst(s: string, c: char, i: nat)
    requires i < |s| && s[i] == c && forall k :: 0 <= k < i ==> s[k] != c
    ensures IndexOf(s, c) == i
  {
  }

  datatype HostPort = HostPort(host: string, port: Option<string>)

  function SplitHostPort(url: string): HostPort {
    if url != "" && url[0] == '[' && ']' in url then
      var closing := IndexOf(url, ']');
      assert closing < |url|;
      var host, rest := url[1..closing], url[closing + 1..];
      if rest != "" && rest[0] == ':' && Digits(rest[1..]) then HostPort(host, Some(rest[1..]))
      else if rest == "" then HostPort(host, None)
      else HostPort(url, None)
    else
      var colon := IndexOf(url, ':');
      if colon < |url| && ':' !in url[colon + 1..] && Digits(url[colon + 1..])
      then HostPort(url[..colon], Some(url[colon + 1..]))
      else HostPort(url, None)
  }

  function Formatted(h: HostPort): string {
    match h.port
    case None => h.host
    case Some(port) => "[" + h.host + "]:" + port
  }

  lemma PortIsDigits(url: string)
    ensures SplitHostPort(url).port.Some? ==> Digits(SplitHostPort(url).port.value)
  {
  }

  lemma SplitBracketed(host: string, port: string)
    requires Digits(port) && ']' !in host
    ensures SplitHostPort(Formatted(HostPort(host, Some(port)))) == HostPort(host, Some(port))
  {
    var f := "[" + host + "]:" + port;
    assert f[|host| + 1] == ']';
    forall k | 0 <= k < |host| + 1
      ensures f[k] != ']'
    {
      assert k > 0 ==> f[k] == host[k - 1];
    }
    IndexOfFirst(f, ']', |host| + 1);
    assert f[1..|host| + 1] == host && f[|host| + 2..] == ":" + port;
    assert (":" + port)[1..] == port;
  }

  lemma SplitPlain(host: string, port: string)
    requires Digits(port) && ':' !in host && ':' !in port && (host != "" ==> host[0] != '[')
    ensures SplitHostPort(host + ":" + port) == HostPort(host, Some(port))
  {
    var url := host + ":" + port;
    assert url[0] == if host == "" then ':' else host[0];
    IndexOfFirst(url, ':', |host|);
    assert url[..|host|] == host && url[|host| + 1..] == port;
  }

  /** Splitting the bracketed form gives back host and port exactly for hosts without a
      closing bracket. */
  lemma SplitFormatted(host: string, port: string)
    requires Digits(port)
    ensures SplitHostPort(Formatted(HostPort(host, Some(port)))) == HostPort(host, Some(port)) <==> ']' !in host
  {
    if ']' !in host {
      SplitBracketed(host, port);
    } else {
      var f := "[" + host + "]:" + port;
      var i :| 0 <= i < |host| && host[i] == ']';
      assert f[i + 1] == ']';
      assert f != "" && f[0] == '[' && ']' in f;
      assert IndexOf(f, ']') <= i + 1;
    }
  }

  /** So formatting what was split loses nothing, for the same hosts. */
  lemma FormattedSplitsTheSame(url: string)
    ensures var h := SplitHostPort(url);
            h.port.Some? ==> (SplitHostPort(Formatted(h)) == h <==> ']' !in h.host)
  {
    var h := SplitHostPort(url);
    if h.port.Some? {
      PortIsDigits(url);
      SplitFormatted(h.host, h.port.value);
    }
  }

  /** A bracketed url is read up to its first closing bracket. */
  lemma SplitInBrackets(host: string, rest: string)
    requires ']' !in host
    ensures var url := "[" + host + "]" + rest;
            SplitHostPort(url)
            == if rest == "" then HostPort(host, None)
               else if rest[0] == ':' && Digits(rest[1..]) then HostPort(host, Some(rest[1..]))
               else HostPort(url, None)
  {
    var url := "[" + host + "]" + rest;
    assert url[|host| + 1] == ']';
    forall k | 0 <= k < |host| + 1
      ensures url[k] != ']'
    {
      assert k > 0 ==> url[k] == host[k - 1];
    }
    IndexOfFirst(url, ']', |host| + 1);
    assert url[1..|host| + 1] == host && url[|host| + 2..] == rest;
  }

  /** Any other url has a port exactly if digits follow its only colon. */
  lemma SplitElsewhere(url: string)
    requires !(url != "" && url[0] == '[' && ']' in url)
    ensures forall host, port :: url == host + (":" + port) && ':' !in host && Digits(port) ==>
              SplitHostPort(url) == HostPort(host, Some(port))
    ensures (forall host, port :: url == host + (":" + port) && ':' !in host ==> !Digits(port)) ==>
              SplitHostPort(url) == HostPort(url, None)
  {
    forall host, port | url == host + (":" + port) && ':' !in host && Digits(port)
      ensures SplitHostPort(url) == HostPort(host, Some(port))
    {
      assert ':' !in port;
      IndexOfFirst(url, ':', |host|);
      assert url[..|host|] == host && url[|host| + 1..] == port;
    }
    var colon := IndexOf(url, ':');
    if colon < |url| {
      assert url == url[..colon] + (":" + url[colon + 1..]);
      assert ':' !in url[..colon];
    }
  }

  // ------------------------------------------------- the known-hosts file

  predicate Space(c: char) {
    c == ' ' || c == '\t' || c == '\n' || c == '\r'
  }

  function SkipSpace(s: string): string {
    if s != "" && Space(s[0]) then SkipSpace(s[1..]) else s
  }

  function Word(s: string): string {
    if s == "" || Space(s[0]) then "" else [s[0]] + Word(s[1..])
  }

  /** The host column of a line; empty for blank lines and comments. */
  function HostColumn(line: string): string {
    var s := SkipSpace(line);
    if s != "" && s[0] == '#' then "" else Word(s)
  }

  /** The first of the comma-separated hosts of the column that is a token. */
  function FirstMatch(column: string, tokens: set<string>): Option<string>
    decreases |column|
  {
    var comma := IndexOf(column, ',');
    if column[..comma] in tokens then Some(column[..comma])
    else if comma < |column| then FirstMatch(column[comma + 1..], tokens)
    else None
  }

  /** An empty match is no match, even where a later host of the column is a token. */
  predicate Known(line: string, tokens: set<string>) {
    HostColumn(line) != "" && FirstMatch(HostColumn(line), tokens) !in {None, Some("")}
  }

  predicate Any(lines: seq<string>, p: string -> bool) {
    exists i :: 0 <= i < |lines| && p(lines[i])
  }

  lemma AnyConcat(first: seq<string>, second: seq<string>, p: string -> bool)
    ensures Any(first + second, p) <==> Any(first, p) || Any(second, p)
  {
    var all := first + second;
    if i :| 0 <= i < |first| && p(first[i]) {
      assert p(all[i]);
    }
    if i :| 0 <= i < |second| && p(second[i]) {
      assert p(all[|first| + i]);
    }
  }

  /** What the search asks of a line. */
  function Knows(tokens: set<string>): string -> bool {
    line => Known(line, tokens)
  }

  predicate AnyKnown(lines: seq<string>, tokens: set<string>) {
    Any(lines, Knows(tokens))
  }

  function Tokens(url: string): set<string> {
    var h := SplitHostPort(url);
    {url, Formatted(h), h.host}
  }

  /** With a port, lines that begin with the host get the bracketed form. */
  function Rewrite(h: HostPort, line: string): string {
    if h.port.Some? && h.host <= line then Formatted(h) + line[|h.host|..] else line
  }

  function RewriteAll(h: HostPort, lines: seq<string>): (r: seq<string>)
    ensures |r| == |lines|
  {
    seq(|lines|, i requires 0 <= i < |lines| => Rewrite(h, lines[i]))
  }

  method FindFirst(lines: seq<string>, p: string -> bool) returns (found: bool)
    ensures found <==> Any(lines, p)
  {
    for i := 0 to |lines|
      invariant forall k :: 0 <= k < i ==> !p(lines[k])
    {
      if p(lines[i]) {
        return true;
      }
    }
    return false;
  }

  method RewriteLines(h: HostPort, output: seq<string>) returns (rewritten: seq<string>)
    ensures rewritten == RewriteAll(h, output)
  {
    rewritten := [];
    for i := 0 to |output|
      invariant |rewritten| == i && forall k :: 0 <= k < i ==> rewritten[k] == Rewrite(h, output[k])
    {
      if h.port.Some? && h.host <= output[i] {
        rewritten := rewritten + [Formatted(h) + output[i][|h.host|..]];
      } else {
        rewritten := rewritten + [output[i]];
      }
    }
  }

  /** What is written for a scanned line: with a port, the host at its beginning in brackets
      and the port, then the rest of the line; every other line as it is. */
  ghost predicate WrittenFor(h: HostPort, line: string, written: string) {
    match h.port
    case None => written == line
    case Some(port) =>
      if h.host <= line then written == "[" + h.host + "]:" + port + line[|h.host|..] else written == line
  }

  lemma RewriteIsWritten(h: HostPort, line: string)
    ensures WrittenFor(h, line, Rewrite(h, line))
  {
  }

  /** The names under which a host is looked up. */
  ghost function NamesOf(url: string, h: HostPort): set<string> {
    {url, h.host} + match h.port case None => {} case Some(port) => {"[" + h.host + "]:" + port}
  }

  /** Adds the scanned keys unless the host is known; `scan` is None where the scanner
      fails, which the source raises. */
  method AddHost(url: string, lines: seq<string>, scan: Option<seq<string>>) returns (r: Option<seq<string>>)
    ensures AnyKnown(lines, Tokens(url)) ==> r == Some(lines)
    ensures !AnyKnown(lines, Tokens(url)) && scan.None? ==> r == None
    ensures !AnyKnown(lines, Tokens(url)) && scan.Some? ==>
              r == Some(lines + RewriteAll(SplitHostPort(url), scan.value))
    ensures !AnyKnown(lines, NamesOf(url, SplitHostPort(url))) && scan.Some? ==>
              && r.Some? && |r.value| == |lines| + |scan.value| && lines <= r.value
              && forall i :: 0 <= i < |scan.value| ==>
                   WrittenFor(SplitHostPort(url), scan.value[i], r.value[|lines| + i])
  {
    assert NamesOf(url, SplitHostPort(url)) == Tokens(url);
    forall line
      ensures WrittenFor(SplitHostPort(url), line, Rewrite(SplitHostPort(url), line))
    {
      RewriteIsWritten(SplitHostPort(url), line);
    }
    var h := SplitHostPort(url);
    var tokens := if h.port.Some? then {url, Formatted(h), h.host} else {url, Formatted(h)};
    assert tokens == Tokens(url);
    var known := FindFirst(lines, Knows(tokens));
    if known {
      return Some(lines);
    }
    match scan
    case None =>
      return None;
    case Some(output) =>
      var rewritten := RewriteLines(h, output);
      return Some(lines + rewritten);
  }

  // ------------------------------------------------- adding twice

  predicate NoSpace(s: string) {
    forall i :: 0 <= i < |s| ==> !Space(s[i])
  }

  lemma {:induction false} WordAcross(s: string, rest: string)
    requires NoSpace(s)
    ensures Word(s + rest) == s + Word(rest)
  {
    if s == "" {
      assert s + rest == rest;
    } else {
      WordAcross(s[1..], rest);
      assert (s + rest)[1..] == s[1..] + rest;
    }
  }

  lemma {:induction false} WordHasNoSpace(s: string)
    ensures NoSpace(Word(s))
  {
    if s != "" && !Space(s[0]) {
      WordHasNoSpace(s[1..]);
    }
  }

  lemma {:induction false} SkippedHasNoSpace(line: string)
    ensures SkipSpace(line) != "" ==> !Space(SkipSpace(line)[0])
    ensures NoSpace(HostColumn(line))
  {
    if line != "" && Space(line[0]) {
      SkippedHasNoSpace(line[1..]);
    }
    WordHasNoSpace(SkipSpace(line));
  }

  /** The column of a line that begins with a word going on in the rest. */
  lemma ColumnAcross(s: string, line: string)
    requires s != "" && NoSpace(s) && s[0] != '#' && s <= line
    ensures HostColumn(line) == s + Word(line[|s|..])
  {
    var rest := line[|s|..];
    assert line == s + rest;
    WordAcross(s, rest);
    assert SkipSpace(line) == line;
  }

  /** A single host without a comma is known exactly if it is a token. */
  lemma SingleKnown(line: string, tokens: set<string>)
    requires HostColumn(line) != "" && ',' !in HostColumn(line)
    ensures Known(line, tokens) <==> HostColumn(line) in tokens
  {
    var column := HostColumn(line);
    assert IndexOf(column, ',') == |column|;
    assert column[..|column|] == column;
  }

  lemma {:induction false} MatchHasNoComma(column: string, tokens: set<string>)
    ensures var found := FirstMatch(column, tokens); found.Some? ==> found.value in tokens && ',' !in found.value
    decreases |column|
  {
    var comma := IndexOf(column, ',');
    if column[..comma] !in tokens && comma < |column| {
      MatchHasNoComma(column[comma + 1..], tokens);
    }
  }

  /** What a url looks like around its host. */
  ghost predicate Surrounds(h: HostPort, url: string) {
    match h.port
    case None => url == h.host || url == "[" + h.host + "]"
    case Some(port) => url == h.host + ":" + port || url == "[" + h.host + "]:" + port
  }

  lemma UrlHoldsHost(url: string)
    ensures Surrounds(SplitHostPort(url), url)
  {
    if url != "" && url[0] == '[' && ']' in url {
      var closing := IndexOf(url, ']');
      BracketsAround(url, closing);
    } else {
      var colon := IndexOf(url, ':');
      assert colon < |url| ==> url == url[..colon] + ":" + url[colon + 1..];
    }
  }

  lemma BracketsAround(url: string, closing: nat)
    requires 0 < closing < |url| && url[0] == '[' && url[closing] == ']'
    ensures closing + 1 == |url| ==> url == "[" + url[1..closing] + "]"
    ensures closing + 1 < |url| && url[closing + 1] == ':' ==>
              url == "[" + url[1..closing] + "]:" + url[closing + 2..]
  {
  }

  lemma SurroundsHost(h: HostPort, url: string)
    requires Surrounds(h, url)
    ensures ',' in h.host ==> ',' in url && ',' in Formatted(h)
    ensures h.port.Some? ==> |url| <= |Formatted(h)| && |h.host| <= |Formatted(h)|
  {
  }

  /** Every token contains the host, and none is longer than the formatted form. */
  lemma TokensHoldHost(url: string, token: string)
    requires token in Tokens(url)
    ensures ',' in SplitHostPort(url).host ==> ',' in token
    ensures SplitHostPort(url).port.Some? ==> |token| <= |Formatted(SplitHostPort(url))|
  {
    UrlHoldsHost(url);
    SurroundsHost(SplitHostPort(url), url);
  }

  /** A host with a comma is never found in the file. */
  lemma CommaNeverKnown(url: string, line: string)
    requires ',' in SplitHostPort(url).host
    ensures !Known(line, Tokens(url))
  {
    var found := FirstMatch(HostColumn(line), Tokens(url));
    MatchHasNoComma(HostColumn(line), Tokens(url));
    if found.Some? {
      TokensHoldHost(url, found.value);
    }
  }

  /** A line of the scanner for the host, written plainly or in the bracketed form. */
  predicate ForHost(h: HostPort, line: string) {
    HostColumn(line) != "" && (HostColumn(line) == h.host || HostColumn(line) == Formatted(h))
  }

  /** The rewriting leaves the host readable: it does not prefix the bracketed form again. */
  predicate StaysReadable(h: HostPort, line: string) {
    ',' !in h.host
    && (HostColumn(line) == h.host
        || !(h.port.Some? && h.host <= line)
        || (h.host == "" && line != "" && Space(line[0])))
  }

  lemma BracketedColumn(h: HostPort, rest: string)
    requires h.port.Some? && Digits(h.port.value) && NoSpace(h.host)
    ensures HostColumn(Formatted(h) + rest) == Formatted(h) + Word(rest)
  {
    var f := Formatted(h);
    assert (f + rest)[|f|..] == rest;
    ColumnAcross(f, f + rest);
  }

  lemma {:induction false} EmptyWord(s: string)
    ensures Word(s) == "" <==> s == "" || Space(s[0])
  {
  }

  lemma FormattedHasNoComma(h: HostPort)
    requires (h.port.Some? ==> Digits(h.port.value)) && ',' !in h.host
    ensures ',' !in Formatted(h)
  {
    var f := Formatted(h);
    forall i | 0 <= i < |f|
      ensures f[i] != ','
    {
      if h.port.Some? && 1 <= i <= |h.host| {
        assert f[i] == h.host[i - 1];
      }
    }
  }

  lemma ForHostHasNoComma(h: HostPort, line: string)
    requires ForHost(h, line) && (h.port.Some? ==> Digits(h.port.value)) && ',' !in h.host
    ensures ',' !in HostColumn(line)
  {
    FormattedHasNoComma(h);
  }

  /** What follows the host in a line of the scanner that begins with it. */
  lemma AfterHost(h: HostPort, line: string)
    requires ForHost(h, line) && h.port.Some? && Digits(h.port.value) && h.host <= line
    ensures NoSpace(h.host)
    ensures Word(line[|h.host|..]) == "" <==>
              HostColumn(line) == h.host || (h.host == "" && line != "" && Space(line[0]))
    ensures ',' !in h.host ==> ',' !in Word(line[|h.host|..])
  {
    SkippedHasNoSpace(line);
    if ',' !in h.host {
      ForHostHasNoComma(h, line);
    }
    assert NoSpace(h.host) by {
      if HostColumn(line) == Formatted(h) {
        forall i | 0 <= i < |h.host|
          ensures !Space(h.host[i])
        {
          assert Formatted(h)[i + 1] == h.host[i];
        }
      }
    }
    if h.host == "" {
      assert line[|h.host|..] == line;
      EmptyWord(line);
      assert Word(line) in {"", HostColumn(line)};
    } else {
      ColumnAcross(h.host, line);
    }
  }

  lemma {:induction false} SkipBlank(pad: string, s: string)
    requires (forall i :: 0 <= i < |pad| ==> pad[i] in " \t\n\r") && (s != "" ==> s[0] !in " \t\n\r")
    ensures SkipSpace(pad + s) == s
  {
    if pad == "" {
      assert pad + s == s;
    } else {
      SkipBlank(pad[1..], s);
      assert (pad + s)[1..] == pad[1..] + s;
    }
  }

  /** The host column is the first word after white space; blank lines and comments have
      none. */
  lemma ColumnIsFirstWord(pad: string, word: string, rest: string)
    requires forall i :: 0 <= i < |pad| ==> pad[i] in " \t\n\r"
    requires forall i :: 0 <= i < |word| ==> word[i] !in " \t\n\r"
    requires rest != "" ==> word != "" && rest[0] in " \t\n\r"
    ensures HostColumn(pad + (word + rest)) == if word != "" && word[0] == '#' then "" else word
  {
    SkipBlank(pad, word + rest);
    assert NoSpace(word);
    WordAcross(word, rest);
    EmptyWord(rest);
  }

  /** The hosts of a column are tried one by one; the first token ends the search. */
  lemma MatchStep(host: string, rest: string, tokens: set<string>)
    requires ',' !in host
    ensures FirstMatch(host, tokens) == if host in tokens then Some(host) else None
    ensures FirstMatch(host + ("," + rest), tokens)
            == if host in tokens then Some(host) else FirstMatch(rest, tokens)
  {
    assert IndexOf(host, ',') == |host|;
    assert host[..|host|] == host;
    var column := host + ("," + rest);
    IndexOfFirst(column, ',', |host|);
    assert column[..|host|] == host && column[|host| + 1..] == rest;
  }

  /** An empty entry that is a token hides the hosts after it. */
  lemma EmptyEntryHides(line: string, host: string, rest: string, tokens: set<string>)
    requires ',' !in host && host !in tokens && "" in tokens
    requires HostColumn(line) == host + ("," + ("" + ("," + rest)))
    ensures !Known(line, tokens)
  {
    MatchStep(host, "" + ("," + rest), tokens);
    MatchStep("", rest, tokens);
  }

  /** A longer host than the bracketed form is no token. */
  lemma BracketedKnown(url: string, line: string)
    requires ForHost(SplitHostPort(url), line) && SplitHostPort(url).port.Some? && SplitHostPort(url).host <= line
    requires ',' !in SplitHostPort(url).host
    ensures var h := SplitHostPort(url);
            Known(Rewrite(h, line), Tokens(url)) <==> Word(line[|h.host|..]) == ""
  {
    var h := SplitHostPort(url);
    var f, word := Formatted(h), Word(line[|h.host|..]);
    PortIsDigits(url);
    AfterHost(h, line);
    BracketedColumn(h, line[|h.host|..]);
    FormattedHasNoComma(h);
    SingleKnown(Rewrite(h, line), Tokens(url));
    if f + word in Tokens(url) {
      TokensHoldHost(url, f + word);
    }
  }

  /** A scanned line for the host is recognised after the rewriting exactly if the host
      has no comma and the line does not begin with it by accident. */
  lemma RewrittenIsKnown(url: string, line: string)
    requires ForHost(SplitHostPort(url), line)
    ensures Known(Rewrite(SplitHostPort(url), line), Tokens(url)) <==> StaysReadable(SplitHostPort(url), line)
  {
    var h := SplitHostPort(url);
    PortIsDigits(url);
    if ',' in h.host {
      CommaNeverKnown(url, Rewrite(h, line));
    } else if h.port.Some? && h.host <= line {
      AfterHost(h, line);
      BracketedKnown(url, line);
    } else {
      ForHostHasNoComma(h, line);
      SingleKnown(line, Tokens(url));
    }
  }

  /** A scanned line for the host stays readable. */
  ghost predicate BringsHost(h: HostPort, output: seq<string>) {
    exists i :: 0 <= i < |output| && ForHost(h, output[i]) && StaysReadable(h, output[i])
  }

  /** So a scan makes the host known if one of its lines for the host stays readable,
      whatever else it says; and only then, if all of its lines are for the host. */
  lemma ScanMakesKnown(url: string, output: seq<string>)
    ensures var h := SplitHostPort(url);
            var known := AnyKnown(RewriteAll(h, output), Tokens(url));
            && (BringsHost(h, output) ==> known)
            && ((forall i :: 0 <= i < |output| ==> ForHost(h, output[i])) ==> (known <==> BringsHost(h, output)))
  {
    var h, knows := SplitHostPort(url), Knows(Tokens(url));
    var rewritten := RewriteAll(h, output);
    forall i | 0 <= i < |output| && ForHost(h, output[i])
      ensures knows(rewritten[i]) <==> StaysReadable(h, output[i])
    {
      RewrittenIsKnown(url, output[i]);
    }
    assert forall i :: 0 <= i < |output| && knows(rewritten[i]) ==> Any(rewritten, knows);
  }

  /** Adding the host again changes nothing, whatever a second scan would say, exactly
      where the host was known before or the first scan made it known; otherwise the
      second scan is appended too, or its failure raised. */
  method AddHostTwice(url: string, lines: seq<string>, first: seq<string>, second: Option<seq<string>>)
    returns (once: Option<seq<string>>, twice: Option<seq<string>>)
    ensures once.Some?
    ensures AnyKnown(lines, Tokens(url)) || BringsHost(SplitHostPort(url), first) ==> twice == once
    ensures var h := SplitHostPort(url);
            if AnyKnown(lines, Tokens(url)) || AnyKnown(RewriteAll(h, first), Tokens(url)) then twice == once
            else twice == match second
                          case None => None
                          case Some(output) => Some(once.value + RewriteAll(h, output))
  {
    once := AddHost(url, lines, Some(first));
    ScanMakesKnown(url, first);
    AnyConcat(lines, RewriteAll(SplitHostPort(url), first), Knows(Tokens(url)));
    twice := AddHost(url, once.value, second);
  }

  /** A comma in the host makes every addition append again. */
  lemma CommaIsAddedAgain(line: string)
    ensures SplitHostPort("a,b:22") == HostPort("a,b", Some("22"))
    ensures !Known(line, Tokens("a,b:22"))
  {
    var host, port, url := "a,b", "22", "a,b:22";
    assert url == host + ":" + port && host[1] == ',';
    SplitPlain(host, port);
    CommaNeverKnown(url, line);
  }
}

/** Two single-pass string decoders: `unescape_string` (allama/parse.py) and the MCP tool
    name conversion (allama/agent/tools.py). */
module StringCodecs {
  import opened Prelude

  // ------------------------------------------------- escape sequences

  /** The character that a backslash and `c` stand for, if they are an escape. */
  function Escaped(c: char): (r: seq<char>)
    ensures |r| <= 1
  {
    if c == 'n' then "\n" else if c == 't' then "\t" else if c == 'r' then "\r" else if c == '\\' then "\\" else ""
  }

  /** Replaces escapes from left to right, each character looked at once. */
  function Unescape(s: string): string {
    if |s| >= 2 && s[0] == '\\' && Escaped(s[1]) != "" then Escaped(s[1]) + Unescape(s[2..])
    else if s == "" then ""
    else [s[0]] + Unescape(s[1..])
  }

  function EscapeChar(c: char): string {
    if c == '\n' then "\\n"
    else if c == '\t' then "\\t"
    else if c == '\r' then "\\r"
    else if c == '\\' then "\\\\"
    else [c]
  }

  function Escape(s: string): string {
    if s == "" then "" else EscapeChar(s[0]) + Escape(s[1..])
  }

  lemma UnescapeChar(c: char, rest: string)
    ensures Unescape(EscapeChar(c) + rest) == [c] + Unescape(rest)
  {
    var s := EscapeChar(c) + rest;
    if |EscapeChar(c)| == 2 {
      assert s[0] == '\\' && Escaped(s[1]) == [c] && s[2..] == rest;
    } else {
      assert s[0] == c != '\\' && s[1..] == rest;
    }
  }

  /** Unescaping undoes escaping on every string. */
  lemma {:induction false} UnescapeEscape(s: string)
    ensures Unescape(Escape(s)) == s
  {
    if s != "" {
      UnescapeEscape(s[1..]);
      UnescapeChar(s[0], Escape(s[1..]));
    }
  }

  /** What the single escapes stand for; a backslash before anything else, and every other
      character, stands for itself. */
  lemma EscapesAre(c: char, rest: string)
    ensures Unescape("\\n" + rest) == "\n" + Unescape(rest)
    ensures Unescape("\\t" + rest) == "\t" + Unescape(rest)
    ensures Unescape("\\r" + rest) == "\r" + Unescape(rest)
    ensures Unescape("\\\\" + rest) == "\\" + Unescape(rest)
    ensures c !in {'n', 't', 'r', '\\'} ==> Unescape("\\" + ([c] + rest)) == "\\" + Unescape([c] + rest)
    ensures c != '\\' ==> Unescape([c] + rest) == [c] + Unescape(rest)
    ensures Unescape("") == "" && Unescape("\\") == "\\"
  {
    UnescapeChar('\n', rest);
    UnescapeChar('\t', rest);
    UnescapeChar('\r', rest);
    UnescapeChar('\\', rest);
    var s := "\\" + ([c] + rest);
    assert s[0] == '\\' && s[1] == c && s[1..] == [c] + rest;
    assert ([c] + rest)[1..] == rest;
    assert "\\"[1..] == "";
  }

  /** Every backslash opens an escape, and no character stands for itself that has one. */
  predicate FullyEscaped(s: string) {
    if s == "" then true
    else if s[0] == '\\' then |s| >= 2 && Escaped(s[1]) != "" && FullyEscaped(s[2..])
    else s[0] != '\n' && s[0] != '\t' && s[0] != '\r' && FullyEscaped(s[1..])
  }

  lemma {:induction false} EscapeIsFull(s: string)
    ensures FullyEscaped(Escape(s))
  {
    if s != "" {
      EscapeIsFull(s[1..]);
      var e := Escape(s);
      assert |EscapeChar(s[0])| == 2 ==> e[2..] == Escape(s[1..]);
      assert |EscapeChar(s[0])| == 1 ==> e[1..] == Escape(s[1..]);
    }
  }

  lemma EscapeCons(c: char, rest: string)
    ensures Escape([c] + rest) == EscapeChar(c) + Escape(rest)
  {
    assert ([c] + rest)[1..] == rest;
  }

  /** A fully escaped string begins with the escape of one character. */
  lemma FirstEscape(s: string) returns (c: char, rest: string)
    requires FullyEscaped(s) && s != ""
    ensures s == EscapeChar(c) + rest && FullyEscaped(rest) && |rest| < |s|
  {
    if s[0] == '\\' {
      c, rest := Escaped(s[1])[0], s[2..];
      assert EscapeChar(c) == s[..2];
    } else {
      c, rest := s[0], s[1..];
    }
  }

  lemma {:induction false} EscapeUnescapeHolds(s: string)
    requires FullyEscaped(s)
    ensures Escape(Unescape(s)) == s
    decreases |s|
  {
    if s != "" {
      var c, rest := FirstEscape(s);
      EscapeUnescapeHolds(rest);
      UnescapeChar(c, rest);
      EscapeCons(c, Unescape(rest));
    }
  }

  /** Escaping undoes unescaping exactly on the fully escaped strings. */
  lemma EscapeUnescape(s: string)
    ensures Escape(Unescape(s)) == s <==> FullyEscaped(s)
  {
    EscapeIsFull(Unescape(s));
    if FullyEscaped(s) {
      EscapeUnescapeHolds(s);
    }
  }

  // ------------------------------------------------- tool names

  /** `name.replace(".", "__")` */
  function Normalize(name: string): string {
    if name == "" then ""
    else (if name[0] == '.' then "__" else [name[0]]) + Normalize(name[1..])
  }

  /** `name.replace("__", ".")`: leftmost, not overlapping. */
  function Denormalize(name: string): string {
    if |name| >= 2 && name[0] == '_' && name[1] == '_' then "." + Denormalize(name[2..])
    else if name == "" then ""
    else [name[0]] + Denormalize(name[1..])
  }

  /** Every dot becomes two underscores and nothing else changes; back, the first two
      underscores become a dot. */
  lemma {:induction false} NamesAre(a: string, b: string)
    requires '.' !in a
    ensures Normalize(a) == a && Normalize(a + ("." + b)) == a + ("__" + Normalize(b))
    ensures Denormalize("__" + b) == "." + Denormalize(b)
    decreases |a|
  {
    var name := a + ("." + b);
    assert ("__" + b)[2..] == b;
    if a == "" {
      assert name == "." + b && name[1..] == b;
      assert "" + ("__" + Normalize(b)) == "__" + Normalize(b);
    } else {
      NamesAre(a[1..], b);
      assert name[1..] == a[1..] + ("." + b) && a == [a[0]] + a[1..];
      Associative([a[0]], a[1..], "__" + Normalize(b));
    }
  }

  /** `c` is directly followed by `d` somewhere. */
  ghost predicate Adjacent(s: string, c: char, d: char) {
    exists i :: 0 <= i < |s| - 1 && s[i] == c && s[i + 1] == d
  }

  /** A name whose dots survive the detour: no double underscore, and no component but
      the last ends in an underscore. */
  ghost predicate Convertible(name: string) {
    !Adjacent(name, '_', '_') && !Adjacent(name, '_', '.')
  }

  lemma TailConvertible(name: string)
    requires Convertible(name) && name != ""
    ensures Convertible(name[1..])
  {
    var t := name[1..];
    forall i | 0 <= i < |t| - 1
      ensures !(t[i] == '_' && (t[i + 1] == '_' || t[i + 1] == '.'))
    {
      assert t[i] == name[i + 1] && t[i + 1] == name[i + 2];
    }
  }

  lemma {:induction false} RoundTripHolds(name: string)
    requires Convertible(name)
    ensures Denormalize(Normalize(name)) == name
  {
    if name != "" {
      TailConvertible(name);
      RoundTripHolds(name[1..]);
      var n := Normalize(name);
      if name[0] == '.' {
        assert n[2..] == Normalize(name[1..]);
      } else {
        assert n[1..] == Normalize(name[1..]);
        assert name[0] == '_' && |name| >= 2 ==> name[1] != '_' && name[1] != '.';
      }
      assert name == [name[0]] + name[1..];
    }
  }

  lemma {:induction false} NormalizeHasNoDots(name: string)
    ensures '.' !in Normalize(name)
  {
    if name != "" {
      NormalizeHasNoDots(name[1..]);
    }
  }

  /** What comes out of the decoder for a name without dots is convertible. */
  lemma {:induction false} DenormalizeConvertible(s: string)
    requires '.' !in s
    ensures Convertible(Denormalize(s))
    ensures Denormalize(s) != "" && Denormalize(s)[0] == '_' ==> s[0] == '_' && (|s| == 1 || s[1] != '_')
    ensures Denormalize(s) != "" && Denormalize(s)[0] == '.' ==> |s| >= 2 && s[0] == '_' && s[1] == '_'
  {
    if s != "" {
      var k := if |s| >= 2 && s[0] == '_' && s[1] == '_' then 2 else 1;
      DenormalizeConvertible(s[k..]);
      var d, t := Denormalize(s), Denormalize(s[k..]);
      assert d[1..] == t;
      assert forall i :: 0 < i < |d| ==> d[i] == t[i - 1];
      forall i | 0 <= i < |d| - 1
        ensures !(d[i] == '_' && (d[i + 1] == '_' || d[i + 1] == '.'))
      {
        if i > 0 {
          assert d[i] == t[i - 1] && d[i + 1] == t[i - 1 + 1];
        }
      }
    }
  }

  /** The tool name conversion loses nothing exactly for the convertible names. */
  lemma ToolNameRoundTrip(name: string)
    ensures Denormalize(Normalize(name)) == name <==> Convertible(name)
  {
    NormalizeHasNoDots(name);
    DenormalizeConvertible(Normalize(name));
    if Convertible(name) {
      RoundTripHolds(name);
    }
  }

  /** An underscore before a dot moves behind it. */
  lemma UnderscoreMoves()
    ensures Denormalize(Normalize("a_.b")) == "a._b"
  {
    var name := "a_.b";
    assert name[1..] == "_.b" && name[1..][1..] == ".b" && name[1..][1..][1..] == "b";
    assert Normalize("b") == "b";
    assert Normalize(".b") == "__b";
    assert Normalize("_.b") == "___b";
    assert Normalize(name) == "a___b";
    assert "a___b"[1..] == "___b" && "___b"[2..] == "_b" && "_b"[1..] == "b";
    assert Denormalize("b") == "b";
    assert Denormalize("_b") == "_b";
    assert Denormalize("___b") == "._b";
  }
}

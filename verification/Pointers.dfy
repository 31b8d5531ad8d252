/** JSON Pointers (RFC 6901, sections 3 and 4). */
module Pointers {

  /** `s.replace(c, by)` for a single character. */
  function ReplaceChar(s: string, c: char, text: string): string {
    if s == "" then "" else (if s[0] == c then text else [s[0]]) + ReplaceChar(s[1..], c, text)
  }

  /** `~` becomes `~0` and `/` becomes `~1`, in that order. */
  function EscapeToken(token: string): string {
    ReplaceChar(ReplaceChar(token, '~', "~0"), '/', "~1")
  }

  /** Replace every `~` followed by `digit`. */
  function ReplaceTilde(s: string, digit: char, into: char): string {
    if s == "" then ""
    else if |s| >= 2 && s[0] == '~' && s[1] == digit then [into] + ReplaceTilde(s[2..], digit, into)
    else [s[0]] + ReplaceTilde(s[1..], digit, into)
  }

  /** Section 4: `~1` is decoded before `~0`. */
  function UnescapeToken(token: string): string {
    ReplaceTilde(ReplaceTilde(token, '1', '/'), '0', '~')
  }

  lemma {:induction false} ReplaceCharConcat(s: string, t: string, c: char, text: string)
    ensures ReplaceChar(s + t, c, text) == ReplaceChar(s, c, text) + ReplaceChar(t, c, text)
  {
    if s == "" {
      assert s + t == t;
    } else {
      assert (s + t)[1..] == s[1..] + t;
      ReplaceCharConcat(s[1..], t, c, text);
    }
  }

  function EscapeChar(c: char): string {
    if c == '~' then "~0" else if c == '/' then "~1" else [c]
  }

  /** Two passes amount to escaping each character once. */
  lemma EscapeStep(token: string)
    requires token != ""
    ensures EscapeToken(token) == EscapeChar(token[0]) + EscapeToken(token[1..])
  {
    var c, rest := token[0], ReplaceChar(token[1..], '~', "~0");
    var head := if c == '~' then "~0" else [c];
    ReplaceCharConcat(head, rest, '/', "~1");
    assert ReplaceChar(token, '~', "~0") == head + rest;
    if c == '~' {
      assert "~0"[1..] == "0" && "0"[1..] == "";
      assert ReplaceChar("0", '/', "~1") == "0";
      assert ReplaceChar(head, '/', "~1") == "~0";
    } else {
      assert [c][1..] == "";
      assert ReplaceChar(head, '/', "~1") == EscapeChar(c);
    }
  }

  lemma DecodeStep(c: char, rest: string)
    ensures UnescapeToken(EscapeChar(c) + rest) == [c] + UnescapeToken(rest)
  {
    var s := EscapeChar(c) + rest;
    var after := ReplaceTilde(rest, '1', '/');
    if c == '~' {
      assert s[0] == '~' && s[1] == '0' && s[1..][1..] == rest && s[1..][0] == '0';
      assert ReplaceTilde(s, '1', '/') == "~" + ("0" + after);
      var t := "~" + ("0" + after);
      assert t[0] == '~' && t[1] == '0' && t[2..] == after;
    } else if c == '/' {
      assert s[0] == '~' && s[1] == '1' && s[2..] == rest;
      assert ReplaceTilde(s, '1', '/') == "/" + after;
      assert ("/" + after)[1..] == after;
    } else {
      assert s[1..] == rest;
      assert ReplaceTilde(s, '1', '/') == [c] + after;
      assert ([c] + after)[1..] == after;
    }
  }

  /** Section 4: decoding an encoded token gives the token back. */
  lemma {:induction false} UnescapeInvertsEscape(token: string)
    ensures UnescapeToken(EscapeToken(token)) == token
  {
    if token != "" {
      EscapeStep(token);
      UnescapeInvertsEscape(token[1..]);
      DecodeStep(token[0], EscapeToken(token[1..]));
      assert token == [token[0]] + token[1..];
    }
  }

  lemma {:induction false} EscapedHasNoSlash(token: string)
    ensures '/' !in EscapeToken(token)
  {
    if token != "" {
      EscapeStep(token);
      EscapedHasNoSlash(token[1..]);
    }
  }

  /** Section 3: each token prefixed by a slash. */
  function PropertyPath(tokens: seq<string>): string {
    if tokens == [] then "" else "/" + EscapeToken(tokens[0]) + PropertyPath(tokens[1..])
  }

  /** `s.split("/")`. */
  function SplitSlash(s: string): (r: seq<string>)
    ensures r != []
  {
    if s == "" then [""]
    else
      var rest := SplitSlash(s[1..]);
      if s[0] == '/' then [""] + rest else [[s[0]] + rest[0]] + rest[1..]
  }

  lemma {:induction false} SplitAtSlash(a: string, b: string)
    ensures SplitSlash(a + "/" + b) == SplitSlash(a) + SplitSlash(b)
  {
    if a == "" {
      assert a + "/" + b == "/" + b && ("/" + b)[1..] == b;
    } else {
      assert (a + "/" + b)[1..] == a[1..] + "/" + b;
      SplitAtSlash(a[1..], b);
    }
  }

  lemma {:induction false} SplitWithoutSlash(a: string)
    requires '/' !in a
    ensures SplitSlash(a) == [a]
  {
    if a != "" {
      SplitWithoutSlash(a[1..]);
      assert a == [a[0]] + a[1..];
    }
  }

  function EscapeAll(tokens: seq<string>): seq<string> {
    seq(|tokens|, i requires 0 <= i < |tokens| => EscapeToken(tokens[i]))
  }

  /** A pointer splits into an empty piece and its escaped tokens. */
  lemma {:induction false} PathSplits(tokens: seq<string>)
    ensures SplitSlash(PropertyPath(tokens)) == [""] + EscapeAll(tokens)
  {
    if tokens == [] {
      assert EscapeAll(tokens) == [];
    } else {
      var e, rest := EscapeToken(tokens[0]), tokens[1..];
      PathSplits(rest);
      EscapedHasNoSlash(tokens[0]);
      SplitWithoutSlash(e);
      var path := PropertyPath(tokens);
      assert EscapeAll(tokens) == [e] + EscapeAll(rest);
      if rest == [] {
        assert path == "" + "/" + e;
        SplitAtSlash("", e);
      } else {
        var tail := PropertyPath(rest)[1..];
        assert PropertyPath(rest) == "/" + tail;
        assert path == "" + "/" + (e + "/" + tail);
        SplitAtSlash("", e + "/" + tail);
        SplitAtSlash(e, tail);
        SplitAtSlash("", tail);
        assert "" + "/" + tail == PropertyPath(rest);
        assert SplitSlash(tail) == ([""] + SplitSlash(tail))[1..] == ([""] + EscapeAll(rest))[1..] == EscapeAll(rest);
        assert SplitSlash(path) == [""] + ([e] + SplitSlash(tail));
      }
    }
  }

  lemma EscapeIsInjective(x: string, y: string)
    requires EscapeToken(x) == EscapeToken(y)
    ensures x == y
  {
    UnescapeInvertsEscape(x);
    UnescapeInvertsEscape(y);
  }

  /** Different token sequences have different pointers. */
  lemma PropertyPathIsInjective(ts: seq<string>, us: seq<string>)
    requires PropertyPath(ts) == PropertyPath(us)
    ensures ts == us
  {
    PathSplits(ts);
    PathSplits(us);
    assert EscapeAll(ts) == ([""] + EscapeAll(ts))[1..] == ([""] + EscapeAll(us))[1..] == EscapeAll(us);
    assert |ts| == |EscapeAll(ts)| == |us|;
    forall i | 0 <= i < |ts| ensures ts[i] == us[i] {
      assert EscapeAll(ts)[i] == EscapeAll(us)[i];
      EscapeIsInjective(ts[i], us[i]);
    }
  }

  /** The test used for prefixes: equal, or continuing after a slash. */
  predicate AtOrBelow(path: string, prefix: string) {
    path == prefix || (prefix + "/") <= path
  }

  /** That test holds exactly when one token sequence is a prefix of the other. */
  lemma AtOrBelowIsTokenPrefix(ts: seq<string>, ps: seq<string>)
    ensures AtOrBelow(PropertyPath(ts), PropertyPath(ps)) <==> ps <= ts
  {
    hide PropertyPath, SplitSlash, EscapeToken;
    if ps <= ts {
      PathOfConcat(ps, ts[|ps|..]);
      assert ts == ps + ts[|ps|..];
      assert ts[|ps|..] == [] ==> ts == ps;
    }
    var path, prefix := PropertyPath(ts), PropertyPath(ps);
    if (prefix + "/") <= path {
      var rest := path[|prefix| + 1..];
      assert path == prefix + "/" + rest;
      SplitAtSlash(prefix, rest);
      PathSplits(ts);
      PathSplits(ps);
      var es, eps := EscapeAll(ts), EscapeAll(ps);
      assert [""] + es == [""] + eps + SplitSlash(rest);
      assert |[""] + es| >= |[""] + eps|;
      forall i | 0 <= i < |ps| ensures ts[i] == ps[i] {
        assert es[i] == ([""] + es)[i + 1] == ([""] + eps + SplitSlash(rest))[i + 1] == eps[i];
        EscapeIsInjective(ts[i], ps[i]);
      }
    } else if path == prefix {
      PropertyPathIsInjective(ts, ps);
    }
  }

  lemma {:induction false} PathOfConcat(ps: seq<string>, rest: seq<string>)
    ensures PropertyPath(ps + rest) == PropertyPath(ps) + PropertyPath(rest)
    ensures rest != [] ==> (PropertyPath(ps) + "/") <= PropertyPath(ps + rest)
  {
    if ps == [] {
      assert ps + rest == rest;
    } else {
      assert (ps + rest)[1..] == ps[1..] + rest;
      PathOfConcat(ps[1..], rest);
      assert PropertyPath(ps + rest) == PropertyPath(ps) + PropertyPath(rest);
    }
  }

  /** Whether anything sits at or below a path. */
  predicate HasProperty(paths: set<string>, tokens: seq<string>) {
    exists path :: path in paths && AtOrBelow(path, PropertyPath(tokens))
  }

  ghost function PathsOf(leaves: set<seq<string>>): set<string> {
    set ts | ts in leaves :: PropertyPath(ts)
  }

  /** On flattened properties it finds exactly the leaves inside the named subtree. */
  lemma HasPropertyFindsSubtrees(leaves: set<seq<string>>, tokens: seq<string>)
    ensures HasProperty(PathsOf(leaves), tokens) <==> exists ts :: ts in leaves && tokens <= ts
  {
    if ts :| ts in leaves && tokens <= ts {
      AtOrBelowIsTokenPrefix(ts, tokens);
      assert PropertyPath(ts) in PathsOf(leaves);
    }
    if HasProperty(PathsOf(leaves), tokens) {
      var path :| path in PathsOf(leaves) && AtOrBelow(path, PropertyPath(tokens));
      var ts :| ts in leaves && path == PropertyPath(ts);
      AtOrBelowIsTokenPrefix(ts, tokens);
    }
  }
}

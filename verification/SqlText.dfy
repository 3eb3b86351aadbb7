/** Quoted SQL literals and LIKE patterns: how the search text gets into a statement. */
module SqlText {
  import opened Wrappers

  // ------------------------------------------------------ quoted literals

  /** Every quote doubled. */
  function Quoted(s: string): string {
    if s == [] then [] else (if s[0] == '\'' then "''" else [s[0]]) + Quoted(s[1..])
  }

  /** Every LIKE wildcard and every escape character preceded by the escape character. */
  function LikeEscaped(s: string): string {
    if s == [] then [] else (if s[0] == '~' || s[0] == '%' || s[0] == '_' then ['~', s[0]] else [s[0]]) + LikeEscaped(s[1..])
  }

  lemma {:induction false} QuotedConcat(a: string, b: string)
    ensures Quoted(a + b) == Quoted(a) + Quoted(b)
  {
    if a == [] {
      assert a + b == b;
    } else {
      assert (a + b)[1..] == a[1..] + b;
      QuotedConcat(a[1..], b);
    }
  }

  /** What one character becomes in each escape. */
  function QuotedChar(ch: char): string {
    if ch == '\'' then "''" else [ch]
  }

  function LikeChar(ch: char): string {
    if ch == '~' || ch == '%' || ch == '_' then ['~', ch] else QuotedChar(ch)
  }

  lemma QuotedStep(s: string, i: nat)
    requires i < |s|
    ensures Quoted(s[..i + 1]) == Quoted(s[..i]) + QuotedChar(s[i])
  {
    assert s[..i + 1] == s[..i] + [s[i]];
    QuotedConcat(s[..i], [s[i]]);
  }

  lemma {:induction false} LikeEscapedConcat(a: string, b: string)
    ensures LikeEscaped(a + b) == LikeEscaped(a) + LikeEscaped(b)
  {
    if a == [] {
      assert a + b == b;
    } else {
      assert (a + b)[1..] == a[1..] + b;
      LikeEscapedConcat(a[1..], b);
    }
  }

  lemma LikeEscapedOne(ch: char)
    ensures Quoted(LikeEscaped([ch])) == LikeChar(ch)
  {
    assert Quoted([ch]) == QuotedChar(ch);
    if ch == '~' || ch == '%' || ch == '_' {
      assert LikeEscaped([ch]) == ['~', ch];
      assert ['~', ch][1..] == [ch];
      assert Quoted(['~', ch]) == ['~'] + Quoted([ch]);
    } else {
      assert LikeEscaped([ch]) == [ch];
    }
  }

  lemma LikeStep(s: string, i: nat)
    requires i < |s|
    ensures Quoted(LikeEscaped(s[..i + 1])) == Quoted(LikeEscaped(s[..i])) + LikeChar(s[i])
  {
    assert s[..i + 1] == s[..i] + [s[i]];
    LikeEscapedConcat(s[..i], [s[i]]);
    LikeEscapedOne(s[i]);
    QuotedConcat(LikeEscaped(s[..i]), LikeEscaped([s[i]]));
  }

  method SqlStringEscape(value: string) returns (out: string)
    ensures out == Quoted(value)
  {
    out := [];
    for i := 0 to |value|
      invariant out == Quoted(value[..i])
    {
      QuotedStep(value, i);
      ghost var before := out;
      out := out + [value[i]];
      if value[i] == '\'' {
        out := out + ['\''];
      }
      assert out == before + QuotedChar(value[i]);
    }
    assert value[..|value|] == value;
  }

  /** The escape character and the quotes are added in one pass. */
  method SqlLikeEscape(value: string) returns (out: string)
    ensures out == Quoted(LikeEscaped(value))
  {
    out := [];
    for i := 0 to |value|
      invariant out == Quoted(LikeEscaped(value[..i]))
    {
      LikeStep(value, i);
      ghost var before := out;
      var ch := value[i];
      if ch == '~' || ch == '%' || ch == '_' {
        out := out + ['~'];
      }
      out := out + [ch];
      if ch == '\'' {
        out := out + ['\''];
      }
      assert out == before + LikeChar(ch);
    }
    assert value[..|value|] == value;
  }

  /** A literal read from the front of a text, and the text after it. */
  datatype Lexed = Lexed(content: string, rest: string)

  /** Reads up to the closing quote; two quotes in a row stand for one. */
  function LexBody(text: string): Option<Lexed> {
    if text == [] then None
    else if text[0] == '\'' then
      if |text| > 1 && text[1] == '\'' then Prepend('\'', LexBody(text[2..])) else Some(Lexed([], text[1..]))
    else Prepend(text[0], LexBody(text[1..]))
  }

  function Prepend(ch: char, r: Option<Lexed>): Option<Lexed> {
    if r.None? then None else Some(Lexed([ch] + r.value.content, r.value.rest))
  }

  function Lex(text: string): Option<Lexed> {
    if text != [] && text[0] == '\'' then LexBody(text[1..]) else None
  }

  lemma LexDoubled(tail: string)
    ensures LexBody("''" + tail) == Prepend('\'', LexBody(tail))
  {
    assert ("''" + tail)[2..] == tail;
  }

  lemma LexPlain(ch: char, tail: string)
    requires ch != '\''
    ensures LexBody([ch] + tail) == Prepend(ch, LexBody(tail))
  {
    assert ([ch] + tail)[1..] == tail;
  }

  lemma QuotedFirst(s: string, tail: string)
    requires s != []
    ensures Quoted(s) + tail == QuotedChar(s[0]) + (Quoted(s[1..]) + tail)
  {
  }

  lemma {:induction false} LexQuotedBody(s: string, rest: string)
    requires rest == [] || rest[0] != '\''
    ensures LexBody(Quoted(s) + ("'" + rest)) == Some(Lexed(s, rest))
  {
    if s == [] {
      assert Quoted(s) + ("'" + rest) == "'" + rest;
      assert ("'" + rest)[1..] == rest;
    } else {
      var tail := Quoted(s[1..]) + ("'" + rest);
      LexQuotedBody(s[1..], rest);
      QuotedFirst(s, "'" + rest);
      if s[0] == '\'' {
        LexDoubled(tail);
      } else {
        LexPlain(s[0], tail);
      }
      Prepended(s, rest);
    }
  }

  lemma Prepended(s: string, rest: string)
    requires s != []
    ensures Prepend(s[0], Some(Lexed(s[1..], rest))) == Some(Lexed(s, rest))
  {
    assert [s[0]] + s[1..] == s;
  }

  function Literal(s: string): string {
    "'" + Quoted(s) + "'"
  }

  /** A quoted string reads back as the original, wherever it stands, with nothing left over. */
  lemma LexLiteral(s: string, rest: string)
    requires rest == [] || rest[0] != '\''
    ensures Lex(Literal(s) + rest) == Some(Lexed(s, rest))
  {
    LexQuotedBody(s, rest);
    assert (Literal(s) + rest)[1..] == Quoted(s) + ("'" + rest);
  }

  // ---------------------------------------------------------------- LIKE

  predicate Contains(s: string, t: string) {
    t <= s || (s != [] && Contains(s[1..], t))
  }

  ghost predicate Occurs(s: string, t: string, i: nat) {
    i + |t| <= |s| && s[i..i + |t|] == t
  }

  /** Somewhere in s the characters of t stand in a row. */
  lemma {:induction false} ContainsAt(s: string, t: string)
    ensures Contains(s, t) <==> exists i :: Occurs(s, t, i)
  {
    if t <= s {
      assert Occurs(s, t, 0);
    } else if s == [] {
      forall i: nat ensures !Occurs(s, t, i) {
      }
    } else {
      ContainsAt(s[1..], t);
      forall i: nat ensures Occurs(s, t, i) <==> i > 0 && Occurs(s[1..], t, i - 1) {
        if i > 0 && i + |t| <= |s| {
          assert s[1..][i - 1..i - 1 + |t|] == s[i..i + |t|];
        }
      }
      if Contains(s[1..], t) {
        var i: nat :| Occurs(s[1..], t, i);
        assert Occurs(s, t, i + 1);
      }
    }
  }

  /** LIKE with an escape character; an escape at the end of the pattern matches nothing. */
  predicate Like(s: string, p: string, esc: char)
    decreases |p| + |s|
  {
    if p == [] then s == []
    else if p[0] == esc then |p| > 1 && s != [] && s[0] == p[1] && Like(s[1..], p[2..], esc)
    else if p[0] == '%' then Like(s, p[1..], esc) || (s != [] && Like(s[1..], p, esc))
    else if p[0] == '_' then s != [] && Like(s[1..], p[1..], esc)
    else s != [] && s[0] == p[0] && Like(s[1..], p[1..], esc)
  }

  lemma {:induction false} PercentMatchesAll(s: string)
    ensures Like(s, "%", '~')
  {
    if s != [] {
      PercentMatchesAll(s[1..]);
    }
  }

  lemma {:induction false} EscapedMatchesPrefix(s: string, t: string)
    ensures Like(s, LikeEscaped(t) + "%", '~') <==> t <= s
  {
    if t == [] {
      assert LikeEscaped(t) + "%" == "%";
      PercentMatchesAll(s);
    } else {
      var rest := LikeEscaped(t[1..]) + "%";
      var p := LikeEscaped(t) + "%";
      if t[0] == '~' || t[0] == '%' || t[0] == '_' {
        assert p == ['~', t[0]] + rest && p[2..] == rest;
      } else {
        assert p == [t[0]] + rest && p[1..] == rest;
      }
      if s != [] {
        EscapedMatchesPrefix(s[1..], t[1..]);
        assert t <= s <==> s[0] == t[0] && t[1..] <= s[1..];
      }
    }
  }

  /** The escaped text between two wildcards matches exactly the strings that contain the text. */
  lemma {:induction false} EscapedMatchesContaining(s: string, t: string)
    ensures Like(s, "%" + LikeEscaped(t) + "%", '~') <==> Contains(s, t)
  {
    var p := "%" + LikeEscaped(t) + "%";
    assert p[1..] == LikeEscaped(t) + "%";
    EscapedMatchesPrefix(s, t);
    if s != [] {
      EscapedMatchesContaining(s[1..], t);
    }
  }
}

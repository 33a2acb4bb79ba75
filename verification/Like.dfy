/**
 Literal search through LIKE. `EscapeLike` neutralises the metacharacters of a
 query; `Like` is SQLite's matcher with ESCAPE '\'. Strings hold no NUL.
 */
module Like {
  import opened Text

  const ESCAPE := '\\'

  /** `text LIKE pattern ESCAPE '\'`. */
  predicate Like(pattern: string, text: string)
    decreases |pattern|, |text|
  {
    if pattern == "" then text == ""
    else if pattern[0] == '%' then
      Like(pattern[1..], text) || (text != "" && Like(pattern, text[1..]))
    else if pattern[0] == '_' then
      text != "" && Like(pattern[1..], text[1..])
    else if pattern[0] == ESCAPE then
      |pattern| > 1 && text != "" && LowerChar(pattern[1]) == LowerChar(text[0]) && Like(pattern[2..], text[1..])
    else
      text != "" && LowerChar(pattern[0]) == LowerChar(text[0]) && Like(pattern[1..], text[1..])
  }

  predicate Special(c: char) { c == ESCAPE || c == '%' || c == '_' }

  /** One pass that puts the escape before every metacharacter. */
  function EscapeLike(s: string): string {
    if s == "" then ""
    else EscapeChar(s[0]) + EscapeLike(s[1..])
  }

  /** The pattern every substring search of the gateway runs. */
  function SubstringPattern(query: string): string { "%" + EscapeLike(query) + "%" }

  lemma {:induction false} TrailingPercent(text: string)
    ensures Like("%", text)
  {
    if text != "" {
      TrailingPercent(text[1..]);
    }
  }

  lemma {:induction false} LeadingPercent(pattern: string, text: string)
    ensures Like("%" + pattern, text) <==> exists i :: 0 <= i <= |text| && Like(pattern, text[i..])
    decreases |text|
  {
    var whole := "%" + pattern;
    assert whole[1..] == pattern;
    assert text[0..] == text;
    if text != "" {
      LeadingPercent(pattern, text[1..]);
      if i :| 0 <= i <= |text[1..]| && Like(pattern, text[1..][i..]) {
        assert text[i + 1..] == text[1..][i..];
      }
      if i :| 1 <= i <= |text| && Like(pattern, text[i..]) {
        assert text[i..] == text[1..][i - 1..];
      }
    }
  }

  lemma {:induction false} LowerPrefix(text: string, query: string)
    requires text != "" && query != ""
    ensures HasPrefix(Lower(text), Lower(query)) <==>
            LowerChar(text[0]) == LowerChar(query[0]) && HasPrefix(Lower(text[1..]), Lower(query[1..]))
  {
    var t, q := Lower(text), Lower(query);
    assert t == [t[0]] + t[1..] && q == [q[0]] + q[1..];
    if |q| <= |t| {
      assert t[..|q|] == [t[0]] + t[1..][..|q| - 1];
    }
  }

  function EscapeChar(c: char): string {
    if Special(c) then [ESCAPE, c] else [c]
  }

  lemma EscapedChar(c: char, rest: string, text: string)
    ensures Like(EscapeChar(c) + rest, text) <==>
            text != "" && LowerChar(c) == LowerChar(text[0]) && Like(rest, text[1..])
  {
    var pattern := EscapeChar(c) + rest;
    if Special(c) {
      assert pattern[2..] == rest;
    } else {
      assert pattern[1..] == rest;
    }
  }

  lemma {:induction false} EscapedPrefix(query: string, rest: string, text: string)
    ensures Like(EscapeLike(query) + rest, text) <==>
            HasPrefix(Lower(text), Lower(query)) && Like(rest, text[|query|..])
    decreases |query|
  {
    if query == "" {
      assert EscapeLike(query) + rest == rest;
      assert text[0..] == text;
    } else {
      var tail := EscapeLike(query[1..]) + rest;
      assert EscapeLike(query) + rest == EscapeChar(query[0]) + tail;
      EscapedChar(query[0], tail, text);
      if text != "" {
        EscapedPrefix(query[1..], rest, text[1..]);
        LowerPrefix(text, query);
        if |query| <= |text| {
          assert text[1..][|query| - 1..] == text[|query|..];
        }
      }
    }
  }

  /** A query is matched literally up to ASCII case, whatever metacharacters it holds. */
  lemma SubstringIsLiteral(query: string, text: string)
    ensures Like(SubstringPattern(query), text) <==> ContainsFold(text, query)
  {
    var pattern := EscapeLike(query) + "%";
    assert SubstringPattern(query) == "%" + pattern;
    LeadingPercent(pattern, text);
    forall i | 0 <= i <= |text|
      ensures Like(pattern, text[i..]) <==> HasPrefix(Lower(text)[i..], Lower(query)) {
      EscapedPrefix(query, "%", text[i..]);
      assert Lower(text[i..]) == Lower(text)[i..];
      if |query| <= |text[i..]| {
        TrailingPercent(text[i..][|query|..]);
      }
    }
  }

  lemma {:induction false} EscapeLower(s: string)
    ensures Lower(EscapeLike(s)) == EscapeLike(Lower(s))
  {
    if s != "" {
      EscapeLower(s[1..]);
      LowerConcat(EscapeChar(s[0]), EscapeLike(s[1..]));
      assert Lower(s) == [LowerChar(s[0])] + Lower(s[1..]);
      assert Lower(EscapeChar(s[0])) == EscapeChar(LowerChar(s[0]));
    }
  }

  lemma LowerConcat(a: string, b: string)
    ensures Lower(a + b) == Lower(a) + Lower(b)
  {
  }

  lemma LowerTwice(s: string)
    ensures Lower(Lower(s)) == Lower(s)
  {
  }

  lemma LowerPattern(query: string)
    ensures Lower(SubstringPattern(query)) == SubstringPattern(Lower(query))
  {
    EscapeLower(query);
    LowerConcat("%", EscapeLike(query));
    LowerConcat("%" + EscapeLike(query), "%");
    assert Lower("%") == "%";
  }

  /** The name search folds both sides first and matches exactly the same texts. */
  lemma FoldedNameSearchIsLiteral(query: string, name: string)
    ensures Like(Lower(SubstringPattern(query)), Lower(name)) <==> ContainsFold(name, query)
  {
    LowerPattern(query);
    SubstringIsLiteral(Lower(query), Lower(name));
    LowerTwice(name);
    LowerTwice(query);
  }
}

/** Path prefixes and searches as SQL LIKE patterns, against what they are meant to select.
    LIKE is the predicate of section 8.5 of ISO/IEC 9075:1992, with backslash as the escape. */
module SqlLike {
  const LIKE_ESCAPE := '\\'

  /** Percent matches any string, underscore any one character, and an escaped character itself. */
  predicate Like(pattern: string, s: string)
    decreases |pattern| + |s|
  {
    if pattern == "" then s == ""
    else if pattern[0] == LIKE_ESCAPE then
      |pattern| > 1 && s != "" && s[0] == pattern[1] && Like(pattern[2..], s[1..])
    else if pattern[0] == '%' then Like(pattern[1..], s) || (s != "" && Like(pattern, s[1..]))
    else s != "" && (pattern[0] == '_' || pattern[0] == s[0]) && Like(pattern[1..], s[1..])
  }

  /** Every occurrence of a character replaced by a string. */
  function Replace(s: string, c: char, sub: string): string {
    if s == "" then "" else (if s[0] == c then sub else [s[0]]) + Replace(s[1..], c, sub)
  }

  /** The escape character first, so that the escapes added for the others stay as they are. */
  function EscapeLike(value: string): string {
    Replace(Replace(Replace(value, LIKE_ESCAPE, "\\\\"), '%', "\\%"), '_', "\\_")
  }

  lemma {:induction false} ReplaceConcat(a: string, b: string, c: char, sub: string)
    ensures Replace(a + b, c, sub) == Replace(a, c, sub) + Replace(b, c, sub)
  {
    if a == "" {
      assert a + b == b;
    } else {
      ReplaceConcat(a[1..], b, c, sub);
      assert (a + b)[1..] == a[1..] + b;
      var head := if a[0] == c then sub else [a[0]];
      calc {
        Replace(a + b, c, sub);
        head + Replace(a[1..] + b, c, sub);
        head + (Replace(a[1..], c, sub) + Replace(b, c, sub));
        (head + Replace(a[1..], c, sub)) + Replace(b, c, sub);
      }
    }
  }

  lemma ReplaceChar(x: char, c: char, sub: string)
    ensures Replace([x], c, sub) == if x == c then sub else [x]
  {
    assert [x][1..] == "";
  }

  /** One character of the value becomes itself, or itself behind an escape. */
  function EscapedChar(x: char): string {
    if x == LIKE_ESCAPE || x == '%' || x == '_' then [LIKE_ESCAPE, x] else [x]
  }

  lemma EscapeOneChar(x: char)
    ensures EscapeLike([x]) == EscapedChar(x)
  {
    ReplaceChar(x, LIKE_ESCAPE, "\\\\");
    ReplaceChar(x, '%', "\\%");
    ReplaceChar(x, '_', "\\_");
    ReplaceChar(LIKE_ESCAPE, '%', "\\%");
    ReplaceChar(LIKE_ESCAPE, '_', "\\_");
    if x == LIKE_ESCAPE {
      assert "\\\\" == [LIKE_ESCAPE] + [LIKE_ESCAPE];
      ReplaceConcat([LIKE_ESCAPE], [LIKE_ESCAPE], '%', "\\%");
      ReplaceConcat([LIKE_ESCAPE], [LIKE_ESCAPE], '_', "\\_");
    } else if x == '%' {
      assert "\\%" == [LIKE_ESCAPE] + ['%'];
      ReplaceConcat([LIKE_ESCAPE], ['%'], '_', "\\_");
      ReplaceChar('%', '_', "\\_");
    }
  }

  lemma EscapeUnfolds(value: string)
    requires value != ""
    ensures EscapeLike(value) == EscapedChar(value[0]) + EscapeLike(value[1..])
  {
    var x, rest := [value[0]], value[1..];
    assert value == x + rest;
    ReplaceConcat(x, rest, LIKE_ESCAPE, "\\\\");
    var x1, rest1 := Replace(x, LIKE_ESCAPE, "\\\\"), Replace(rest, LIKE_ESCAPE, "\\\\");
    ReplaceConcat(x1, rest1, '%', "\\%");
    ReplaceConcat(Replace(x1, '%', "\\%"), Replace(rest1, '%', "\\%"), '_', "\\_");
    EscapeOneChar(value[0]);
  }

  /** An escaped value matches itself, character by character, and nothing else. */
  lemma {:induction false} EscapedMatchesItself(value: string, rest: string, s: string)
    ensures Like(EscapeLike(value) + rest, s) <==> value <= s && Like(rest, s[|value|..])
  {
    if value == "" {
      assert EscapeLike(value) + rest == rest && s[0..] == s;
    } else {
      EscapeUnfolds(value);
      var tail := EscapeLike(value[1..]) + rest;
      var pattern := EscapeLike(value) + rest;
      assert pattern == EscapedChar(value[0]) + tail;
      if s != "" {
        EscapedMatchesItself(value[1..], rest, s[1..]);
        if s[0] == value[0] {
          assert value <= s <==> value[1..] <= s[1..];
          assert value <= s ==> s[|value|..] == s[1..][|value[1..]|..];
        }
        if |EscapedChar(value[0])| == 2 {
          assert pattern[2..] == tail;
        } else {
          assert pattern[1..] == tail;
        }
      }
    }
  }

  lemma {:induction false} PercentMatchesAll(s: string)
    ensures Like("%", s)
  {
    if s == "" {
      assert "%"[1..] == "" && Like("%"[1..], s);
    } else {
      PercentMatchesAll(s[1..]);
    }
  }

  lemma SlashPercent(s: string)
    ensures Like("/%", s) <==> "/" <= s
  {
    assert "/%"[1..] == "%";
    if s != "" {
      PercentMatchesAll(s[1..]);
    }
  }

  /** The prefix pattern matches exactly the strings that continue the prefix with a slash. */
  lemma PrefixPattern(prefix: string, s: string)
    ensures Like(EscapeLike(prefix) + "/%", s) <==> prefix + "/" <= s
  {
    EscapedMatchesItself(prefix, "/%", s);
    if prefix <= s {
      SlashPercent(s[|prefix|..]);
    }
  }

  ghost predicate Contains(s: string, part: string) {
    exists i :: 0 <= i <= |s| && part <= s[i..]
  }

  lemma {:induction false} LeadingPercent(pattern: string, s: string)
    ensures Like("%" + pattern, s) <==> exists i :: 0 <= i <= |s| && Like(pattern, s[i..])
  {
    assert ("%" + pattern)[1..] == pattern;
    assert s[0..] == s;
    if s != "" {
      LeadingPercent(pattern, s[1..]);
      if i :| 0 <= i <= |s[1..]| && Like(pattern, s[1..][i..]) {
        assert s[1..][i..] == s[i + 1..];
      }
      if i :| 0 <= i <= |s| && Like(pattern, s[i..]) && i > 0 {
        assert s[1..][i - 1..] == s[i..];
      }
    }
  }

  /** The search pattern matches exactly the strings that contain the query. */
  lemma SearchPattern(query: string, s: string)
    ensures Like("%" + EscapeLike(query) + "%", s) <==> Contains(s, query)
  {
    var pattern := EscapeLike(query) + "%";
    assert "%" + EscapeLike(query) + "%" == "%" + pattern;
    LeadingPercent(pattern, s);
    forall i | 0 <= i <= |s| ensures Like(pattern, s[i..]) <==> query <= s[i..] {
      EscapedMatchesItself(query, "%", s[i..]);
      if query <= s[i..] {
        PercentMatchesAll(s[i..][|query|..]);
      }
    }
  }

  // ---------- The two forms of the prefix test ----------

  /** The filter of the queries and of the removal of generated rows. */
  predicate PathMatchesPrefix(prefix: string, path: string) {
    path == prefix || Like(EscapeLike(prefix) + "/%", path)
  }

  /** The test of the sync on the path of an entry. */
  predicate Excludes(prefix: string, path: string) {
    path == prefix || prefix + "/" <= path
  }

  lemma PrefixTestsAgree(prefix: string, path: string)
    ensures PathMatchesPrefix(prefix, path) <==> Excludes(prefix, path)
  {
    PrefixPattern(prefix, path);
  }

  /** Without the escapes the filter would select more: an underscore in a title is not a wildcard. */
  lemma EscapesMatter()
    ensures Like("a_b" + "/%", "axb/f") && !Like(EscapeLike("a_b") + "/%", "axb/f")
  {
    PrefixPattern("a_b", "axb/f");
    assert ("a_b" + "/")[1] == '_' && "axb/f"[1] == 'x';
    PercentMatchesAll("f");
    assert "a_b" + "/%" == "a_b/%" && "axb/f"[1..] == "xb/f" && "xb/f"[1..] == "b/f" && "b/f"[1..] == "/f" && "/f"[1..] == "f";
    assert "a_b/%"[1..] == "_b/%" && "_b/%"[1..] == "b/%" && "b/%"[1..] == "/%" && "/%"[1..] == "%";
  }
}

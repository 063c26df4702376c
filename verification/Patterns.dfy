/**
  Prefix invalidation in three pattern languages: SQL `LIKE`, Redis globs and `startsWith`.
 */
module Patterns {
  import opened Strings

  // --- LIKE ---------------------------------------------------------------------------------

  /** `%` is any run of characters, `_` any one, and `\` takes the next character literally.
      A pattern that ends in a lone `\` matches nothing here; PostgreSQL reports an error. */
  predicate Like(pattern: string, s: string)
    decreases |pattern|, |s|
  {
    if pattern == "" then s == ""
    else if pattern[0] == '%' then Like(pattern[1..], s) || (s != "" && Like(pattern, s[1..]))
    else if pattern[0] == '_' then s != "" && Like(pattern[1..], s[1..])
    else if pattern[0] == '\\' then |pattern| >= 2 && s != "" && s[0] == pattern[1] && Like(pattern[2..], s[1..])
    else s != "" && s[0] == pattern[0] && Like(pattern[1..], s[1..])
  }

  function Escape(value: string, special: set<char>): string {
    if value == "" then ""
    else (if value[0] in special then ['\\', value[0]] else [value[0]]) + Escape(value[1..], special)
  }

  const LIKE_SPECIAL := {'\\', '%', '_'}
  const GLOB_SPECIAL := {'[', ']', '\\', '?', '*'}

  function EscapeLike(value: string): string { Escape(value, LIKE_SPECIAL) }

  function EscapeGlob(value: string): string { Escape(value, GLOB_SPECIAL) }

  /** An escaped prefix is consumed exactly, and the rest of the pattern sees the rest of `s`. */
  lemma {:induction false} LikeConsumes(p: string, rest: string, s: string)
    ensures Like(EscapeLike(p) + rest, s) <==> IsPrefix(p, s) && Like(rest, s[|p|..])
    decreases |p|
  {
    if p == "" {
      assert EscapeLike(p) + rest == rest && s[0..] == s;
    } else {
      var tail := EscapeLike(p[1..]) + rest;
      var pattern := EscapeLike(p) + rest;
      if p[0] in LIKE_SPECIAL {
        assert pattern[0] == '\\' && pattern[1] == p[0] && pattern[2..] == tail;
      } else {
        assert pattern[0] == p[0] && pattern[1..] == tail;
      }
      if s != "" && s[0] == p[0] {
        LikeConsumes(p[1..], rest, s[1..]);
        PrefixUnfolds(p, s);
      }
    }
  }

  lemma PrefixUnfolds(p: string, s: string)
    requires p != "" && s != "" && s[0] == p[0]
    ensures IsPrefix(p, s) <==> IsPrefix(p[1..], s[1..])
    ensures IsPrefix(p, s) ==> s[1..][|p[1..]|..] == s[|p|..]
  {
    if IsPrefix(p[1..], s[1..]) {
      assert s[..|p|] == [s[0]] + s[1..][..|p| - 1];
      assert p == [p[0]] + p[1..];
    }
    if IsPrefix(p, s) {
      assert s[1..][..|p| - 1] == s[..|p|][1..];
    }
  }

  lemma {:induction false} PercentMatchesAll(s: string)
    ensures Like("%", s)
    decreases |s|
  {
    assert "%"[1..] == "";
    if s == "" {
    } else {
      PercentMatchesAll(s[1..]);
    }
  }

  /** `%` skips any number of characters. */
  lemma {:induction false} PercentSkips(rest: string, s: string)
    ensures Like("%" + rest, s) <==> exists i :: 0 <= i <= |s| && Like(rest, s[i..])
    decreases |s|
  {
    var pattern := "%" + rest;
    assert pattern[1..] == rest && s[0..] == s;
    if s == "" {
    } else {
      PercentSkips(rest, s[1..]);
      if i :| 0 <= i <= |s| && Like(rest, s[i..]) {
        assert i > 0 ==> s[1..][i - 1..] == s[i..];
      }
      if j :| 0 <= j <= |s[1..]| && Like(rest, s[1..][j..]) {
        assert s[j + 1..] == s[1..][j..];
      }
    }
  }

  lemma OccursIsPrefix(s: string, p: string, i: nat)
    requires i <= |s|
    ensures OccursAt(s, p, i) <==> IsPrefix(p, s[i..])
  {
    if i + |p| <= |s| { assert s[i..][..|p|] == s[i..i + |p|]; }
  }

  /** A search box finds exactly the values that contain what was typed. */
  lemma LikeContains(p: string, s: string)
    ensures Like("%" + EscapeLike(p) + "%", s) <==> Contains(s, p)
  {
    var rest := EscapeLike(p) + "%";
    assert "%" + EscapeLike(p) + "%" == "%" + rest;
    PercentSkips(rest, s);
    forall i | 0 <= i <= |s|
      ensures Like(rest, s[i..]) <==> OccursAt(s, p, i)
    {
      LikeConsumes(p, "%", s[i..]);
      if IsPrefix(p, s[i..]) { PercentMatchesAll(s[i..][|p|..]); }
      OccursIsPrefix(s, p, i);
    }
  }

  // --- Redis globs --------------------------------------------------------------------------

  /** Where a character class ends, one past its `]`. `class` starts after the `[` and any `^`. */
  function ClassEnd(class_: string): nat
    ensures ClassEnd(class_) <= |class_|
    decreases |class_|
  {
    if class_ == "" then 0
    else if class_[0] == ']' then 1
    else if class_[0] == '\\' && |class_| >= 2 then 2 + ClassEnd(class_[2..])
    else if |class_| >= 3 && class_[1] == '-' then 3 + ClassEnd(class_[3..])
    else 1 + ClassEnd(class_[1..])
  }

  predicate InClass(class_: string, c: char)
    decreases |class_|
  {
    if class_ == "" || class_[0] == ']' then false
    else if class_[0] == '\\' && |class_| >= 2 then class_[1] == c || InClass(class_[2..], c)
    else if |class_| >= 3 && class_[1] == '-' then
      (class_[0] <= c <= class_[2] || class_[2] <= c <= class_[0]) || InClass(class_[3..], c)
    else class_[0] == c || InClass(class_[1..], c)
  }

  /** `*` is any run of characters, `?` any one, `[…]` one of a class, and `\` takes the next
      character literally. A lone `\` at the end stands for itself. */
  predicate Glob(pattern: string, s: string)
    decreases |pattern|, |s|
  {
    if pattern == "" then s == ""
    else if pattern[0] == '*' then Glob(pattern[1..], s) || (s != "" && Glob(pattern, s[1..]))
    else if s == "" then false
    else if pattern[0] == '?' then Glob(pattern[1..], s[1..])
    else if pattern[0] == '[' then
      var negated := |pattern| >= 2 && pattern[1] == '^';
      var class_ := if negated then pattern[2..] else pattern[1..];
      InClass(class_, s[0]) != negated && Glob(class_[ClassEnd(class_)..], s[1..])
    else if pattern[0] == '\\' && |pattern| >= 2 then s[0] == pattern[1] && Glob(pattern[2..], s[1..])
    else s[0] == pattern[0] && Glob(pattern[1..], s[1..])
  }

  lemma {:induction false} GlobConsumes(p: string, rest: string, s: string)
    ensures Glob(EscapeGlob(p) + rest, s) <==> IsPrefix(p, s) && Glob(rest, s[|p|..])
    decreases |p|
  {
    if p == "" {
      assert EscapeGlob(p) + rest == rest && s[0..] == s;
    } else {
      var tail := EscapeGlob(p[1..]) + rest;
      var pattern := EscapeGlob(p) + rest;
      if p[0] in GLOB_SPECIAL {
        assert pattern[0] == '\\' && pattern[1] == p[0] && pattern[2..] == tail;
      } else {
        assert pattern[0] == p[0] && pattern[1..] == tail;
      }
      if s != "" && s[0] == p[0] {
        GlobConsumes(p[1..], rest, s[1..]);
        PrefixUnfolds(p, s);
      }
    }
  }

  lemma {:induction false} StarMatchesAll(s: string)
    ensures Glob("*", s)
    decreases |s|
  {
    assert "*"[1..] == "";
    if s == "" {
    } else {
      StarMatchesAll(s[1..]);
    }
  }

  // --- The three drivers agree --------------------------------------------------------------

  /** For every prefix and every key, all three drivers decide as `startsWith` does. */
  lemma PrefixDeletesAgree(p: string, key: string)
    ensures Like(EscapeLike(p) + "%", key) <==> IsPrefix(p, key)
    ensures Glob(EscapeGlob(p) + "*", key) <==> IsPrefix(p, key)
  {
    LikeConsumes(p, "%", key);
    GlobConsumes(p, "*", key);
    if IsPrefix(p, key) {
      PercentMatchesAll(key[|p|..]);
      StarMatchesAll(key[|p|..]);
    }
  }

  // --- Why the escape is needed -------------------------------------------------------------

  predicate IsPlain(p: string) {
    forall c <- p :: c !in LIKE_SPECIAL
  }

  /** A string that the unescaped pattern `p + "%"` matches, no longer than `p`. */
  function Sample(p: string): string
    decreases |p|
  {
    if p == "" then ""
    else if p[0] == '%' then Sample(p[1..])
    else if p[0] == '_' then "x" + Sample(p[1..])
    else if p[0] == '\\' then (if |p| == 1 then "%" else [p[1]] + Sample(p[2..]))
    else [p[0]] + Sample(p[1..])
  }

  lemma {:induction false} SampleMatches(p: string)
    ensures Like(p + "%", Sample(p))
    decreases |p|
  {
    var pattern := p + "%";
    if p == "" {
      PercentMatchesAll("");
      assert pattern == "%";
    } else if p == "\\" {
      assert pattern[2..] == "" && "%"[1..] == "";
    } else {
      SampleMatches(p[1..]);
      assert pattern[1..] == p[1..] + "%";
      if p[0] == '\\' {
        SampleMatches(p[2..]);
        assert pattern[2..] == p[2..] + "%";
        assert Sample(p)[1..] == Sample(p[2..]);
      } else if p[0] != '%' {
        assert Sample(p)[1..] == Sample(p[1..]);
      }
    }
  }

  lemma {:induction false} SampleStartsWithPlainOnly(p: string)
    ensures |Sample(p)| <= |p|
    ensures Sample(p) == p ==> IsPlain(p)
    decreases |p|
  {
    if p == "" {
    } else {
      SampleStartsWithPlainOnly(p[1..]);
      if p[0] == '\\' && |p| >= 2 { SampleStartsWithPlainOnly(p[2..]); }
      if Sample(p) == p && p[0] !in LIKE_SPECIAL {
        assert Sample(p)[1..] == Sample(p[1..]) == p[1..];
        assert p == [p[0]] + p[1..];
      }
    }
  }

  lemma {:induction false} PlainNeedsNoEscape(p: string)
    requires IsPlain(p)
    ensures EscapeLike(p) == p
    decreases |p|
  {
    if p == "" {
    } else {
      assert p == [p[0]] + p[1..];
      PlainNeedsNoEscape(p[1..]);
    }
  }

  ghost predicate DecidesAsPrefix(p: string) {
    forall key :: Like(p + "%", key) <==> IsPrefix(p, key)
  }

  /** Unescaped, a prefix decides every key as `startsWith` does exactly when it holds none of
      the special characters. */
  lemma UnescapedDecidesIffPlain(p: string)
    ensures DecidesAsPrefix(p) <==> IsPlain(p)
  {
    if IsPlain(p) {
      PlainNeedsNoEscape(p);
      forall key
        ensures Like(p + "%", key) <==> IsPrefix(p, key)
      {
        PrefixDeletesAgree(p, key);
      }
    } else {
      SampleMatches(p);
      SampleStartsWithPlainOnly(p);
      assert !IsPrefix(p, Sample(p)) by {
        assert |Sample(p)| == |p| ==> Sample(p)[..|p|] == Sample(p);
      }
    }
  }
}

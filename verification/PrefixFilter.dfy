/**
 * Listing by prefix (`object_meta.rs`): the LIKE pattern used on Postgres and the order-and-`instr` condition
 * used on SQLite.
 */
module PrefixFilter {
  import opened Versions

  // ---------------------------------------------------------------- building the pattern

  /** `str::replace` of one character. */
  function Replace(s: string, c: char, text: string): string {
    if s == [] then [] else (if s[0] == c then text else [s[0]]) + Replace(s[1..], c, text)
  }

  function LikePrefixPattern(prefix: string): string {
    Replace(Replace(Replace(prefix, '\\', "\\\\"), '%', "\\%"), '_', "\\_") + "%"
  }

  /** SQL `LIKE` with backslash as the escape character; a pattern that ends in it matches nothing. */
  predicate Like(s: string, pattern: string)
    decreases |s| + |pattern|
  {
    if pattern == [] then s == []
    else if pattern[0] == '%' then Like(s, pattern[1..]) || (s != [] && Like(s[1..], pattern))
    else if s == [] then false
    else if pattern[0] == '_' then Like(s[1..], pattern[1..])
    else if pattern[0] == '\\' then |pattern| >= 2 && s[0] == pattern[1] && Like(s[1..], pattern[2..])
    else s[0] == pattern[0] && Like(s[1..], pattern[1..])
  }

  /** What the three replacements together should do to a character. */
  function EscapeChar(c: char): string {
    if c == '\\' || c == '%' || c == '_' then ['\\', c] else [c]
  }

  function EscapeAll(s: string): string {
    if s == [] then [] else EscapeChar(s[0]) + EscapeAll(s[1..])
  }

  lemma {:induction false} ReplaceAppend(a: string, b: string, c: char, text: string)
    ensures Replace(a + b, c, text) == Replace(a, c, text) + Replace(b, c, text)
  {
    if a == [] {
      assert a + b == b;
    } else {
      assert (a + b)[1..] == a[1..] + b;
      ReplaceAppend(a[1..], b, c, text);
    }
  }

  lemma ReplaceOne(x: char, c: char, text: string)
    ensures Replace([x], c, text) == if x == c then text else [x]
  {
    assert [x][1..] == [];
  }

  lemma ReplaceTwo(x: char, y: char, c: char, text: string)
    ensures Replace([x, y], c, text) == Replace([x], c, text) + Replace([y], c, text)
  {
    assert [x, y] == [x] + [y];
    ReplaceAppend([x], [y], c, text);
  }

  lemma EscapedChar(c: char)
    ensures Replace(Replace(Replace([c], '\\', "\\\\"), '%', "\\%"), '_', "\\_") == EscapeChar(c)
  {
    ReplaceOne(c, '\\', "\\\\");
    ReplaceOne(c, '%', "\\%");
    ReplaceOne(c, '_', "\\_");
    ReplaceOne('\\', '%', "\\%");
    ReplaceOne('\\', '_', "\\_");
    ReplaceOne('%', '_', "\\_");
    ReplaceTwo('\\', '\\', '%', "\\%");
    ReplaceTwo('\\', '\\', '_', "\\_");
    ReplaceTwo('\\', '%', '_', "\\_");
  }

  /** The replacements run one after the other, yet no escape is escaped again. */
  lemma {:induction false} ReplacementsEscape(s: string)
    ensures Replace(Replace(Replace(s, '\\', "\\\\"), '%', "\\%"), '_', "\\_") == EscapeAll(s)
  {
    if s != [] {
      var rest := s[1..];
      assert s == [s[0]] + rest;
      ReplacementsEscape(rest);
      EscapedChar(s[0]);
      ReplaceAppend([s[0]], rest, '\\', "\\\\");
      var a, b := Replace([s[0]], '\\', "\\\\"), Replace(rest, '\\', "\\\\");
      ReplaceAppend(a, b, '%', "\\%");
      ReplaceAppend(Replace(a, '%', "\\%"), Replace(b, '%', "\\%"), '_', "\\_");
    }
  }

  // ---------------------------------------------------------------- what the conditions select

  lemma {:induction false} LikeAnything(s: string)
    ensures Like(s, "%")
  {
    assert "%"[1..] == "";
    if s != [] { LikeAnything(s[1..]); }
  }

  lemma LikeStep(key: string, c: char, pattern: string)
    ensures Like(key, EscapeChar(c) + pattern) <==> key != [] && key[0] == c && Like(key[1..], pattern)
  {
    var p := EscapeChar(c) + pattern;
    if |EscapeChar(c)| == 2 {
      assert p[0] == '\\' && p[1] == c && p[2..] == pattern;
    } else {
      assert p[0] == c && p[1..] == pattern;
    }
  }

  lemma {:induction false} LikeIsPrefix(key: string, prefix: string)
    ensures Like(key, EscapeAll(prefix) + "%") <==> prefix <= key
    decreases |prefix|
  {
    if prefix == [] {
      assert EscapeAll(prefix) + "%" == "%";
      LikeAnything(key);
    } else {
      var rest := EscapeAll(prefix[1..]) + "%";
      assert EscapeAll(prefix) + "%" == EscapeChar(prefix[0]) + rest;
      LikeStep(key, prefix[0], rest);
      if key != [] {
        LikeIsPrefix(key[1..], prefix[1..]);
        assert key == [key[0]] + key[1..] && prefix == [prefix[0]] + prefix[1..];
      }
    }
  }

  /** SQLite's `instr`: the first position of the needle counted from 1, or 0. */
  function Instr(text: string, needle: string): nat {
    if needle <= text then 1
    else if text == [] then 0
    else if Instr(text[1..], needle) == 0 then 0 else Instr(text[1..], needle) + 1
  }

  predicate SqliteWhere(key: string, prefix: string) {
    !TextLess(key, prefix) && Instr(key, prefix) == 1
  }

  lemma {:induction false} ExtensionIsNotLess(key: string, prefix: string)
    requires prefix <= key
    ensures !TextLess(key, prefix)
    decreases |prefix|
  {
    if prefix != [] {
      ExtensionIsNotLess(key[1..], prefix[1..]);
    }
  }

  /** Both filters select exactly the keys that start with the prefix. */
  lemma PrefixFiltersAgree(key: string, prefix: string)
    ensures Like(key, LikePrefixPattern(prefix)) <==> prefix <= key
    ensures SqliteWhere(key, prefix) <==> prefix <= key
  {
    ReplacementsEscape(prefix);
    LikeIsPrefix(key, prefix);
    if prefix <= key { ExtensionIsNotLess(key, prefix); }
  }
}

/**
 `_label_matches_pattern`, of which the query executor and path discovery hold identical copies.
 `alnum` stands for `str.isalnum` on one character.
 */
module LabelMatcher {
  import opened Strings

  predicate WordChar(alnum: char -> bool, c: char) {
    alnum(c) || c == '_'
  }

  predicate Qualifying(c: char) {
    c == '.' || c == '(' || c == ')' || c == '\'' || c == '"'
  }

  /** `s[a..b]` is a maximal run of word characters. */
  ghost predicate WordRun(alnum: char -> bool, s: string, a: int, b: int) {
    && 0 <= a < b <= |s|
    && (forall k :: a <= k < b ==> WordChar(alnum, s[k]))
    && (a == 0 || !WordChar(alnum, s[a - 1]))
    && (b == |s| || !WordChar(alnum, s[b]))
  }

  /** The pattern stands in the label bounded on both sides by a non-word character or an end. */
  ghost predicate StandsAlone(alnum: char -> bool, text: string, pattern: string) {
    && (forall k :: 0 <= k < |pattern| ==> alnum(pattern[k]) || pattern[k] == '_')
    && exists i :: OccursAt(pattern, text, i) && Bounded(alnum, text, i, i + |pattern|)
  }

  ghost predicate Bounded(alnum: char -> bool, s: string, a: int, b: int) {
    && 0 <= a <= b <= |s|
    && (a == 0 || (!alnum(s[a - 1]) && s[a - 1] != '_'))
    && (b == |s| || (!alnum(s[b]) && s[b] != '_'))
  }

  /** The declarative meaning of a match, over every label and pattern. */
  ghost predicate Matches(alnum: char -> bool, text: string, pattern: string) {
    && pattern != ""
    && if exists c :: c in pattern && c in {'.', '(', ')', '\'', '"'} then Occurs(pattern, text)
       else StandsAlone(alnum, text, pattern)
  }

  /** The tokens are exactly the maximal word runs that end before `n`. */
  ghost predicate TokensUpTo(alnum: char -> bool, s: string, n: int, tokens: seq<string>) {
    forall t :: t in tokens <==> exists a, b :: b < n && WordRun(alnum, s, a, b) && t == s[a..b]
  }

  /** `s[a..n]` is the word run still open at position `n`. */
  ghost predicate OpenRun(alnum: char -> bool, s: string, a: int, n: int) {
    && 0 <= a <= n <= |s|
    && (forall k :: a <= k < n ==> WordChar(alnum, s[k]))
    && (a == 0 || !WordChar(alnum, s[a - 1]))
  }

  lemma OpenRunIsUnique(alnum: char -> bool, s: string, a: int, n: int, x: int)
    requires OpenRun(alnum, s, a, n) && WordRun(alnum, s, x, n)
    ensures x == a
  {
  }

  /** Reading a non-word character closes the open run. */
  lemma CloseRun(alnum: char -> bool, s: string, a: int, n: int, tokens: seq<string>)
    requires TokensUpTo(alnum, s, n, tokens) && OpenRun(alnum, s, a, n) && n < |s| && !WordChar(alnum, s[n])
    ensures TokensUpTo(alnum, s, n + 1, if a < n then tokens + [s[a..n]] else tokens)
  {
    if a < n {
      assert WordRun(alnum, s, a, n);
    }
    forall x | WordRun(alnum, s, x, n) ensures x == a {
      OpenRunIsUnique(alnum, s, a, n, x);
    }
  }

  /** Reading a word character extends the open run and closes none. */
  lemma ExtendRun(alnum: char -> bool, s: string, a: int, n: int, tokens: seq<string>)
    requires TokensUpTo(alnum, s, n, tokens) && OpenRun(alnum, s, a, n) && n < |s| && WordChar(alnum, s[n])
    ensures TokensUpTo(alnum, s, n + 1, tokens) && OpenRun(alnum, s, a, n + 1)
  {
    assert forall x :: !WordRun(alnum, s, x, n);
  }

  lemma NoRunYet(alnum: char -> bool, s: string)
    ensures TokensUpTo(alnum, s, 0, []) && OpenRun(alnum, s, 0, 0)
  {
  }

  lemma FreshRun(alnum: char -> bool, s: string, n: int)
    requires 0 <= n < |s| && !WordChar(alnum, s[n])
    ensures OpenRun(alnum, s, n + 1, n + 1)
  {
  }

  /** At the end of the text the open run, if not empty, is the last token. */
  lemma AllTokens(alnum: char -> bool, s: string, a: int, tokens: seq<string>, pattern: string)
    requires TokensUpTo(alnum, s, |s|, tokens) && OpenRun(alnum, s, a, |s|)
    ensures var all := if a < |s| then tokens + [s[a..|s|]] else tokens;
      pattern in all <==> exists x, y :: WordRun(alnum, s, x, y) && pattern == s[x..y]
  {
    if a < |s| {
      assert WordRun(alnum, s, a, |s|);
    }
    forall x | WordRun(alnum, s, x, |s|) ensures x == a {
      OpenRunIsUnique(alnum, s, a, |s|, x);
    }
  }

  /** A standing-alone pattern of word characters is a maximal word run, and conversely. */
  lemma StandsAloneIsRun(alnum: char -> bool, text: string, pattern: string)
    requires pattern != ""
    ensures StandsAlone(alnum, text, pattern) <==> exists a, b :: WordRun(alnum, text, a, b) && pattern == text[a..b]
  {
    if StandsAlone(alnum, text, pattern) {
      var i :| OccursAt(pattern, text, i) && Bounded(alnum, text, i, i + |pattern|);
      assert forall k :: i <= k < i + |pattern| ==> text[k] == pattern[k - i];
      assert WordRun(alnum, text, i, i + |pattern|);
    }
    if a, b :| WordRun(alnum, text, a, b) && pattern == text[a..b] {
      assert OccursAt(pattern, text, a) && Bounded(alnum, text, a, a + |pattern|);
    }
  }

  method LabelMatchesPattern(alnum: char -> bool, text: string, pattern: string) returns (matches: bool)
    ensures matches <==> Matches(alnum, text, pattern)
  {
    if pattern == "" {
      return false;
    }
    if exists c :: c in pattern && Qualifying(c) {
      return Occurs(pattern, text);
    }
    assert pattern[0] in pattern;
    if pattern[0] == '.' {
      // The original strips a leading dot here, but a dotted pattern has already been answered above.
      assert false;
    }
    hide TokensUpTo, OpenRun, WordRun, StandsAlone;
    var tokens: seq<string> := [];
    var current := "";
    NoRunYet(alnum, text);
    for i := 0 to |text|
      invariant |current| <= i && current == text[i - |current|..i] && OpenRun(alnum, text, i - |current|, i)
      invariant TokensUpTo(alnum, text, i, tokens)
    {
      if WordChar(alnum, text[i]) {
        ExtendRun(alnum, text, i - |current|, i, tokens);
        assert text[i - |current|..i + 1] == current + [text[i]];
        current := current + [text[i]];
      } else {
        CloseRun(alnum, text, i - |current|, i, tokens);
        FreshRun(alnum, text, i);
        if current != "" {
          tokens := tokens + [current];
          current := "";
        }
      }
    }
    AllTokens(alnum, text, |text| - |current|, tokens, pattern);
    if current != "" {
      tokens := tokens + [current];
    }
    StandsAloneIsRun(alnum, text, pattern);
    return pattern in tokens;
  }
}

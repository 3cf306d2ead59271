/**
 The snippet printer (`QueryExecutor._extract_code_snippet`) against the gutter parser
 (`ScanService._extract_sink_line`): printing and parsing are inverse on every source.
 */
module Snippets {
  import opened Base
  import opened Strings

  // ----- lines

  /** `s.split("\n")`: never empty, and no part holds a line break. */
  function SplitLines(s: string): (lines: seq<string>)
    ensures lines != [] && forall i :: 0 <= i < |lines| ==> '\n' !in lines[i]
  {
    if s == "" then [""]
    else
      var rest := SplitLines(s[1..]);
      if s[0] == '\n' then [""] + rest else [[s[0]] + rest[0]] + rest[1..]
  }

  /** `"\n".join(lines)`. */
  function JoinLines(lines: seq<string>): string {
    if lines == [] then ""
    else if |lines| == 1 then lines[0]
    else lines[0] + "\n" + JoinLines(lines[1..])
  }

  lemma {:induction false} SplitPrefix(line: string, rest: string)
    requires '\n' !in line
    ensures SplitLines(line + rest) == [line + SplitLines(rest)[0]] + SplitLines(rest)[1..]
  {
    if line == "" {
      var parts := SplitLines(rest);
      assert line + rest == rest && line + parts[0] == parts[0];
      assert parts == [parts[0]] + parts[1..];
    } else {
      SplitPrefix(line[1..], rest);
      assert (line + rest)[1..] == line[1..] + rest;
      assert [line[0]] + (line[1..] + SplitLines(rest)[0]) == line + SplitLines(rest)[0];
    }
  }

  /** Splitting undoes joining when no line holds a break. */
  lemma {:induction false} SplitOfJoin(lines: seq<string>)
    requires lines != [] && forall i :: 0 <= i < |lines| ==> '\n' !in lines[i]
    ensures SplitLines(JoinLines(lines)) == lines
  {
    if |lines| == 1 {
      SplitPrefix(lines[0], "");
      assert lines[0] + "" == lines[0];
    } else {
      var tail := JoinLines(lines[1..]);
      SplitOfJoin(lines[1..]);
      SplitPrefix(lines[0], "\n" + tail);
      assert lines[0] + "\n" + tail == lines[0] + ("\n" + tail);
      assert ("\n" + tail)[1..] == tail;
      assert SplitLines("\n" + tail) == [""] + lines[1..];
      assert lines[0] + "" == lines[0];
    }
  }

  // ----- numbers

  predicate Digit(c: char) {
    '0' <= c <= '9'
  }

  /** `str(n)`. */
  function Decimal(n: nat): (s: string)
    ensures s != "" && forall i :: 0 <= i < |s| ==> Digit(s[i])
  {
    if n < 10 then ['0' + n as char] else Decimal(n / 10) + ['0' + (n % 10) as char]
  }

  /** `int(s)` of a digit string. */
  function Value(s: string): nat
    requires forall i :: 0 <= i < |s| ==> Digit(s[i])
  {
    if s == "" then 0
    else
      assert Digit(Last(s));
      10 * Value(s[..|s| - 1]) + (Last(s) - '0') as nat
  }

  lemma {:induction false} ValueOfDecimal(n: nat)
    ensures Value(Decimal(n)) == n
  {
    var s := Decimal(n);
    if n >= 10 {
      ValueOfDecimal(n / 10);
      assert s[..|s| - 1] == Decimal(n / 10);
    } else {
      assert s[..|s| - 1] == "";
    }
  }

  // ----- the gutter

  predicate Blank(c: char) {
    c == ' ' || c == '\t' || c == '\n' || c == '\r' || c == '\U{000B}' || c == '\U{000C}'
  }

  function SkipBlanks(s: string): (r: string) {
    if s != "" && Blank(s[0]) then SkipBlanks(s[1..]) else s
  }

  function DigitsOf(s: string): (r: string)
    ensures r <= s && forall i :: 0 <= i < |r| ==> Digit(r[i])
  {
    if s != "" && Digit(s[0]) then [s[0]] + DigitsOf(s[1..]) else ""
  }

  /** Matching `(?:>>>)?\s*(\d+)\s*\|` at the start of a line; the group's number when it matches. */
  function ParseGutter(line: string): Option<nat> {
    var body := SkipBlanks(if ">>>" <= line then line[3..] else line);
    var digits := DigitsOf(body);
    var rest := SkipBlanks(body[|digits|..]);
    if digits != "" && rest != "" && rest[0] == '|' then Some(Value(digits)) else None
  }

  ghost predicate AllSpace(s: string) {
    forall i :: 0 <= i < |s| ==> s[i] in {' ', '\t', '\n', '\r', '\U{000B}', '\U{000C}'}
  }

  /** A gutter at the start of a line: a mark or none, space, digits, space, a bar. */
  ghost predicate Gutters(line: string, mark: string, pre: string, digits: string, post: string, rest: string) {
    && line == mark + (pre + (digits + (post + ("|" + rest)))) && (mark == "" || mark == ">>>")
    && AllSpace(pre) && AllSpace(post) && digits != "" && forall i :: 0 <= i < |digits| ==> Digit(digits[i])
  }

  lemma {:induction false} SkipBlanksSplits(s: string) returns (blanks: string)
    ensures s == blanks + SkipBlanks(s) && AllSpace(blanks)
  {
    if s != "" && Blank(s[0]) {
      blanks := SkipBlanksSplits(s[1..]);
      blanks := [s[0]] + blanks;
    } else {
      blanks := "";
      assert s == "" + s;
    }
  }

  lemma {:induction false} SkipSpace(blanks: string, rest: string)
    requires AllSpace(blanks)
    ensures SkipBlanks(blanks + rest) == SkipBlanks(rest)
  {
    if blanks == "" {
      assert blanks + rest == rest;
    } else {
      SkipSpace(blanks[1..], rest);
      assert (blanks + rest)[1..] == blanks[1..] + rest;
    }
  }

  /** The parser reads a number off exactly the lines that begin with a gutter. */
  lemma GutterIsFound(line: string) returns (mark: string, pre: string, digits: string, post: string, rest: string)
    requires ParseGutter(line).Some?
    ensures Gutters(line, mark, pre, digits, post, rest) && ParseGutter(line) == Some(Value(digits))
  {
    hide SkipBlanks, DigitsOf, Value, AllSpace, Digit;
    mark := if ">>>" <= line then ">>>" else "";
    var after := if ">>>" <= line then line[3..] else line;
    assert line == mark + after;
    var body := SkipBlanks(after);
    pre := SkipBlanksSplits(after);
    digits := DigitsOf(body);
    post := SkipBlanksSplits(body[|digits|..]);
    var tail := SkipBlanks(body[|digits|..]);
    rest := tail[1..];
    assert tail == "|" + rest;
    assert body == digits + body[|digits|..];
  }

  lemma GutterIsRead(line: string, mark: string, pre: string, digits: string, post: string, rest: string)
    requires Gutters(line, mark, pre, digits, post, rest)
    ensures ParseGutter(line) == Some(Value(digits))
  {
    hide SkipBlanks, DigitsOf, Value, AllSpace, Digit;
    var tail := digits + (post + ("|" + rest));
    FirstOf(digits, post + ("|" + rest));
    MarkIsPlain(mark, pre, tail);
    ReadTail(pre, digits, post, rest);
  }

  lemma FirstOf(digits: string, rest: string)
    requires digits != ""
    ensures digits + rest != "" && (digits + rest)[0] == digits[0] && (digits + rest)[|digits|..] == rest
  {
  }

  lemma ReadTail(pre: string, digits: string, post: string, rest: string)
    requires AllSpace(pre) && AllSpace(post) && digits != "" && forall i :: 0 <= i < |digits| ==> Digit(digits[i])
    ensures var tail := digits + (post + ("|" + rest));
      && SkipBlanks(pre + tail) == tail && DigitsOf(tail) == digits
      && SkipBlanks(tail[|digits|..]) == "|" + rest
  {
    hide SkipBlanks, DigitsOf;
    var bar := "|" + rest;
    var after := post + bar;
    FirstOf(digits, after);
    SkipSpace(pre, digits + after);
    NothingToSkip(digits + after);
    assert after[0] == if post == "" then '|' else post[0];
    DigitsOfRun(digits, after);
    SkipSpace(post, bar);
    assert bar[0] == '|';
    NothingToSkip(bar);
  }

  /** Without a mark, what follows does not look like one. */
  lemma MarkIsPlain(mark: string, pre: string, tail: string)
    requires (mark == "" || mark == ">>>") && AllSpace(pre) && tail != "" && Digit(tail[0])
    ensures ">>>" <= mark + (pre + tail) <==> mark == ">>>"
    ensures (if ">>>" <= mark + (pre + tail) then (mark + (pre + tail))[3..] else mark + (pre + tail)) == pre + tail
  {
    var after := pre + tail;
    assert after[0] == if pre == "" then tail[0] else pre[0];
    if mark == "" {
      assert mark + after == after && ">>>"[0] == '>';
    } else {
      assert (mark + after)[..3] == ">>>" && (mark + after)[3..] == after;
    }
  }

  /** `f"{n:4d}"`. */
  function Pad4(s: string): string {
    if |s| < 4 then Blanks(4 - |s|) + s else s
  }

  function Gutter(n: nat, marked: bool): string {
    (if marked then ">>> " else "    ") + Pad4(Decimal(n)) + " | "
  }

  function RenderLine(n: nat, marked: bool, text: string): string {
    Gutter(n, marked) + text
  }

  lemma {:induction false} SkipBlanksRun(n: nat, rest: string)
    ensures SkipBlanks(Blanks(n) + rest) == SkipBlanks(rest)
  {
    var s := Blanks(n) + rest;
    if n == 0 {
      assert s == rest;
    } else {
      SkipBlanksRun(n - 1, rest);
      assert s[1..] == Blanks(n - 1) + rest;
    }
  }

  lemma {:induction false} DigitsOfRun(digits: string, rest: string)
    requires (forall i :: 0 <= i < |digits| ==> Digit(digits[i])) && (rest == "" || !Digit(rest[0]))
    ensures DigitsOf(digits + rest) == digits
  {
    if digits == "" {
      assert digits + rest == rest;
    } else {
      DigitsOfRun(digits[1..], rest);
      assert (digits + rest)[1..] == digits[1..] + rest;
    }
  }

  function Blanks(n: nat): string {
    seq(n, _ => ' ')
  }

  /** After the optional mark, a rendered line is blanks, the digits, a bar and the text. */
  lemma StripMark(n: nat, marked: bool, text: string) returns (blanks: nat)
    ensures var line := RenderLine(n, marked, text);
      (if ">>>" <= line then line[3..] else line) == Blanks(blanks) + (Decimal(n) + (" | " + text))
  {
    hide *;
    var digits, rest := Decimal(n), Decimal(n) + (" | " + text);
    var pad := PaddingOf(digits);
    RenderUnfolds(n, marked, text);
    OwnBlanks();
    var mark := if marked then ">>> " else "    ";
    Regroup(mark, Blanks(pad), digits, " | ", text);
    assert RenderLine(n, marked, text) == mark + (Blanks(pad) + rest);
    if marked {
      blanks := 1 + pad;
      MoreBlanks(">>> ", ">>>", 1, pad, rest);
      assert (">>>" + (Blanks(blanks) + rest))[..3] == ">>>";
      assert (">>>" + (Blanks(blanks) + rest))[3..] == Blanks(blanks) + rest;
    } else {
      blanks := 4 + pad;
      MoreBlanks("    ", "", 4, pad, rest);
      assert ("    " + (Blanks(pad) + rest))[0] == ' ' && ">>>"[0] == '>';
      assert "" + (Blanks(blanks) + rest) == Blanks(blanks) + rest;
    }
  }

  lemma RenderUnfolds(n: nat, marked: bool, text: string)
    ensures RenderLine(n, marked, text) == ((if marked then ">>> " else "    ") + Pad4(Decimal(n)) + " | ") + text
  {
    hide Decimal, Pad4;
  }

  lemma OwnBlanks()
    ensures ">>> " == ">>>" + Blanks(1) && "    " == "" + Blanks(4)
  {
  }

  lemma Regroup(a: string, b: string, c: string, d: string, e: string)
    ensures a + (b + c) + d + e == a + (b + (c + (d + e)))
  {
  }

  lemma PaddingOf(digits: string) returns (pad: nat)
    ensures Pad4(digits) == Blanks(pad) + digits
  {
    pad := if |digits| < 4 then 4 - |digits| else 0;
  }

  /** The mark's own blanks join those that pad the number. */
  lemma MoreBlanks(mark: string, tip: string, own: nat, pad: nat, rest: string)
    requires mark == tip + Blanks(own)
    ensures mark + (Blanks(pad) + rest) == tip + (Blanks(own + pad) + rest)
  {
    assert Blanks(own) + Blanks(pad) == Blanks(own + pad);
  }

  lemma ParseNumbered(blanks: nat, digits: string, text: string)
    requires digits != "" && forall i :: 0 <= i < |digits| ==> Digit(digits[i])
    ensures var line := Blanks(blanks) + (digits + (" | " + text));
      && SkipBlanks(line) == digits + (" | " + text)
      && DigitsOf(digits + (" | " + text)) == digits
      && SkipBlanks((digits + (" | " + text))[|digits|..]) == "| " + text
  {
    hide SkipBlanks, DigitsOf, Blanks;
    var tail := digits + (" | " + text);
    SkipBlanksRun(blanks, tail);
    assert tail[0] == digits[0];
    NothingToSkip(tail);
    DigitsOfRun(digits, " | " + text);
    assert tail[|digits|..] == " | " + text;
    BarAfterBlank(text);
  }

  lemma NothingToSkip(s: string)
    requires s != "" && !Blank(s[0])
    ensures SkipBlanks(s) == s
  {
  }

  lemma BarAfterBlank(text: string)
    ensures SkipBlanks(" | " + text) == "| " + text
  {
    var s := " | " + text;
    assert s[1..] == "| " + text && (" | " + text)[1..][0] == '|';
    NothingToSkip(s[1..]);
  }

  /** The parser recovers the printed line number, whatever the line holds. */
  lemma ParseOfRender(n: nat, marked: bool, text: string)
    ensures ParseGutter(RenderLine(n, marked, text)) == Some(n)
  {
    hide Decimal, Value, RenderLine, SkipBlanks, DigitsOf, Blanks;
    var blanks := StripMark(n, marked, text);
    ParseNumbered(blanks, Decimal(n), text);
    ValueOfDecimal(n);
  }

  // ----- the window

  ghost predicate IsMin(s: set<int>, m: int) { m in s && forall x :: x in s ==> m <= x }
  ghost predicate IsMax(s: set<int>, m: int) { m in s && forall x :: x in s ==> x <= m }

  lemma {:induction false} MinMaxExist(s: set<int>)
    requires s != {}
    ensures (exists a :: IsMin(s, a)) && (exists b :: IsMax(s, b))
    decreases |s|
  {
    var x := ElementOf(s);
    if s == {x} {
      assert IsMin(s, x) && IsMax(s, x);
    } else {
      var rest := s - {x};
      assert forall y :: y in s <==> y in rest || y == x;
      MinMaxExist(rest);
      var a :| IsMin(rest, a);
      var b :| IsMax(rest, b);
      assert IsMin(s, if x < a then x else a) && IsMax(s, if x > b then x else b);
    }
  }

  /** `min(s)` and `max(s)`. */
  method MinMax(s: set<int>) returns (lo: int, hi: int)
    requires s != {}
    ensures IsMin(s, lo) && IsMax(s, hi)
  {
    ghost var some := ElementOf(s);
    lo :| lo in s;
    hi := lo;
    var rest := s - {lo};
    while rest != {}
      invariant rest <= s && lo in s && hi in s
      invariant forall x :: x in s && x !in rest ==> lo <= x <= hi
      decreases |rest|
    {
      some := ElementOf(rest);
      var x :| x in rest;
      rest := rest - {x};
      if x < lo {
        lo := x;
      }
      if x > hi {
        hi := x;
      }
    }
  }

  /** The rendered lines `lo..hi` (one-based, inclusive) of a source. */
  ghost function Rendered(lines: seq<string>, wanted: set<int>, lo: int, hi: int): (r: seq<string>)
    requires 1 <= lo && hi <= |lines|
  {
    if hi < lo then [] else Rendered(lines, wanted, lo, hi - 1) + [RenderLine(hi, hi in wanted, lines[hi - 1])]
  }

  /**
   The window the printer shows: the wanted lines and `context` lines around them, inside the source; a negative
   `context` narrows it.
   */
  ghost predicate Window(total: nat, wanted: set<int>, context: int, lo: int, hi: int) {
    && (forall a :: IsMin(wanted, a) ==> lo == if a - context < 1 then 1 else a - context)
    && (forall b :: IsMax(wanted, b) ==> hi == if b + context > total then total else b + context)
  }

  /** `_extract_code_snippet`. */
  method ExtractCodeSnippet(source: string, wanted: set<int>, context: int) returns (snippet: string, lo: int, hi: int)
    ensures wanted == {} ==> snippet == ""
    ensures wanted != {} ==>
              && Window(|SplitLines(source)|, wanted, context, lo, hi)
              && 1 <= lo && hi <= |SplitLines(source)|
              && snippet == JoinLines(Rendered(SplitLines(source), wanted, lo, hi))
  {
    hide RenderLine, JoinLines, SplitLines;
    var lines := SplitLines(source);
    if wanted == {} {
      return "", 1, 0;
    }
    lo, hi := MinMax(wanted);
    lo := if lo - context < 1 then 1 else lo - context;
    hi := if hi + context > |lines| then |lines| else hi + context;
    var snippetLines: seq<string> := [];
    var i := lo - 1;
    while i < hi
      invariant lo - 1 <= i && (i <= hi || i == lo - 1)
      invariant snippetLines == if i < lo then [] else Rendered(lines, wanted, lo, i)
    {
      snippetLines := snippetLines + [RenderLine(i + 1, i + 1 in wanted, lines[i])];
      i := i + 1;
    }
    snippet := JoinLines(snippetLines);
  }

  lemma {:induction false} RenderedAt(lines: seq<string>, wanted: set<int>, lo: int, hi: int, k: nat)
    requires 1 <= lo && hi <= |lines| && k < hi - lo + 1
    ensures |Rendered(lines, wanted, lo, hi)| == hi - lo + 1
    ensures Rendered(lines, wanted, lo, hi)[k] == RenderLine(lo + k, lo + k in wanted, lines[lo + k - 1])
    decreases hi
  {
    hide RenderLine;
    if lo < hi {
      RenderedAt(lines, wanted, lo, hi - 1, if k < hi - lo then k else 0);
    } else {
      assert Rendered(lines, wanted, lo, hi - 1) == [];
    }
  }

  ghost predicate InRange(source: string, wanted: set<int>) {
    wanted != {} && forall x :: x in wanted ==> 1 <= x <= |SplitLines(source)|
  }

  /**
   Round trip: splitting a printed snippet gives back the window's lines, contiguous and inside the
   source, covering everything asked for, each parsing to its own number.
   */
  lemma SnippetRoundTrip(source: string, wanted: set<int>, context: nat, lo: int, hi: int)
    requires InRange(source, wanted) && Window(|SplitLines(source)|, wanted, context, lo, hi)
    ensures 1 <= lo <= hi <= |SplitLines(source)|
    ensures forall x :: x in wanted ==> lo <= x <= hi
    ensures var shown := SplitLines(JoinLines(Rendered(SplitLines(source), wanted, lo, hi)));
      && |shown| == hi - lo + 1
      && forall k :: 0 <= k < |shown| ==>
           && shown[k] == RenderLine(lo + k, lo + k in wanted, SplitLines(source)[lo + k - 1])
           && ParseGutter(shown[k]) == Some(lo + k)
  {
    var lines := SplitLines(source);
    MinMaxExist(wanted);
    var a :| IsMin(wanted, a);
    var b :| IsMax(wanted, b);
    var r := Rendered(lines, wanted, lo, hi);
    forall k | 0 <= k < hi - lo + 1
      ensures |r| == hi - lo + 1 && r[k] == RenderLine(lo + k, lo + k in wanted, lines[lo + k - 1])
      ensures '\n' !in r[k] && ParseGutter(r[k]) == Some(lo + k)
    {
      RenderedAt(lines, wanted, lo, hi, k);
      RenderHasNoBreak(lo + k, lo + k in wanted, lines[lo + k - 1]);
      ParseOfRender(lo + k, lo + k in wanted, lines[lo + k - 1]);
    }
    assert r[0] == r[0];
    SplitOfJoin(r);
  }

  lemma RenderHasNoBreak(n: nat, marked: bool, text: string)
    requires '\n' !in text
    ensures '\n' !in RenderLine(n, marked, text)
  {
    var digits := Decimal(n);
    assert '\n' !in digits;
    assert '\n' !in Pad4(digits);
  }

  // ----- the sink line

  /** The parts of a stored finding the sink-line search reads. */
  datatype Evidence = Evidence(snippet: string, sink: string, startLine: Option<int>, endLine: Option<int>)

  /** `end_line or start_line or 0`. */
  function FallbackLine(e: Evidence): int {
    if e.endLine.GetOr(0) != 0 then e.endLine.value
    else if e.startLine.GetOr(0) != 0 then e.startLine.value
    else 0
  }

  /** The end line if it is recorded and not 0, else the start line, else 0. */
  lemma FallbackMeaning(e: Evidence)
    ensures forall n :: n != 0 && e.endLine == Some(n) ==> FallbackLine(e) == n
    ensures forall n :: n != 0 && (e.endLine == None || e.endLine == Some(0)) && e.startLine == Some(n) ==>
              FallbackLine(e) == n
    ensures (e.endLine == None || e.endLine == Some(0)) && (e.startLine == None || e.startLine == Some(0)) ==>
              FallbackLine(e) == 0
  {
  }

  predicate NumberedWith(sink: string, line: string) {
    ParseGutter(line).Some? && Occurs(sink, line)
  }

  /** Line `k` is the first numbered line that contains the sink. */
  ghost predicate FirstNumbered(sink: string, lines: seq<string>, k: int) {
    0 <= k < |lines| && NumberedWith(sink, lines[k]) && forall j :: 0 <= j < k ==> !NumberedWith(sink, lines[j])
  }

  ghost predicate NoneNumbered(sink: string, lines: seq<string>) {
    forall j :: 0 <= j < |lines| ==> !NumberedWith(sink, lines[j])
  }

  /**
   What the search answers: the number on the first numbered snippet line that contains the sink, or the finding's own
   line.
   */
  ghost predicate IsSinkLine(e: Evidence, line: int) {
    && (forall k :: e.sink != "" && e.sink != "regex" && FirstNumbered(e.sink, SplitLines(e.snippet), k) ==>
          ParseGutter(SplitLines(e.snippet)[k]) == Some(line))
    && (e.sink == "" || e.sink == "regex" || NoneNumbered(e.sink, SplitLines(e.snippet)) ==> line == FallbackLine(e))
  }

  /** `_extract_sink_line`. */
  method ExtractSinkLine(e: Evidence) returns (line: int)
    ensures IsSinkLine(e, line)
  {
    if e.sink != "" && e.sink != "regex" {
      var lines := SplitLines(e.snippet);
      for k := 0 to |lines|
        invariant forall j :: 0 <= j < k ==> !NumberedWith(e.sink, lines[j])
      {
        var m := ParseGutter(lines[k]);
        if m.Some? && Occurs(e.sink, lines[k]) {
          return m.value;
        }
      }
    }
    return FallbackLine(e);
  }

  // ----- when a gutter can be taken for the sink

  /** The sink neither occurs in the gutter nor begins with a tail of it. */
  predicate ClearOf(sink: string, gutter: string) {
    && !Occurs(sink, gutter)
    && forall i :: 0 <= i < |gutter| && |gutter| - i < |sink| ==> gutter[i..] != sink[..|gutter| - i]
  }

  lemma OccursAfter(part: string, gutter: string, text: string)
    requires Occurs(part, text)
    ensures Occurs(part, gutter + text)
  {
    var i :| 0 <= i <= |text| - |part| && OccursAt(part, text, i);
    assert (gutter + text)[i + |gutter|..i + |gutter| + |part|] == text[i..i + |part|];
    assert OccursAt(part, gutter + text, i + |gutter|);
  }

  /** An occurrence that starts inside the gutter is one of the two kinds `ClearOf` rules out. */
  lemma OccursEarly(sink: string, gutter: string, text: string, i: nat)
    requires i < |gutter| && OccursAt(sink, gutter + text, i)
    ensures !ClearOf(sink, gutter)
  {
    var line := gutter + text;
    if i + |sink| <= |gutter| {
      assert gutter[i..i + |sink|] == line[i..i + |sink|];
      assert OccursAt(sink, gutter, i);
    } else {
      assert gutter[i..] == line[i..i + |sink|][..|gutter| - i];
    }
  }

  lemma ClearLine(sink: string, gutter: string, text: string)
    requires sink != "" && ClearOf(sink, gutter)
    ensures Occurs(sink, gutter + text) <==> Occurs(sink, text)
  {
    if Occurs(sink, text) {
      OccursAfter(sink, gutter, text);
    }
    if Occurs(sink, gutter + text) {
      var i :| 0 <= i <= |gutter + text| - |sink| && OccursAt(sink, gutter + text, i);
      if i < |gutter| {
        OccursEarly(sink, gutter, text, i);
      }
      assert text[i - |gutter|..i - |gutter| + |sink|] == (gutter + text)[i..i + |sink|];
      assert OccursAt(sink, text, i - |gutter|);
    }
  }

  /** A line on which a gutter that is not clear is taken for the sink; it is made of the sink's own characters. */
  lemma MistakenLine(sink: string, gutter: string) returns (text: string)
    requires sink != "" && !ClearOf(sink, gutter)
    ensures !Occurs(sink, text) && Occurs(sink, gutter + text)
    ensures forall c :: c in text ==> c in sink
  {
    if Occurs(sink, gutter) {
      text := "";
      assert gutter + text == gutter;
    } else {
      var i :| 0 <= i < |gutter| && |gutter| - i < |sink| && gutter[i..] == sink[..|gutter| - i];
      text := sink[|gutter| - i..];
      assert gutter[i..] + text == sink;
      assert (gutter + text)[i..i + |sink|] == gutter[i..] + text;
      assert OccursAt(sink, gutter + text, i);
    }
  }

  /**
   On the line numbered `n`, searching the printed line finds the source's occurrences and no others exactly when the
   gutter is clear.
   */
  lemma LineSearchIff(sink: string, n: nat, marked: bool)
    requires sink != ""
    ensures (forall text :: Occurs(sink, RenderLine(n, marked, text)) <==> Occurs(sink, text))
       <==> ClearOf(sink, Gutter(n, marked))
  {
    hide Gutter, Occurs, ClearOf;
    if ClearOf(sink, Gutter(n, marked)) {
      forall text ensures Occurs(sink, RenderLine(n, marked, text)) <==> Occurs(sink, text) {
        ClearLine(sink, Gutter(n, marked), text);
      }
    } else {
      var text := MistakenLine(sink, Gutter(n, marked));
      assert Occurs(sink, RenderLine(n, marked, text)) && !Occurs(sink, text);
    }
  }

  /** Gutters that snippets show: without context lines, a snippet whose first line is line 1 marks it. */
  predicate CanShow(context: nat, n: nat, marked: bool) {
    n >= 1 && (marked || n >= 2 || context >= 1)
  }

  /** No gutter that can be shown with this much context can be taken for the sink. */
  ghost predicate GutterProof(sink: string, context: nat) {
    forall n: nat, marked :: CanShow(context, n, marked) ==> ClearOf(sink, Gutter(n, marked))
  }

  /** Characters a gutter is made of. */
  predicate GutterChar(c: char) {
    c == ' ' || c == '>' || c == '|' || Digit(c)
  }

  lemma GutterIsGutter(n: nat, marked: bool, i: nat)
    requires i < |Gutter(n, marked)|
    ensures GutterChar(Gutter(n, marked)[i])
  {
    var digits := Decimal(n);
    assert forall k :: 0 <= k < |Pad4(digits)| ==> GutterChar(Pad4(digits)[k]);
    assert forall k :: 0 <= k < 3 ==> GutterChar(" | "[k]);
  }

  lemma GutterEndsBlank(n: nat, marked: bool)
    ensures Gutter(n, marked) != "" && Last(Gutter(n, marked)) == ' '
  {
  }

  /**
   A sink is safe if some character of it, with no space before it, cannot stand in a gutter: "exec(", "7x", "|safe".
   */
  lemma WordsAreProof(sink: string, j: nat, context: nat)
    requires j < |sink| && !GutterChar(sink[j]) && ' ' !in sink[..j]
    ensures GutterProof(sink, context)
  {
    forall n: nat, marked | CanShow(context, n, marked) ensures ClearOf(sink, Gutter(n, marked)) {
      var gutter := Gutter(n, marked);
      GutterEndsBlank(n, marked);
      forall i | 0 <= i < |gutter| ensures GutterChar(gutter[i]) {
        GutterIsGutter(n, marked, i);
      }
      hide Gutter, GutterChar;
      forall i | 0 <= i <= |gutter| - |sink| ensures !OccursAt(sink, gutter, i) {
        assert gutter[i..i + |sink|][j] == gutter[i + j];
      }
      forall i | 0 <= i < |gutter| && |gutter| - i < |sink| ensures gutter[i..] != sink[..|gutter| - i] {
        NotATail(sink, gutter, i, j);
      }
    }
  }

  lemma NotATail(sink: string, gutter: string, i: nat, j: nat)
    requires i < |gutter| && |gutter| - i < |sink| && j < |sink|
    requires (forall k :: 0 <= k < |gutter| ==> GutterChar(gutter[k])) && Last(gutter) == ' '
    requires !GutterChar(sink[j]) && ' ' !in sink[..j]
    ensures gutter[i..] != sink[..|gutter| - i]
  {
    var tail, head := gutter[i..], sink[..|gutter| - i];
    var last := |tail| - 1;
    assert tail[last] == ' ' && (j <= last ==> tail[j] == gutter[i + j]);
    if last < j {
      assert sink[..j][last] == head[last];
    } else {
      assert head[j] == sink[j];
    }
  }

  // ----- end to end

  /** `lo + k` is the first source line of the window that contains the sink. */
  ghost predicate FirstSourceLine(sink: string, lines: seq<string>, lo: int, hi: int, k: int)
    requires 1 <= lo && hi <= |lines|
  {
    0 <= k <= hi - lo && Occurs(sink, lines[lo + k - 1])
    && forall i :: lo - 1 <= i < lo + k - 1 ==> !Occurs(sink, lines[i])
  }

  /** A printed snippet: in-range lines of a source and the window around them. */
  ghost predicate Printed(source: string, wanted: set<int>, context: nat, lo: int, hi: int) {
    InRange(source, wanted) && Window(|SplitLines(source)|, wanted, context, lo, hi) &&
      1 <= lo <= hi <= |SplitLines(source)|
  }

  ghost function SnippetOf(source: string, wanted: set<int>, lo: int, hi: int): string
    requires 1 <= lo && hi <= |SplitLines(source)|
  {
    JoinLines(Rendered(SplitLines(source), wanted, lo, hi))
  }

  /** The round trip for a printed snippet. */
  lemma SnippetShows(source: string, wanted: set<int>, context: nat, lo: int, hi: int)
    requires Printed(source, wanted, context, lo, hi)
    ensures 1 <= lo <= hi <= |SplitLines(source)|
    ensures var shown := SplitLines(SnippetOf(source, wanted, lo, hi));
      && |shown| == hi - lo + 1
      && forall k :: 0 <= k < |shown| ==>
           && shown[k] == RenderLine(lo + k, lo + k in wanted, SplitLines(source)[lo + k - 1])
           && ParseGutter(shown[k]) == Some(lo + k)
  {
    hide SplitLines, JoinLines, Rendered, Window, RenderLine, ParseGutter;
    SnippetRoundTrip(source, wanted, context, lo, hi);
  }

  /** On this snippet the search stops exactly at the first source line of the window that contains the sink. */
  ghost predicate FindsSourceLine(sink: string, source: string, wanted: set<int>, lo: int, hi: int)
    requires 1 <= lo && hi <= |SplitLines(source)|
  {
    forall k :: FirstNumbered(sink, SplitLines(SnippetOf(source, wanted, lo, hi)), k)
           <==> FirstSourceLine(sink, SplitLines(source), lo, hi, k)
  }

  /** Whenever the gutters are clear of the sink, the search reads off the number of that line. */
  lemma SinkLineOfSnippet(source: string, wanted: set<int>, context: nat, lo: int, hi: int, sink: string, k: int)
    requires Printed(source, wanted, context, lo, hi) && sink != ""
    requires forall n: nat :: lo <= n <= hi ==> ClearOf(sink, Gutter(n, n in wanted))
    ensures var shown := SplitLines(SnippetOf(source, wanted, lo, hi));
      && (FirstNumbered(sink, shown, k) <==> FirstSourceLine(sink, SplitLines(source), lo, hi, k))
      && (FirstNumbered(sink, shown, k) ==> ParseGutter(shown[k]) == Some(lo + k))
  {
    hide *;
    SnippetShows(source, wanted, context, lo, hi);
    var lines, shown := SplitLines(source), SplitLines(SnippetOf(source, wanted, lo, hi));
    forall j | 0 <= j < |shown| ensures NumberedWith(sink, shown[j]) <==> Occurs(sink, lines[lo + j - 1]) {
      NumberedLine(sink, lo + j, lo + j in wanted, lines[lo + j - 1]);
    }
    FirstTransfers(sink, shown, lines, lo, hi, k);
  }

  lemma NumberedLine(sink: string, n: nat, marked: bool, text: string)
    requires sink != "" && ClearOf(sink, Gutter(n, marked))
    ensures NumberedWith(sink, RenderLine(n, marked, text)) <==> Occurs(sink, text)
  {
    hide ParseGutter, Occurs, ClearOf, Gutter;
    ClearLine(sink, Gutter(n, marked), text);
    ParseOfRender(n, marked, text);
  }

  lemma FirstTransfers(sink: string, shown: seq<string>, lines: seq<string>, lo: int, hi: int, k: int)
    requires 1 <= lo <= hi <= |lines| && |shown| == hi - lo + 1
    requires forall j :: 0 <= j < |shown| ==> (NumberedWith(sink, shown[j]) <==> Occurs(sink, lines[lo + j - 1]))
    ensures FirstNumbered(sink, shown, k) <==> FirstSourceLine(sink, lines, lo, hi, k)
    ensures FirstNumbered(sink, shown, k) ==> 0 <= k < |shown|
  {
    hide NumberedWith, Occurs;
    forall i | lo - 1 <= i < hi ensures Occurs(sink, lines[i]) <==> NumberedWith(sink, shown[i - lo + 1]) {
      assert lines[i] == lines[lo + (i - lo + 1) - 1];
    }
    if FirstSourceLine(sink, lines, lo, hi, k) {
      forall j | 0 <= j < k ensures !NumberedWith(sink, shown[j]) {
        assert !Occurs(sink, lines[lo + j - 1]);
      }
    }
  }

  /** A sink with a line break is on no line, printed or not. */
  lemma BrokenSinkIsNowhere(sink: string, line: string)
    requires '\n' in sink && '\n' !in line
    ensures !Occurs(sink, line)
  {
    var j :| 0 <= j < |sink| && sink[j] == '\n';
    forall i | 0 <= i <= |line| - |sink| ensures !OccursAt(sink, line, i) {
      assert line[i..i + |sink|][j] == line[i + j];
    }
  }

  lemma BrokenSinkIsFine(source: string, wanted: set<int>, lo: int, hi: int, sink: string)
    requires 1 <= lo && hi <= |SplitLines(source)| && '\n' in sink
    ensures FindsSourceLine(sink, source, wanted, lo, hi)
  {
    var lines, shown := SplitLines(source), SplitLines(SnippetOf(source, wanted, lo, hi));
    hide Occurs, SplitLines, SnippetOf, ParseGutter;
    forall i | 0 <= i < |lines| ensures !Occurs(sink, lines[i]) {
      BrokenSinkIsNowhere(sink, lines[i]);
    }
    forall i | 0 <= i < |shown| ensures !Occurs(sink, shown[i]) {
      BrokenSinkIsNowhere(sink, shown[i]);
    }
  }

  /** `n - 1` empty lines, then `text`, then `after` more empty lines. */
  function PaddedSource(n: nat, text: string, after: nat): seq<string>
    requires n >= 1
  {
    seq(n - 1, _ => "") + [text] + seq(after, _ => "")
  }

  ghost predicate HeldNowhere(sink: string, lines: seq<string>) {
    forall i :: 0 <= i < |lines| ==> !Occurs(sink, lines[i])
  }

  /** Lines to ask for, so that the window shows line `n` with or without a mark. */
  function WantedAround(n: nat, marked: bool, context: nat): (wanted: set<int>)
    requires CanShow(context, n, marked)
    ensures n in wanted <==> marked
  {
    if marked then {n} else if context >= 1 then {n + context} else {n - 1, n + 1}
  }

  lemma WindowAround(n: nat, marked: bool, context: nat) returns (lo: int, hi: int)
    requires CanShow(context, n, marked)
    ensures Window(n + context + 1, WantedAround(n, marked, context), context, lo, hi) && 1 <= lo <= n <= hi
    ensures hi <= n + context + 1 && WantedAround(n, marked, context) != {}
    ensures forall x :: x in WantedAround(n, marked, context) ==> 1 <= x <= n + context + 1
  {
    var wanted := WantedAround(n, marked, context);
    var a := if marked then n else if context >= 1 then n + context else n - 1;
    var b := if marked then n else if context >= 1 then n + context else n + 1;
    assert IsMin(wanted, a) && IsMax(wanted, b);
    lo := if a - context < 1 then 1 else a - context;
    hi := if b + context > n + context + 1 then n + context + 1 else b + context;
  }

  /**
   With any amount of context: a snippet in which line `n`'s gutter is taken for the sink, though no line of the source
   holds it.
   */
  lemma MisreadSnippet(sink: string, n: nat, marked: bool, context: nat)
    returns (source: string, wanted: set<int>, lo: int, hi: int)
    requires sink != "" && '\n' !in sink && CanShow(context, n, marked) && !ClearOf(sink, Gutter(n, marked))
    ensures Printed(source, wanted, context, lo, hi) && lo <= n <= hi && (n in wanted <==> marked)
    ensures HeldNowhere(sink, SplitLines(source))
    ensures exists k :: FirstNumbered(sink, SplitLines(SnippetOf(source, wanted, lo, hi)), k)
  {
    hide *;
    var text := MistakenLine(sink, Gutter(n, marked));
    source, wanted, lo, hi := PaddedIsPrinted(n, marked, context, text);
    SnippetShows(source, wanted, context, lo, hi);
    NowhereInPadding(sink, n, text, context + 1);
    NumberedAnyway(sink, n, marked, text);
    FirstExists(sink, SplitLines(SnippetOf(source, wanted, lo, hi)), n - lo);
  }

  /** Line `n` of the padded source is `text`, and the window around the wanted lines shows it. */
  lemma PaddedIsPrinted(n: nat, marked: bool, context: nat, text: string)
    returns (source: string, wanted: set<int>, lo: int, hi: int)
    requires CanShow(context, n, marked) && '\n' !in text
    ensures n - 1 < |SplitLines(source)| && SplitLines(source) == PaddedSource(n, text, context + 1)
    ensures Printed(source, wanted, context, lo, hi) && lo <= n <= hi && (n in wanted <==> marked)
    ensures SplitLines(source)[n - 1] == text
  {
    hide JoinLines, SplitLines, Window, WantedAround;
    var lines := PaddedSource(n, text, context + 1);
    assert lines[n - 1] == text && |lines| == n + context + 1;
    source, wanted := JoinLines(lines), WantedAround(n, marked, context);
    SplitOfJoin(lines);
    lo, hi := WindowAround(n, marked, context);
  }

  lemma NowhereInPadding(sink: string, n: nat, text: string, after: nat)
    requires n >= 1 && sink != "" && !Occurs(sink, text)
    ensures HeldNowhere(sink, PaddedSource(n, text, after))
  {
    var lines := PaddedSource(n, text, after);
    forall i | 0 <= i < |lines| ensures !Occurs(sink, lines[i]) {
      assert lines[i] == if i == n - 1 then text else "";
    }
  }

  lemma NumberedAnyway(sink: string, n: nat, marked: bool, text: string)
    requires Occurs(sink, Gutter(n, marked) + text)
    ensures NumberedWith(sink, RenderLine(n, marked, text))
  {
    hide ParseGutter, Occurs, Gutter;
    ParseOfRender(n, marked, text);
  }

  lemma {:induction false} FirstExists(sink: string, shown: seq<string>, j: int)
    requires 0 <= j < |shown| && NumberedWith(sink, shown[j])
    ensures exists k :: FirstNumbered(sink, shown, k)
    decreases j
  {
    hide NumberedWith;
    if forall i :: 0 <= i < j ==> !NumberedWith(sink, shown[i]) {
      assert FirstNumbered(sink, shown, j);
    } else {
      var i :| 0 <= i < j && NumberedWith(sink, shown[i]);
      FirstExists(sink, shown, i);
    }
  }

  /** Only a snippet with context lines, or one that starts later, shows its first line unmarked. */
  lemma ShownGutters(source: string, wanted: set<int>, context: nat, lo: int, hi: int, n: nat)
    requires Printed(source, wanted, context, lo, hi) && lo <= n <= hi
    ensures CanShow(context, n, n in wanted)
  {
    MinMaxExist(wanted);
    var a :| IsMin(wanted, a);
  }

  /**
   For every amount of context, the sink-line search is right on every snippet printed with it exactly when no gutter
   that can be shown can be taken for the sink, or the sink holds a line break and so is found nowhere at all.
   */
  lemma SinkSearchIff(sink: string, context: nat)
    requires sink != ""
    ensures (forall source, wanted, lo, hi :: Printed(source, wanted, context, lo, hi) ==>
               FindsSourceLine(sink, source, wanted, lo, hi))
       <==> GutterProof(sink, context) || '\n' in sink
  {
    hide Occurs, Gutter, ClearOf, SplitLines, SnippetOf, Window, FirstNumbered, CanShow;
    if GutterProof(sink, context) || '\n' in sink {
      forall source, wanted, lo, hi | Printed(source, wanted, context, lo, hi)
        ensures FindsSourceLine(sink, source, wanted, lo, hi) {
        ProofSearch(sink, source, wanted, context, lo, hi);
      }
    } else {
      var n: nat, marked :| CanShow(context, n, marked) && !ClearOf(sink, Gutter(n, marked));
      var source, wanted, lo, hi := MisreadSnippet(sink, n, marked, context);
      MisreadIsMissed(sink, source, wanted, lo, hi);
      assert !FindsSourceLine(sink, source, wanted, lo, hi);
    }
  }

  lemma ProofSearch(sink: string, source: string, wanted: set<int>, context: nat, lo: int, hi: int)
    requires sink != "" && (GutterProof(sink, context) || '\n' in sink) && Printed(source, wanted, context, lo, hi)
    ensures FindsSourceLine(sink, source, wanted, lo, hi)
  {
    hide Occurs, Gutter, ClearOf, SplitLines, SnippetOf, Window, FirstNumbered, CanShow;
    if '\n' in sink {
      BrokenSinkIsFine(source, wanted, lo, hi, sink);
    } else {
      forall n: nat | lo <= n <= hi ensures ClearOf(sink, Gutter(n, n in wanted)) {
        ShownGutters(source, wanted, context, lo, hi, n);
      }
      forall k ensures FirstNumbered(sink, SplitLines(SnippetOf(source, wanted, lo, hi)), k)
                  <==> FirstSourceLine(sink, SplitLines(source), lo, hi, k) {
        SinkLineOfSnippet(source, wanted, context, lo, hi, sink, k);
      }
    }
  }

  lemma MisreadIsMissed(sink: string, source: string, wanted: set<int>, lo: int, hi: int)
    requires 1 <= lo && hi <= |SplitLines(source)| && HeldNowhere(sink, SplitLines(source))
    requires exists k :: FirstNumbered(sink, SplitLines(SnippetOf(source, wanted, lo, hi)), k)
    ensures !FindsSourceLine(sink, source, wanted, lo, hi)
  {
    hide Occurs, SplitLines, SnippetOf, FirstNumbered;
    var k :| FirstNumbered(sink, SplitLines(SnippetOf(source, wanted, lo, hi)), k);
    assert !FirstSourceLine(sink, SplitLines(source), lo, hi, k);
  }

  /**
   What goes wrong, at the level of the search itself: on the misread snippet it answers a line it shows, whatever the
   finding's own line, though no line of the source holds the sink.
   */
  lemma MisreadAnswer(sink: string, n: nat, marked: bool, context: nat, start: Option<int>, end: Option<int>, line: int)
    returns (source: string, wanted: set<int>, lo: int, hi: int)
    requires sink != "" && sink != "regex" && '\n' !in sink
    requires CanShow(context, n, marked) && !ClearOf(sink, Gutter(n, marked))
    ensures Printed(source, wanted, context, lo, hi) && HeldNowhere(sink, SplitLines(source))
    ensures IsSinkLine(Evidence(SnippetOf(source, wanted, lo, hi), sink, start, end), line) ==> lo <= line <= hi
  {
    hide *;
    source, wanted, lo, hi := MisreadSnippet(sink, n, marked, context);
    SnippetShows(source, wanted, context, lo, hi);
    AnswersShown(Evidence(SnippetOf(source, wanted, lo, hi), sink, start, end), line, lo, hi);
  }

  lemma AnswersShown(e: Evidence, line: int, lo: int, hi: int)
    requires e.sink != "" && e.sink != "regex" && exists k :: FirstNumbered(e.sink, SplitLines(e.snippet), k)
    requires |SplitLines(e.snippet)| == hi - lo + 1
    requires forall k :: 0 <= k < hi - lo + 1 ==> ParseGutter(SplitLines(e.snippet)[k]) == Some(lo + k)
    ensures IsSinkLine(e, line) ==> lo <= line <= hi
  {
    hide NumberedWith, SplitLines, ParseGutter;
    var k :| FirstNumbered(e.sink, SplitLines(e.snippet), k);
  }

  /** The digits of a line number are not safe: its own gutter holds them, with or without context. */
  lemma NumbersAreUnsafe(n: nat, context: nat)
    requires n >= 1
    ensures !GutterProof(Decimal(n), context) && '\n' !in Decimal(n)
  {
    var digits, gutter := Decimal(n), Gutter(n, true);
    var pad: nat := if |digits| < 4 then 4 - |digits| else 0;
    assert gutter[4 + pad..4 + pad + |digits|] == digits;
    assert OccursAt(digits, gutter, 4 + pad);
    assert CanShow(context, n, true) && !ClearOf(digits, gutter);
  }
}

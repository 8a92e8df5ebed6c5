/**
 * The text patterns the legacy `question_data` path applies to string
 * items: the anchored match `^(\d+):\s*"(.*)"$` that recognises an indexed
 * line such as `0: "{\n \"question\": …}"`, the three chained global
 * replacements that undo one level of escaping, and the search
 * `"question":\s*"([^"]+)"` used when the unescaped text still does not parse.
 */
module LegacyPatterns {
  import opened Wrappers
  import opened JsString

  /** An indexed line split into its parts: the digits before the colon
      (capture group 1) and the text between the outer quotes (group 2). */
  datatype IndexedLine = IndexedLine(digits: string, content: string)

  /** The shape `^(\d+):\s*"(.*)"$` accepts, given its three parts. */
  predicate IsIndexedLine(digits: string, gap: string, content: string) {
    && |digits| > 0 && AllDigits(digits)
    && Blank(gap)
    && NoLineTerminator(content)
  }

  function Assemble(digits: string, gap: string, content: string): string {
    digits + ":" + gap + "\"" + content + "\""
  }

  /** `item.match(/^(\d+):\s*"(.*)"$/)`, written as a scan. */
  function MatchIndexed(s: string): Option<IndexedLine> {
    var d := DigitPrefix(s);
    if |d| == 0 || |d| == |s| || s[|d|] != ':' then None
    else MatchQuoted(d, TrimStart(s[|d| + 1..]))
  }

  /** The rest of the scan once the white space after the colon is
      skipped: `"(.*)"$`. */
  function MatchQuoted(digits: string, r: string): Option<IndexedLine> {
    if |r| < 2 || r[0] != '"' || r[|r| - 1] != '"' then None
    else
      var c := r[1..|r| - 1];
      if NoLineTerminator(c) then Some(IndexedLine(digits, c)) else None
  }

  /** Every match has the shape of the pattern: digits, a colon, white
      space, and quoted text without line breaks. */
  lemma MatchIndexedSound(s: string)
    requires MatchIndexed(s).Some?
    ensures var m := MatchIndexed(s).value;
      exists gap :: IsIndexedLine(m.digits, gap, m.content) && s == Assemble(m.digits, gap, m.content)
  {
    var d := DigitPrefix(s);
    MatchIndexedHead(s);
    var rest := s[|d| + 1..];
    var r := TrimStart(rest);
    var gap := rest[..|rest| - |r|];
    var c := r[1..|r| - 1];
    MatchQuotedParts(d, r);
    AssembleParts(s, d, rest, gap, r, c);
    assert IsIndexedLine(d, gap, c);
  }

  /** A match starts with its digit prefix and a colon. */
  lemma MatchIndexedHead(s: string)
    requires MatchIndexed(s).Some?
    ensures var d := DigitPrefix(s);
      && 0 < |d| < |s| && s[|d|] == ':'
      && MatchIndexed(s) == MatchQuoted(d, TrimStart(s[|d| + 1..]))
  {
  }

  /** A quoted match is the text between the two quotes. */
  lemma MatchQuotedParts(digits: string, r: string)
    requires MatchQuoted(digits, r).Some?
    ensures |r| >= 2 && r[0] == '"' && r[|r| - 1] == '"'
    ensures MatchQuoted(digits, r).value == IndexedLine(digits, r[1..|r| - 1])
    ensures NoLineTerminator(r[1..|r| - 1])
  {
  }

  /** The string bookkeeping behind `MatchIndexedSound`, kept apart from the
      definitions it is about. */
  lemma AssembleParts(s: string, d: string, rest: string, gap: string, r: string, c: string)
    requires |d| < |s| && d == s[..|d|] && s[|d|] == ':' && rest == s[|d| + 1..]
    requires |r| <= |rest| && r == rest[|rest| - |r|..] && gap == rest[..|rest| - |r|]
    requires |r| >= 2 && r[0] == '"' && r[|r| - 1] == '"' && c == r[1..|r| - 1]
    ensures s == Assemble(d, gap, c)
  {
    assert r == [r[0]] + c + [r[|r| - 1]];
    assert rest == gap + r;
    assert s == s[..|d|] + [s[|d|]] + s[|d| + 1..];
  }

  /** Every string of the pattern's shape is matched, with the digits and the
      quoted text as its two groups. */
  lemma MatchIndexedComplete(digits: string, gap: string, content: string)
    requires IsIndexedLine(digits, gap, content)
    ensures MatchIndexed(Assemble(digits, gap, content)) == Some(IndexedLine(digits, content))
  {
    var s := Assemble(digits, gap, content);
    var quoted := "\"" + content + "\"";
    var tail := ":" + gap + quoted;
    assert s == digits + tail;
    DigitPrefixOf(digits, tail);
    assert s[|digits|] == ':';
    assert s[|digits| + 1..] == gap + quoted;
    TrimStartOfBlank(gap, quoted);
    assert quoted[1..|quoted| - 1] == content;
  }

  /** Leading white space is removed and nothing more when the rest starts
      with a quote. */
  lemma {:induction false} TrimStartOfBlank(gap: string, rest: string)
    requires Blank(gap)
    requires |rest| > 0 && rest[0] == '"'
    ensures TrimStart(gap + rest) == rest
    decreases |gap|
  {
    var s := gap + rest;
    if |gap| > 0 {
      assert s[0] == gap[0];
      assert IsSpace(s[0]);
      assert s[1..] == gap[1..] + rest;
      assert Blank(gap[1..]) by {
        forall i | 0 <= i < |gap| - 1 ensures IsSpace(gap[1..][i]) {
          assert gap[1..][i] == gap[i + 1];
        }
      }
      TrimStartOfBlank(gap[1..], rest);
      assert TrimStart(s) == TrimStart(s[1..]);
    } else {
      assert s == rest;
      assert !IsSpace(rest[0]);
    }
  }

  /** The three chained replacements, applied in the source's order:
      `\n` to a newline, then `\"` to a quote, then `\\` to a backslash. */
  function Unescape(s: string): string {
    ReplaceAll(ReplaceAll(ReplaceAll(s, "\\n", "\n"), "\\\"", "\""), "\\\\", "\\")
  }

  predicate NoBackslash(s: string) {
    forall i :: 0 <= i < |s| ==> s[i] != '\\'
  }

  /** How the upstream escapes text inside a quoted JSON string: a quote
      becomes `\"`, a newline `\n` and a backslash `\\`. */
  function Escape(x: string): string
    decreases |x|
  {
    if |x| == 0 then ""
    else EscapeChar(x[0]) + Escape(x[1..])
  }

  function EscapeChar(c: char): string {
    if c == '"' then "\\\"" else if c == '\n' then "\\n" else if c == '\\' then "\\\\" else [c]
  }

  /** Only quotes escaped: what is left after the first replacement. */
  function EscapeQuotes(x: string): string
    decreases |x|
  {
    if |x| == 0 then ""
    else (if x[0] == '"' then "\\\"" else [x[0]]) + EscapeQuotes(x[1..])
  }

  /** For text without a backslash the three replacements undo the escaping:
      the upstream's `{\n \"question\": \"…\"}` becomes the JSON text it
      stands for. */
  lemma UnescapeEscape(x: string)
    requires NoBackslash(x)
    ensures Unescape(Escape(x)) == x
  {
    NewlinePass(x);
    QuotePass(x);
    NoBackslashUnchanged(x, "\\\\", "\\");
  }

  lemma {:induction false} NewlinePass(x: string)
    requires NoBackslash(x)
    ensures ReplaceAll(Escape(x), "\\n", "\n") == EscapeQuotes(x)
    decreases |x|
  {
    if |x| > 0 {
      NoBackslashTail(x);
      NewlinePass(x[1..]);
      NewlineStep(x[0], Escape(x[1..]));
    }
  }

  /** One character of the newline pass: only an escaped newline changes. */
  lemma NewlineStep(c: char, rest: string)
    requires c != '\\'
    ensures ReplaceAll(EscapeChar(c) + rest, "\\n", "\n")
         == (if c == '"' then "\\\"" else [c]) + ReplaceAll(rest, "\\n", "\n")
  {
    if c == '"' {
      EscapedQuoteKept(rest);
    } else if c == '\n' {
      ReplaceAllAtFront("\\n", rest, "\n");
    } else {
      NotStartsWithByFirst([c] + rest, "\\n");
      ReplaceAllPastFront(c, rest, "\\n", "\n");
    }
  }

  /** The newline pass keeps an escaped quote as it is. */
  lemma EscapedQuoteKept(rest: string)
    ensures ReplaceAll("\\\"" + rest, "\\n", "\n") == "\\\"" + ReplaceAll(rest, "\\n", "\n")
  {
    assert "\\\"" + rest == ['\\'] + (['"'] + rest);
    assert !StartsWith(['\\'] + (['"'] + rest), "\\n") by {
      assert (['\\'] + (['"'] + rest))[..2][1] == '"';
    }
    ReplaceAllPastFront('\\', ['"'] + rest, "\\n", "\n");
    NotStartsWithByFirst(['"'] + rest, "\\n");
    ReplaceAllPastFront('"', rest, "\\n", "\n");
  }

  lemma {:induction false} QuotePass(x: string)
    requires NoBackslash(x)
    ensures ReplaceAll(EscapeQuotes(x), "\\\"", "\"") == x
    decreases |x|
  {
    if |x| > 0 {
      NoBackslashTail(x);
      QuotePass(x[1..]);
      var rest := EscapeQuotes(x[1..]);
      if x[0] == '"' {
        assert EscapeQuotes(x) == "\\\"" + rest;
        ReplaceAllAtFront("\\\"", rest, "\"");
      } else {
        assert EscapeQuotes(x) == [x[0]] + rest;
        NotStartsWithByFirst([x[0]] + rest, "\\\"");
        ReplaceAllPastFront(x[0], rest, "\\\"", "\"");
      }
      assert x == [x[0]] + x[1..];
    }
  }

  lemma NoBackslashTail(x: string)
    requires |x| > 0 && NoBackslash(x)
    ensures NoBackslash(x[1..])
  {
    forall i | 0 <= i < |x| - 1 ensures x[1..][i] != '\\' {
      assert x[1..][i] == x[i + 1];
    }
  }

  /** A pattern that starts with a backslash does not occur in text without one. */
  lemma NoBackslashUnchanged(s: string, pat: string, rep: string)
    requires NoBackslash(s)
    requires |pat| > 0 && pat[0] == '\\'
    ensures ReplaceAll(s, pat, rep) == s
  {
    forall k ensures !OccursAt(s, pat, k) {
      if 0 <= k && k + |pat| <= |s| {
        assert s[k..k + |pat|][0] == s[k];
      }
    }
    ReplaceAllAbsent(s, pat, rep);
  }

  /** The replacements are not an inverse of escaping once the text holds a
      backslash: a backslash followed by `n` is escaped as `\\n`, whose second
      backslash and `n` the first replacement takes for a newline escape. */
  lemma UnescapeReadsEscapedBackslashAsNewline()
    ensures Escape("\\n") == "\\\\n"
    ensures Unescape(Escape("\\n")) == "\\\n"
  {
    assert Escape("\\n") == "\\\\n" by {
      assert "\\n"[1..] == "n";
      assert Escape("n") == "n" by { assert "n"[1..] == ""; }
    }
    assert ReplaceAll("\\\\n", "\\n", "\n") == "\\\n" by {
      assert !StartsWith(['\\'] + "\\n", "\\n") by {
        assert (['\\'] + "\\n")[..2][1] == '\\';
      }
      ReplaceAllPastFront('\\', "\\n", "\\n", "\n");
      assert "\\n" == "\\n" + "";
      ReplaceAllAtFront("\\n", "", "\n");
      assert ['\\'] + "\\n" == "\\\\n";
    }
    var s1 := "\\\n";
    assert ReplaceAll(s1, "\\\"", "\"") == s1 by {
      assert !StartsWith(['\\'] + "\n", "\\\"") by {
        assert (['\\'] + "\n")[..2][1] == '\n';
      }
      ReplaceAllPastFront('\\', "\n", "\\\"", "\"");
      assert ['\\'] + "\n" == s1;
    }
    assert ReplaceAll(s1, "\\\\", "\\") == s1 by {
      assert !StartsWith(['\\'] + "\n", "\\\\") by {
        assert (['\\'] + "\n")[..2][1] == '\n';
      }
      ReplaceAllPastFront('\\', "\n", "\\\\", "\\");
      assert ['\\'] + "\n" == s1;
    }
  }

  const QuestionKey: string := "\"question\":"

  /** The quoted question text the search finds when it starts at `i`:
      `"question":`, white space, a quote, one or more non-quote characters
      and a closing quote. */
  function MatchQuestionAt(s: string, i: nat): (r: Option<string>)
    ensures r.Some? ==> |r.value| > 0 && forall k :: 0 <= k < |r.value| ==> r.value[k] != '"'
  {
    if i > |s| || !StartsWith(s[i..], QuestionKey) then None
    else QuotedBody(TrimStart(s[i + |QuestionKey|..]))
  }

  /** `"([^"]+)"` at the start of `r`: the non-empty text up to the next
      quote, when `r` opens with a quote and that text is closed by one. */
  function QuotedBody(r: string): (b: Option<string>)
    ensures b.Some? ==> |b.value| > 0 && forall k :: 0 <= k < |b.value| ==> b.value[k] != '"'
  {
    if |r| == 0 || r[0] != '"' then None
    else
      var body := NonQuotePrefix(r[1..]);
      if |body| == 0 || |body| == |r| - 1 then None else Some(body)
  }

  /** The longest prefix without a double quote. */
  function NonQuotePrefix(s: string): (p: string)
    ensures |p| <= |s| && p == s[..|p|]
    ensures forall k :: 0 <= k < |p| ==> p[k] != '"'
    ensures |p| < |s| ==> s[|p|] == '"'
  {
    if |s| > 0 && s[0] != '"' then [s[0]] + NonQuotePrefix(s[1..]) else ""
  }

  /** A left-to-right search over the positions `i..n`: the value at the
      leftmost position that has one. */
  function FirstMatch(f: nat -> Option<string>, i: nat, n: nat): (r: Option<string>)
    requires i <= n
    ensures r.Some? ==> exists k :: i <= k <= n && f(k) == r && (forall j :: i <= j < k ==> f(j).None?)
    ensures r.None? ==> forall j :: i <= j <= n ==> f(j).None?
    decreases n - i
  {
    if f(i).Some? then f(i)
    else if i == n then None
    else FirstMatch(f, i + 1, n)
  }

  /** `s.match(/"question":\s*"([^"]+)"/)`: the leftmost position where the
      pattern matches decides the capture, and no match gives `null`. */
  function FindQuestion(s: string): (r: Option<string>)
    ensures r.Some? ==> exists k: nat :: k <= |s| && MatchQuestionAt(s, k) == r &&
                          (forall j: nat :: j < k ==> MatchQuestionAt(s, j).None?)
    ensures r.None? ==> forall j: nat :: j <= |s| ==> MatchQuestionAt(s, j).None?
  {
    var f := (k: nat) => MatchQuestionAt(s, k);
    assert forall k: nat :: f(k) == MatchQuestionAt(s, k);
    FirstMatch(f, 0, |s|)
  }

  /** The fallback applied to text that the upstream meant as
      `{"question": "…", …}` but that does not parse: the first question
      text is still recovered. */
  lemma FindQuestionInBrokenObject(q: string, rest: string)
    requires |q| > 0 && forall k :: 0 <= k < |q| ==> q[k] != '"'
    ensures FindQuestion("{\"question\": \"" + q + "\"" + rest) == Some(q)
  {
    var s := "{\"question\": \"" + q + "\"" + rest;
    assert MatchQuestionAt(s, 0).None? by {
      assert s[0..][..|QuestionKey|][0] == '{';
    }
    QuestionAfterBrace(s, q, rest);
    var f := (k: nat) => MatchQuestionAt(s, k);
    assert FirstMatch(f, 1, |s|) == Some(q);
    assert FirstMatch(f, 0, |s|) == Some(q);
  }

  lemma QuestionAfterBrace(s: string, q: string, rest: string)
    requires |q| > 0 && forall k :: 0 <= k < |q| ==> q[k] != '"'
    requires s == "{\"question\": \"" + q + "\"" + rest
    ensures MatchQuestionAt(s, 1) == Some(q)
  {
    var quoted := "\"" + q + "\"" + rest;
    assert s[1..] == QuestionKey + (" " + quoted);
    assert StartsWith(s[1..], QuestionKey);
    assert s[1 + |QuestionKey|..] == " " + quoted;
    TrimStartOfBlank(" ", quoted);
    QuotedBodyOf(q, rest);
  }

  /** A quote, a question text and a closing quote give that text. */
  lemma QuotedBodyOf(q: string, rest: string)
    requires |q| > 0 && forall k :: 0 <= k < |q| ==> q[k] != '"'
    ensures QuotedBody("\"" + q + "\"" + rest) == Some(q)
  {
    var quoted := "\"" + q + "\"" + rest;
    assert quoted[1..] == q + ("\"" + rest);
    NonQuotePrefixOf(q, "\"" + rest);
  }

  lemma {:induction false} NonQuotePrefixOf(q: string, rest: string)
    requires forall k :: 0 <= k < |q| ==> q[k] != '"'
    requires |rest| > 0 && rest[0] == '"'
    ensures NonQuotePrefix(q + rest) == q
    decreases |q|
  {
    if |q| > 0 {
      assert (q + rest)[1..] == q[1..] + rest;
      NonQuotePrefixOf(q[1..], rest);
    } else {
      assert q + rest == rest;
    }
  }
}

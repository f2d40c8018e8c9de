/**
 The text a person may write for a document (shell syntax, JSON and extended JSON), as a grammar: which
 texts spell which values. Here are blanks, strings, patterns, names and numbers.
 */
module ShellGrammar {
  import opened Wrappers
  import opened Letters
  import opened Numerals
  import opened BsonDocument
  import opened BsonDocumentRoundTrip

  /* ---------- Blanks and comments ---------- */

  // A comment to the end of its line.
  predicate IsLineComment(c: string) {
    var n := |c| - 1;
    n >= 2 && c[0] == '/' && c[1] == '/' && '\n' !in c[2..n] && c[n] == '\n'
  }

  // A comment between its signs.
  predicate IsBlockComment(c: string) {
    var n := |c| - 2;
    && n >= 2 && c[0] == '/' && c[1] == '*' && c[n] == '*' && c[n + 1] == '/'
    && forall j :: 2 <= j < n ==> !(c[j] == '*' && c[j + 1] == '/')
  }

  predicate IsComment(c: string) {
    IsLineComment(c) || IsBlockComment(c)
  }

  // White space, by its code points.
  predicate IsBlank(c: char) {
    var n := c as int;
    || n == 9 || n == 10 || n == 11 || n == 12 || n == 13 || n == 32 || n == 0xa0 || n == 0x1680 || 0x2000 <= n <= 0x200a
    || n == 0x2028 || n == 0x2029 || n == 0x202f || n == 0x205f || n == 0x3000 || n == 0xfeff
  }

  ghost predicate IsGap(g: string)
    decreases |g|
  {
    || g == ""
    || (IsBlank(g[0]) && IsGap(g[1..]))
    || (exists i: nat :: 0 < i <= |g| && IsComment(g[..i]) && IsGap(g[i..]))
  }

  // What may stand behind a document: blanks, and perhaps a comment that ends with the text.
  ghost predicate IsLastGap(g: string) {
    IsGap(g) || exists i: nat :: i + 2 <= |g| && IsGap(g[..i]) && g[i] == '/' && g[i + 1] == '/' && '\n' !in g[i..]
  }

  /* ---------- Strings ---------- */

  // What a character behind a backslash stands for.
  predicate IsShort(e: char, c: char) {
    || (e == 'n' && c == '\n') || (e == 't' && c == '\t') || (e == 'r' && c == '\r')
    || (e == 'b' && c == '\U{0008}') || (e == 'f' && c == '\U{000c}')
    || ((e == '/' || e == '\\' || e == '\"' || e == '\'') && c == e)
  }

  predicate IsHexDigit(c: char) {
    '0' <= c <= '9' || 'a' <= c <= 'f' || 'A' <= c <= 'F'
  }

  function HexDigitValue(c: char): int {
    if '0' <= c <= '9' then c as int - 48 else if 'a' <= c <= 'f' then c as int - 87 else c as int - 55
  }

  // Four digits of a character that is no half of a pair.
  predicate IsUnicode(h: string, c: char) {
    && |h| == 4 && (forall i :: 0 <= i < 4 ==> IsHexDigit(h[i]))
    && c as int == 0x1000 * HexDigitValue(h[0]) + 0x100 * HexDigitValue(h[1]) + 0x10 * HexDigitValue(h[2]) + HexDigitValue(h[3])
  }

  // What stands between two quotes.
  predicate IsBody(body: string, quote: char, v: string)
    decreases |body|
  {
    if body == "" then v == ""
    else if v == "" then false
    else if body[0] != '\\' then body[0] != quote && v[0] == body[0] && IsBody(body[1..], quote, v[1..])
    else if |body| < 2 then false
    else if body[1] == 'u' then |body| >= 6 && IsUnicode(body[2..6], v[0]) && IsBody(body[6..], quote, v[1..])
    else IsShort(body[1], v[0]) && IsBody(body[2..], quote, v[1..])
  }

  ghost predicate IsQuoted(v: string, text: string) {
    || (exists body :: v == ['\"'] + body + ['\"'] && IsBody(body, '\"', text))
    || (exists body :: v == ['\''] + body + ['\''] && IsBody(body, '\'', text))
  }

  /* ---------- Patterns ---------- */

  // A pattern ends with the first slash that has no backslash before it.
  predicate IsPatternText(p: string)
    decreases |p|
  {
    if p == "" then true
    else if p[0] == '\\' then |p| >= 2 && IsPatternText(p[2..])
    else p[0] != '/' && IsPatternText(p[1..])
  }

  predicate AreFlags(f: string) {
    forall i :: 0 <= i < |f| ==> 'a' <= f[i] <= 'z'
  }

  // A pattern between slashes, and all the letters behind it. One that is empty or begins with a star would
  // be a comment.
  predicate IsRegexText(v: string, t: string, pattern: string, flags: string) {
    && v == "/" + pattern + "/" + flags && IsPatternText(pattern) && AreFlags(flags)
    && pattern != "" && pattern[0] != '*' && (t == "" || !('a' <= t[0] <= 'z'))
  }

  /* ---------- Names ---------- */

  predicate BeginsName(c: char) {
    'a' <= c <= 'z' || 'A' <= c <= 'Z' || c == '_' || c == '$'
  }

  predicate GoesOnName(c: char) {
    BeginsName(c) || '0' <= c <= '9'
  }

  // A name, and no more of it behind.
  predicate IsNameText(v: string, t: string) {
    && v != "" && BeginsName(v[0]) && (forall i :: 0 <= i < |v| ==> GoesOnName(v[i]))
    && (t == "" || !GoesOnName(t[0]))
  }

  // A number as a field name: digits and points.
  predicate IsNumberName(v: string, t: string) {
    && v != "" && '0' <= v[0] <= '9' && (forall i :: 0 <= i < |v| ==> '0' <= v[i] <= '9' || v[i] == '.')
    && (t == "" || !('0' <= t[0] <= '9' || t[0] == '.'))
  }

  /* ---------- Numbers ---------- */

  predicate AreDigits(s: string) {
    forall i :: 0 <= i < |s| ==> '0' <= s[i] <= '9'
  }

  predicate BeginsDigit(t: string) {
    t != "" && '0' <= t[0] <= '9'
  }

  // An exponent with a digit.
  predicate BeginsExponent(t: string) {
    && t != "" && (t[0] == 'e' || t[0] == 'E')
    && (BeginsDigit(t[1..]) || (|t| > 1 && (t[1] == '+' || t[1] == '-') && BeginsDigit(t[2..])))
  }

  datatype NumberParts = NumberParts(sign: string, whole: string, point: string, fraction: string, e: string, exponent: string)

  function TextOfParts(n: NumberParts): string {
    n.sign + (n.whole + (n.point + (n.fraction + (n.e + n.exponent))))
  }

  predicate AreParts(n: NumberParts) {
    && (n.sign == "" || n.sign == "-") && AreDigits(n.whole) && (n.point == "" || n.point == ".") && AreDigits(n.fraction)
    && n.whole + n.fraction != "" && (n.point == "" ==> n.fraction == "")
    && (n.e == "" || n.e == "e" || n.e == "E" || n.e == "e+" || n.e == "E+" || n.e == "e-" || n.e == "E-")
    && AreDigits(n.exponent) && (n.e == "" <==> n.exponent == "")
  }

  // No more of the number behind: no digit, no first point, no exponent.
  predicate EndsNumber(n: NumberParts, t: string) {
    !BeginsDigit(t) && (n.e == "" ==> !BeginsExponent(t) && (n.point == "" ==> t == "" || t[0] != '.'))
  }

  predicate IsNumberLiteral(v: string, t: string, n: NumberParts) {
    v == TextOfParts(n) && AreParts(n) && EndsNumber(n, t) && (n.sign == "" ==> n.whole != "")
  }

  /* ---------- Blanks as they are read ---------- */

  lemma BlankIs(c: char)
    ensures IsBlank(c) <==> IsSpace(c)
  {
  }

  lemma {:induction false} LinePassed(s: string, i: nat)
    requires i <= |s| && '\n' !in s[..i] && (i < |s| ==> s[i] == '\n')
    ensures AfterLine(s) == s[i..]
  {
    if i > 0 {
      assert s[0] in s[..i];
      assert s[1..][..i - 1] == s[..i][1..];
      LinePassed(s[1..], i - 1);
    }
  }

  lemma {:induction false} CommentPassed(s: string, i: nat)
    requires 2 <= i <= |s| && s[i - 2] == '*' && s[i - 1] == '/'
    requires forall j :: 0 <= j < i - 2 ==> !(s[j] == '*' && s[j + 1] == '/')
    ensures AfterComment(s) == Some(s[i..])
  {
    if i > 2 {
      assert !(s[0] == '*' && s[1] == '/');
      CommentPassed(s[1..], i - 1);
    }
  }

  lemma LineGap(c: string, u: string)
    requires IsLineComment(c)
    ensures Skip(c + u) == Skip(u)
  {
    hide IsSpace, Skip;
    var s, n := c + u, |c| - 1;
    assert s[2..][..n - 2] == c[2..n];
    LinePassed(s[2..], n - 2);
    SkipsLine(s);
    assert s[2..][n - 2..] == "\n" + u;
    SkipNewline(u);
  }

  lemma SkipsLine(s: string)
    requires |s| > 1 && s[0] == '/' && s[1] == '/'
    ensures Skip(s) == Skip(AfterLine(s[2..]))
  {
  }

  lemma BlockGap(c: string, u: string)
    requires IsBlockComment(c)
    ensures Skip(c + u) == Skip(u)
  {
    hide IsSpace, Skip;
    var s, n := c + u, |c| - 2;
    forall j | 0 <= j < n - 2 ensures !(s[2..][j] == '*' && s[2..][j + 1] == '/') {
      assert s[2..][j] == c[j + 2] && s[2..][j + 1] == c[j + 3];
    }
    CommentPassed(s[2..], n);
    assert s[2..][n..] == u;
    SkipsComment(s);
  }

  lemma SkipsComment(s: string)
    requires |s| > 1 && s[0] == '/' && s[1] == '*'
    ensures Skip(s) == if AfterComment(s[2..]).Some? then Skip(AfterComment(s[2..]).value) else None
  {
  }

  lemma {:induction false} GapPassed(g: string, u: string)
    requires IsGap(g)
    ensures Skip(g + u) == Skip(u)
    decreases |g|
  {
    hide IsSpace, IsBlank, Skip, IsLineComment, IsBlockComment;
    if g == "" {
      assert g + u == u;
    } else if IsBlank(g[0]) && IsGap(g[1..]) {
      BlankIs(g[0]);
      GapPassed(g[1..], u);
      SkipsSpace(g, u);
    } else {
      var i: nat :| 0 < i <= |g| && IsComment(g[..i]) && IsGap(g[i..]);
      assert g + u == g[..i] + (g[i..] + u);
      GapPassed(g[i..], u);
      if IsLineComment(g[..i]) {
        LineGap(g[..i], g[i..] + u);
      } else {
        BlockGap(g[..i], g[i..] + u);
      }
    }
  }

  lemma SkipsSpace(g: string, u: string)
    requires g != "" && IsSpace(g[0])
    ensures Skip(g + u) == Skip(g[1..] + u)
  {
    assert (g + u)[1..] == g[1..] + u;
  }

  /* ---------- What is passed over is a gap ---------- */

  lemma {:induction false} LineCut(s: string) returns (i: nat)
    ensures i <= |s| && '\n' !in s[..i] && (i < |s| ==> s[i] == '\n') && AfterLine(s) == s[i..]
  {
    if |s| == 0 || s[0] == '\n' {
      i := 0;
    } else {
      var k := LineCut(s[1..]);
      i := k + 1;
      assert s[..i] == [s[0]] + s[1..][..k];
    }
  }

  lemma {:induction false} CommentCut(s: string) returns (i: nat)
    requires AfterComment(s).Some?
    ensures 2 <= i <= |s| && s[i - 2] == '*' && s[i - 1] == '/' && AfterComment(s).value == s[i..]
    ensures forall j :: 0 <= j < i - 2 ==> !(s[j] == '*' && s[j + 1] == '/')
  {
    if s[0] == '*' && s[1] == '/' {
      i := 2;
    } else {
      var k := CommentCut(s[1..]);
      i := k + 1;
      forall j | 0 <= j < i - 2 ensures !(s[j] == '*' && s[j + 1] == '/') {
        if j > 0 {
          assert s[j] == s[1..][j - 1] && s[j + 1] == s[1..][j];
        }
      }
    }
  }

  // A gap, and behind it what is left; or the text ends in a last gap.
  ghost predicate IsGapBefore(s: string, u: string) {
    exists g :: IsGap(g) && s == g + u
  }

  lemma SpaceFirst(c: char, s: string, u: string)
    requires IsBlank(c) && (u == "" ==> IsLastGap(s)) && (u != "" ==> IsGapBefore(s, u))
    ensures (u == "" ==> IsLastGap([c] + s)) && (u != "" ==> IsGapBefore([c] + s, u))
  {
    hide IsBlank;
    var all := [c] + s;
    assert all[1..] == s;
    if u != "" {
      var g :| IsGap(g) && s == g + u;
      assert ([c] + g)[1..] == g;
      assert IsGap([c] + g) && all == ([c] + g) + u;
    } else if !IsGap(s) {
      var i: nat :| i + 2 <= |s| && IsGap(s[..i]) && s[i] == '/' && s[i + 1] == '/' && '\n' !in s[i..];
      assert all[..i + 1][1..] == s[..i] && all[i + 1..] == s[i..];
      assert IsGap(all[..i + 1]);
    }
  }

  lemma CommentFirst(c: string, s: string, u: string)
    requires IsComment(c) && (u == "" ==> IsLastGap(s)) && (u != "" ==> IsGapBefore(s, u))
    ensures (u == "" ==> IsLastGap(c + s)) && (u != "" ==> IsGapBefore(c + s, u))
  {
    CommentNotEmpty(c);
    hide IsComment;
    var all := c + s;
    assert all[..|c|] == c && all[|c|..] == s;
    if u != "" {
      var g :| IsGap(g) && s == g + u;
      assert (c + g)[..|c|] == c && (c + g)[|c|..] == g;
      assert IsGap(c + g) && all == (c + g) + u;
    } else if !IsGap(s) {
      var i: nat :| i + 2 <= |s| && IsGap(s[..i]) && s[i] == '/' && s[i + 1] == '/' && '\n' !in s[i..];
      var k := |c| + i;
      assert all[..k][..|c|] == c && all[..k][|c|..] == s[..i] && all[k..] == s[i..];
      assert IsGap(all[..k]);
    }
  }

  lemma CommentNotEmpty(c: string)
    requires IsComment(c)
    ensures c != ""
  {
  }

  // A comment at the front, and what is behind it.
  lemma CommentAtFront(s: string) returns (c: string, rest: string)
    requires |s| > 1 && s[0] == '/' && (s[1] == '/' || (s[1] == '*' && AfterComment(s[2..]).Some?))
    requires s[1] == '/' ==> '\n' in s
    ensures IsComment(c) && s == c + rest && Skip(s) == Skip(rest)
  {
    hide Skip, IsSpace;
    if s[1] == '/' {
      var i := LineCut(s[2..]);
      assert s == s[..2] + s[2..];
      assert i < |s[2..]|;
      c, rest := s[..i + 3], s[i + 3..];
      assert c[2..|c| - 1] == s[2..][..i];
      LineGap(c, rest);
    } else {
      var i := CommentCut(s[2..]);
      c, rest := s[..i + 2], s[i + 2..];
      forall j | 2 <= j < |c| - 2 ensures !(c[j] == '*' && c[j + 1] == '/') {
        assert c[j] == s[2..][j - 2] && c[j + 1] == s[2..][j - 1];
      }
      BlockGap(c, rest);
    }
    assert s == c + rest;
  }

  /** What a reader passes over is a gap; and all of the text is a last gap when nothing is left. */
  lemma {:induction false} GapFound(s: string)
    requires Skip(s).Some?
    ensures var u := Skip(s).value; (u == "" ==> IsLastGap(s)) && (u != "" ==> IsGapBefore(s, u))
    decreases |s|
  {
    hide IsComment, IsSpace, IsBlank, AfterComment;
    if s == "" {
    } else if IsSpace(s[0]) {
      GapFound(s[1..]);
      BlankIs(s[0]);
      assert s == [s[0]] + s[1..];
      SpaceFirst(s[0], s[1..], Skip(s).value);
    } else if |s| > 1 && s[0] == '/' && (s[1] == '/' || (s[1] == '*' && AfterComment(s[2..]).Some?)) {
      if s[1] == '/' && '\n' !in s {
        OpenLine(s);
      } else {
        var c, rest := CommentAtFront(s);
        CommentNotEmpty(c);
        GapFound(rest);
        CommentFirst(c, rest, Skip(s).value);
      }
    } else {
      assert s == "" + s;
    }
  }

  lemma OpenLine(s: string)
    requires |s| > 1 && s[0] == '/' && s[1] == '/' && '\n' !in s
    ensures Skip(s) == Some("") && IsLastGap(s)
  {
    var i := LineCut(s[2..]);
    assert i == |s[2..]|;
    assert s[..0] == "" && s[0..] == s;
  }

  /** A last gap is passed over to the end. */
  lemma LastGapPassed(s: string)
    requires IsLastGap(s)
    ensures Skip(s) == Some("")
  {
    hide Skip, IsGap;
    if IsGap(s) {
      GapPassed(s, "");
      assert s + "" == s;
      NothingSkipped();
    } else {
      var i: nat :| i + 2 <= |s| && IsGap(s[..i]) && s[i] == '/' && s[i + 1] == '/' && '\n' !in s[i..];
      GapPassed(s[..i], s[i..]);
      assert s == s[..i] + s[i..];
      OpenLine(s[i..]);
    }
  }

  lemma NothingSkipped()
    ensures Skip("") == Some("")
  {
  }

  /* ---------- Strings as they are read ---------- */

  lemma HexIs(c: char)
    ensures IsHex(c) <==> IsHexDigit(c)
    ensures IsHex(c) ==> HexValue(c) == HexDigitValue(c)
  {
  }

  lemma UnicodeIs(h: string)
    requires |h| == 4
    ensures AllAre(h, IsHex) <==> forall i :: 0 <= i < 4 ==> IsHexDigit(h[i])
    ensures AllAre(h, IsHex) ==>
              var n := UnicodeChar(4096 * HexValue(h[0]) + 256 * HexValue(h[1]) + 16 * HexValue(h[2]) + HexValue(h[3]));
              forall c :: n == Some(c) <==> IsUnicode(h, c)
  {
    HexIs(h[0]);
    HexIs(h[1]);
    HexIs(h[2]);
    HexIs(h[3]);
    if AllAre(h, IsHex) {
      CharOfNumber(4096 * HexValue(h[0]) + 256 * HexValue(h[1]) + 16 * HexValue(h[2]) + HexValue(h[3]));
    }
  }

  lemma CharOfNumber(n: nat)
    requires n < 0x1_0000
    ensures forall c :: UnicodeChar(n) == Some(c) <==> c as int == n
  {
  }

  // The escape behind a backslash.
  lemma EscapeIs(s: string, c: char, t: string)
    ensures Escape(s) == Good(c, t) <==>
            || (s != "" && s[0] != 'u' && IsShort(s[0], c) && t == s[1..])
            || (|s| >= 5 && s[0] == 'u' && IsUnicode(s[1..5], c) && t == s[5..])
  {
    hide IsUnicode, UnicodeChar, AllAre;
    if |s| >= 5 {
      UnicodeIs(s[1..5]);
      HexDigits(s[1..5]);
    }
  }

  lemma HexDigits(h: string)
    ensures |h| == 4 && AllAre(h, IsHex) ==> IsHex(h[0]) && IsHex(h[1]) && IsHex(h[2]) && IsHex(h[3])
    ensures forall c :: IsUnicode(h, c) ==> |h| == 4 && forall i :: 0 <= i < 4 ==> IsHexDigit(h[i])
  {
  }

  // An escape at the front, `n` characters long.
  predicate IsEscape(e: string, c: char) {
    && |e| >= 2 && e[0] == '\\'
    && if e[1] == 'u' then |e| == 6 && IsUnicode(e[2..6], c) else |e| == 2 && IsShort(e[1], c)
  }

  // A body, one character or escape after another.
  lemma BodyCut(body: string, quote: char, v: string) returns (e: string, more: string)
    requires IsBody(body, quote, v) && body != ""
    ensures v != "" && body == e + more && IsBody(more, quote, v[1..]) && |more| < |body|
    ensures (e == [v[0]] && v[0] != quote && v[0] != '\\') || IsEscape(e, v[0])
  {
    hide IsShort, IsUnicode;
    var n := if body[0] != '\\' then 1 else if body[1] == 'u' then 6 else 2;
    e, more := body[..n], body[n..];
    assert n == 6 ==> e[2..6] == body[2..6];
  }

  lemma EscapeStep(e: string, c: char, u: string, quote: char)
    requires IsEscape(e, c) && quote != '\\'
    ensures StringBody(e + u, quote) == if StringBody(u, quote).Bad? then Bad
                                        else Good([c] + StringBody(u, quote).value, StringBody(u, quote).rest)
  {
    hide IsShort, IsUnicode, Escape;
    var s := e + u;
    assert s[1..][|e| - 1..] == u;
    assert |e| == 6 ==> s[1..][1..5] == e[2..6];
    EscapeIs(s[1..], c, u);
  }

  lemma CharStep(c: char, u: string, quote: char)
    requires c != quote && c != '\\'
    ensures StringBody([c] + u, quote) == if StringBody(u, quote).Bad? then Bad
                                          else Good([c] + StringBody(u, quote).value, StringBody(u, quote).rest)
  {
    assert ([c] + u)[1..] == u;
  }

  lemma QuoteStep(quote: char, t: string)
    ensures StringBody([quote] + t, quote) == Good("", t)
  {
    assert ([quote] + t)[1..] == t;
  }

  lemma Associate(a: string, b: string, c: string)
    ensures a + b + c == a + (b + c)
    ensures "" + c == c
  {
  }

  lemma {:induction false} BodyIsRead(body: string, quote: char, v: string, t: string)
    requires IsBody(body, quote, v) && quote != '\\'
    ensures StringBody(body + ([quote] + t), quote) == Good(v, t)
    decreases |body|
  {
    var tail := [quote] + t;
    if body == "" {
      Associate("", "", tail);
      QuoteStep(quote, t);
    } else {
      var e, more := BodyCut(body, quote, v);
      hide IsBody, StringBody, IsEscape;
      BodyIsRead(more, quote, v[1..], t);
      Associate(e, more, tail);
      if e == [v[0]] && v[0] != quote && v[0] != '\\' {
        CharStep(v[0], more + tail, quote);
      } else {
        EscapeStep(e, v[0], more + tail, quote);
      }
      assert v == [v[0]] + v[1..];
    }
  }

  lemma EscapeFound(s: string) returns (e: string)
    requires s != "" && s[0] == '\\' && Escape(s[1..]).Good?
    ensures IsEscape(e, Escape(s[1..]).value) && s == e + Escape(s[1..]).rest
  {
    hide IsShort, IsUnicode, Escape;
    var r := Escape(s[1..]);
    EscapeIs(s[1..], r.value, r.rest);
    var n := if s[1] == 'u' then 6 else 2;
    e := s[..n];
    assert r.rest == s[n..];
    assert n == 6 ==> e[2..6] == s[1..][1..5];
  }

  lemma EscapeInBody(e: string, c: char, more: string, quote: char, v: string)
    requires IsEscape(e, c) && IsBody(more, quote, v)
    ensures IsBody(e + more, quote, [c] + v)
  {
    hide IsShort, IsUnicode;
    var body := e + more;
    assert body[|e|..] == more && ([c] + v)[1..] == v;
    assert |e| == 6 ==> body[2..6] == e[2..6];
  }

  lemma CharInBody(c: char, more: string, quote: char, v: string)
    requires c != '\\' && c != quote && IsBody(more, quote, v)
    ensures IsBody([c] + more, quote, [c] + v)
  {
    assert ([c] + more)[1..] == more && ([c] + v)[1..] == v;
  }

  lemma {:induction false} BodyFound(s: string, quote: char) returns (body: string)
    requires StringBody(s, quote).Good? && quote != '\\'
    ensures var r := StringBody(s, quote); s == body + ([quote] + r.rest) && IsBody(body, quote, r.value)
    decreases |s|
  {
    hide IsBody, Escape;
    var r := StringBody(s, quote);
    if s[0] == quote {
      body := "";
      assert s == "" + ([quote] + r.rest);
      EmptyBody(quote);
    } else if s[0] != '\\' {
      var more := BodyFound(s[1..], quote);
      body := [s[0]] + more;
      CharInBody(s[0], more, quote, StringBody(s[1..], quote).value);
      assert s == [s[0]] + s[1..];
    } else {
      var e := EscapeFound(s);
      var rest := Escape(s[1..]).rest;
      var more := BodyFound(rest, quote);
      body := e + more;
      EscapeInBody(e, Escape(s[1..]).value, more, quote, StringBody(rest, quote).value);
    }
  }

  lemma EmptyBody(quote: char)
    ensures IsBody("", quote, "")
  {
  }

  lemma QuotesAround(quote: char, body: string, t: string)
    ensures var v := [quote] + body + [quote]; v[0] == quote && (v + t)[1..] == body + ([quote] + t)
  {
  }

  lemma QuotedIsRead(v: string, text: string, t: string)
    requires IsQuoted(v, text)
    ensures v != "" && (v[0] == '\"' || v[0] == '\'') && StringBody((v + t)[1..], v[0]) == Good(text, t)
  {
    hide IsBody, StringBody;
    if body :| v == ['\"'] + body + ['\"'] && IsBody(body, '\"', text) {
      BodyIsRead(body, '\"', text, t);
      QuotesAround('\"', body, t);
    } else {
      var body :| v == ['\''] + body + ['\''] && IsBody(body, '\'', text);
      BodyIsRead(body, '\'', text, t);
      QuotesAround('\'', body, t);
    }
  }

  lemma QuotedFound(s: string) returns (v: string)
    requires s != "" && (s[0] == '\"' || s[0] == '\'') && StringBody(s[1..], s[0]).Good?
    ensures var r := StringBody(s[1..], s[0]); s == v + r.rest && IsQuoted(v, r.value)
  {
    hide IsBody;
    var body := BodyFound(s[1..], s[0]);
    v := [s[0]] + body + [s[0]];
    assert s == [s[0]] + s[1..];
  }

  /* ---------- Patterns as they are read ---------- */

  lemma {:induction false} PatternIsRead(p: string, t: string)
    requires IsPatternText(p)
    ensures RegexBody(p + ("/" + t)) == Good(p, t)
    decreases |p|
  {
    var s := p + ("/" + t);
    if p == "" {
      assert s == "/" + t && s[1..] == t;
    } else if p[0] == '\\' {
      PatternIsRead(p[2..], t);
      assert s[2..] == p[2..] + ("/" + t) && s[..2] + p[2..] == p;
    } else {
      PatternIsRead(p[1..], t);
      assert s[1..] == p[1..] + ("/" + t) && [s[0]] + p[1..] == p;
    }
  }

  // One piece of a pattern: a character, or a backslash and the one behind it.
  lemma PatternPiece(piece: string, more: string)
    requires IsPatternText(more)
    requires (|piece| == 1 && piece[0] != '/' && piece[0] != '\\') || (|piece| == 2 && piece[0] == '\\')
    ensures IsPatternText(piece + more)
  {
    assert (piece + more)[|piece|..] == more;
  }

  lemma RegexStart(s: string)
    requires RegexBody(s).Good? && s[0] != '/'
    ensures var n := if s[0] == '\\' then 2 else 1;
            && n <= |s| && RegexBody(s[n..]).Good?
            && RegexBody(s) == Good(s[..n] + RegexBody(s[n..]).value, RegexBody(s[n..]).rest)
  {
    assert s[..1] == [s[0]];
  }

  lemma {:induction false} PatternFound(s: string)
    requires RegexBody(s).Good?
    ensures var r := RegexBody(s); s == r.value + ("/" + r.rest) && IsPatternText(r.value)
    decreases |s|
  {
    if s[0] == '/' {
      assert s == "" + ("/" + RegexBody(s).rest);
    } else {
      RegexStart(s);
      hide RegexBody, IsPatternText;
      var n := if s[0] == '\\' then 2 else 1;
      PatternFound(s[n..]);
      var r := RegexBody(s[n..]);
      PatternPiece(s[..n], r.value);
      Associate(s[..n], r.value, "/" + r.rest);
      assert s == s[..n] + s[n..];
    }
  }

  /* ---------- Runs of characters ---------- */

  lemma {:induction false} SpanIs(s: string, p: char -> bool)
    ensures var n := Span(s, p); AllAre(s[..n], p) && (n < |s| ==> !p(s[n]))
  {
    if |s| > 0 && p(s[0]) {
      SpanIs(s[1..], p);
      var n := Span(s, p);
      assert s[..n] == [s[0]] + s[1..][..n - 1];
    }
  }

  lemma NameChars(c: char)
    ensures IsStart(c) <==> BeginsName(c)
    ensures IsPart(c) <==> GoesOnName(c)
    ensures IsDigit(c) <==> '0' <= c <= '9'
    ensures IsKeyDigit(c) <==> '0' <= c <= '9' || c == '.'
    ensures IsFlag(c) <==> 'a' <= c <= 'z'
  {
  }

  // The length of a name at the front.
  lemma NameIsRead(v: string, t: string)
    requires IsNameText(v, t)
    ensures var s := v + t; IsStart(s[0]) && 1 + Span(s[1..], IsPart) == |v| && s[..|v|] == v && s[|v|..] == t
  {
    hide IsStart, IsPart, BeginsName, GoesOnName;
    var s := v + t;
    assert s[1..] == v[1..] + t;
    NameChars(v[0]);
    forall i | 0 <= i < |v| ensures IsPart(v[i]) {
      NameChars(v[i]);
    }
    if t != "" {
      NameChars(t[0]);
    }
    SpanExact(v[1..], t, IsPart);
  }

  lemma NameFound(s: string)
    requires s != "" && IsStart(s[0])
    ensures var n := 1 + Span(s[1..], IsPart); n <= |s| && IsNameText(s[..n], s[n..])
  {
    hide IsStart, IsPart, BeginsName, GoesOnName;
    var n := 1 + Span(s[1..], IsPart);
    SpanIs(s[1..], IsPart);
    NameChars(s[0]);
    BeginsGoesOn(s[0]);
    forall i | 0 <= i < n ensures GoesOnName(s[..n][i]) {
      if i > 0 {
        assert s[..n][i] == s[1..][..n - 1][i - 1];
        NameChars(s[i]);
      }
    }
    if n < |s| {
      assert s[n] == s[1..][n - 1];
      NameChars(s[n]);
    }
  }

  lemma BeginsGoesOn(c: char)
    ensures BeginsName(c) ==> GoesOnName(c)
  {
  }

  lemma NumberNameIsRead(v: string, t: string)
    requires IsNumberName(v, t)
    ensures var s := v + t;
            !IsStart(s[0]) && IsDigit(s[0]) && 1 + Span(s[1..], IsKeyDigit) == |v| && s[..|v|] == v && s[|v|..] == t
  {
    var s := v + t;
    assert s[1..] == v[1..] + t;
    hide IsStart, IsKeyDigit, IsDigit, BeginsName;
    NameChars(v[0]);
    DigitBeginsNoName(v[0]);
    forall i | 0 <= i < |v| ensures IsKeyDigit(v[i]) {
      NameChars(v[i]);
    }
    if t != "" {
      NameChars(t[0]);
    }
    SpanExact(v[1..], t, IsKeyDigit);
  }

  lemma DigitBeginsNoName(c: char)
    ensures '0' <= c <= '9' ==> !BeginsName(c)
  {
  }

  lemma NumberNameFound(s: string)
    requires s != "" && IsDigit(s[0])
    ensures var n := 1 + Span(s[1..], IsKeyDigit); n <= |s| && IsNumberName(s[..n], s[n..])
  {
    hide IsKeyDigit, IsDigit;
    var n := 1 + Span(s[1..], IsKeyDigit);
    SpanIs(s[1..], IsKeyDigit);
    NameChars(s[0]);
    forall i | 0 <= i < n ensures '0' <= s[..n][i] <= '9' || s[..n][i] == '.' {
      if i > 0 {
        assert s[..n][i] == s[1..][..n - 1][i - 1];
        NameChars(s[i]);
      }
    }
    if n < |s| {
      assert s[n] == s[1..][n - 1];
      NameChars(s[n]);
    }
  }

  lemma SlashesAround(pattern: string, flags: string, t: string)
    ensures var s := "/" + pattern + "/" + flags + t;
            s == "/" + (pattern + ("/" + (flags + t))) && s[1..] == pattern + ("/" + (flags + t)) && s[0] == '/'
  {
  }

  lemma RegexIsRead(v: string, t: string, pattern: string, flags: string)
    requires IsRegexText(v, t, pattern, flags)
    ensures var s := v + t;
            && s != "" && s[0] == '/' && Skip(s) == Some(s) && RegexBody(s[1..]) == Good(pattern, flags + t)
            && Span(flags + t, IsFlag) == |flags|
  {
    hide Skip, IsPatternText, RegexBody;
    var s := v + t;
    SlashesAround(pattern, flags, t);
    PatternIsRead(pattern, flags + t);
    PatternBegins(pattern);
    SolidPattern(s, pattern, "/" + (flags + t));
    SpanExact(flags, t, IsFlag);
  }

  lemma SolidPattern(s: string, pattern: string, rest: string)
    requires s != "" && s[0] == '/' && s[1..] == pattern + rest && pattern != "" && pattern[0] != '/' && pattern[0] != '*'
    ensures Skip(s) == Some(s)
  {
    hide Skip;
    assert s[1] == s[1..][0];
    SkipSolid(s);
  }

  lemma PatternBegins(pattern: string)
    requires IsPatternText(pattern) && pattern != ""
    ensures pattern[0] != '/'
  {
  }

  lemma RegexFound(s: string) returns (v: string)
    requires s != "" && s[0] == '/' && Skip(s) == Some(s) && RegexBody(s[1..]).Good?
    ensures var r := RegexBody(s[1..]);
            var n := Span(r.rest, IsFlag);
            s == v + r.rest[n..] && IsRegexText(v, r.rest[n..], r.value, r.rest[..n])
  {
    hide Skip, IsPatternText, RegexBody, Span;
    var r := RegexBody(s[1..]);
    var n := Span(r.rest, IsFlag);
    PatternFound(s[1..]);
    SpanIs(r.rest, IsFlag);
    var flags, t := r.rest[..n], r.rest[n..];
    assert r.rest == flags + t;
    SlashesAround(r.value, flags, t);
    v := "/" + r.value + "/" + flags;
    assert s == ['/'] + s[1..];
    NoCommentHere(s);
    PatternBeginsWith(s, r.value, r.rest);
  }

  lemma PatternBeginsWith(s: string, pattern: string, rest: string)
    requires s != "" && s[1..] == pattern + ("/" + rest)
    ensures |s| > 1 && s[1] == if pattern == "" then '/' else pattern[0]
  {
    assert s[1] == s[1..][0];
  }

  lemma NoCommentHere(s: string)
    requires s != "" && s[0] == '/' && Skip(s) == Some(s)
    ensures |s| > 1 ==> s[1] != '/' && s[1] != '*'
  {
  }

  /* ---------- Numbers as they are read ---------- */

  lemma DigitsSpan(a: string, t: string)
    requires AreDigits(a) && !BeginsDigit(t)
    ensures Span(a + t, IsDigit) == |a|
  {
    SpanExact(a, t, IsDigit);
  }

  lemma PlainIsRead(whole: string, point: string, fraction: string, rest: string)
    requires AreDigits(whole) && AreDigits(fraction) && (point == "" || point == ".") && (point == "" ==> fraction == "")
    requires whole + fraction != "" && !BeginsDigit(rest) && (point == "" ==> rest == "" || rest[0] != '.')
    ensures PlainLength(whole + (point + (fraction + rest))) == |whole| + |point| + |fraction|
  {
    hide Span, AreDigits;
    if point == "" {
      EmptyBefore(rest);
      DigitsSpan(whole, rest);
    } else {
      PointBetween(whole, fraction + rest);
      DigitsSpan(whole, "." + (fraction + rest));
      DigitsSpan(fraction, rest);
    }
  }

  lemma PointBetween(whole: string, more: string)
    ensures var s := whole + ("." + more); |whole| < |s| && s[|whole|] == '.' && s[|whole| + 1..] == more && !BeginsDigit("." + more)
  {
  }

  predicate IsExponentSign(e: string) {
    e == "e" || e == "E" || e == "e+" || e == "E+" || e == "e-" || e == "E-"
  }

  lemma ExponentIsRead(e: string, exponent: string, t: string)
    requires if e == "" then exponent == "" && !BeginsExponent(t)
             else IsExponentSign(e) && exponent != "" && AreDigits(exponent) && !BeginsDigit(t)
    ensures ExponentLength(e + (exponent + t)) == |e| + |exponent|
  {
    hide Span;
    var s := e + (exponent + t);
    if e == "" {
      assert s == t;
      NoExponent(t);
    } else {
      assert s[|e|..] == exponent + t;
      assert s[0] == e[0] && s[|e|] == exponent[0] && (|e| == 2 ==> s[1] == e[1]);
      DigitsSpan(exponent, t);
    }
  }

  lemma NoExponent(t: string)
    ensures ExponentLength(t) > 0 <==> BeginsExponent(t)
  {
    if t != "" {
      FirstSpan(t[1..]);
      if |t| > 1 {
        FirstSpan(t[2..]);
      }
    }
  }

  lemma FirstSpan(t: string)
    ensures Span(t, IsDigit) > 0 <==> BeginsDigit(t)
  {
  }

  // The parts before a rest.
  lemma PartsBefore(n: NumberParts, t: string)
    ensures var rest := n.e + (n.exponent + t);
            var s := TextOfParts(n) + t;
            && s == n.sign + (n.whole + (n.point + (n.fraction + rest)))
            && |TextOfParts(n)| == |n.sign| + |n.whole| + |n.point| + |n.fraction| + |n.e| + |n.exponent|
  {
  }

  lemma NumberIsRead(v: string, t: string, n: NumberParts)
    requires IsNumberLiteral(v, t, n)
    ensures NumberLength(v + t) == |v| && v != "" && (v[0] == '-' || IsDigit(v[0]))
  {
    hide NumberLength, PlainLength, ExponentLength, TextOfParts, BeginsExponent;
    var rest := n.e + (n.exponent + t);
    var plain := n.whole + (n.point + (n.fraction + rest));
    PartsBefore(n, t);
    RestBegins(n, t);
    PlainIsRead(n.whole, n.point, n.fraction, rest);
    ExponentIsRead(n.e, n.exponent, t);
    PlainPassed(n.whole, n.point, n.fraction, rest);
    FirstOfParts(n, v + t, plain);
    LengthByParts(v + t, n.sign, plain, rest);
    assert v[0] == (v + t)[0];
  }

  lemma FirstOfParts(n: NumberParts, s: string, plain: string)
    requires AreParts(n) && (n.sign == "" ==> n.whole != "") && s == n.sign + plain && n.whole <= plain
    ensures s != "" && n.sign == (if s[0] == '-' then "-" else "") && (s[0] == '-' || IsDigit(s[0]))
  {
    if n.sign == "" {
      assert s == plain && s[0] == n.whole[0];
    }
  }

  lemma RestBegins(n: NumberParts, t: string)
    requires AreParts(n) && EndsNumber(n, t)
    ensures var rest := n.e + (n.exponent + t); !BeginsDigit(rest) && (n.point == "" ==> rest == "" || rest[0] != '.')
  {
    if n.e == "" {
      assert n.e + (n.exponent + t) == t;
    } else {
      assert (n.e + (n.exponent + t))[0] == n.e[0];
    }
  }

  lemma PlainPassed(whole: string, point: string, fraction: string, rest: string)
    ensures var s := whole + (point + (fraction + rest)); s[|whole| + |point| + |fraction|..] == rest
  {
  }

  lemma PlainFound(s: string) returns (whole: string, point: string, fraction: string, rest: string)
    requires PlainLength(s) > 0
    ensures s == whole + (point + (fraction + rest)) && PlainLength(s) == |whole| + |point| + |fraction|
    ensures AreDigits(whole) && AreDigits(fraction) && (point == "" || point == ".") && (point == "" ==> fraction == "")
    ensures whole + fraction != "" && !BeginsDigit(rest) && (point == "" ==> rest == "" || rest[0] != '.')
  {
    hide Span;
    var n := Span(s, IsDigit);
    SpanIs(s, IsDigit);
    whole := s[..n];
    if n < |s| && s[n] == '.' {
      var k := Span(s[n + 1..], IsDigit);
      SpanIs(s[n + 1..], IsDigit);
      point, fraction, rest := ".", s[n + 1..][..k], s[n + 1..][k..];
      assert s[n + 1..] == fraction + rest;
      assert s == whole + (point + (fraction + rest));
    } else {
      point, fraction, rest := "", "", s[n..];
      assert s == whole + (point + (fraction + rest));
    }
  }

  lemma ExponentFound(s: string) returns (e: string, exponent: string, t: string)
    ensures s == e + (exponent + t) && ExponentLength(s) == |e| + |exponent|
    ensures if e == "" then exponent == "" && !BeginsExponent(s)
            else IsExponentSign(e) && exponent != "" && AreDigits(exponent) && !BeginsDigit(t)
  {
    hide Span;
    NoExponent(s);
    if ExponentLength(s) == 0 {
      e, exponent, t := "", "", s;
      assert s == "" + ("" + s);
    } else {
      var sign := if |s| > 1 && (s[1] == '+' || s[1] == '-') then 1 else 0;
      var tail := s[1 + sign..];
      var k := Span(tail, IsDigit);
      SpanIs(tail, IsDigit);
      e, exponent, t := s[..1 + sign], tail[..k], tail[k..];
      assert tail == exponent + t;
      assert s == e + tail;
      assert sign == 0 ==> e == [s[0]];
      assert sign == 1 ==> e == [s[0], s[1]];
    }
  }

  // The length of a number by its parts.
  lemma LengthByParts(s: string, sign: string, plain: string, rest: string)
    requires s == sign + plain && sign == (if s != "" && s[0] == '-' then "-" else "")
    requires PlainLength(plain) > 0 && plain[PlainLength(plain)..] == rest
    ensures NumberLength(s) == |sign| + PlainLength(plain) + ExponentLength(rest)
  {
    hide PlainLength, ExponentLength;
    assert s[|sign|..] == plain;
    assert s[|sign| + PlainLength(plain)..] == rest;
  }

  lemma TextCut(text: string, t: string)
    ensures var s := text + t; s[..|text|] == text && s[|text|..] == t
  {
  }

  lemma EmptyBefore(t: string)
    ensures "" + ("" + t) == t
  {
  }

  // The parts as they are found make a number.
  lemma PartsMakeNumber(n: NumberParts, t: string, rest: string)
    requires (n.sign == "" || n.sign == "-") && (n.sign == "" ==> n.whole != "")
    requires AreDigits(n.whole) && AreDigits(n.fraction) && (n.point == "" || n.point == ".") && (n.point == "" ==> n.fraction == "")
    requires n.whole + n.fraction != "" && !BeginsDigit(rest) && (n.point == "" ==> rest == "" || rest[0] != '.')
    requires rest == n.e + (n.exponent + t)
    requires if n.e == "" then n.exponent == "" && !BeginsExponent(rest)
             else IsExponentSign(n.e) && n.exponent != "" && AreDigits(n.exponent) && !BeginsDigit(t)
    ensures IsNumberLiteral(TextOfParts(n), t, n)
  {
    hide TextOfParts, BeginsExponent;
    EmptyBefore(t);
  }

  lemma SignCut(s: string) returns (sign: string, plain: string)
    requires s != ""
    ensures s == sign + plain && sign == (if s[0] == '-' then "-" else "") && (s[0] != '-' ==> plain == s)
    ensures NumberLength(s) > 0 ==> PlainLength(plain) > 0
  {
    hide PlainLength, ExponentLength;
    sign := if s[0] == '-' then "-" else "";
    plain := s[|sign|..];
  }

  lemma NumberCut(s: string) returns (n: NumberParts, t: string)
    requires NumberLength(s) > 0 && (s[0] == '-' || IsDigit(s[0]))
    ensures s == TextOfParts(n) + t && NumberLength(s) == |TextOfParts(n)| && IsNumberLiteral(TextOfParts(n), t, n)
  {
    hide NumberLength, PlainLength, ExponentLength, BeginsExponent, BeginsDigit, IsExponentSign, AreDigits, IsNumberLiteral;
    var sign, plain := SignCut(s);
    var whole, point, fraction, rest := PlainFound(plain);
    PlainPassed(whole, point, fraction, rest);
    WholeBegins(whole, point, fraction, rest);
    SignedWhole(s, whole, plain);
    LengthByParts(s, sign, plain, rest);
    var e, exponent, u := ExponentFound(rest);
    n, t := NumberParts(sign, whole, point, fraction, e, exponent), u;
    PartsMakeNumber(n, t, rest);
    PartsBefore(n, t);
  }

  lemma NumberFound(s: string) returns (n: NumberParts)
    requires NumberLength(s) > 0 && (s[0] == '-' || IsDigit(s[0]))
    ensures var k := NumberLength(s); IsNumberLiteral(s[..k], s[k..], n)
  {
    hide NumberLength, TextOfParts, IsNumberLiteral;
    var t;
    n, t := NumberCut(s);
    TextCut(TextOfParts(n), t);
  }

  lemma WholeBegins(whole: string, point: string, fraction: string, rest: string)
    requires (point == "" || point == ".") && (point == "" ==> fraction == "") && !BeginsDigit(rest)
    ensures var s := whole + (point + (fraction + rest)); whole <= s && (|whole| < |s| ==> !IsDigit(s[|whole|]))
  {
    var more := point + (fraction + rest);
    if point == "" {
      assert more == rest;
    } else {
      assert more[0] == '.';
    }
  }

  lemma SignedWhole(s: string, whole: string, plain: string)
    requires s != "" && (s[0] != '-' ==> plain == s && IsDigit(s[0]))
    requires whole <= plain && (|whole| < |plain| ==> !IsDigit(plain[|whole|]))
    ensures s[0] != '-' ==> whole != ""
  {
  }
}

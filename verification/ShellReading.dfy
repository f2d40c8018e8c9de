/**
 The reader and the grammar: what spells a value is read as it, and what is read as a value spells it.
 */
module ShellReading {
  import opened Wrappers
  import opened Letters
  import opened Numerals
  import opened BsonDocument
  import opened BsonDocumentRoundTrip
  import opened ShellGrammar
  import opened ShellValues

  /* ---------- Single steps of the reader ---------- */

  predicate IsBracket(c: char) {
    c == ']' || c == '}' || c == ')' || c == '(' || c == ','
  }

  // A text that begins with something else than a blank, a comment or a bracket that closes.
  predicate IsReady(s: string) {
    s != "" && Skip(s) == Some(s) && !IsBracket(s[0])
  }

  lemma StringStep(env: Env, s: string, depth: nat)
    requires depth <= 100 && s != "" && Skip(s) == Some(s) && (s[0] == '\"' || s[0] == '\'')
    ensures ParseValue(env, s, depth) == match StringBody(s[1..], s[0])
                                         case Bad => Bad
                                         case Good(v, rest) => Good(Text(v), rest)
  {
    hide Skip, ParseEntries, ParseItems, ParseWord, StringBody, RegexBody, NumberLength, NumberNode, FromExtendedJson, Span;
  }

  lemma RegexStep(env: Env, s: string, depth: nat)
    requires depth <= 100 && s != "" && Skip(s) == Some(s) && s[0] == '/'
    ensures ParseValue(env, s, depth) == match RegexBody(s[1..])
                                         case Bad => Bad
                                         case Good(p, rest) =>
                                           Good(Regex(p, rest[..Span(rest, IsFlag)]), rest[Span(rest, IsFlag)..])
  {
    hide Skip, ParseEntries, ParseItems, ParseWord, StringBody, RegexBody, NumberLength, NumberNode, FromExtendedJson, Span;
  }

  lemma NumberStep(env: Env, s: string, depth: nat)
    requires depth <= 100 && s != "" && Skip(s) == Some(s) && (s[0] == '-' || IsDigit(s[0]))
    ensures var n := NumberLength(s);
            ParseValue(env, s, depth) == if n == 0 then Bad
                                         else match NumberNode(env, s[..n])
                                           case None => Bad
                                           case Some(node) => Good(node, s[n..])
  {
    hide Skip, ParseEntries, ParseItems, ParseWord, StringBody, RegexBody, NumberLength, NumberNode, FromExtendedJson, Span;
  }

  lemma WordStep(env: Env, s: string, depth: nat)
    requires depth <= 100 && s != "" && Skip(s) == Some(s) && IsStart(s[0])
    ensures var n := 1 + Span(s[1..], IsPart);
            n <= |s| && ParseValue(env, s, depth) == ParseWord(env, s[..n], s[n..], depth)
  {
    hide Skip, ParseEntries, ParseItems, ParseWord, StringBody, RegexBody, NumberLength, NumberNode, FromExtendedJson, Span;
  }

  // Behind an opening bracket.
  function AfterBracket(env: Env, u: string, depth: nat): Parsed<Node> {
    match Skip(u)
    case None => Bad
    case Some(w) =>
      if w != "" && w[0] == ']' then Good(Array([]), w[1..])
      else match ParseItems(env, w, depth)
        case Bad => Bad
        case Good(items, rest) => Good(Array(items), rest)
  }

  function AfterBrace(env: Env, u: string, depth: nat): Parsed<Node> {
    match Skip(u)
    case None => Bad
    case Some(w) =>
      if w != "" && w[0] == '}' then Good(Object([]), w[1..])
      else match ParseEntries(env, w, depth)
        case Bad => Bad
        case Good(entries, rest) =>
          if FromExtendedJson(env, entries).Some? then Good(FromExtendedJson(env, entries).value, rest) else Bad
  }

  lemma BracketStep(env: Env, s: string, depth: nat)
    requires depth <= 100 && s != "" && Skip(s) == Some(s)
    ensures s[0] == '[' ==> ParseValue(env, s, depth) == AfterBracket(env, s[1..], depth)
    ensures s[0] == '{' ==> ParseValue(env, s, depth) == AfterBrace(env, s[1..], depth)
  {
    hide Skip, ParseEntries, ParseItems, ParseWord, StringBody, RegexBody, NumberLength, NumberNode, FromExtendedJson, Span;
  }

  // Nothing else begins a value.
  lemma NoStep(env: Env, s: string, depth: nat)
    requires ParseValue(env, s, depth).Good?
    ensures depth <= 100 && Skip(s).Some? && Skip(s).value != ""
    ensures var c := Skip(s).value[0];
            c == '\"' || c == '\'' || c == '/' || c == '-' || IsDigit(c) || IsStart(c) || c == '[' || c == '{'
  {
    hide Skip, ParseEntries, ParseItems, ParseWord, StringBody, RegexBody, NumberLength, NumberNode, FromExtendedJson, Span, IsStart;
  }

  lemma ConstantWord(env: Env, w: string, s: string, depth: nat)
    requires IsConstantName(w)
    ensures w != "new" && ParseWord(env, w, s, depth) == SimpleWord(w, s) && SimpleWord(w, s).Good?
    ensures forall node :: SimpleWord(w, s) == Good(node, s) <==>
              || (w == "true" && node == Bool(true)) || (w == "false" && node == Bool(false))
              || ((w == "null" || w == "undefined") && node == Null) || ((w == "NaN" || w == "Infinity") && node == Double(w))
  {
    hide Skip, ParseValue, ParseConstructor;
  }

  lemma OtherWord(w: string, s: string)
    requires !IsConstantName(w)
    ensures SimpleWord(w, s) == Bad
  {
  }

  lemma NewWord(env: Env, s: string, depth: nat)
    ensures ParseWord(env, "new", s, depth) ==
            if Skip(s) == None || Skip(s) == Some("") then Bad else ParseValue(env, s, depth + 1)
  {
    hide Skip, ParseValue, ParseConstructor;
    OtherWord("new", s);
    if Skip(s).Some? {
      SkipTwice(s);
      BlanksDoNotMatter(env, s, Skip(s).value, depth + 1);
    }
  }

  lemma CallWord(env: Env, w: string, s: string, depth: nat)
    requires w != "new" && !IsConstantName(w)
    ensures ParseWord(env, w, s, depth) ==
            if Skip(s).Some? && Skip(s).value != "" && Skip(s).value[0] == '(' then
              ParseConstructor(env, w, Skip(s).value[1..], depth)
            else Bad
  {
    hide Skip, ParseValue, ParseConstructor;
    OtherWord(w, s);
  }

  // Blanks before a list do not matter.
  lemma BlanksBefore(env: Env, s: string, t: string, depth: nat)
    requires Skip(s) == Skip(t)
    ensures ParseItems(env, s, depth) == ParseItems(env, t, depth)
    ensures ParseArgs(env, s, depth) == ParseArgs(env, t, depth)
    ensures ParseEntries(env, s, depth) == ParseEntries(env, t, depth)
  {
    hide ParseItems, ParseArgs, ParseEntries, Skip;
    BlanksBeforeItems(env, s, t, depth);
    BlanksBeforeArgs(env, s, t, depth);
    BlanksBeforeEntries(env, s, t, depth);
  }

  lemma BlanksBeforeItems(env: Env, s: string, t: string, depth: nat)
    requires Skip(s) == Skip(t)
    ensures ParseItems(env, s, depth) == ParseItems(env, t, depth)
  {
    hide Skip, ParseValue, Separator;
    BlanksDoNotMatter(env, s, t, depth + 1);
  }

  lemma BlanksBeforeArgs(env: Env, s: string, t: string, depth: nat)
    requires Skip(s) == Skip(t)
    ensures ParseArgs(env, s, depth) == ParseArgs(env, t, depth)
  {
    hide Skip, ParseValue;
    BlanksDoNotMatter(env, s, t, depth + 1);
  }

  lemma BlanksBeforeEntries(env: Env, s: string, t: string, depth: nat)
    requires Skip(s) == Skip(t)
    ensures ParseEntries(env, s, depth) == ParseEntries(env, t, depth)
  {
    hide Skip, ReadKey, Separator, ParseValue;
    KeyAfterBlanks(s, t);
  }

  lemma KeyAfterBlanks(s: string, t: string)
    requires Skip(s) == Skip(t)
    ensures ReadKey(s) == ReadKey(t)
  {
    hide Skip, StringBody, Span;
  }

  lemma SkippedOnce(s: string)
    requires Skip(s).Some?
    ensures Skip(Skip(s).value) == Skip(s)
  {
    SkipTwice(s);
  }

  /* ---------- What is behind an item ---------- */

  lemma CharSolid(c: char, t: string)
    requires !IsSpace(c) && c != '/'
    ensures Skip([c] + t) == Some([c] + t)
  {
  }

  lemma CloseIsRead(z: string, bracket: char, t: string)
    requires IsClose(z, bracket) && (bracket == ']' || bracket == '}')
    ensures Separator(z + t, bracket) == Good(true, t)
  {
    hide Skip, IsGap;
    CharSolid(bracket, t);
    if g :| z == g + [bracket] && IsGap(g) {
      Associate(g, [bracket], t);
      GapPassed(g, [bracket] + t);
      assert ([bracket] + t)[1..] == t;
    } else {
      var g, h :| z == g + ("," + (h + [bracket])) && IsGap(g) && IsGap(h);
      var more := h + ([bracket] + t);
      CommaBefore(z, g, h + [bracket], t);
      Associate(h, [bracket], t);
      GapPassed(h, [bracket] + t);
      assert ([bracket] + t)[1..] == t;
    }
  }

  // A comma behind a gap.
  lemma CommaBefore(z: string, g: string, more: string, t: string)
    requires z == g + ("," + more) && IsGap(g)
    ensures var u := "," + (more + t); Skip(z + t) == Some(u) && u[0] == ',' && u[1..] == more + t
  {
    hide Skip, IsGap;
    CharSolid(',', more + t);
    assert z + t == g + ("," + (more + t));
    GapPassed(g, "," + (more + t));
  }

  lemma CommaIsRead(z: string, m: string, bracket: char, t: string)
    requires IsComma(z, m) && (bracket == ']' || bracket == '}')
    requires Skip(m + t).Some? && Skip(m + t).value != "" && Skip(m + t).value[0] != bracket
    ensures Separator(z + t, bracket) == Good(false, Skip(m + t).value)
  {
    hide Skip, IsGap;
    var g :| z == g + ("," + m) && IsGap(g);
    CommaBefore(z, g, m, t);
  }

  lemma SeparatorFound(s: string, bracket: char) returns (z: string, m: string)
    requires Separator(s, bracket).Good? && (bracket == ']' || bracket == '}')
    ensures var r := Separator(s, bracket);
            if r.value then s == z + r.rest && IsClose(z, bracket)
            else s == z && IsComma(z, m) && Skip(m) == Some(r.rest) && |m| < |z|
  {
    hide Skip, IsGap;
    var r := Separator(s, bracket);
    var u := Skip(s).value;
    m := "";
    GapFound(s);
    var g :| IsGap(g) && s == g + u;
    if u[0] == bracket {
      z := g + [bracket];
      assert u == [bracket] + r.rest;
    } else {
      var more := u[1..];
      assert u == "," + more;
      var w := Skip(more).value;
      if w != "" && w[0] == bracket {
        GapFound(more);
        var h :| IsGap(h) && more == h + w;
        assert w == [bracket] + r.rest;
        z := g + ("," + (h + [bracket]));
        assert s == z + r.rest;
      } else {
        z, m := s, more;
        assert z == g + ("," + m);
      }
    }
  }

  /* ---------- How values begin ---------- */

  lemma SolidStart(s: string)
    requires s != "" && (s[0] == '\"' || s[0] == '\'' || s[0] == '-' || IsDigit(s[0]) || IsStart(s[0]) || s[0] == '[' || s[0] == '{')
    ensures IsReady(s)
  {
  }

  lemma NameBegins(name: string, rest: string, s: string)
    requires name != "" && s == name + rest && BeginsName(name[0])
    ensures IsReady(s) && IsStart(s[0])
  {
    assert s[0] == name[0];
    NameChars(name[0]);
    SolidStart(s);
  }

  lemma ConstantBegins(c: string, t: string, node: Node)
    requires IsConstant(c, t, node)
    ensures IsConstantName(c) && IsNameText(c, t)
  {
    if c == "true" || c == "null" || c == "NaN" {
    } else if c == "false" {
    } else if c == "undefined" {
    } else {
      assert c == "Infinity";
    }
  }

  lemma BareBegins(env: Env, c: string, t: string, node: Node, depth: nat)
    requires IsBare(env, c, t, node, depth)
    ensures IsReady(c + t)
  {
    hide Skip, IsReady, IsBody, NumberMeans, IsConstant, IsNew, IsCall, IsArrayText, IsObjectText, IsPatternText, IsNumberLiteral;
    if node.Text? && IsQuoted(c, node.v) {
      QuotedIsRead(c, node.v, t);
      SolidStart(c + t);
    } else if node.Regex? && IsRegexText(c, t, node.pattern, node.flags) {
      RegexIsRead(c, t, node.pattern, node.flags);
      SlashReady(c + t);
    } else if n :| IsNumberLiteral(c, t, n) {
      NumberIsRead(c, t, n);
      SolidStart(c + t);
    } else if IsConstant(c, t, node) {
      ConstantBegins(c, t, node);
      NameBegins(c, t, c + t);
    } else if w :| c == "new" + w && IsNew(env, w, t, node, depth) {
      assert BeginsName('n');
      NameBegins("new", w + t, c + t);
    } else if name, g, b :| c == name + (g + ("(" + b)) && IsCall(env, name, g, b, t, node, depth) {
      CallBegins(env, name, g, b, t, node, depth);
      assert c + t == name + ((g + ("(" + b)) + t);
      NameBegins(name, (g + ("(" + b)) + t, c + t);
    } else {
      SolidStart(c + t);
    }
  }

  lemma SlashReady(s: string)
    requires s != "" && s[0] == '/' && Skip(s) == Some(s)
    ensures IsReady(s)
  {
  }

  lemma CallBegins(env: Env, name: string, g: string, b: string, t: string, node: Node, depth: nat)
    requires IsCall(env, name, g, b, t, node, depth)
    ensures IsNameText(name, g + "(") && IsGap(g) && name != "new" && !IsConstantName(name)
  {
  }

  // A value, behind its blanks.
  lemma ValueBegins(env: Env, v: string, t: string, node: Node, depth: nat)
    requires IsValue(env, v, t, node, depth)
    ensures Skip(v + t).Some? && IsReady(Skip(v + t).value)
  {
    hide Skip, IsGap, IsBare, IsReady;
    var g, c :| v == g + c && IsGap(g) && IsBare(env, c, t, node, depth);
    BareBegins(env, c, t, node, depth);
    Associate(g, c, t);
    GapPassed(g, c + t);
    ReadySkipped(c + t);
  }

  lemma ReadySkipped(s: string)
    requires IsReady(s)
    ensures Skip(s) == Some(s)
  {
  }

  lemma FieldNameBegins(k: string, t: string, key: string)
    requires IsFieldName(k, t, key)
    ensures Skip(k + t).Some? && IsReady(Skip(k + t).value)
  {
    hide Skip, IsGap, IsReady, IsBody;
    var g, c :| k == g + c && IsGap(g) && IsBareName(c, t, key);
    if IsQuoted(c, key) {
      QuotedIsRead(c, key, t);
      SolidStart(c + t);
    } else if IsNameText(c, t) {
      NameBegins(c, t, c + t);
    } else {
      NameChars(c[0]);
      SolidStart(c + t);
    }
    Associate(g, c, t);
    GapPassed(g, c + t);
    ReadySkipped(c + t);
  }

  lemma ItemsBegin(env: Env, b: string, t: string, items: seq<Node>, depth: nat)
    requires items != [] && IsItems(env, b, t, items, depth)
    ensures Skip(b + t).Some? && IsReady(Skip(b + t).value)
  {
    hide Skip, IsReady, IsValue, IsClose, IsComma;
    if |items| == 1 {
      var w, z :| b == w + z && IsClose(z, ']') && IsValue(env, w, z + t, items[0], depth + 1);
      Associate(w, z, t);
      ValueBegins(env, w, z + t, items[0], depth + 1);
    } else {
      var w, z, m :| && b == w + z && |m| < |z| && IsComma(z, m) && IsValue(env, w, z + t, items[0], depth + 1)
                     && IsItems(env, m, t, items[1..], depth);
      Associate(w, z, t);
      ValueBegins(env, w, z + t, items[0], depth + 1);
    }
  }

  lemma ArgsBegin(env: Env, a: string, t: string, args: seq<Node>, depth: nat)
    requires args != [] && IsArgs(env, a, t, args, depth)
    ensures Skip(a + t).Some? && IsReady(Skip(a + t).value)
  {
    hide Skip, IsReady, IsValue, IsComma, IsGap;
    if |args| == 1 {
      var w, g :| a == w + g && IsGap(g) && IsValue(env, w, g + t, args[0], depth + 1);
      Associate(w, g, t);
      ValueBegins(env, w, g + t, args[0], depth + 1);
    } else {
      var w, z, m :| && a == w + z && |m| < |z| && IsComma(z, m) && IsValue(env, w, z + t, args[0], depth + 1)
                     && IsArgs(env, m, t, args[1..], depth);
      Associate(w, z, t);
      ValueBegins(env, w, z + t, args[0], depth + 1);
    }
  }

  lemma EntryBegins(env: Env, f: string, t: string, e: Entry, depth: nat)
    requires IsEntry(env, f, t, e, depth)
    ensures Skip(f + t).Some? && IsReady(Skip(f + t).value)
  {
    hide Skip, IsReady, IsValue, IsFieldName, IsGap;
    var k, g, w :|
      f == k + (g + (":" + w)) && IsFieldName(k, g + (":" + (w + t)), e.key) && IsGap(g) && IsValue(env, w, t, e.value, depth + 1);
    assert f + t == k + (g + (":" + (w + t)));
    FieldNameBegins(k, g + (":" + (w + t)), e.key);
  }

  lemma EntriesBegin(env: Env, b: string, t: string, entries: seq<Entry>, depth: nat)
    requires entries != [] && IsEntries(env, b, t, entries, depth)
    ensures Skip(b + t).Some? && IsReady(Skip(b + t).value)
  {
    hide Skip, IsReady, IsEntry, IsClose, IsComma;
    if |entries| == 1 {
      var f, z :| b == f + z && IsClose(z, '}') && IsEntry(env, f, z + t, entries[0], depth);
      Associate(f, z, t);
      EntryBegins(env, f, z + t, entries[0], depth);
    } else {
      var f, z, m :| && b == f + z && |m| < |z| && IsComma(z, m) && IsEntry(env, f, z + t, entries[0], depth)
                     && IsEntries(env, m, t, entries[1..], depth);
      Associate(f, z, t);
      EntryBegins(env, f, z + t, entries[0], depth);
    }
  }

  /* ---------- What spells a value is read as it ---------- */

  lemma NumberValueIsRead(env: Env, c: string, t: string, n: NumberParts, node: Node, depth: nat)
    requires depth <= 100 && IsNumberLiteral(c, t, n) && NumberMeans(env, c, node)
    ensures ParseValue(env, c + t, depth) == Good(node, t)
  {
    hide ParseValue, Skip, NumberLength, NumberNode, NumberMeans, IsNumberLiteral, IsReady;
    NumberIsRead(c, t, n);
    SolidStart(c + t);
    ReadySkipped(c + t);
    NumberStep(env, c + t, depth);
    TextCut(c, t);
    NumbersAre(env, c, node);
  }

  lemma RegexValueIsRead(env: Env, c: string, t: string, p: string, f: string, depth: nat)
    requires depth <= 100 && IsRegexText(c, t, p, f)
    ensures ParseValue(env, c + t, depth) == Good(Regex(p, f), t)
  {
    hide ParseValue, Skip, RegexBody, Span, IsRegexText;
    RegexIsRead(c, t, p, f);
    RegexStep(env, c + t, depth);
    TextCut(f, t);
  }

  lemma StringValueIsRead(env: Env, c: string, t: string, v: string, depth: nat)
    requires depth <= 100 && IsQuoted(c, v)
    ensures ParseValue(env, c + t, depth) == Good(Text(v), t)
  {
    hide ParseValue, Skip, StringBody, IsQuoted, IsReady;
    QuotedIsRead(c, v, t);
    SolidStart(c + t);
    ReadySkipped(c + t);
    StringStep(env, c + t, depth);
  }

  // A name at the front.
  lemma NameStep(env: Env, name: string, rest: string, depth: nat)
    requires depth <= 100 && IsNameText(name, rest)
    ensures ParseValue(env, name + rest, depth) == ParseWord(env, name, rest, depth)
  {
    hide ParseValue, ParseWord, Skip, Span, IsReady;
    var s := name + rest;
    NameIsRead(name, rest);
    NameBegins(name, rest, s);
    ReadySkipped(s);
    WordStep(env, s, depth);
    TextCut(name, rest);
  }

  lemma ConstantIsRead(env: Env, c: string, t: string, node: Node, depth: nat)
    requires depth <= 100 && IsConstant(c, t, node)
    ensures ParseValue(env, c + t, depth) == Good(node, t)
  {
    hide ParseValue, ParseWord, SimpleWord;
    ConstantBegins(c, t, node);
    NameStep(env, c, t, depth);
    ConstantWord(env, c, t, depth);
  }

  lemma NewFollows(w: string, t: string)
    requires w != "" && !GoesOnName(w[0])
    ensures IsNameText("new", w + t)
  {
  }

  lemma {:induction false} NewIsRead(env: Env, w: string, t: string, node: Node, depth: nat)
    requires depth <= 100 && IsNew(env, w, t, node, depth)
    ensures ParseValue(env, "new" + w + t, depth) == Good(node, t)
    decreases |w|, 4
  {
    hide ParseValue, ParseWord, Skip, IsValue, IsReady;
    NewFollows(w, t);
    Associate("new", w, t);
    NameStep(env, "new", w + t, depth);
    NewWord(env, w + t, depth);
    ValueBegins(env, w, t, node, depth + 1);
    ReadyNotEmpty(Skip(w + t).value);
    ValueIsRead(env, w, t, node, depth + 1);
  }

  lemma ReadyNotEmpty(s: string)
    requires IsReady(s)
    ensures s != "" && !IsBracket(s[0])
  {
  }

  lemma {:induction false} ValueIsRead(env: Env, v: string, t: string, node: Node, depth: nat)
    requires IsValue(env, v, t, node, depth)
    ensures ParseValue(env, v + t, depth) == Good(node, t)
    decreases |v|, 3
  {
    hide ParseValue, Skip, IsGap, IsBare;
    var g, c :| v == g + c && IsGap(g) && IsBare(env, c, t, node, depth);
    Associate(g, c, t);
    GapPassed(g, c + t);
    BlanksDoNotMatter(env, v + t, c + t, depth);
    BareIsRead(env, c, t, node, depth);
  }

  lemma {:induction false} BareIsRead(env: Env, c: string, t: string, node: Node, depth: nat)
    requires IsBare(env, c, t, node, depth) && depth <= 100
    ensures ParseValue(env, c + t, depth) == Good(node, t)
    decreases |c|, 2
  {
    hide ParseValue, Skip, IsQuoted, IsRegexText, NumberMeans, IsConstant, IsNew, IsCall, IsArrayText, IsObjectText, IsNumberLiteral;
    if node.Text? && IsQuoted(c, node.v) {
      StringValueIsRead(env, c, t, node.v, depth);
    } else if node.Regex? && IsRegexText(c, t, node.pattern, node.flags) {
      RegexValueIsRead(env, c, t, node.pattern, node.flags, depth);
    } else if NumberMeans(env, c, node) && exists n :: IsNumberLiteral(c, t, n) {
      var n :| IsNumberLiteral(c, t, n);
      NumberValueIsRead(env, c, t, n, node, depth);
    } else if IsConstant(c, t, node) {
      ConstantIsRead(env, c, t, node, depth);
    } else if w :| c == "new" + w && IsNew(env, w, t, node, depth) {
      NewIsRead(env, w, t, node, depth);
    } else if name, g, b :| c == name + (g + ("(" + b)) && IsCall(env, name, g, b, t, node, depth) {
      CallIsRead(env, name, g, b, t, node, depth);
    } else if b :| c == "[" + b && IsArrayText(env, b, t, node, depth) {
      ArrayIsRead(env, b, t, node, depth);
    } else {
      var b :| c == "{" + b && IsObjectText(env, b, t, node, depth);
      ObjectIsRead(env, b, t, node, depth);
    }
  }

  lemma ParenthesisBehind(name: string, g: string, b: string, t: string)
    requires IsNameText(name, g + "(")
    ensures var rest := g + ("(" + (b + t)); name + (g + ("(" + b)) + t == name + rest && IsNameText(name, rest)
  {
    assert name + (g + ("(" + b)) + t == name + (g + ("(" + (b + t)));
    var rest := g + ("(" + (b + t));
    assert rest[0] == (g + "(")[0];
  }

  lemma OpenParenthesis(g: string, u: string)
    requires IsGap(g)
    ensures Skip(g + ("(" + u)) == Some("(" + u) && ("(" + u)[0] == '(' && ("(" + u)[1..] == u
  {
    hide Skip, IsGap;
    CharSolid('(', u);
    GapPassed(g, "(" + u);
  }

  lemma {:induction false} CallIsRead(env: Env, name: string, g: string, b: string, t: string, node: Node, depth: nat)
    requires depth <= 100 && IsCall(env, name, g, b, t, node, depth)
    ensures ParseValue(env, name + (g + ("(" + b)) + t, depth) == Good(node, t)
    decreases |b|, 4
  {
    hide ParseValue, ParseWord, ParseConstructor, Skip, IsGap, IsNameText, IsArguments, ConstructorMeans;
    var a, args :| b == a + ")" && IsArguments(env, a, ")" + t, args, depth) && ConstructorMeans(env, name, args, node);
    ParenthesisBehind(name, g, b, t);
    var rest := g + ("(" + (b + t));
    NameStep(env, name, rest, depth);
    CallWord(env, name, rest, depth);
    OpenParenthesis(g, b + t);
    ArgumentsAreRead(env, name, a, t, args, node, depth);
    Associate(a, ")", t);
  }

  // Behind the parenthesis that opens.
  lemma {:induction false} ArgumentsAreRead(env: Env, name: string, a: string, t: string, args: seq<Node>, node: Node, depth: nat)
    requires IsArguments(env, a, ")" + t, args, depth) && ConstructorMeans(env, name, args, node)
    ensures ParseConstructor(env, name, a + (")" + t), depth) == Good(node, t)
    decreases |a|, 5
  {
    hide ParseValue, ParseArgs, Skip, IsGap, IsArgs, ConstructorMeans, Construct, IsReady;
    var close := ")" + t;
    CharSolid(')', t);
    assert close[0] == ')' && close[1..] == t;
    CallIs(env, name, args, node);
    if args == [] {
      GapPassed(a, close);
    } else {
      ArgsBegin(env, a, close, args, depth);
      var u := Skip(a + close).value;
      ReadyNotEmpty(u);
      SkippedOnce(a + close);
      BlanksBefore(env, u, a + close, depth);
      ArgsAreRead(env, a, close, args, depth);
    }
  }

  lemma {:induction false} ArgsAreRead(env: Env, a: string, t: string, args: seq<Node>, depth: nat)
    requires args != [] && IsArgs(env, a, t, args, depth) && t != "" && Skip(t) == Some(t) && t[0] != ','
    ensures ParseArgs(env, a + t, depth) == Good(args, t)
    decreases |a|, 4
  {
    hide ParseValue, Skip, IsGap, IsValue, IsComma, IsReady;
    if |args| == 1 {
      var w, g :| a == w + g && IsGap(g) && IsValue(env, w, g + t, args[0], depth + 1);
      Associate(w, g, t);
      ValueIsRead(env, w, g + t, args[0], depth + 1);
      GapPassed(g, t);
      assert args == [args[0]];
    } else {
      var w, z, m :| && a == w + z && |m| < |z| && IsComma(z, m) && IsValue(env, w, z + t, args[0], depth + 1)
                     && IsArgs(env, m, t, args[1..], depth);
      Associate(w, z, t);
      ValueIsRead(env, w, z + t, args[0], depth + 1);
      CommaThen(z, m, t);
      ArgsAreRead(env, m, t, args[1..], depth);
      assert args == [args[0]] + args[1..];
    }
  }

  lemma CommaThen(z: string, m: string, t: string)
    requires IsComma(z, m)
    ensures var u := "," + (m + t); Skip(z + t) == Some(u) && u[0] == ',' && u[1..] == m + t
  {
    hide Skip, IsGap;
    var g :| z == g + ("," + m) && IsGap(g);
    CommaBefore(z, g, m, t);
  }

  lemma {:induction false} ItemsAreRead(env: Env, b: string, t: string, items: seq<Node>, depth: nat)
    requires items != [] && IsItems(env, b, t, items, depth)
    ensures ParseItems(env, b + t, depth) == Good(items, t)
    decreases |b|, 4
  {
    hide ParseValue, Skip, IsValue, IsComma, IsClose, IsReady, Separator;
    if |items| == 1 {
      var w, z :| b == w + z && IsClose(z, ']') && IsValue(env, w, z + t, items[0], depth + 1);
      Associate(w, z, t);
      ValueIsRead(env, w, z + t, items[0], depth + 1);
      CloseIsRead(z, ']', t);
      assert items == [items[0]];
    } else {
      var w, z, m :| && b == w + z && |m| < |z| && IsComma(z, m) && IsValue(env, w, z + t, items[0], depth + 1)
                     && IsItems(env, m, t, items[1..], depth);
      Associate(w, z, t);
      ValueIsRead(env, w, z + t, items[0], depth + 1);
      ItemsBegin(env, m, t, items[1..], depth);
      ReadyNotEmpty(Skip(m + t).value);
      CommaIsRead(z, m, ']', t);
      SkippedOnce(m + t);
      BlanksBefore(env, Skip(m + t).value, m + t, depth);
      ItemsAreRead(env, m, t, items[1..], depth);
      assert items == [items[0]] + items[1..];
    }
  }

  lemma {:induction false} ArrayIsRead(env: Env, b: string, t: string, node: Node, depth: nat)
    requires depth <= 100 && IsArrayText(env, b, t, node, depth)
    ensures ParseValue(env, "[" + b + t, depth) == Good(node, t)
    decreases |b|, 5
  {
    hide ParseValue, ParseItems, Skip, IsGap, IsItems, IsReady;
    var s := "[" + b + t;
    assert s[1..] == b + t && s[0] == '[';
    SolidStart(s);
    ReadySkipped(s);
    BracketStep(env, s, depth);
    if g :| node == Array([]) && b == g + "]" && IsGap(g) {
      Associate(g, "]", t);
      CharSolid(']', t);
      GapPassed(g, "]" + t);
      assert ("]" + t)[1..] == t;
    } else {
      ItemsBegin(env, b, t, node.items, depth);
      ReadyNotEmpty(Skip(b + t).value);
      SkippedOnce(b + t);
      BlanksBefore(env, Skip(b + t).value, b + t, depth);
      ItemsAreRead(env, b, t, node.items, depth);
    }
  }

  lemma {:induction false} ObjectIsRead(env: Env, b: string, t: string, node: Node, depth: nat)
    requires depth <= 100 && IsObjectText(env, b, t, node, depth)
    ensures ParseValue(env, "{" + b + t, depth) == Good(node, t)
    decreases |b|, 6
  {
    hide ParseValue, ParseEntries, Skip, IsGap, IsEntries, IsReady, ExtendedMeans, FromExtendedJson;
    var s := "{" + b + t;
    assert s[1..] == b + t && s[0] == '{';
    SolidStart(s);
    ReadySkipped(s);
    BracketStep(env, s, depth);
    if g :| node == Object([]) && b == g + "}" && IsGap(g) {
      Associate(g, "}", t);
      CharSolid('}', t);
      GapPassed(g, "}" + t);
      assert ("}" + t)[1..] == t;
    } else {
      var entries :| entries != [] && IsEntries(env, b, t, entries, depth) && ExtendedMeans(env, entries, node);
      EntriesBegin(env, b, t, entries, depth);
      ReadyNotEmpty(Skip(b + t).value);
      SkippedOnce(b + t);
      BlanksBefore(env, Skip(b + t).value, b + t, depth);
      EntriesAreRead(env, b, t, entries, depth);
      ExtendedIs(env, entries, node);
    }
  }

  lemma {:induction false} EntriesAreRead(env: Env, b: string, t: string, entries: seq<Entry>, depth: nat)
    requires entries != [] && IsEntries(env, b, t, entries, depth)
    ensures ParseEntries(env, b + t, depth) == Good(entries, t)
    decreases |b|, 5
  {
    hide ParseEntry, Skip, IsEntry, IsComma, IsClose, IsReady, Separator;
    if |entries| == 1 {
      var f, z :| b == f + z && IsClose(z, '}') && IsEntry(env, f, z + t, entries[0], depth);
      Associate(f, z, t);
      EntryIsRead(env, f, z + t, entries[0], depth);
      CloseIsRead(z, '}', t);
      assert entries == [entries[0]];
    } else {
      var f, z, m :| && b == f + z && |m| < |z| && IsComma(z, m) && IsEntry(env, f, z + t, entries[0], depth)
                     && IsEntries(env, m, t, entries[1..], depth);
      Associate(f, z, t);
      EntryIsRead(env, f, z + t, entries[0], depth);
      EntriesBegin(env, m, t, entries[1..], depth);
      ReadyNotEmpty(Skip(m + t).value);
      CommaIsRead(z, m, '}', t);
      SkippedOnce(m + t);
      BlanksBefore(env, Skip(m + t).value, m + t, depth);
      EntriesAreRead(env, m, t, entries[1..], depth);
      assert entries == [entries[0]] + entries[1..];
    }
  }

  lemma FieldNameIsRead(k: string, t: string, key: string)
    requires IsFieldName(k, t, key)
    ensures ReadKey(k + t) == Good(key, t)
  {
    hide Skip, IsGap, IsBareName, ReadKey, IsReady;
    FieldNameBegins(k, t, key);
    var g, c :| k == g + c && IsGap(g) && IsBareName(c, t, key);
    Associate(g, c, t);
    GapPassed(g, c + t);
    KeyAfterBlanks(k + t, c + t);
    BareNameIsRead(c, t, key);
  }

  lemma BareNameIsRead(c: string, t: string, key: string)
    requires IsBareName(c, t, key)
    ensures ReadKey(c + t) == Good(key, t)
  {
    hide Skip, StringBody, Span, IsQuoted, IsReady;
    var s := c + t;
    TextCut(c, t);
    if IsQuoted(c, key) {
      QuotedIsRead(c, key, t);
      SolidStart(s);
      ReadySkipped(s);
    } else if IsNameText(c, t) {
      NameIsRead(c, t);
      NameBegins(c, t, s);
      ReadySkipped(s);
      NoQuote(s[0]);
    } else {
      NumberNameIsRead(c, t);
      SolidStart(s);
      ReadySkipped(s);
      NoQuote(s[0]);
    }
  }

  lemma NoQuote(c: char)
    ensures IsStart(c) || IsDigit(c) ==> c != '\"' && c != '\''
  {
  }

  lemma {:induction false} EntryIsRead(env: Env, f: string, t: string, e: Entry, depth: nat)
    requires IsEntry(env, f, t, e, depth)
    ensures ParseEntry(env, f + t, depth) == Good(e, t)
    decreases |f|, 4
  {
    hide ParseValue, Skip, IsValue, IsFieldName, IsGap, ReadKey;
    var k, g, w :|
      f == k + (g + (":" + w)) && IsFieldName(k, g + (":" + (w + t)), e.key) && IsGap(g) && IsValue(env, w, t, e.value, depth + 1);
    var rest := g + (":" + (w + t));
    assert f + t == k + rest;
    FieldNameIsRead(k, rest, e.key);
    CharSolid(':', w + t);
    GapPassed(g, ":" + (w + t));
    assert (":" + (w + t))[1..] == w + t;
    ValueIsRead(env, w, t, e.value, depth + 1);
  }

  /* ---------- What is read as a value spells it ---------- */

  lemma {:induction false} ValueFound(env: Env, s: string, depth: nat) returns (v: string)
    requires ParseValue(env, s, depth).Good?
    ensures var r := ParseValue(env, s, depth); s == v + r.rest && IsValue(env, v, r.rest, r.value, depth)
    decreases |s|, 4
  {
    hide ParseValue, Skip, IsGap, IsBare;
    NoStep(env, s, depth);
    var u := Skip(s).value;
    GapFound(s);
    SkippedOnce(s);
    BlanksDoNotMatter(env, s, u, depth);
    var g :| IsGap(g) && s == g + u;
    var c := BareFound(env, u, depth);
    v := g + c;
    Associate(g, c, ParseValue(env, s, depth).rest);
  }

  lemma {:induction false} BareFound(env: Env, s: string, depth: nat) returns (c: string)
    requires ParseValue(env, s, depth).Good? && s != "" && Skip(s) == Some(s) && depth <= 100
    ensures var r := ParseValue(env, s, depth); s == c + r.rest && IsBare(env, c, r.rest, r.value, depth)
    decreases |s|, 3
  {
    hide ParseValue, ParseWord, ParseItems, ParseEntries, Skip, IsQuoted, IsRegexText, NumberMeans, IsConstant, IsNew, IsCall, IsArrayText,
      IsObjectText, IsNumberLiteral, NumberLength, NumberNode, StringBody, RegexBody, Span, IsStart, IsDigit;
    NoStep(env, s, depth);
    if s[0] == '\"' || s[0] == '\'' {
      StringStep(env, s, depth);
      c := QuotedFound(s);
    } else if s[0] == '/' {
      RegexStep(env, s, depth);
      c := RegexFound(s);
    } else if s[0] == '-' || IsDigit(s[0]) {
      c := NumberValueFound(env, s, depth);
    } else if IsStart(s[0]) {
      c := WordFound(env, s, depth);
    } else if s[0] == '[' {
      BracketStep(env, s, depth);
      var b := ArrayFound(env, s[1..], depth);
      c := "[" + b;
      assert s == "[" + s[1..];
    } else {
      BracketStep(env, s, depth);
      var b := ObjectFound(env, s[1..], depth);
      c := "{" + b;
      assert s == "{" + s[1..];
    }
  }

  lemma NumberValueFound(env: Env, s: string, depth: nat) returns (c: string)
    requires ParseValue(env, s, depth).Good? && s != "" && Skip(s) == Some(s) && depth <= 100 && (s[0] == '-' || IsDigit(s[0]))
    ensures var r := ParseValue(env, s, depth); s == c + r.rest && IsBare(env, c, r.rest, r.value, depth)
  {
    hide ParseValue, Skip, NumberLength, NumberNode, NumberMeans, IsNumberLiteral, IsDigit;
    NumberStep(env, s, depth);
    var n := NumberFound(s);
    c := s[..NumberLength(s)];
    NumbersAre(env, c, ParseValue(env, s, depth).value);
  }

  lemma ConstantFound(env: Env, w: string, rest: string, node: Node, depth: nat)
    requires IsNameText(w, rest) && IsConstantName(w) && SimpleWord(w, rest) == Good(node, rest)
    ensures IsConstant(w, rest, node)
  {
    ConstantWord(env, w, rest, depth);
    hide SimpleWord, ParseWord, BeginsName;
  }

  lemma {:induction false} WordFound(env: Env, s: string, depth: nat) returns (c: string)
    requires ParseValue(env, s, depth).Good? && s != "" && Skip(s) == Some(s) && depth <= 100 && IsStart(s[0])
    ensures var r := ParseValue(env, s, depth); s == c + r.rest && IsBare(env, c, r.rest, r.value, depth)
    decreases |s|, 2
  {
    hide ParseValue, ParseWord, Skip, Span, IsStart, IsBare, IsNameText, IsConstantName;
    WordStep(env, s, depth);
    NameFound(s);
    var n := 1 + Span(s[1..], IsPart);
    assert s == s[..n] + s[n..];
    c := AfterName(env, s[..n], s[n..], depth);
  }

  lemma {:induction false} AfterName(env: Env, w: string, rest: string, depth: nat) returns (c: string)
    requires ParseWord(env, w, rest, depth).Good? && depth <= 100 && IsNameText(w, rest)
    ensures var r := ParseWord(env, w, rest, depth); w + rest == c + r.rest && IsBare(env, c, r.rest, r.value, depth)
    decreases |w| + |rest|, 1
  {
    hide ParseValue, ParseWord, ParseConstructor, SimpleWord, Skip, IsConstant, IsNew, IsCall, IsNameText, IsConstantName, IsGap;
    hide IsQuoted, IsRegexText, NumberMeans, IsArrayText, IsObjectText, IsNumberLiteral;
    var r := ParseWord(env, w, rest, depth);
    NameNotEmpty(w, rest);
    if IsConstantName(w) {
      ConstantWord(env, w, rest, depth);
      SimpleRest(w, rest);
      ConstantFound(env, w, rest, r.value, depth);
      c := w;
    } else if w == "new" {
      NewWord(env, rest, depth);
      var v := ValueFound(env, rest, depth + 1);
      NewFound(env, v, r.rest, r.value, depth);
      c := "new" + v;
      Associate("new", v, r.rest);
    } else {
      CallWord(env, w, rest, depth);
      var u := Skip(rest).value;
      var g := GapSplit(rest);
      FirstAndMore(u, '(');
      var b := CallFound(env, w, g, u[1..], depth);
      c := w + (g + ("(" + b));
      Around(w, g, b, r.rest);
    }
  }

  lemma NameNotEmpty(w: string, rest: string)
    requires IsNameText(w, rest)
    ensures w != ""
  {
  }

  lemma FirstAndMore(u: string, c: char)
    requires u != "" && u[0] == c
    ensures u == [c] + u[1..]
  {
  }

  lemma Around(w: string, g: string, b: string, t: string)
    ensures w + (g + ("(" + b)) + t == w + (g + ("(" + (b + t)))
  {
  }

  lemma SimpleRest(w: string, s: string)
    requires SimpleWord(w, s).Good?
    ensures SimpleWord(w, s).rest == s
  {
  }

  lemma NewFound(env: Env, v: string, t: string, node: Node, depth: nat)
    requires IsValue(env, v, t, node, depth + 1) && IsNameText("new", v + t)
    ensures IsNew(env, v, t, node, depth)
  {
    hide IsGap, IsBare;
    ValueNotEmpty(env, v, t, node, depth + 1);
    assert (v + t)[0] == v[0];
  }

  lemma ValueNotEmpty(env: Env, v: string, t: string, node: Node, depth: nat)
    requires IsValue(env, v, t, node, depth)
    ensures v != ""
  {
    hide IsGap, IsBare;
    var g, c :| v == g + c && IsGap(g) && IsBare(env, c, t, node, depth);
    BareNotEmpty(env, c, t, node, depth);
  }

  lemma BareNotEmpty(env: Env, c: string, t: string, node: Node, depth: nat)
    requires IsBare(env, c, t, node, depth)
    ensures c != ""
  {
    hide IsBody, NumberMeans, IsNew, IsCall, IsArrayText, IsObjectText, IsPatternText, IsNumberLiteral;
    if n :| IsNumberLiteral(c, t, n) {
      NumberIsRead(c, t, n);
    } else if name, g, b :| c == name + (g + ("(" + b)) && IsCall(env, name, g, b, t, node, depth) {
    }
  }

  lemma CallMade(env: Env, name: string, g: string, a: string, t: string, args: seq<Node>, node: Node, depth: nat)
    requires IsGap(g) && IsNameText(name, g + ("(" + (a + (")" + t)))) && name != "new" && !IsConstantName(name)
    requires IsArguments(env, a, ")" + t, args, depth) && ConstructorMeans(env, name, args, node)
    ensures IsCall(env, name, g, a + ")", t, node, depth)
  {
    hide IsGap, IsArguments, ConstructorMeans, IsConstantName;
    assert (g + ("(" + (a + (")" + t))))[0] == (g + "(")[0];
  }

  // The arguments, up to the parenthesis that closes.
  lemma {:induction false} ArgumentsFound(env: Env, name: string, s: string, depth: nat) returns (a: string, args: seq<Node>)
    requires ParseConstructor(env, name, s, depth).Good?
    ensures var r := ParseConstructor(env, name, s, depth);
            && s == a + (")" + r.rest) && IsArguments(env, a, ")" + r.rest, args, depth) && Construct(env, name, args) == Some(r.value)
    decreases |s|, 6
  {
    hide ParseArgs, Skip, IsGap, IsArgs, Construct;
    var r := ParseConstructor(env, name, s, depth);
    var u := Skip(s).value;
    SkippedOnce(s);
    if u != "" && u[0] == ')' {
      var h := GapSplit(s);
      FirstAndMore(u, ')');
      a, args := h, [];
    } else {
      var read := ParseArgs(env, u, depth);
      BlanksBeforeArgs(env, s, u, depth);
      ArgsRest(env, s, depth);
      a := ArgsFound(env, s, depth);
      args := read.value;
      FirstAndMore(read.rest, ')');
    }
  }

  // Behind the parenthesis that opens.
  lemma {:induction false} CallFound(env: Env, name: string, g: string, s: string, depth: nat) returns (b: string)
    requires ParseConstructor(env, name, s, depth).Good? && IsGap(g) && IsNameText(name, g + ("(" + s))
    requires name != "new" && !IsConstantName(name)
    ensures var r := ParseConstructor(env, name, s, depth); s == b + r.rest && IsCall(env, name, g, b, r.rest, r.value, depth)
    decreases |s|, 7
  {
    hide ParseConstructor, IsGap, IsArguments, Construct, ConstructorMeans, IsConstantName, IsNameText, IsCall;
    var r := ParseConstructor(env, name, s, depth);
    var a, args := ArgumentsFound(env, name, s, depth);
    CallIs(env, name, args, r.value);
    CallMade(env, name, g, a, r.rest, args, r.value, depth);
    b := a + ")";
    Associate(a, ")", r.rest);
  }

  // What is behind the arguments has no blanks in front.
  lemma {:induction false} ArgsRest(env: Env, s: string, depth: nat)
    requires ParseArgs(env, s, depth).Good?
    ensures Skip(ParseArgs(env, s, depth).rest) == Some(ParseArgs(env, s, depth).rest) && ParseArgs(env, s, depth).value != []
    decreases |s|
  {
    hide ParseValue, Skip;
    var r := ParseValue(env, s, depth + 1);
    var u := Skip(r.rest).value;
    SkippedOnce(r.rest);
    if u != "" && u[0] == ',' {
      ArgsRest(env, u[1..], depth);
    }
  }

  lemma GapSplit(s: string) returns (g: string)
    requires Skip(s).Some? && Skip(s).value != ""
    ensures IsGap(g) && s == g + Skip(s).value
  {
    hide Skip, IsGap;
    GapFound(s);
    var h :| IsGap(h) && s == h + Skip(s).value;
    g := h;
  }

  lemma OneArg(env: Env, w: string, g: string, t: string, node: Node, depth: nat)
    requires IsGap(g) && IsValue(env, w, g + t, node, depth + 1)
    ensures IsArgs(env, w + g, t, [node], depth)
  {
    hide IsGap, IsValue;
    assert [node][0] == node;
  }

  lemma MoreArgs(env: Env, w: string, g: string, m: string, t: string, node: Node, args: seq<Node>, depth: nat)
    requires args != [] && IsGap(g) && IsValue(env, w, g + ("," + m) + t, node, depth + 1) && IsArgs(env, m, t, args, depth)
    ensures IsArgs(env, w + (g + ("," + m)), t, [node] + args, depth)
  {
    hide IsGap, IsValue;
    var z := g + ("," + m);
    assert IsComma(z, m) && |m| < |z|;
    assert ([node] + args)[1..] == args;
  }

  lemma CommaAgain(g: string, u: string, m: string, t: string)
    requires u != "" && u[0] == ',' && u[1..] == m + t
    ensures g + u == g + ("," + m) + t
  {
    assert u == "," + u[1..];
  }

  lemma {:induction false} ArgsFound(env: Env, s: string, depth: nat) returns (a: string)
    requires ParseArgs(env, s, depth).Good? && ParseArgs(env, s, depth).rest != ""
    ensures var r := ParseArgs(env, s, depth); r.value != [] && s == a + r.rest && IsArgs(env, a, r.rest, r.value, depth)
    decreases |s|, 5
  {
    hide ParseValue, Skip, IsGap, IsValue, IsComma, IsArgs;
    var first := ParseValue(env, s, depth + 1);
    var w := ValueFound(env, s, depth + 1);
    var u := Skip(first.rest).value;
    var r := ParseArgs(env, s, depth);
    var g := GapSplit(first.rest);
    if u[0] == ',' {
      var m := ArgsFound(env, u[1..], depth);
      CommaAgain(g, u, m, r.rest);
      MoreArgs(env, w, g, m, r.rest, first.value, ParseArgs(env, u[1..], depth).value, depth);
      a := w + (g + ("," + m));
      Associate(w, g + ("," + m), r.rest);
    } else {
      OneArg(env, w, g, r.rest, first.value, depth);
      a := w + g;
      Associate(w, g, r.rest);
    }
  }

  lemma {:induction false} ArrayFound(env: Env, s: string, depth: nat) returns (b: string)
    requires AfterBracket(env, s, depth).Good?
    ensures var r := AfterBracket(env, s, depth); s == b + r.rest && IsArrayText(env, b, r.rest, r.value, depth)
    decreases |s|, 6
  {
    hide ParseItems, Skip, IsGap, IsItems;
    var r := AfterBracket(env, s, depth);
    var u := Skip(s).value;
    if u != "" && u[0] == ']' {
      var g := GapSplit(s);
      b := g + "]";
      assert u == "]" + r.rest;
      Associate(g, "]", r.rest);
    } else {
      SkippedOnce(s);
      BlanksBefore(env, s, u, depth);
      b := ItemsFound(env, s, depth);
    }
  }

  lemma OneItem(env: Env, w: string, z: string, t: string, node: Node, depth: nat)
    requires IsClose(z, ']') && IsValue(env, w, z + t, node, depth + 1)
    ensures IsItems(env, w + z, t, [node], depth)
  {
    hide IsClose, IsValue;
    assert [node][0] == node;
  }

  lemma MoreItems(env: Env, w: string, z: string, m: string, t: string, node: Node, items: seq<Node>, depth: nat)
    requires items != [] && |m| < |z| && IsComma(z, m) && IsValue(env, w, z + t, node, depth + 1) && IsItems(env, m, t, items, depth)
    ensures IsItems(env, w + z, t, [node] + items, depth)
  {
    hide IsComma, IsValue;
    assert ([node] + items)[1..] == items;
  }

  lemma {:induction false} ItemsFound(env: Env, s: string, depth: nat) returns (b: string)
    requires ParseItems(env, s, depth).Good?
    ensures var r := ParseItems(env, s, depth); r.value != [] && s == b + r.rest && IsItems(env, b, r.rest, r.value, depth)
    decreases |s|, 5
  {
    hide ParseValue, Skip, IsGap, IsValue, IsComma, IsClose, Separator, IsItems;
    var first := ParseValue(env, s, depth + 1);
    var w := ValueFound(env, s, depth + 1);
    var r := ParseItems(env, s, depth);
    var z, m := SeparatorFound(first.rest, ']');
    if Separator(first.rest, ']').value {
      OneItem(env, w, z, r.rest, first.value, depth);
      b := w + z;
      Associate(w, z, r.rest);
    } else {
      var u := Separator(first.rest, ']').rest;
      SkippedOnce(m);
      BlanksBeforeItems(env, m, u, depth);
      var more := ItemsFound(env, m, depth);
      var y := CommaCut(z, m, more, r.rest);
      MoreItems(env, w, y, more, r.rest, first.value, ParseItems(env, m, depth).value, depth);
      b := w + y;
      Associate(w, y, r.rest);
    }
  }

  // The comma and what is behind it, without the rest.
  lemma CommaCut(z: string, m: string, more: string, rest: string) returns (y: string)
    requires IsComma(z, m) && m == more + rest
    ensures z == y + rest && IsComma(y, more) && |more| < |y|
  {
    hide IsGap;
    var g :| z == g + ("," + m) && IsGap(g);
    y := g + ("," + more);
    assert z == y + rest;
  }

  lemma {:induction false} ObjectFound(env: Env, s: string, depth: nat) returns (b: string)
    requires AfterBrace(env, s, depth).Good?
    ensures var r := AfterBrace(env, s, depth); s == b + r.rest && IsObjectText(env, b, r.rest, r.value, depth)
    decreases |s|, 6
  {
    hide ParseEntries, Skip, IsGap, IsEntries, ExtendedMeans, FromExtendedJson;
    var r := AfterBrace(env, s, depth);
    var u := Skip(s).value;
    if u != "" && u[0] == '}' {
      var g := GapSplit(s);
      b := g + "}";
      assert u == "}" + r.rest;
      Associate(g, "}", r.rest);
    } else {
      SkippedOnce(s);
      BlanksBefore(env, s, u, depth);
      b := EntriesFound(env, s, depth);
      ExtendedIs(env, ParseEntries(env, s, depth).value, r.value);
    }
  }

  lemma OneEntry(env: Env, f: string, z: string, t: string, e: Entry, depth: nat)
    requires IsClose(z, '}') && IsEntry(env, f, z + t, e, depth)
    ensures IsEntries(env, f + z, t, [e], depth)
  {
    hide IsClose, IsEntry;
    assert [e][0] == e;
  }

  lemma MoreEntries(env: Env, f: string, z: string, m: string, t: string, e: Entry, entries: seq<Entry>, depth: nat)
    requires entries != [] && |m| < |z| && IsComma(z, m) && IsEntry(env, f, z + t, e, depth) && IsEntries(env, m, t, entries, depth)
    ensures IsEntries(env, f + z, t, [e] + entries, depth)
  {
    hide IsComma, IsEntry;
    assert ([e] + entries)[1..] == entries;
  }

  lemma {:induction false} EntriesFound(env: Env, s: string, depth: nat) returns (b: string)
    requires ParseEntries(env, s, depth).Good?
    ensures var r := ParseEntries(env, s, depth); r.value != [] && s == b + r.rest && IsEntries(env, b, r.rest, r.value, depth)
    decreases |s|, 5
  {
    hide ParseEntry, Skip, IsGap, IsEntry, IsComma, IsClose, Separator, IsEntries;
    var first := ParseEntry(env, s, depth);
    var f := EntryFound(env, s, depth);
    var r := ParseEntries(env, s, depth);
    var z, m := SeparatorFound(first.rest, '}');
    if Separator(first.rest, '}').value {
      OneEntry(env, f, z, r.rest, first.value, depth);
      b := f + z;
      Associate(f, z, r.rest);
    } else {
      var u := Separator(first.rest, '}').rest;
      SkippedOnce(m);
      BlanksBeforeEntries(env, m, u, depth);
      var more := EntriesFound(env, m, depth);
      var y := CommaCut(z, m, more, r.rest);
      MoreEntries(env, f, y, more, r.rest, first.value, ParseEntries(env, m, depth).value, depth);
      b := f + y;
      Associate(f, y, r.rest);
    }
  }

  lemma FieldNameFound(s: string) returns (k: string)
    requires ReadKey(s).Good?
    ensures var r := ReadKey(s); s == k + r.rest && IsFieldName(k, r.rest, r.value)
  {
    hide StringBody, Span, Skip, IsGap, IsQuoted, IsNameText, IsNumberName, IsStart, IsDigit;
    var r := ReadKey(s);
    var u := Skip(s).value;
    var g := GapSplit(s);
    var c;
    if u[0] == '\"' || u[0] == '\'' {
      c := QuotedFound(u);
    } else if IsStart(u[0]) {
      NameFound(u);
      c := r.value;
    } else {
      NumberNameFound(u);
      c := r.value;
    }
    k := g + c;
    assert u == c + r.rest;
    Associate(g, c, r.rest);
    assert IsBareName(c, r.rest, r.value);
  }

  lemma {:induction false} EntryFound(env: Env, s: string, depth: nat) returns (f: string)
    requires ParseEntry(env, s, depth).Good?
    ensures var r := ParseEntry(env, s, depth); s == f + r.rest && IsEntry(env, f, r.rest, r.value, depth)
    decreases |s|, 4
  {
    hide ParseValue, Skip, IsGap, IsValue, IsFieldName, ReadKey;
    var r := ParseEntry(env, s, depth);
    var key := ReadKey(s);
    var k := FieldNameFound(s);
    var u := Skip(key.rest).value;
    var g := GapSplit(key.rest);
    assert u == ":" + u[1..];
    var w := ValueFound(env, u[1..], depth + 1);
    f := k + (g + (":" + w));
    assert key.rest == g + (":" + (w + r.rest));
    assert s == f + r.rest;
  }

  /* ---------- Both directions ---------- */

  /** A text is read as a value, with a rest behind it, exactly when what stands before the rest spells the value. */
  lemma {:induction false} ReadingIsExact(env: Env, s: string, node: Node, t: string, depth: nat)
    ensures ParseValue(env, s, depth) == Good(node, t) <==> exists v :: s == v + t && IsValue(env, v, t, node, depth)
  {
    hide ParseValue, IsValue;
    if ParseValue(env, s, depth) == Good(node, t) {
      var v := ValueFound(env, s, depth);
    }
    if v :| s == v + t && IsValue(env, v, t, node, depth) {
      ValueIsRead(env, v, t, node, depth);
    }
  }

  /** The editor reads a text as a document exactly when the text spells it. */
  lemma {:induction false} DocumentIsExact(env: Env, s: string, node: Node)
    ensures ParseDocument(env, s) == Some(node) <==> SpellsDocument(env, s, node)
  {
    hide ParseValue, IsValue, Skip, IsLastGap;
    if ParseDocument(env, s) == Some(node) {
      var v := ValueFound(env, s, 0);
      GapFound(ParseValue(env, s, 0).rest);
    }
    if SpellsDocument(env, s, node) {
      var v, t :| s == v + t && IsValue(env, v, t, node, 0) && IsLastGap(t);
      ValueIsRead(env, v, t, node, 0);
      LastGapPassed(t);
    }
  }

  /** No text spells two documents. */
  lemma {:induction false} OneDocument(env: Env, s: string, a: Node, b: Node)
    requires SpellsDocument(env, s, a) && SpellsDocument(env, s, b)
    ensures a == b
  {
    hide SpellsDocument, ParseDocument;
    DocumentIsExact(env, s, a);
    DocumentIsExact(env, s, b);
  }

  /* ---------- Spellings the editor never writes ---------- */

  lemma IntegerIsNumber(v: string, t: string)
    requires IsIntegerText(v) && !BeginsDigit(t) && !BeginsExponent(t) && (t == "" || t[0] != '.')
    ensures exists n :: IsNumberLiteral(v, t, n)
  {
    var sign := if v[0] == '-' then "-" else "";
    var digits := if v[0] == '-' then v[1..] else v;
    var n := NumberParts(sign, digits, "", "", "", "");
    assert v == TextOfParts(n) by {
      assert digits + ("" + ("" + ("" + ""))) == digits;
      assert sign + digits == v;
    }
    assert IsNumberLiteral(v, t, n);
  }

  lemma IntegerSpelled(env: Env, v: string, t: string, depth: nat)
    requires Fits32(v) && depth <= 100 && !BeginsDigit(t) && !BeginsExponent(t) && (t == "" || t[0] != '.')
    ensures IsValue(env, v, t, Int32(v), depth)
  {
    hide Fits32, IsNumberLiteral, IsGap, IsCall, IsNew, IsArrayText, IsObjectText, IsQuoted, IsRegexText, IsConstant;
    SmallFits(v);
    IntegerIsNumber(v, t);
    assert v == "" + v && IsBare(env, v, t, Int32(v), depth);
    EmptyGap();
  }

  lemma EmptyGap()
    ensures IsGap("") && IsLastGap("")
  {
  }

  /** A 32-bit integer in its constructor is read as a 32-bit integer, whatever its digits. */
  lemma {:induction false} NumberIntIsRead(env: Env, v: string)
    requires Fits32(v)
    ensures ParseDocument(env, "NumberInt" + ("(" + (v + ")"))) == Some(Int32(v))
  {
    hide Fits32, IsGap, IsNew, IsArrayText, IsObjectText, IsQuoted, IsRegexText, IsConstant, IsNumberLiteral, IsValue;
    EmptyGap();
    IntegerSpelled(env, v, ")", 1);
    assert "" + ")" == ")" && ")" + "" == ")" && v + "" == v;
    assert IsArgs(env, v, ")", [Int32(v)], 0);
    NumbersMeant(env, [Int32(v)], Int32(v));
    hide ConstructorMeans, IsArgs;
    assert HasText(Int32(v), v);
    NumberIntName();
    assert IsCall(env, "NumberInt", "", v + ")", "", Int32(v), 0);
    var s := "NumberInt" + ("(" + (v + ")"));
    assert s == "NumberInt" + ("" + ("(" + (v + ")")));
    WholeText(env, s, Int32(v));
  }

  lemma NumberIntName()
    ensures IsNameText("NumberInt", "" + "(") && "NumberInt" != "new" && !IsConstantName("NumberInt")
  {
  }

  lemma WholeText(env: Env, s: string, node: Node)
    requires exists name, g, b :: s == name + (g + ("(" + b)) && IsCall(env, name, g, b, "", node, 0)
    ensures ParseDocument(env, s) == Some(node)
  {
    hide IsGap, IsCall, ParseDocument, SpellsDocument, IsNew, IsArrayText, IsObjectText, IsQuoted, IsRegexText, IsConstant, IsNumberLiteral;
    EmptyGap();
    assert IsBare(env, s, "", node, 0);
    assert s == "" + s && s == s + "";
    assert IsValue(env, s, "", node, 0);
    SpelledWhole(env, s, node);
    DocumentIsExact(env, s, node);
  }

  lemma SpelledWhole(env: Env, s: string, node: Node)
    requires IsValue(env, s, "", node, 0) && IsLastGap("")
    ensures SpellsDocument(env, s, node)
  {
    hide IsValue;
    assert s == s + "";
  }
}

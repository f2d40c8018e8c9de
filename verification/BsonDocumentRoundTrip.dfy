/**
 Parsing undoes printing: the text the editor writes for a document is read back as that document,
 for every indentation, with exact conditions for the leaves.
 */
module BsonDocumentRoundTrip {
  import opened Wrappers
  import opened Letters
  import opened Numerals
  import opened BsonDocument

  /* ---------- Blanks ---------- */

  predicate IsSolid(t: string) {
    |t| > 0 && !IsSpace(t[0]) && (t[0] == '/' ==> |t| > 1 && t[1] != '/' && t[1] != '*')
  }

  lemma SkipSolid(t: string)
    requires IsSolid(t)
    ensures Skip(t) == Some(t)
  {
  }

  lemma {:induction false} SkipTwice(s: string)
    ensures Skip(s).Some? ==> Skip(Skip(s).value) == Skip(s)
    decreases |s|
  {
    if s != "" {
      if IsSpace(s[0]) {
        SkipTwice(s[1..]);
      } else if |s| > 1 && s[0] == '/' && s[1] == '/' {
        SkipTwice(AfterLine(s[2..]));
      } else if |s| > 1 && s[0] == '/' && s[1] == '*' && AfterComment(s[2..]).Some? {
        SkipTwice(AfterComment(s[2..]).value);
      }
    }
  }

  lemma {:induction false} SkipSpaces(n: nat, t: string)
    ensures Skip(Spaces(n) + t) == Skip(t)
  {
    if n == 0 {
      assert Spaces(0) + t == t;
    } else {
      assert (Spaces(n) + t)[1..] == Spaces(n - 1) + t;
      assert (Spaces(n) + t)[0] == ' ';
      SkipSpaces(n - 1, t);
    }
  }

  lemma SkipNewline(t: string)
    ensures Skip("\n" + t) == Skip(t)
  {
    assert ("\n" + t)[1..] == t;
  }

  lemma SkipSpace(t: string)
    ensures Skip(" " + t) == Skip(t)
  {
    assert (" " + t)[1..] == t;
  }

  // Only what is left after blanks matters to a reader.
  lemma BlanksDoNotMatter(env: Env, s: string, t: string, depth: nat)
    requires Skip(s) == Skip(t)
    ensures ParseValue(env, s, depth) == ParseValue(env, t, depth)
  {
    hide Skip, ParseEntries, ParseItems, ParseWord, StringBody, RegexBody, NumberLength, NumberNode, FromExtendedJson, Span;
  }

  lemma {:induction false} SpanExact(a: string, b: string, p: char -> bool)
    requires AllAre(a, p) && (|b| > 0 ==> !p(b[0]))
    ensures Span(a + b, p) == |a|
  {
    if a == "" {
      assert a + b == b;
    } else {
      assert (a + b)[1..] == a[1..] + b;
      SpanExact(a[1..], b, p);
    }
  }

  /* ---------- Strings ---------- */

  lemma HexBack(d: nat)
    requires d < 16
    ensures IsHex(HexChar(d)) && HexValue(HexChar(d)) == d
  {
  }

  lemma {:induction false} EscapeBack(c: char, t: string)
    requires EscapedChar(c) != [c]
    ensures EscapedChar(c)[0] == '\\'
    ensures Escape(EscapedChar(c)[1..] + t) == Good(c, t)
  {
    var e := EscapedChar(c);
    var s := e[1..] + t;
    if |e| == 2 {
      assert s[1..] == t;
    } else {
      var hi, lo := c as int / 16, c as int % 16;
      HexBack(hi);
      HexBack(lo);
      assert e == "\\u00" + [HexChar(hi), HexChar(lo)];
      assert s[0] == 'u' && s[1..5] == "00" + [HexChar(hi), HexChar(lo)] && s[5..] == t;
      assert s[1] == '0' && s[2] == '0' && s[3] == HexChar(hi) && s[4] == HexChar(lo);
    }
  }

  // Reading past the text of one character.
  lemma {:induction false} CharBack(c: char, more: string)
    requires StringBody(more, '\"').Good?
    ensures var r := StringBody(more, '\"');
            StringBody(EscapedChar(c) + more, '\"') == Good([c] + r.value, r.rest)
  {
    hide Escape;
    var e := EscapedChar(c);
    if e == [c] {
      assert c != '\"' && c != '\\';
      assert (e + more)[1..] == more;
    } else {
      EscapeBack(c, more);
      assert (e + more)[1..] == e[1..] + more;
    }
  }

  lemma {:induction false} StringBack(v: string, t: string)
    ensures StringBody(Escaped(v) + ("\"" + t), '\"') == Good(v, t)
  {
    hide EscapedChar, Escape;
    if v == "" {
      assert Escaped(v) + ("\"" + t) == "\"" + t;
      assert ("\"" + t)[1..] == t;
    } else {
      var more := Escaped(v[1..]) + ("\"" + t);
      StringBack(v[1..], t);
      CharBack(v[0], more);
      assert Escaped(v) + ("\"" + t) == EscapedChar(v[0]) + more;
      assert [v[0]] + v[1..] == v;
    }
  }

  lemma {:induction false} QuotedBack(v: string, t: string)
    ensures var s := Quoted(v) + t;
            IsSolid(s) && s[0] != ')' && s[0] == '\"' && StringBody(s[1..], '\"') == Good(v, t)
  {
    assert (Quoted(v) + t)[1..] == Escaped(v) + ("\"" + t);
    StringBack(v, t);
  }

  lemma {:induction false} TextBack(env: Env, v: string, t: string, depth: nat)
    requires depth <= MAX_DEPTH
    ensures ParseValue(env, Quoted(v) + t, depth) == Good(Text(v), t)
  {
    QuotedBack(v, t);
    SkipSolid(Quoted(v) + t);
  }

  lemma {:induction false} KeyBack(key: string, t: string)
    ensures ReadKey(KeyText(key) + (":" + t)) == Good(key, ":" + t)
  {
    var s := KeyText(key) + (":" + t);
    if IsBareKey(key) {
      SkipSolid(s);
      assert s[1..] == key[1..] + (":" + t);
      SpanExact(key[1..], ":" + t, IsPart);
      assert s[..|key|] == key && s[|key|..] == ":" + t;
    } else {
      QuotedBack(key, ":" + t);
      SkipSolid(s);
    }
  }

  /* ---------- Numbers ---------- */

  // What may follow a value the editor writes.
  predicate Delimited(t: string) {
    |t| > 0 ==> t[0] == ',' || t[0] == '\n' || t[0] == ')'
  }

  lemma {:induction false} SpanStable(a: string, t: string, p: char -> bool)
    requires |t| > 0 ==> !p(t[0])
    ensures Span(a + t, p) == Span(a, p)
  {
    if a == "" {
      assert a + t == t;
    } else if p(a[0]) {
      assert (a + t)[1..] == a[1..] + t;
      SpanStable(a[1..], t, p);
    }
  }

  lemma {:induction false} ExponentStable(a: string, t: string)
    requires Delimited(t)
    ensures ExponentLength(a + t) == ExponentLength(a)
  {
    if a == "" {
      assert a + t == t;
    } else {
      var sign := if |a| > 1 && (a[1] == '+' || a[1] == '-') then 1 else 0;
      assert (a + t)[1 + sign..] == a[1 + sign..] + t;
      SpanStable(a[1 + sign..], t, IsDigit);
    }
  }

  lemma {:induction false} PlainStable(a: string, t: string)
    requires Delimited(t)
    ensures PlainLength(a + t) == PlainLength(a)
  {
    SpanStable(a, t, IsDigit);
    var whole := Span(a, IsDigit);
    if whole < |a| && a[whole] == '.' {
      assert (a + t)[whole + 1..] == a[whole + 1..] + t;
      SpanStable(a[whole + 1..], t, IsDigit);
    }
  }

  lemma {:induction false} NumberStable(a: string, t: string)
    requires Delimited(t) && |a| > 0
    ensures NumberLength(a + t) == NumberLength(a)
  {
    hide PlainLength, ExponentLength;
    var sign := if a[0] == '-' then 1 else 0;
    assert (a + t)[sign..] == a[sign..] + t;
    PlainStable(a[sign..], t);
    var plain := PlainLength(a[sign..]);
    assert (a + t)[sign + plain..] == a[sign + plain..] + t;
    ExponentStable(a[sign + plain..], t);
  }

  lemma {:induction false} IntegerLength(v: string)
    requires IsInteger(v)
    ensures NumberLength(v) == |v|
  {
    var sign := if v[0] == '-' then 1 else 0;
    var digits := v[sign..];
    assert digits + "" == digits;
    SpanExact(digits, "", IsDigit);
    assert PlainLength(digits) == |digits|;
    assert v[sign + |digits|..] == "";
  }

  lemma {:induction false} NumberRead(env: Env, s: string, depth: nat)
    requires depth <= MAX_DEPTH && |s| > 0 && (s[0] == '-' || IsDigit(s[0])) && NumberLength(s) > 0
    ensures var n := NumberLength(s);
            ParseValue(env, s, depth) ==
            match NumberNode(env, s[..n]) { case Some(node) => Good(node, s[n..]) case None => Bad }
  {
    hide NumberLength, NumberNode, ParseEntries, ParseItems, ParseWord, FromExtendedJson, RegexBody, StringBody;
    SkipSolid(s);
  }

  lemma {:induction false} NumberBack(env: Env, v: string, t: string, depth: nat)
    requires depth <= MAX_DEPTH && IsNumberText(v) && Delimited(t)
    ensures ParseValue(env, v + t, depth) ==
            match NumberNode(env, v) { case Some(node) => Good(node, t) case None => Bad }
  {
    hide NumberLength, NumberNode, ParseValue;
    NumberStable(v, t);
    NumberRead(env, v + t, depth);
    assert (v + t)[..|v|] == v && (v + t)[|v|..] == t;
  }

  /* ---------- Words and constructors ---------- */

  predicate IsName(w: string) {
    |w| > 0 && IsStart(w[0]) && AllAre(w[1..], IsPart)
  }

  lemma {:induction false} WordBack(env: Env, w: string, t: string, depth: nat)
    requires depth <= MAX_DEPTH && IsName(w) && (|t| > 0 ==> !IsPart(t[0]))
    ensures ParseValue(env, w + t, depth) == ParseWord(env, w, t, depth)
  {
    hide ParseEntries, ParseItems, ParseWord, StringBody, RegexBody, NumberLength, NumberNode, FromExtendedJson;
    var s := w + t;
    SkipSolid(s);
    assert s[1..] == w[1..] + t;
    SpanExact(w[1..], t, IsPart);
    assert s[..|w|] == w && s[|w|..] == t;
  }

  predicate IsConstructorName(w: string) {
    || w == "NumberLong" || w == "Double" || w == "NumberDecimal" || w == "ObjectId" || w == "ISODate" || w == "UUID"
    || w == "BinData" || w == "Timestamp" || w == "MinKey" || w == "MaxKey"
  }

  predicate IsCallable(w: string) {
    IsName(w) && w != "new" && SimpleWord(w, "").Bad?
  }

  lemma FirstNames(w: string)
    requires w == "NumberLong" || w == "Double" || w == "NumberDecimal" || w == "ObjectId"
    ensures IsCallable(w)
  {
  }

  lemma MoreNames(w: string)
    requires w == "ISODate" || w == "UUID" || w == "BinData"
    ensures IsCallable(w)
  {
  }

  lemma LastNames(w: string)
    requires w == "Timestamp" || w == "MinKey" || w == "MaxKey"
    ensures IsCallable(w)
  {
  }

  lemma ConstructorIsCallable(w: string)
    requires IsConstructorName(w)
    ensures IsCallable(w)
  {
    hide IsCallable;
    if w == "ISODate" || w == "UUID" || w == "BinData" {
      MoreNames(w);
    } else if w == "Timestamp" || w == "MinKey" || w == "MaxKey" {
      LastNames(w);
    } else {
      FirstNames(w);
    }
  }

  lemma {:induction false} CallBack(env: Env, name: string, args: string, t: string, depth: nat)
    requires depth <= MAX_DEPTH && IsConstructorName(name)
    ensures ParseValue(env, Call(name, args) + t, depth) == ParseConstructor(env, name, args + (")" + t), depth)
  {
    hide ParseValue, ParseConstructor, IsConstructorName;
    ConstructorIsCallable(name);
    var u := "(" + (args + (")" + t));
    assert Call(name, args) + t == name + u;
    WordBack(env, name, u, depth);
    SkipSolid(u);
    assert u[1..] == args + (")" + t);
  }

  // What reading the arguments and the closing parenthesis comes to.
  function Built(env: Env, name: string, args: seq<Node>, t: string): Parsed<Node> {
    match Construct(env, name, args)
    case Some(node) => Good(node, t)
    case None => Bad
  }

  lemma {:induction false} ArgsRead(env: Env, name: string, s: string, args: seq<Node>, t: string, depth: nat)
    requires IsSolid(s) && s[0] != ')' && ParseArgs(env, s, depth) == Good(args, ")" + t)
    ensures ParseConstructor(env, name, s, depth) == Built(env, name, args, t)
  {
    SkipSolid(s);
    SkipSolid(")" + t);
    assert (")" + t)[1..] == t;
  }

  lemma {:induction false} LastArg(env: Env, s: string, node: Node, t: string, depth: nat)
    requires ParseValue(env, s, depth + 1) == Good(node, ")" + t)
    ensures ParseArgs(env, s, depth) == Good([node], ")" + t)
  {
    SkipSolid(")" + t);
  }

  lemma {:induction false} FirstArg(env: Env, s: string, node: Node, more: string, args: seq<Node>, t: string, depth: nat)
    requires ParseValue(env, s, depth + 1) == Good(node, ", " + more)
    requires ParseArgs(env, more, depth) == Good(args, t)
    ensures ParseArgs(env, s, depth) == Good([node] + args, t)
  {
    hide ParseValue, Construct;
    SkipSolid(", " + more);
    assert (", " + more)[1..] == " " + more;
    SkipSpace(more);
    BlanksDoNotMatter(env, " " + more, more, depth + 1);
    assert ParseArgs(env, " " + more, depth) == ParseArgs(env, more, depth);
  }

  // A constructor with one string: the exact result, whatever the string.
  lemma {:induction false} QuotedCall(env: Env, name: string, v: string, t: string, depth: nat)
    requires depth < MAX_DEPTH && IsConstructorName(name)
    ensures ParseValue(env, Call(name, Quoted(v)) + t, depth) == Built(env, name, [Text(v)], t)
  {
    CallBack(env, name, Quoted(v), t, depth);
    TextBack(env, v, ")" + t, depth + 1);
    QuotedBack(v, ")" + t);
    LastArg(env, Quoted(v) + (")" + t), Text(v), t, depth);
    ArgsRead(env, name, Quoted(v) + (")" + t), [Text(v)], t, depth);
  }

  lemma {:induction false} EmptyCall(env: Env, name: string, t: string, depth: nat)
    requires depth <= MAX_DEPTH && IsConstructorName(name)
    ensures ParseValue(env, Call(name, "") + t, depth) == Built(env, name, [], t)
  {
    CallBack(env, name, "", t, depth);
    assert "" + (")" + t) == ")" + t;
    SkipSolid(")" + t);
    assert (")" + t)[1..] == t;
  }

  function Outcome<T>(read: Option<T>, t: string): Parsed<T> {
    match read
    case Some(value) => Good(value, t)
    case None => Bad
  }

  // What a number written as an argument is read as.
  function NumberArg(env: Env, n: Number): Option<Node> {
    if IsNumberText(n) then NumberNode(env, n) else if n == "-Infinity" then None else Some(Double(n))
  }

  lemma {:induction false} MinusInfinityUnread(env: Env, t: string, depth: nat)
    requires Delimited(t)
    ensures ParseValue(env, "-Infinity" + t, depth) == Bad
  {
    hide ParseEntries, ParseItems, ParseWord, StringBody, RegexBody, NumberNode, FromExtendedJson, ExponentLength;
    var v := "-Infinity";
    assert v[1..] == "Infinity";
    assert PlainLength("Infinity") == 0;
    assert NumberLength(v) == 0;
    NumberStable(v, t);
    SkipSolid(v + t);
  }

  lemma {:induction false} NumberArgBack(env: Env, n: Number, t: string, depth: nat)
    requires depth <= MAX_DEPTH && Delimited(t)
    ensures ParseValue(env, n + t, depth) == Outcome(NumberArg(env, n), t)
    ensures IsSolid(n + t) && (n + t)[0] != ')'
  {
    hide ParseValue, NumberLength, NumberNode;
    if IsNumberText(n) {
      NumberBack(env, n, t, depth);
    } else if n == "-Infinity" {
      MinusInfinityUnread(env, t, depth);
    } else {
      SimpleBack(env, n, t, depth);
    }
  }

  lemma {:induction false} ArgsUnread(env: Env, name: string, s: string, depth: nat)
    requires IsSolid(s) && s[0] != ')' && ParseArgs(env, s, depth) == Bad
    ensures ParseConstructor(env, name, s, depth) == Bad
  {
    SkipSolid(s);
  }

  lemma {:induction false} SecondArgUnread(env: Env, s: string, node: Node, more: string, depth: nat)
    requires ParseValue(env, s, depth + 1) == Good(node, ", " + more)
    requires ParseArgs(env, more, depth) == Bad
    ensures ParseArgs(env, s, depth) == Bad
  {
    hide ParseValue, Construct;
    SkipSolid(", " + more);
    assert (", " + more)[1..] == " " + more;
    SkipSpace(more);
    BlanksDoNotMatter(env, " " + more, more, depth + 1);
    assert ParseArgs(env, " " + more, depth) == ParseArgs(env, more, depth);
  }

  // A constructor of a number and something else.
  lemma {:induction false} TwoArgsBack(
      env: Env, name: string, n: Number, second: string, read: Option<Node>, t: string, depth: nat)
    requires depth < MAX_DEPTH && IsConstructorName(name)
    requires ParseValue(env, second + (")" + t), depth + 1) == Outcome(read, ")" + t)
    ensures ParseValue(env, Call(name, n + ", " + second) + t, depth) ==
            if NumberArg(env, n).None? || read.None? then Bad
            else Built(env, name, [NumberArg(env, n).value] + [read.value], t)
  {
    hide ParseValue, ParseConstructor, NumberArg, Construct, IsSolid, IsConstructorName, Skip;
    var args := n + ", " + second;
    var more := second + (")" + t);
    CallBack(env, name, args, t, depth);
    assert args + (")" + t) == n + (", " + more);
    NumberArgBack(env, n, ", " + more, depth + 1);
    var first := NumberArg(env, n);
    if first.None? {
      ArgsUnread(env, name, n + (", " + more), depth);
    } else if read.None? {
      assert ParseArgs(env, more, depth) == Bad;
      SecondArgUnread(env, n + (", " + more), first.value, more, depth);
      ArgsUnread(env, name, n + (", " + more), depth);
    } else {
      LastArg(env, more, read.value, t, depth);
      FirstArg(env, n + (", " + more), first.value, more, [read.value], ")" + t, depth);
      ArgsRead(env, name, n + (", " + more), [first.value] + [read.value], t, depth);
    }
  }

  /* ---------- Regular expressions ---------- */

  // No slash outside an escape, and no escape cut off at the end.
  predicate IsPattern(p: string)
    decreases |p|
  {
    |p| > 0 ==> p[0] != '/' && (if p[0] == '\\' then |p| > 1 && IsPattern(p[2..]) else IsPattern(p[1..]))
  }

  // The rest of a pattern read after a piece of it.
  function Prefixed(piece: string, r: Parsed<string>): Parsed<string> {
    match r
    case Bad => Bad
    case Good(v, rest) => Good(piece + v, rest)
  }

  lemma RegexStep(s: string)
    requires |s| > 0 && s[0] != '/'
    ensures RegexBody(s) == if s[0] == '\\' && |s| > 1 then Prefixed(s[..2], RegexBody(s[2..]))
                            else Prefixed([s[0]], RegexBody(s[1..]))
  {
  }

  lemma {:induction false} PatternBack(p: string, t: string)
    requires IsPattern(p)
    ensures RegexBody(p + ("/" + t)) == Good(p, t)
    decreases |p|
  {
    var s := p + ("/" + t);
    if p == "" {
      assert s == "/" + t;
      assert ("/" + t)[1..] == t;
    } else {
      hide RegexBody;
      RegexStep(s);
      if p[0] == '\\' {
        assert s[2..] == p[2..] + ("/" + t);
        PatternBack(p[2..], t);
        assert s[..2] + p[2..] == p;
      } else {
        assert s[1..] == p[1..] + ("/" + t);
        PatternBack(p[1..], t);
        assert [s[0]] + p[1..] == p;
      }
    }
  }

  lemma {:induction false} RegexBack(env: Env, p: string, f: string, t: string, depth: nat)
    requires depth <= MAX_DEPTH && IsPattern(p) && p != "" && p[0] != '*' && AllAre(f, IsFlag) && Delimited(t)
    ensures ParseValue(env, "/" + p + "/" + f + t, depth) == Good(Regex(p, f), t)
  {
    hide ParseEntries, ParseItems, ParseWord, FromExtendedJson, RegexBody, NumberLength;
    var s := "/" + (p + ("/" + (f + t)));
    assert "/" + p + "/" + f + t == s;
    SkipSolid(s);
    assert s[1..] == p + ("/" + (f + t));
    PatternBack(p, f + t);
    SpanExact(f, t, IsFlag);
    assert (f + t)[..|f|] == f && (f + t)[|f|..] == t;
  }

  /* ---------- What a written document is read as ---------- */

  // What is written bare - numbers and regular expressions - is text that is read as such.
  predicate Readable(env: Env, node: Node) {
    match node
    case Object(entries) => forall i :: 0 <= i < |entries| ==> Readable(env, entries[i].value)
    case Array(items) => forall i :: 0 <= i < |items| ==> Readable(env, items[i])
    case Int32(v) => FitsInt32(v)
    case Double(v) => IsInteger(v) || IsDoubleText(env, v)
    case Regex(p, f) => IsPattern(p) && p != "" && p[0] != '*' && AllAre(f, IsFlag)
    case _ => true
  }

  // Bare text that is read as a double.
  predicate IsDoubleText(env: Env, v: string) {
    (!IsInteger(v) && IsNumberText(v) && env.number(v) !in NOT_FINITE) || v == "NaN" || v == "Infinity"
  }

  // The values written as a constructor with one quoted text, and its name.
  predicate IsQuotedCall(node: Node) {
    match node
    case Int64(_) => true
    case Double(v) => IsInteger(v)
    case Decimal128(_) => true
    case ObjectId(_) => true
    case Date(_) => true
    case Uuid(_) => true
    case _ => false
  }

  function ConstructorOf(node: Node): (name: string)
    requires IsQuotedCall(node)
    ensures IsConstructorName(name)
  {
    match node
    case Int64(_) => "NumberLong"
    case Double(_) => "Double"
    case Decimal128(_) => "NumberDecimal"
    case ObjectId(_) => "ObjectId"
    case Date(_) => "ISODate"
    case Uuid(_) => "UUID"
  }

  // What the text written for a readable document is read as, when it stands `depth` levels deep.
  function Reread(env: Env, node: Node, depth: nat): Option<Node>
    decreases node, 0
  {
    if depth > MAX_DEPTH then None
    else if node.Object? && node.entries != [] then
      match RereadEntries(env, node.entries, depth + 1)
      case None => None
      case Some(entries) => FromExtendedJson(env, entries)
    else if node.Array? then
      match RereadItems(env, node.items, depth + 1)
      case None => None
      case Some(items) => Some(Array(items))
    else if IsQuotedCall(node) then
      if depth == MAX_DEPTH then None else Construct(env, ConstructorOf(node), [Text(node.v)])
    else if node.Binary? || node.Timestamp? then
      if depth == MAX_DEPTH then None else RereadPair(env, node)
    else Some(node)
  }

  // A constructor of two values is read as what its arguments are read as.
  function RereadPair(env: Env, node: Node): Option<Node>
    requires node.Binary? || node.Timestamp?
  {
    var first := NumberArg(env, if node.Binary? then node.subtype else node.seconds);
    var second := if node.Binary? then Some(Text(node.v)) else NumberArg(env, node.increment);
    if first.None? || second.None? then None
    else Construct(env, if node.Binary? then "BinData" else "Timestamp", [first.value] + [second.value])
  }

  function RereadEntries(env: Env, entries: seq<Entry>, depth: nat): (r: Option<seq<Entry>>)
    ensures r.Some? ==> |r.value| == |entries|
    decreases entries, 1
  {
    if |entries| == 0 then Some([])
    else match (Reread(env, entries[0].value, depth), RereadEntries(env, entries[1..], depth))
      case (Some(value), Some(more)) => Some([Entry(entries[0].key, value)] + more)
      case _ => None
  }

  function RereadItems(env: Env, items: seq<Node>, depth: nat): Option<seq<Node>>
    decreases items, 1
  {
    if |items| == 0 then Some([])
    else match (Reread(env, items[0], depth), RereadItems(env, items[1..], depth))
      case (Some(value), Some(more)) => Some([value] + more)
      case _ => None
  }

  /* ---------- Leaves ---------- */

  lemma {:induction false} ArgsTooDeep(env: Env, name: string, s: string)
    requires IsSolid(s) && s[0] != ')'
    ensures ParseConstructor(env, name, s, MAX_DEPTH) == Bad
  {
    hide Construct, IsSolid, Skip;
    SkipSolid(s);
    assert ParseValue(env, s, MAX_DEPTH + 1) == Bad;
    assert ParseArgs(env, s, MAX_DEPTH) == Bad;
  }

  lemma {:induction false} CallTooDeep(env: Env, name: string, args: string, t: string)
    requires IsConstructorName(name) && IsSolid(args + (")" + t)) && (args + (")" + t))[0] != ')'
    ensures ParseValue(env, Call(name, args) + t, MAX_DEPTH) == Bad
  {
    hide ParseValue;
    CallBack(env, name, args, t, MAX_DEPTH);
    ArgsTooDeep(env, name, args + (")" + t));
  }

  lemma {:induction false} QuotedLeafBack(env: Env, node: Node, indent: nat, step: nat, t: string, depth: nat)
    requires depth <= MAX_DEPTH && IsQuotedCall(node)
    ensures ParseValue(env, Format(node, indent, step) + t, depth) == Outcome(Reread(env, node, depth), t)
  {
    hide ParseValue, IsConstructorName, Quoted, Call, Construct;
    assert Format(node, indent, step) == Call(ConstructorOf(node), Quoted(node.v));
    if depth == MAX_DEPTH {
      QuotedBack(node.v, ")" + t);
      CallTooDeep(env, ConstructorOf(node), Quoted(node.v), t);
    } else {
      QuotedCall(env, ConstructorOf(node), node.v, t, depth);
    }
  }

  lemma {:induction false} PairTooDeep(env: Env, name: string, n: Number, second: string, t: string)
    requires IsConstructorName(name)
    ensures ParseValue(env, Call(name, n + ", " + second) + t, MAX_DEPTH) == Bad
  {
    hide ParseValue;
    var args := n + ", " + second;
    assert args + (")" + t) == n + (", " + (second + (")" + t)));
    NumberArgBack(env, n, ", " + (second + (")" + t)), MAX_DEPTH);
    CallTooDeep(env, name, args, t);
  }

  lemma {:induction false} BinaryBack(env: Env, node: Node, indent: nat, step: nat, t: string, depth: nat)
    requires depth <= MAX_DEPTH && node.Binary?
    ensures ParseValue(env, Format(node, indent, step) + t, depth) == Outcome(Reread(env, node, depth), t)
  {
    hide ParseValue, Quoted, Call, Construct, NumberArg;
    if depth == MAX_DEPTH {
      PairTooDeep(env, "BinData", node.subtype, Quoted(node.v), t);
    } else {
      TextBack(env, node.v, ")" + t, depth + 1);
      TwoArgsBack(env, "BinData", node.subtype, Quoted(node.v), Some(Text(node.v)), t, depth);
    }
  }

  lemma {:induction false} TimestampBack(env: Env, node: Node, indent: nat, step: nat, t: string, depth: nat)
    requires depth <= MAX_DEPTH && node.Timestamp?
    ensures ParseValue(env, Format(node, indent, step) + t, depth) == Outcome(Reread(env, node, depth), t)
  {
    hide ParseValue, Call, Construct, NumberArg;
    if depth == MAX_DEPTH {
      PairTooDeep(env, "Timestamp", node.seconds, node.increment, t);
    } else {
      NumberArgBack(env, node.increment, ")" + t, depth + 1);
      TwoArgsBack(env, "Timestamp", node.seconds, node.increment, NumberArg(env, node.increment), t, depth);
    }
  }

  lemma {:induction false} LeafBack(env: Env, node: Node, indent: nat, step: nat, t: string, depth: nat)
    requires depth <= MAX_DEPTH && Readable(env, node) && Delimited(t) && !node.Object? && !node.Array?
    ensures ParseValue(env, Format(node, indent, step) + t, depth) == Outcome(Reread(env, node, depth), t)
  {
    hide ParseValue, FitsInt64, FitsInt32, ParseWord, ParseConstructor, Quoted, Call, Digits, Construct;
    if IsQuotedCall(node) {
      QuotedLeafBack(env, node, indent, step, t, depth);
    } else {
      match node
      case Text(v) => TextBack(env, v, t, depth);
      case Int32(v) => Int32Back(env, v, t, depth);
      case Double(v) => DoubleBack(env, v, t, depth);
      case Binary(_, _) => BinaryBack(env, node, indent, step, t, depth);
      case Regex(p, f) => RegexBack(env, p, f, t, depth);
      case Timestamp(_, _) => TimestampBack(env, node, indent, step, t, depth);
      case Bool(b) => SimpleBack(env, if b then "true" else "false", t, depth);
      case Null => SimpleBack(env, "null", t, depth);
      case MinKey => MinMaxBack(env, node, indent, step, t, depth);
      case MaxKey => MinMaxBack(env, node, indent, step, t, depth);
    }
  }

  lemma {:induction false} MinMaxBack(env: Env, node: Node, indent: nat, step: nat, t: string, depth: nat)
    requires depth <= MAX_DEPTH && (node.MinKey? || node.MaxKey?)
    ensures ParseValue(env, Format(node, indent, step) + t, depth) == Good(node, t)
  {
    hide ParseValue, Call;
    EmptyCall(env, if node.MinKey? then "MinKey" else "MaxKey", t, depth);
  }

  lemma {:induction false} Int32Back(env: Env, v: string, t: string, depth: nat)
    requires depth <= MAX_DEPTH && FitsInt32(v) && Delimited(t)
    ensures ParseValue(env, v + t, depth) == Good(Int32(v), t)
  {
    hide ParseValue, NumberLength;
    IntegerLength(v);
    NumberBack(env, v, t, depth);
  }

  lemma {:induction false} DoubleBack(env: Env, v: string, t: string, depth: nat)
    requires depth <= MAX_DEPTH && Delimited(t) && IsDoubleText(env, v)
    ensures ParseValue(env, v + t, depth) == Good(Double(v), t)
  {
    hide ParseValue, NumberLength;
    if v == "NaN" || v == "Infinity" {
      SimpleBack(env, v, t, depth);
    } else {
      NumberBack(env, v, t, depth);
    }
  }

  lemma {:induction false} SimpleBack(env: Env, w: string, t: string, depth: nat)
    requires depth <= MAX_DEPTH && Delimited(t)
    requires w == "true" || w == "false" || w == "null" || w == "NaN" || w == "Infinity"
    ensures ParseValue(env, w + t, depth) == SimpleWord(w, t)
    ensures SimpleWord(w, t).Good?
  {
    hide ParseValue, ParseConstructor;
    WordBack(env, w, t, depth);
  }

  /* ---------- Objects and arrays ---------- */

  // What stands after the lines of an object or array: the line break, the indentation, the bracket.
  function Closing(indent: nat, bracket: char, t: string): string {
    "\n" + (Spaces(indent) + ([bracket] + t))
  }

  lemma {:induction false} ClosingSkipped(indent: nat, bracket: char, t: string)
    requires bracket == '}' || bracket == ']'
    ensures Skip(Closing(indent, bracket, t)) == Some([bracket] + t) && Delimited(Closing(indent, bracket, t))
  {
    SkipNewline(Spaces(indent) + ([bracket] + t));
    SkipSpaces(indent, [bracket] + t);
    SkipSolid([bracket] + t);
  }

  /* ---------- Trees ---------- */

  lemma {:induction false} RereadBack(env: Env, node: Node, indent: nat, step: nat, t: string, depth: nat)
    requires Readable(env, node) && Delimited(t)
    ensures ParseValue(env, Format(node, indent, step) + t, depth) == Outcome(Reread(env, node, depth), t)
    decreases node, 1
  {
    if depth <= MAX_DEPTH {
      hide ParseValue, Format, Reread, Readable;
      if node.Object? {
        ObjectBack(env, node, indent, step, t, depth);
      } else if node.Array? {
        ArrayBack(env, node, indent, step, t, depth);
      } else {
        LeafBack(env, node, indent, step, t, depth);
      }
    }
  }

  lemma {:induction false} ObjectBack(env: Env, node: Node, indent: nat, step: nat, t: string, depth: nat)
    requires node.Object? && Readable(env, node) && depth <= MAX_DEPTH
    ensures ParseValue(env, Format(node, indent, step) + t, depth) == Outcome(Reread(env, node, depth), t)
    decreases node, 0
  {
    hide ParseValue, FromExtendedJson, ParseEntries, FormatEntries, RereadEntries, Skip, Closing, Spaces;
    if node.entries == [] {
      EmptyObjectBack(env, t, depth);
    } else {
      EntriesBack(env, node.entries, indent + step, step, indent, t, depth);
      ObjectFromEntries(env, FormatEntries(node.entries, indent + step, step), indent, t, depth);
    }
  }

  lemma {:induction false} ArrayBack(env: Env, node: Node, indent: nat, step: nat, t: string, depth: nat)
    requires node.Array? && Readable(env, node) && depth <= MAX_DEPTH
    ensures ParseValue(env, Format(node, indent, step) + t, depth) == Outcome(Reread(env, node, depth), t)
    decreases node, 0
  {
    hide ParseValue, ParseItems, FormatItems, Skip, Closing, Spaces;
    if node.items == [] {
      EmptyArrayBack(env, t, depth);
    } else {
      hide RereadItems;
      ItemsBack(env, node.items, indent + step, step, indent, t, depth);
      ArrayFromItems(env, FormatItems(node.items, indent + step, step), indent, t, depth);
    }
  }

  lemma {:induction false} EmptyObjectBack(env: Env, t: string, depth: nat)
    requires depth <= MAX_DEPTH
    ensures ParseValue(env, "{}" + t, depth) == Good(Object([]), t)
  {
    SkipSolid("{}" + t);
    assert ("{}" + t)[1..] == "}" + t;
    SkipSolid("}" + t);
    assert ("}" + t)[1..] == t;
  }

  lemma {:induction false} EmptyArrayBack(env: Env, t: string, depth: nat)
    requires depth <= MAX_DEPTH
    ensures ParseValue(env, "[]" + t, depth) == Good(Array([]), t)
  {
    SkipSolid("[]" + t);
    assert ("[]" + t)[1..] == "]" + t;
    SkipSolid("]" + t);
    assert ("]" + t)[1..] == t;
  }

  // The fields of an object are what its lines are read as.
  lemma {:induction false} ObjectFromEntries(env: Env, lines: string, indent: nat, t: string, depth: nat)
    requires depth <= MAX_DEPTH
    requires var u := Skip(lines + Closing(indent, '}', t));
             u.Some? && |u.value| > 0 && u.value[0] != '}'
    ensures var u := Skip(lines + Closing(indent, '}', t)).value;
            ParseValue(env, "{\n" + lines + "\n" + Spaces(indent) + "}" + t, depth) ==
            match ParseEntries(env, u, depth)
            case Bad => Bad
            case Good(entries, rest) => Outcome(FromExtendedJson(env, entries), rest)
  {
    hide FromExtendedJson, ParseEntries, ParseItems, ParseWord, StringBody, RegexBody, NumberLength, NumberNode;
    var u := "\n" + (lines + Closing(indent, '}', t));
    var s := "{" + u;
    assert "{\n" + lines + "\n" + Spaces(indent) + "}" + t == s;
    SkipSolid(s);
    assert s[1..] == u;
    SkipNewline(lines + Closing(indent, '}', t));
  }

  lemma {:induction false} ArrayFromItems(env: Env, lines: string, indent: nat, t: string, depth: nat)
    requires depth <= MAX_DEPTH
    requires var u := Skip(lines + Closing(indent, ']', t));
             u.Some? && |u.value| > 0 && u.value[0] != ']'
    ensures var u := Skip(lines + Closing(indent, ']', t)).value;
            ParseValue(env, "[\n" + lines + "\n" + Spaces(indent) + "]" + t, depth) ==
            match ParseItems(env, u, depth)
            case Bad => Bad
            case Good(items, rest) => Good(Array(items), rest)
  {
    hide FromExtendedJson, ParseEntries, ParseItems, ParseWord, StringBody, RegexBody, NumberLength, NumberNode;
    var u := "\n" + (lines + Closing(indent, ']', t));
    var s := "[" + u;
    assert "[\n" + lines + "\n" + Spaces(indent) + "]" + t == s;
    SkipSolid(s);
    assert s[1..] == u;
    SkipNewline(lines + Closing(indent, ']', t));
  }

  // The first characters of what the writer writes: never a blank, never a closing bracket.
  lemma {:induction false} FormatIsSolid(env: Env, node: Node, indent: nat, step: nat, t: string)
    requires Readable(env, node)
    ensures var s := Format(node, indent, step) + t;
            IsSolid(s) && s[0] != ']' && s[0] != '}'
  {
    hide Quoted, FormatEntries, FormatItems, NumberLength, Digits, FitsInt64, Spaces;
    if IsQuotedCall(node) {
      assert Format(node, indent, step) == Call(ConstructorOf(node), Quoted(node.v));
      assert (Call(ConstructorOf(node), Quoted(node.v)) + t)[0] == ConstructorOf(node)[0];
    } else {
      match node
      case Text(v) => QuotedBack(v, t);
      case Regex(p, f) => assert ("/" + p + "/" + f + t)[1] == p[0];
      case _ =>
    }
  }

  lemma {:induction false} KeyIsSolid(key: string, t: string)
    ensures IsSolid(KeyText(key) + t) && (KeyText(key) + t)[0] != '}'
  {
    hide Quoted;
    if !IsBareKey(key) {
      QuotedBack(key, t);
    }
  }

  // At `s` stands the field `e`, whose value is read as `value` and leaves `t`.
  predicate FieldRead(env: Env, s: string, e: Entry, value: Option<Node>, t: string, depth: nat) {
    && ReadKey(s).Good? && ReadKey(s).value == e.key
    && Expect(ReadKey(s).rest, ':').Good?
    && ParseValue(env, Expect(ReadKey(s).rest, ':').rest, depth + 1) == Outcome(value, t)
  }

  lemma {:induction false} FieldBack(
      env: Env, e: Entry, inner: nat, step: nat, value: Option<Node>, t: string, depth: nat)
    requires ParseValue(env, Format(e.value, inner, step) + t, depth + 1) == Outcome(value, t)
    ensures FieldRead(env, KeyText(e.key) + (": " + (Format(e.value, inner, step) + t)), e, value, t, depth)
  {
    hide ParseValue, Format, KeyText, ReadKey;
    var text := Format(e.value, inner, step) + t;
    assert ": " + text == ":" + (" " + text);
    KeyBack(e.key, " " + text);
    SkipSolid(":" + (" " + text));
    assert (":" + (" " + text))[1..] == " " + text;
    SkipSpace(text);
    BlanksDoNotMatter(env, " " + text, text, depth + 1);
  }

  lemma {:induction false} FieldStart(
      env: Env, e: Entry, inner: nat, step: nat, value: Option<Node>, t: string, depth: nat)
    requires ParseValue(env, Format(e.value, inner, step) + t, depth + 1) == Outcome(value, t)
    ensures var field := KeyText(e.key) + (": " + (Format(e.value, inner, step) + t));
            && Skip(Spaces(inner) + field) == Some(field) && |field| > 0 && field[0] != '}'
            && FieldRead(env, field, e, value, t, depth)
  {
    hide ParseValue, Format, KeyText, FieldRead;
    var field := KeyText(e.key) + (": " + (Format(e.value, inner, step) + t));
    SkipSpaces(inner, field);
    KeyIsSolid(e.key, ": " + (Format(e.value, inner, step) + t));
    SkipSolid(field);
    FieldBack(env, e, inner, step, value, t, depth);
  }

  lemma {:induction false} LastEntry(
      env: Env, s: string, e: Entry, value: Option<Node>, indent: nat, t: string, depth: nat)
    requires FieldRead(env, s, e, value, Closing(indent, '}', t), depth)
    ensures ParseEntries(env, s, depth) == if value.None? then Bad else Good([Entry(e.key, value.value)], t)
  {
    hide ParseValue, ReadKey, Expect;
    ClosingSkipped(indent, '}', t);
    assert ("}" + t)[1..] == t;
  }

  lemma {:induction false} NextEntry(
      env: Env, s: string, e: Entry, value: Option<Node>, lines: string, more: Option<seq<Entry>>, t: string, depth: nat)
    requires FieldRead(env, s, e, value, "," + ("\n" + lines), depth)
    requires var u := Skip(lines);
             && u.Some? && |u.value| > 0 && u.value[0] != '}'
             && ParseEntries(env, u.value, depth) == Outcome(more, t)
    ensures ParseEntries(env, s, depth) ==
            if value.None? || more.None? then Bad else Good([Entry(e.key, value.value)] + more.value, t)
  {
    hide ParseValue, ReadKey, Expect;
    var u := "," + ("\n" + lines);
    SkipSolid(u);
    assert u[1..] == "\n" + lines;
    SkipNewline(lines);
  }

  // One line of an object, ready to be read.
  predicate LineReady(env: Env, e: Entry, inner: nat, step: nat, t: string, depth: nat) {
    ParseValue(env, Format(e.value, inner, step) + t, depth + 1) == Outcome(Reread(env, e.value, depth + 1), t)
  }

  lemma {:induction false} OneEntryBack(env: Env, entries: seq<Entry>, inner: nat, step: nat, indent: nat, t: string, depth: nat)
    requires |entries| == 1 && LineReady(env, entries[0], inner, step, Closing(indent, '}', t), depth)
    ensures var u := Skip(FormatEntries(entries, inner, step) + Closing(indent, '}', t));
            && u.Some? && |u.value| > 0 && u.value[0] != '}'
            && ParseEntries(env, u.value, depth) == Outcome(RereadEntries(env, entries, depth + 1), t)
  {
    hide ParseValue, ParseEntries, Format, KeyText, FieldRead, Skip, Closing, Spaces, Reread;
    var e := entries[0];
    var text, value := Format(e.value, inner, step), Reread(env, e.value, depth + 1);
    var more := Closing(indent, '}', t);
    var field := KeyText(e.key) + (": " + (text + more));
    assert FormatEntries(entries, inner, step) + more == Spaces(inner) + field;
    FieldStart(env, e, inner, step, value, more, depth);
    LastEntry(env, field, e, value, indent, t, depth);
    assert RereadEntries(env, entries[1..], depth + 1) == Some([]);
    if value.Some? {
      assert [Entry(e.key, value.value)] + [] == [Entry(e.key, value.value)];
    }
  }

  lemma {:induction false} MoreEntriesBack(
      env: Env, entries: seq<Entry>, inner: nat, step: nat, indent: nat, t: string, depth: nat)
    requires |entries| > 1
    requires var lines := FormatEntries(entries[1..], inner, step) + Closing(indent, '}', t);
             && LineReady(env, entries[0], inner, step, "," + ("\n" + lines), depth)
             && var u := Skip(lines);
                && u.Some? && |u.value| > 0 && u.value[0] != '}'
                && ParseEntries(env, u.value, depth) == Outcome(RereadEntries(env, entries[1..], depth + 1), t)
    ensures var u := Skip(FormatEntries(entries, inner, step) + Closing(indent, '}', t));
            && u.Some? && |u.value| > 0 && u.value[0] != '}'
            && ParseEntries(env, u.value, depth) == Outcome(RereadEntries(env, entries, depth + 1), t)
  {
    hide ParseValue, ParseEntries, Format, KeyText, FieldRead, Skip, Closing, Spaces, Reread;
    var e := entries[0];
    var text, value := Format(e.value, inner, step), Reread(env, e.value, depth + 1);
    var lines := FormatEntries(entries[1..], inner, step) + Closing(indent, '}', t);
    var more := "," + ("\n" + lines);
    var field := KeyText(e.key) + (": " + (text + more));
    assert FormatEntries(entries, inner, step) + Closing(indent, '}', t) == Spaces(inner) + field;
    FieldStart(env, e, inner, step, value, more, depth);
    NextEntry(env, field, e, value, lines, RereadEntries(env, entries[1..], depth + 1), t, depth);
  }

  lemma {:induction false} EntriesBack(
      env: Env, entries: seq<Entry>, inner: nat, step: nat, indent: nat, t: string, depth: nat)
    requires |entries| > 0
    requires forall i :: 0 <= i < |entries| ==> Readable(env, entries[i].value)
    ensures var u := Skip(FormatEntries(entries, inner, step) + Closing(indent, '}', t));
            && u.Some? && |u.value| > 0 && u.value[0] != '}'
            && ParseEntries(env, u.value, depth) == Outcome(RereadEntries(env, entries, depth + 1), t)
    decreases entries, 1
  {
    hide ParseValue, ParseEntries, Format, FormatEntries, Readable, Skip, Closing, Reread, RereadEntries;
    var e := entries[0];
    if |entries| == 1 {
      ClosingSkipped(indent, '}', t);
      RereadBack(env, e.value, inner, step, Closing(indent, '}', t), depth + 1);
      OneEntryBack(env, entries, inner, step, indent, t, depth);
    } else {
      var lines := FormatEntries(entries[1..], inner, step) + Closing(indent, '}', t);
      RereadBack(env, e.value, inner, step, "," + ("\n" + lines), depth + 1);
      EntriesBack(env, entries[1..], inner, step, indent, t, depth);
      MoreEntriesBack(env, entries, inner, step, indent, t, depth);
    }
  }

  lemma {:induction false} LastItem(env: Env, s: string, value: Option<Node>, indent: nat, t: string, depth: nat)
    requires ParseValue(env, s, depth + 1) == Outcome(value, Closing(indent, ']', t))
    ensures ParseItems(env, s, depth) == if value.None? then Bad else Good([value.value], t)
  {
    hide ParseValue;
    ClosingSkipped(indent, ']', t);
    assert ("]" + t)[1..] == t;
  }

  lemma {:induction false} NextItem(
      env: Env, s: string, value: Option<Node>, lines: string, more: Option<seq<Node>>, t: string, depth: nat)
    requires ParseValue(env, s, depth + 1) == Outcome(value, "," + ("\n" + lines))
    requires var u := Skip(lines);
             && u.Some? && |u.value| > 0 && u.value[0] != ']'
             && ParseItems(env, u.value, depth) == Outcome(more, t)
    ensures ParseItems(env, s, depth) ==
            if value.None? || more.None? then Bad else Good([value.value] + more.value, t)
  {
    hide ParseValue;
    var u := "," + ("\n" + lines);
    SkipSolid(u);
    assert u[1..] == "\n" + lines;
    SkipNewline(lines);
  }

  lemma {:induction false} ItemStart(env: Env, item: Node, inner: nat, step: nat, t: string)
    requires Readable(env, item)
    ensures var s := Format(item, inner, step) + t;
            Skip(Spaces(inner) + s) == Some(s) && |s| > 0 && s[0] != ']'
  {
    hide Format, Readable;
    var s := Format(item, inner, step) + t;
    SkipSpaces(inner, s);
    FormatIsSolid(env, item, inner, step, t);
    SkipSolid(s);
  }

  lemma {:induction false} ItemsBack(
      env: Env, items: seq<Node>, inner: nat, step: nat, indent: nat, t: string, depth: nat)
    requires |items| > 0
    requires forall i :: 0 <= i < |items| ==> Readable(env, items[i])
    ensures var u := Skip(FormatItems(items, inner, step) + Closing(indent, ']', t));
            && u.Some? && |u.value| > 0 && u.value[0] != ']'
            && ParseItems(env, u.value, depth) == Outcome(RereadItems(env, items, depth + 1), t)
    decreases items, 1
  {
    hide ParseValue, ParseItems, Format, Readable, Skip, Closing, Spaces, Reread;
    var item := items[0];
    var text, value := Format(item, inner, step), Reread(env, item, depth + 1);
    ClosingSkipped(indent, ']', t);
    if |items| == 1 {
      var more := Closing(indent, ']', t);
      RereadBack(env, item, inner, step, more, depth + 1);
      assert FormatItems(items, inner, step) + more == Spaces(inner) + (text + more);
      ItemStart(env, item, inner, step, more);
      LastItem(env, text + more, value, indent, t, depth);
      assert RereadItems(env, items[1..], depth + 1) == Some([]);
      if value.Some? {
        assert [value.value] + [] == [value.value];
      }
    } else {
      var lines := FormatItems(items[1..], inner, step) + Closing(indent, ']', t);
      var more := "," + ("\n" + lines);
      RereadBack(env, item, inner, step, more, depth + 1);
      assert FormatItems(items, inner, step) + Closing(indent, ']', t) == Spaces(inner) + (text + more);
      ItemStart(env, item, inner, step, more);
      ItemsBack(env, items[1..], inner, step, indent, t, depth);
      NextItem(env, text + more, value, lines, RereadItems(env, items[1..], depth + 1), t, depth);
    }
  }

  /* ---------- When a document is read back as itself ---------- */

  // The values written as a constructor with arguments take one more level.
  predicate Calls(node: Node) {
    IsQuotedCall(node) || node.Binary? || node.Timestamp?
  }

  // The texts and numbers their constructors give back unchanged.
  predicate Writable(env: Env, node: Node) {
    match node
    case Int64(v) => FitsInt64(v)
    case ObjectId(v) => IsObjectId(v) && Lower(v) == v
    case Date(v) => env.dateOf(v) == Some(v)
    case Uuid(v) => Lower(v) == v
    case Binary(_, subtype) => FitsInt64(subtype) && env.number(subtype) == subtype
    case Timestamp(a, b) => IsArgument(env, a) && IsArgument(env, b)
    case _ => true
  }

  // A number that comes back as an argument: not minus infinity, and no integer beyond 64 bits.
  predicate IsArgument(env: Env, n: Number) {
    n != "-Infinity" && (IsInteger(n) ==> FitsInt64(n)) && env.number(n) == n
  }

  // An object with one field that is taken as extended JSON: its key and the form of its value.
  predicate LooksExtended(env: Env, entries: seq<Entry>) {
    && |entries| == 1
    && var text := TextOf(entries[0].value);
       match entries[0].key
       case "$oid" => text.Some? && IsObjectId(text.value)
       case "$date" => IsDateForm(env, entries[0].value)
       case "$numberInt" => text.Some? && IsInteger(text.value)
       case "$numberLong" => text.Some? && IsInteger(text.value)
       case "$numberDouble" => text.Some?
       case "$numberDecimal" => text.Some?
       case "$uuid" => text.Some?
       case _ => false
  }

  // A `$numberLong` of text, a number or text that is a date, or anything else where no text is one.
  predicate IsDateForm(env: Env, value: Node) {
    match value
    case Object(entries) => FindEntry(entries, "$numberLong").Some? && FindEntry(entries, "$numberLong").value.Text?
    case Text(v) => env.dateOf(v).Some?
    case Int32(v) => env.dateOfNumber(v).Some?
    case Int64(v) => env.dateOfNumber(v).Some?
    case Double(v) => env.dateOfNumber(v).Some?
    case _ => env.dateOf("").Some?
  }

  // What a caller can check: the nesting, the constructors' arguments, and that no object with one
  // field looks like extended JSON.
  predicate Canonical(env: Env, node: Node, depth: nat)
    decreases node
  {
    && depth <= MAX_DEPTH
    && (Calls(node) ==> depth < MAX_DEPTH)
    && Writable(env, node)
    && match node
       case Object(entries) =>
         && !LooksExtended(env, entries)
         && forall i :: 0 <= i < |entries| ==> Canonical(env, entries[i].value, depth + 1)
       case Array(items) => forall i :: 0 <= i < |items| ==> Canonical(env, items[i], depth + 1)
       case _ => true
  }

  lemma {:induction false} ExtendedIsTaken(env: Env, entries: seq<Entry>)
    ensures FromExtendedJson(env, entries) == Some(Object(entries)) <==> !LooksExtended(env, entries)
  {
    hide FindEntry, IsObjectId, IsInteger, Lower;
  }

  lemma NotFiniteText(n: string)
    requires n in NOT_FINITE
    ensures !IsNumberText(n) && !IsInteger(n)
  {
    if n == "-Infinity" {
      assert n[1..] == "Infinity";
      assert PlainLength("Infinity") == 0;
    }
  }

  // What kind of value a number written as an argument is read as.
  lemma NumberArgKind(env: Env, n: Number)
    ensures var read := NumberArg(env, n);
            if n == "-Infinity" || (IsInteger(n) && !FitsInt64(n)) || (IsNumberText(n) && !IsInteger(n) && env.number(n) in NOT_FINITE)
            then read.None?
            else if IsInteger(n) then read == Some(Int32(n)) || read == Some(Int64(n))
            else read == Some(Double(n))
  {
    hide NumberLength, IntegerOf;
    if n in NOT_FINITE {
      NotFiniteText(n);
    }
    if IsInteger(n) {
      IntegerLength(n);
    }
  }

  lemma ConstructBinary(env: Env, a: Node, v: string)
    requires IsNumeric(a)
    ensures Construct(env, "BinData", [a] + [Text(v)]) == Some(Binary(v, if a.Double? then "0" else env.number(a.v)))
  {
    hide ConstructDate, IsObjectId, Lower, FitsInt32, FitsInt64, NumberOf, NumberLength, IsInteger;
    assert "BinData"[0] == 'B';
    assert ([a] + [Text(v)])[1] == Text(v) && ([a] + [Text(v)])[0] == a;
  }

  lemma ConstructTimestamp(env: Env, a: Node, b: Node)
    requires IsNumeric(a) && IsNumeric(b)
    ensures Construct(env, "Timestamp", [a] + [b]) == Some(Timestamp(env.number(a.v), env.number(b.v)))
  {
    hide ConstructDate, IsObjectId, Lower, FitsInt32, FitsInt64, NumberLength, IsInteger, TextOf;
    assert "Timestamp"[0] == 'T';
    assert ([a] + [b])[1] == b && ([a] + [b])[0] == a;
  }

  lemma {:induction false} ConstructedBinary(env: Env, v: string, n: Number)
    ensures RereadPair(env, Binary(v, n)) == Some(Binary(v, n)) <==> Writable(env, Binary(v, n))
  {
    hide IntegerOf, NumberArg, NumberLength, Construct;
    NumberArgKind(env, n);
    assert IsInteger("0");
    if n == "-Infinity" {
      NotFiniteText(n);
    }
    if NumberArg(env, n).Some? {
      ConstructBinary(env, NumberArg(env, n).value, v);
    }
  }

  lemma {:induction false} ConstructedTimestamp(env: Env, a: Number, b: Number)
    ensures RereadPair(env, Timestamp(a, b)) == Some(Timestamp(a, b)) <==> Writable(env, Timestamp(a, b))
  {
    hide FitsInt64, IsInteger, NumberArg, NumberLength, Construct;
    NumberArgKind(env, a);
    NumberArgKind(env, b);
    if NumberArg(env, a).Some? && NumberArg(env, b).Some? {
      ConstructTimestamp(env, NumberArg(env, a).value, NumberArg(env, b).value);
    }
  }

  lemma {:induction false} ConstructedLeaf(env: Env, node: Node)
    requires IsQuotedCall(node)
    ensures Construct(env, ConstructorOf(node), [Text(node.v)]) == Some(node) <==> Writable(env, node)
  {
    hide FitsInt64, FitsInt32, Lower, IsObjectId, IsConstructorName;
  }

  lemma Fronts<T>(first: T, rest: seq<T>, all: seq<T>)
    requires all != []
    ensures [first] + rest == all <==> first == all[0] && rest == all[1..]
  {
    assert all == [all[0]] + all[1..];
  }

  lemma {:induction false} EntriesReread(env: Env, entries: seq<Entry>, depth: nat)
    ensures RereadEntries(env, entries, depth) == Some(entries) <==>
            forall i :: 0 <= i < |entries| ==> Canonical(env, entries[i].value, depth)
    decreases entries, 1
  {
    if entries != [] {
      hide Reread, Canonical;
      RereadItself(env, entries[0].value, depth);
      EntriesReread(env, entries[1..], depth);
      var first, more := Reread(env, entries[0].value, depth), RereadEntries(env, entries[1..], depth);
      if first.Some? && more.Some? {
        Fronts(Entry(entries[0].key, first.value), more.value, entries);
      }
      assert forall i :: 0 < i < |entries| ==> entries[i] == entries[1..][i - 1];
      assert entries[0] == Entry(entries[0].key, entries[0].value);
    }
  }

  lemma {:induction false} ItemsReread(env: Env, items: seq<Node>, depth: nat)
    ensures RereadItems(env, items, depth) == Some(items) <==>
            forall i :: 0 <= i < |items| ==> Canonical(env, items[i], depth)
    decreases items, 1
  {
    if items != [] {
      hide Reread, Canonical;
      RereadItself(env, items[0], depth);
      ItemsReread(env, items[1..], depth);
      var first, more := Reread(env, items[0], depth), RereadItems(env, items[1..], depth);
      if first.Some? && more.Some? {
        Fronts(first.value, more.value, items);
      }
      assert forall i :: 0 < i < |items| ==> items[i] == items[1..][i - 1];
    }
  }

  lemma {:induction false} StaysObject(env: Env, entries: seq<Entry>, node: Node)
    requires node.Object?
    ensures FromExtendedJson(env, entries) == Some(node) ==> entries == node.entries
  {
    hide FindEntry, IsObjectId, IsInteger, Lower;
  }

  lemma {:induction false} RereadItself(env: Env, node: Node, depth: nat)
    ensures Reread(env, node, depth) == Some(node) <==> Canonical(env, node, depth)
    decreases node, 0
  {
    if depth <= MAX_DEPTH {
      match node
      case Object(entries) =>
        hide FromExtendedJson, RereadEntries;
        EntriesReread(env, entries, depth + 1);
        if RereadEntries(env, entries, depth + 1).Some? {
          StaysObject(env, RereadEntries(env, entries, depth + 1).value, node);
        }
        ExtendedIsTaken(env, entries);
      case Array(items) =>
        hide RereadItems;
        ItemsReread(env, items, depth + 1);
      case Binary(v, subtype) =>
        hide RereadPair;
        ConstructedBinary(env, v, subtype);
      case Timestamp(seconds, increment) =>
        hide RereadPair;
        ConstructedTimestamp(env, seconds, increment);
      case _ =>
        if IsQuotedCall(node) {
          hide Construct, ConstructorOf;
          ConstructedLeaf(env, node);
        }
    }
  }
}

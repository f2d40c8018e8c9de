/**
 When the text written for a document is read as that document: what every text that is read as a
 value costs, the bare texts that do not come back, and the equivalences for leaves and documents.
 */
module BsonDocumentExact {
  import opened Wrappers
  import opened Letters
  import opened Numerals
  import opened BsonDocument
  import opened BsonDocumentRoundTrip

  /* ---------- What a value costs to read ---------- */

  // The least number of characters a text, a number or a regular expression is read from.
  function Cost(node: Node): nat {
    match node
    case Text(v) => |v| + 2
    case Int32(v) => |v|
    case Int64(v) => |v|
    case Double(v) => |v|
    case Regex(p, f) => |p| + |f| + 2
    case _ => 0
  }

  lemma {:induction false} StringCost(s: string, quote: char)
    ensures var r := StringBody(s, quote);
            r.Good? ==> |s| - |r.rest| >= |r.value| + 1
    decreases |s|
  {
    hide Escape;
    if s != "" && s[0] != quote {
      if s[0] != '\\' {
        StringCost(s[1..], quote);
      } else if Escape(s[1..]).Good? {
        StringCost(Escape(s[1..]).rest, quote);
      }
    }
  }

  // A pattern is read from exactly its own text, and has no bare slash.
  predicate IsExact(s: string, r: Parsed<string>) {
    r.Good? ==> s == r.value + ("/" + r.rest) && IsPattern(r.value)
  }

  lemma RegexEnds(s: string)
    ensures s == "" ==> RegexBody(s) == Bad
    ensures s != "" && s[0] == '/' ==> RegexBody(s) == Good("", s[1..])
  {
  }

  lemma {:induction false} PieceExact(s: string, n: nat)
    requires 0 < n <= |s| && s[0] != '/' && (n == 2 <==> s[0] == '\\') && n <= 2
    requires IsExact(s[n..], RegexBody(s[n..]))
    ensures IsExact(s, Prefixed(s[..n], RegexBody(s[n..])))
  {
    hide RegexBody;
    var more := RegexBody(s[n..]);
    if more.Good? {
      var v := s[..n] + more.value;
      assert v[n..] == more.value && v[0] == s[0];
      assert v[1..] == s[1..n] + more.value;
      assert s == s[..n] + s[n..];
      assert v + ("/" + more.rest) == s[..n] + (more.value + ("/" + more.rest));
    }
  }

  lemma {:induction false} RegexExact(s: string)
    ensures IsExact(s, RegexBody(s))
    decreases |s|
  {
    hide RegexBody, IsExact;
    RegexEnds(s);
    if s == "" || s[0] == '/' {
      EndExact(s);
    } else {
      var n := if s[0] == '\\' && |s| > 1 then 2 else 1;
      RegexStep(s);
      RegexExact(s[n..]);
      if s[0] == '\\' && n == 1 {
        assert s[1..] == "";
        RegexEnds("");
        assert Prefixed([s[0]], Bad) == Bad;
        EndExact(s);
      } else {
        assert s[..1] == [s[0]];
        PieceExact(s, n);
      }
    }
  }

  lemma EndExact(s: string)
    ensures IsExact(s, Bad)
    ensures s != "" && s[0] == '/' ==> IsExact(s, Good("", s[1..]))
  {
    assert s != "" ==> s == [s[0]] + s[1..];
  }

  // What the first two arguments of a constructor cost.
  function FirstTwo(args: seq<Node>): nat {
    (if |args| > 0 then Cost(args[0]) else 0) + (if |args| > 1 then Cost(args[1]) else 0)
  }

  lemma ConstructCost(env: Env, name: string, args: seq<Node>)
    ensures var r := Construct(env, name, args);
            r.Some? ==> Cost(r.value) <= 2 + FirstTwo(args)
  {
    hide FitsInt32, FitsInt64, IsObjectId, Lower, ConstructDate;
    ConstructDateKind(env, args);
  }

  lemma ConstructDateKind(env: Env, args: seq<Node>)
    ensures ConstructDate(env, args).Some? ==> ConstructDate(env, args).value.Date?
  {
  }

  lemma ExtendedCost(env: Env, entries: seq<Entry>)
    requires |entries| > 0
    ensures var r := FromExtendedJson(env, entries);
            r.Some? ==> Cost(r.value) <= Cost(entries[0].value)
  {
    hide FindEntry, IsInteger, IsObjectId, Lower;
  }

  lemma {:induction false} ArgsCost(env: Env, s: string, depth: nat)
    ensures var r := ParseArgs(env, s, depth);
            r.Good? ==> |r.value| > 0 && |s| - |r.rest| >= FirstTwo(r.value)
    decreases |s|, 2
  {
    hide ParseValue, Cost;
    ValueCost(env, s, depth + 1);
    var first := ParseValue(env, s, depth + 1);
    if first.Good? && Skip(first.rest).Some? {
      var u := Skip(first.rest).value;
      if |u| > 0 && u[0] == ',' {
        ArgsCost(env, u[1..], depth);
      }
    }
  }

  lemma {:induction false} ConstructorCost(env: Env, name: string, s: string, depth: nat)
    ensures var r := ParseConstructor(env, name, s, depth);
            r.Good? ==> |s| - |r.rest| + 1 >= Cost(r.value)
    decreases |s|, 3
  {
    hide Construct, Cost, ParseArgs;
    if Skip(s).Some? {
      var t := Skip(s).value;
      ArgsCost(env, t, depth);
      if |t| > 0 && t[0] == ')' {
        ConstructCost(env, name, []);
      } else if ParseArgs(env, t, depth).Good? {
        ConstructCost(env, name, ParseArgs(env, t, depth).value);
      }
    }
  }

  // A word that is no constant costs more than its value.
  lemma {:induction false} WordCost(env: Env, w: string, s: string, depth: nat)
    requires |w| > 0
    ensures var r := ParseWord(env, w, s, depth);
            r.Good? ==> (r == SimpleWord(w, s) && Cost(r.value) <= |w|) || |w| + |s| - |r.rest| > Cost(r.value)
    decreases |s|, 4
  {
    hide ParseConstructor, ParseValue;
    if Skip(s).Some? {
      var t := Skip(s).value;
      ValueCost(env, t, depth + 1);
      if |t| > 0 {
        ConstructorCost(env, w, t[1..], depth);
      }
    }
  }

  lemma {:induction false} EntriesCost(env: Env, s: string, depth: nat)
    ensures var r := ParseEntries(env, s, depth);
            r.Good? ==> |r.value| > 0 && |s| - |r.rest| >= Cost(r.value[0].value)
    decreases |s|, 2
  {
    hide ParseValue, Cost, ReadKey;
    if ReadKey(s).Good? && Expect(ReadKey(s).rest, ':').Good? {
      ValueCost(env, Expect(ReadKey(s).rest, ':').rest, depth + 1);
    }
  }

  lemma {:induction false} ObjectCost(env: Env, s: string, depth: nat)
    requires depth <= MAX_DEPTH && s != "" && s[0] == '{'
    ensures var r := ParseValue(env, s, depth);
            r.Good? ==> |s| - |r.rest| > Cost(r.value)
    decreases |s|, 0
  {
    hide ParseEntries, FromExtendedJson, Skip, ParseItems, ParseWord, RegexBody, StringBody, NumberLength, NumberNode;
    SkipSolid(s);
    if Skip(s[1..]).Some? {
      var u := Skip(s[1..]).value;
      SkipShorter(s[1..]);
      EntriesCost(env, u, depth);
      if ParseEntries(env, u, depth).Good? {
        ExtendedCost(env, ParseEntries(env, u, depth).value);
      }
    }
  }

  lemma SkipShorter(s: string)
    ensures Skip(s).Some? ==> |Skip(s).value| <= |s|
  {
  }

  lemma {:induction false} ValueCost(env: Env, s: string, depth: nat)
    ensures var r := ParseValue(env, s, depth);
            r.Good? ==> |s| - |r.rest| >= Cost(r.value)
    decreases |s|, 1
  {
    hide ParseEntries, FromExtendedJson, ParseItems, ParseWord, RegexBody, StringBody, NumberLength;
    if depth <= MAX_DEPTH && Skip(s).Some? && Skip(s).value != "" {
      var t := Skip(s).value;
      SkipTwice(s);
      BlanksDoNotMatter(env, s, t, depth);
      if t[0] == '{' {
        ObjectCost(env, t, depth);
      } else if t[0] == '\"' || t[0] == '\'' {
        StringCost(t[1..], t[0]);
      } else if t[0] == '/' {
        RegexExact(t[1..]);
      } else if IsStart(t[0]) {
        var n := 1 + Span(t[1..], IsPart);
        WordCost(env, t[..n], t[n..], depth);
      }
    }
  }

  /* ---------- Bare texts ---------- */

  lemma ConstructInteger(env: Env, name: string, args: seq<Node>)
    ensures var r := Construct(env, name, args);
            r.Some? && r.value.Int32? ==> IsInteger(r.value.v)
  {
    hide IsInteger, IntegerOf, IsObjectId, Lower, ConstructDate;
    ConstructDateKind(env, args);
  }

  lemma ExtendedInteger(env: Env, entries: seq<Entry>)
    ensures var r := FromExtendedJson(env, entries);
            r.Some? && r.value.Int32? ==> IsInteger(r.value.v)
  {
    hide FindEntry, IsInteger, IsObjectId, Lower;
  }

  lemma ConstructorInteger(env: Env, name: string, s: string, depth: nat)
    ensures var r := ParseConstructor(env, name, s, depth);
            r.Good? && r.value.Int32? ==> IsInteger(r.value.v)
  {
    hide Construct, ParseArgs, IsInteger;
    if Skip(s).Some? {
      var t := Skip(s).value;
      ConstructInteger(env, name, []);
      if ParseArgs(env, t, depth).Good? {
        ConstructInteger(env, name, ParseArgs(env, t, depth).value);
      }
    }
  }

  // Whatever is read as a 32-bit integer is the text of an integer.
  lemma {:induction false} IntegersRead(env: Env, s: string, depth: nat)
    ensures var r := ParseValue(env, s, depth);
            r.Good? && r.value.Int32? ==> IsInteger(r.value.v)
    decreases |s|, 1
  {
    hide ParseEntries, FromExtendedJson, ParseItems, RegexBody, StringBody, NumberLength, ParseConstructor, IsInteger;
    if depth <= MAX_DEPTH && Skip(s).Some? && Skip(s).value != "" {
      var t := Skip(s).value;
      if t[0] == '{' && Skip(t[1..]).Some? {
        var u := Skip(t[1..]).value;
        if ParseEntries(env, u, depth).Good? {
          ExtendedInteger(env, ParseEntries(env, u, depth).value);
        }
      } else if IsStart(t[0]) {
        var n := 1 + Span(t[1..], IsPart);
        WordInteger(env, t[..n], t[n..], depth);
      }
    }
  }

  lemma {:induction false} WordInteger(env: Env, w: string, s: string, depth: nat)
    ensures var r := ParseWord(env, w, s, depth);
            r.Good? && r.value.Int32? ==> IsInteger(r.value.v)
    decreases |s|, 2
  {
    hide ParseConstructor, ParseValue, IsInteger;
    if Skip(s).Some? {
      var t := Skip(s).value;
      if w == "new" {
        IntegersRead(env, t, depth + 1);
      }
      if |t| > 0 {
        ConstructorInteger(env, w, t[1..], depth);
      }
    }
  }

  // A bare integer beyond 32 bits is not read as it was.
  lemma {:induction false} IntegerLost(env: Env, v: string, t: string, depth: nat)
    requires Delimited(t) && !FitsInt32(v)
    ensures var r := ParseValue(env, v + t, depth);
            r.Good? ==> r.value != Int32(v)
  {
    hide ParseValue, IntegerOf, NumberLength;
    if depth > MAX_DEPTH {
      TooDeep(env, v + t, depth);
    } else if IsInteger(v) {
      IntegerLength(v);
      NumberBack(env, v, t, depth);
    } else {
      IntegersRead(env, v + t, depth);
    }
  }

  lemma TooDeep(env: Env, s: string, depth: nat)
    requires depth > MAX_DEPTH
    ensures ParseValue(env, s, depth) == Bad
  {
  }

  // A double that is read from no more than its own text is read from that text alone.
  lemma {:induction false} DoubleRead(env: Env, v: string, t: string, depth: nat)
    requires Delimited(t) && !IsInteger(v)
    requires ParseValue(env, v + t, depth) == Good(Double(v), t)
    ensures IsDoubleText(env, v)
  {
    hide ParseEntries, FromExtendedJson, ParseItems, ParseWord, RegexBody, StringBody, NumberLength, IsInteger, Skip, NumberNode;
    var s := v + t;
    var u := Skip(s).value;
    SkipShorter(s);
    SkipTwice(s);
    BlanksDoNotMatter(env, s, u, depth);
    ValueCost(env, u, depth);
    SkipWhole(s);
    assert u == s;
    if s[0] == '{' {
      ObjectCost(env, s, depth);
    } else if s[0] == '-' || IsDigit(s[0]) {
      NumberIsText(env, v, t, NumberLength(s));
    } else if IsStart(s[0]) {
      var n := 1 + Span(s[1..], IsPart);
      WordCost(env, s[..n], s[n..], depth);
      WordIsConstant(s[..n], s[n..]);
    }
  }

  lemma SkipWhole(s: string)
    ensures Skip(s).Some? ==> Skip(s).value == s || |Skip(s).value| < |s|
  {
    if s != "" && IsSpace(s[0]) {
      SkipShorter(s[1..]);
    } else if |s| > 1 && s[0] == '/' && s[1] == '/' {
      SkipShorter(AfterLine(s[2..]));
    }
  }

  lemma WordIsConstant(w: string, s: string)
    ensures SimpleWord(w, s).Good? && SimpleWord(w, s).value.Double? ==>
            SimpleWord(w, s).value == Double(w) && (w == "NaN" || w == "Infinity")
  {
  }

  lemma NumberIsText(env: Env, v: string, t: string, n: nat)
    requires Delimited(t) && n == NumberLength(v + t) && n > 0 && ((v + t)[0] == '-' || IsDigit((v + t)[0]))
    requires NumberNode(env, (v + t)[..n]) == Some(Double(v))
    ensures IsDoubleText(env, v)
  {
    hide NumberLength;
    assert (v + t)[..n] == v && (v + t)[0] == v[0];
    NumberStable(v, t);
  }

  lemma {:induction false} SlashRead(env: Env, body: string, depth: nat)
    requires depth <= MAX_DEPTH && body != "" && body[0] != '/' && body[0] != '*'
    ensures ParseValue(env, "/" + body, depth) ==
            match RegexBody(body)
            case Bad => Bad
            case Good(pattern, rest) => Good(Regex(pattern, rest[..Span(rest, IsFlag)]), rest[Span(rest, IsFlag)..])
  {
    hide ParseEntries, FromExtendedJson, ParseItems, ParseWord, RegexBody, StringBody, NumberLength, NumberNode, Span;
    SkipSolid("/" + body);
    assert ("/" + body)[1..] == body;
  }

  // A pattern that opens no comment is read up to its first bare slash.
  lemma {:induction false} PatternRead(env: Env, p: string, f: string, t: string, depth: nat)
    requires p != "" && p[0] != '/' && p[0] != '*'
    requires var r := ParseValue(env, "/" + p + "/" + f + t, depth);
             r.Good? && r.value == Regex(p, f)
    ensures Readable(env, Regex(p, f))
  {
    hide RegexBody, ParseValue, IsPattern, Span;
    var body := p + ("/" + (f + t));
    assert "/" + p + "/" + f + t == "/" + body;
    if depth > MAX_DEPTH {
      TooDeep(env, "/" + body, depth);
    } else {
      SlashRead(env, body, depth);
      RegexExact(body);
      var rest := RegexBody(body).rest;
      assert body[|p| + 1..] == rest && rest == f + t;
      SpanHolds(rest, IsFlag);
    }
  }

  lemma {:induction false} SpanHolds(s: string, p: char -> bool)
    ensures AllAre(s[..Span(s, p)], p)
  {
    if |s| > 0 && p(s[0]) {
      SpanHolds(s[1..], p);
      assert s[..Span(s, p)] == [s[0]] + s[1..][..Span(s[1..], p)];
    }
  }

  // A regular expression that is read from no more than its own text opens no comment.
  lemma {:induction false} RegexRead(env: Env, p: string, f: string, t: string, depth: nat)
    requires ParseValue(env, "/" + p + "/" + f + t, depth) == Good(Regex(p, f), t)
    ensures Readable(env, Regex(p, f))
  {
    hide ParseValue, Readable, Skip;
    var s := "/" + p + "/" + f + t;
    if p == "" || p[0] == '/' || p[0] == '*' {
      CommentSkipped(s);
      SkipTwice(s);
      if Skip(s).Some? {
        BlanksDoNotMatter(env, s, Skip(s).value, depth);
        ValueCost(env, Skip(s).value, depth);
      } else {
        OpenComment(env, s, depth);
      }
    } else {
      PatternRead(env, p, f, t, depth);
    }
  }

  lemma CommentSkipped(s: string)
    requires |s| > 1 && s[0] == '/' && (s[1] == '/' || s[1] == '*')
    ensures Skip(s).Some? ==> |Skip(s).value| < |s|
  {
  }

  lemma OpenComment(env: Env, s: string, depth: nat)
    requires Skip(s).None?
    ensures ParseValue(env, s, depth) == Bad
  {
  }

  /* ---------- Leaves ---------- */

  predicate IsLeaf(node: Node) {
    !node.Object? && !node.Array?
  }

  /**
   A leaf is read from exactly the text written for it, whatever follows, if and only if its bare
   text is read as such and it is canonical.
   */
  lemma {:induction false} LeafComesBack(env: Env, leaf: Node, indent: nat, step: nat, t: string, depth: nat)
    requires IsLeaf(leaf) && Delimited(t)
    ensures ParseValue(env, Format(leaf, indent, step) + t, depth) == Good(leaf, t) <==>
            Readable(env, leaf) && Canonical(env, leaf, depth)
  {
    hide ParseValue, Reread, IsPattern, IsDoubleText, FitsInt32, IsInteger, NumberLength;
    if Readable(env, leaf) {
      hide Format, Readable, Canonical;
      RereadBack(env, leaf, indent, step, t, depth);
      RereadItself(env, leaf, depth);
    } else if ParseValue(env, Format(leaf, indent, step) + t, depth) == Good(leaf, t) {
      match leaf
      case Int32(v) => IntegerLost(env, v, t, depth);
      case Double(v) => DoubleRead(env, v, t, depth);
      case Regex(p, f) => RegexRead(env, p, f, t, depth);
    }
  }

  /* ---------- Documents, value by value ---------- */

  // What follows the first of several fields or items.
  function AfterEntry(entries: seq<Entry>, inner: nat, step: nat, indent: nat, t: string): string
    requires |entries| > 0
  {
    if |entries| == 1 then Closing(indent, '}', t)
    else "," + ("\n" + (FormatEntries(entries[1..], inner, step) + Closing(indent, '}', t)))
  }

  function AfterItem(items: seq<Node>, inner: nat, step: nat, indent: nat, t: string): string
    requires |items| > 0
  {
    if |items| == 1 then Closing(indent, ']', t)
    else "," + ("\n" + (FormatItems(items[1..], inner, step) + Closing(indent, ']', t)))
  }

  // The value and every value inside it is read, as itself, from exactly the text written for it.
  predicate InPlace(env: Env, node: Node, indent: nat, step: nat, t: string, depth: nat)
    decreases node, 1
  {
    && ParseValue(env, Format(node, indent, step) + t, depth) == Good(node, t)
    && match node
       case Object(entries) => EntriesInPlace(env, entries, indent + step, step, indent, t, depth)
       case Array(items) => ItemsInPlace(env, items, indent + step, step, indent, t, depth)
       case _ => true
  }

  predicate EntriesInPlace(env: Env, entries: seq<Entry>, inner: nat, step: nat, indent: nat, t: string, depth: nat)
    decreases entries, 0
  {
    |entries| > 0 ==>
      && InPlace(env, entries[0].value, inner, step, AfterEntry(entries, inner, step, indent, t), depth + 1)
      && EntriesInPlace(env, entries[1..], inner, step, indent, t, depth)
  }

  predicate ItemsInPlace(env: Env, items: seq<Node>, inner: nat, step: nat, indent: nat, t: string, depth: nat)
    decreases items, 0
  {
    |items| > 0 ==>
      && InPlace(env, items[0], inner, step, AfterItem(items, inner, step, indent, t), depth + 1)
      && ItemsInPlace(env, items[1..], inner, step, indent, t, depth)
  }

  lemma {:induction false} EntriesReadInPlace(
      env: Env, entries: seq<Entry>, inner: nat, step: nat, indent: nat, t: string, depth: nat)
    ensures EntriesInPlace(env, entries, inner, step, indent, t, depth) <==>
            forall i :: 0 <= i < |entries| ==> Readable(env, entries[i].value) && Canonical(env, entries[i].value, depth + 1)
    decreases entries, 0
  {
    if |entries| > 0 {
      hide InPlace, Readable, Canonical, FormatEntries;
      ClosingSkipped(indent, '}', t);
      ReadInPlace(env, entries[0].value, inner, step, AfterEntry(entries, inner, step, indent, t), depth + 1);
      EntriesReadInPlace(env, entries[1..], inner, step, indent, t, depth);
      assert forall i :: 0 < i < |entries| ==> entries[i] == entries[1..][i - 1];
    }
  }

  lemma {:induction false} ItemsReadInPlace(
      env: Env, items: seq<Node>, inner: nat, step: nat, indent: nat, t: string, depth: nat)
    ensures ItemsInPlace(env, items, inner, step, indent, t, depth) <==>
            forall i :: 0 <= i < |items| ==> Readable(env, items[i]) && Canonical(env, items[i], depth + 1)
    decreases items, 0
  {
    if |items| > 0 {
      hide InPlace, Readable, Canonical, FormatItems;
      ClosingSkipped(indent, ']', t);
      ReadInPlace(env, items[0], inner, step, AfterItem(items, inner, step, indent, t), depth + 1);
      ItemsReadInPlace(env, items[1..], inner, step, indent, t, depth);
      assert forall i :: 0 < i < |items| ==> items[i] == items[1..][i - 1];
    }
  }

  lemma {:induction false} ReadBackAsItself(env: Env, node: Node, indent: nat, step: nat, t: string, depth: nat)
    requires Readable(env, node) && Delimited(t)
    ensures ParseValue(env, Format(node, indent, step) + t, depth) == Good(node, t) <==> Canonical(env, node, depth)
  {
    hide ParseValue, Format, Readable, Canonical, Reread;
    RereadBack(env, node, indent, step, t, depth);
    RereadItself(env, node, depth);
  }

  /**
   For every document, at every indentation and depth and whatever follows: it and every value in it
   is read from exactly the text written for it if and only if the bare texts in it are read as such
   and it is canonical.
   */
  lemma {:induction false} ReadInPlace(env: Env, node: Node, indent: nat, step: nat, t: string, depth: nat)
    requires Delimited(t)
    ensures InPlace(env, node, indent, step, t, depth) <==> Readable(env, node) && Canonical(env, node, depth)
    decreases node, 1
  {
    hide ParseValue, Format, EntriesInPlace, ItemsInPlace, Writable, LooksExtended;
    match node
    case Object(entries) =>
      EntriesReadInPlace(env, entries, indent + step, step, indent, t, depth);
      if Readable(env, node) {
        ReadBackAsItself(env, node, indent, step, t, depth);
      }
    case Array(items) =>
      ItemsReadInPlace(env, items, indent + step, step, indent, t, depth);
      if Readable(env, node) {
        ReadBackAsItself(env, node, indent, step, t, depth);
      }
    case _ =>
      LeafComesBack(env, node, indent, step, t, depth);
  }

  /* ---------- Whole documents ---------- */

  // A word stands somewhere in a text.
  predicate Occurs(w: string, s: string) {
    w <= s || (s != "" && Occurs(w, s[1..]))
  }

  lemma {:induction false} OccursBehind(w: string, a: string, b: string)
    requires Occurs(w, b)
    ensures Occurs(w, a + b)
  {
    if a == "" {
      assert a + b == b;
    } else {
      OccursBehind(w, a[1..], b);
      assert (a + b)[1..] == a[1..] + b;
    }
  }

  predicate IsEndOf(t: string, s: string) {
    |t| <= |s| && s[|s| - |t|..] == t
  }

  lemma EndOccurs(w: string, t: string, s: string)
    requires IsEndOf(t, s) && Occurs(w, t)
    ensures Occurs(w, s)
  {
    OccursBehind(w, s[..|s| - |t|], t);
    assert s == s[..|s| - |t|] + t;
  }

  lemma EndOfEnd(a: string, b: string, c: string)
    requires IsEndOf(a, b) && IsEndOf(b, c)
    ensures IsEndOf(a, c)
  {
    assert b[|b| - |a|..] == c[|c| - |b|..][|b| - |a|..];
  }

  lemma RestIsEnd(s: string, n: nat)
    requires n <= |s|
    ensures IsEndOf(s[n..], s)
  {
  }

  lemma {:induction false} LineIsEnd(s: string)
    ensures IsEndOf(AfterLine(s), s)
  {
    if s != "" && s[0] != '\n' {
      LineIsEnd(s[1..]);
      EndOfEnd(AfterLine(s[1..]), s[1..], s);
    }
  }

  lemma {:induction false} CommentIsEnd(s: string)
    ensures AfterComment(s).Some? ==> IsEndOf(AfterComment(s).value, s)
  {
    if |s| >= 2 && !(s[0] == '*' && s[1] == '/') {
      CommentIsEnd(s[1..]);
      if AfterComment(s[1..]).Some? {
        EndOfEnd(AfterComment(s[1..]).value, s[1..], s);
      }
    }
  }

  lemma {:induction false} SkipIsEnd(s: string)
    ensures Skip(s).Some? ==> IsEndOf(Skip(s).value, s)
    decreases |s|, 0
  {
    hide IsEndOf;
    RestIsEnd(s, 0);
    assert s[0..] == s;
    if s != "" && Skip(s).Some? {
      if IsSpace(s[0]) {
        RestIsEnd(s, 1);
        SkipFurther(s, s[1..]);
      } else if |s| > 1 && s[0] == '/' && s[1] == '/' {
        LineIsEnd(s[2..]);
        RestIsEnd(s, 2);
        EndOfEnd(AfterLine(s[2..]), s[2..], s);
        SkipFurther(s, AfterLine(s[2..]));
      } else if |s| > 1 && s[0] == '/' && s[1] == '*' {
        CommentIsEnd(s[2..]);
        RestIsEnd(s, 2);
        EndOfEnd(AfterComment(s[2..]).value, s[2..], s);
        SkipFurther(s, AfterComment(s[2..]).value);
      }
    }
  }

  lemma {:induction false} SkipFurther(s: string, t: string)
    requires IsEndOf(t, s) && |t| < |s|
    ensures Skip(t).Some? ==> IsEndOf(Skip(t).value, s)
    decreases |t|, 1
  {
    SkipIsEnd(t);
    if Skip(t).Some? {
      EndOfEnd(Skip(t).value, t, s);
    }
  }

  /* ---------- Which texts can give a value whose own text is not read ---------- */

  // The text holds what spells a value of this kind: the name of a constructor, or a key that may be
  // written with an escape.
  predicate Spelled(leaf: Node, s: string) {
    match leaf
    case Regex(_, _) => Occurs("RegExp", s)
    case Double(_) => Occurs("Double", s) || Occurs("\\u", s)
    case _ => true
  }

  // A value no bare text is read as.
  predicate NeedsSpelling(env: Env, leaf: Node) {
    (leaf.Regex? || leaf.Double?) && !Readable(env, leaf)
  }

  lemma SpelledBehind(leaf: Node, t: string, s: string)
    requires IsEndOf(t, s) && Spelled(leaf, t)
    ensures Spelled(leaf, s)
  {
    hide Occurs, IsEndOf;
    match leaf
    case Regex(_, _) => EndOccurs("RegExp", t, s);
    case Double(_) =>
      if Occurs("Double", t) {
        EndOccurs("Double", t, s);
      } else {
        EndOccurs("\\u", t, s);
      }
    case _ =>
  }

  lemma {:induction false} SpanWithin(s: string, m: nat, p: char -> bool)
    requires Span(s, p) <= m <= |s|
    ensures Span(s[..m], p) == Span(s, p)
  {
    if m > 0 && s != "" && p(s[0]) {
      assert s[..m][1..] == s[1..][..m - 1];
      SpanWithin(s[1..], m - 1, p);
    }
  }

  lemma {:induction false} ExponentWithin(s: string)
    ensures ExponentLength(s[..ExponentLength(s)]) == ExponentLength(s)
  {
    var n := ExponentLength(s);
    if n > 0 {
      var sign := if |s| > 1 && (s[1] == '+' || s[1] == '-') then 1 else 0;
      SpanWithin(s[1 + sign..], n - 1 - sign, IsDigit);
      assert s[..n][1 + sign..] == s[1 + sign..][..n - 1 - sign];
      SignWithin(s, n);
    }
  }

  // The sign of an exponent is seen in its front.
  lemma SignWithin(s: string, n: nat)
    requires 1 < n <= |s|
    ensures s[..n][0] == s[0] && s[..n][1] == s[1]
  {
  }

  lemma {:induction false} PlainWithin(s: string, m: nat)
    requires 0 < PlainLength(s) <= m <= |s|
    requires m > PlainLength(s) ==> s[PlainLength(s)] == 'e' || s[PlainLength(s)] == 'E'
    ensures PlainLength(s[..m]) == PlainLength(s)
  {
    var whole := Span(s, IsDigit);
    SpanWithin(s, m, IsDigit);
    if whole < |s| && s[whole] == '.' {
      var rest := s[whole + 1..];
      if whole + 1 <= m {
        assert s[..m][whole + 1..] == rest[..m - whole - 1];
        SpanWithin(rest, m - whole - 1, IsDigit);
      }
    }
  }

  lemma {:induction false} NumberWithin(s: string)
    requires NumberLength(s) > 0
    ensures NumberLength(s[..NumberLength(s)]) == NumberLength(s)
  {
    hide PlainLength, ExponentLength;
    var n := NumberLength(s);
    var sign := if s[0] == '-' then 1 else 0;
    var body := s[sign..];
    var plain := PlainLength(body);
    ExponentBegins(s[sign + plain..]);
    assert s[..n][sign..] == body[..n - sign];
    assert n - sign > plain ==> body[plain] == s[sign + plain..][0];
    PlainWithin(body, n - sign);
    assert s[..n][sign + plain..] == s[sign + plain..][..n - sign - plain];
    ExponentWithin(s[sign + plain..]);
  }

  lemma ExponentBegins(s: string)
    ensures ExponentLength(s) > 0 ==> s[0] == 'e' || s[0] == 'E'
  {
  }

  // A number is read from text that is read as that number.
  lemma {:induction false} NumberIsReadable(env: Env, t: string)
    requires t != "" && (t[0] == '-' || IsDigit(t[0])) && NumberLength(t) > 0
    ensures var node := NumberNode(env, t[..NumberLength(t)]);
            node.Some? ==> !node.value.Regex? && (node.value.Double? ==> Readable(env, node.value))
  {
    hide NumberLength, FitsInt32, FitsInt64;
    NumberWithin(t);
  }

  // A text of plain characters in quotes stands there as it is, or with an escape.
  lemma {:induction false} StringSpelled(s: string, quote: char, v: string)
    requires AllAre(v, IsStart) && StringBody(s, quote).Good? && StringBody(s, quote).value == v
    ensures Occurs("\\u", s) || (|v| <= |s| && s[..|v|] == v)
    decreases |s|
  {
    hide Occurs;
    if s != "" && s[0] != quote {
      if s[0] != '\\' {
        var more := StringBody(s[1..], quote);
        assert v == [s[0]] + more.value && v[1..] == more.value;
        StringSpelled(s[1..], quote, v[1..]);
        if Occurs("\\u", s[1..]) {
          RestIsEnd(s, 1);
          EndOccurs("\\u", s[1..], s);
        } else {
          assert v == [v[0]] + v[1..] && s[..|v|] == [s[0]] + s[1..][..|v| - 1];
        }
      } else {
        EscapeSpelled(s, v[0]);
      }
    }
  }

  // An escape that stands for a letter is one of a code.
  lemma EscapeSpelled(s: string, c: char)
    requires s != "" && s[0] == '\\' && Escape(s[1..]).Good? && Escape(s[1..]).value == c && IsStart(c)
    ensures Occurs("\\u", s)
  {
    assert s[1] == 'u';
    assert "\\u" <= s;
  }

  lemma {:induction false} KeySpelled(s: string)
    requires ReadKey(s).Good? && ReadKey(s).value == "$numberDouble"
    ensures Occurs("Double", s) || Occurs("\\u", s)
  {
    hide Occurs, StringBody, Span;
    var t := Skip(s).value;
    var key := "$numberDouble";
    SkipIsEnd(s);
    if t[0] == '\"' || t[0] == '\'' {
      StringSpelled(t[1..], t[0], key);
      RestIsEnd(t, 1);
      EndOfEnd(t[1..], t, s);
      if Occurs("\\u", t[1..]) {
        EndOccurs("\\u", t[1..], s);
      } else {
        KeyThere(t[1..]);
        EndOccurs("Double", t[1..], s);
      }
    } else {
      assert t[..13] == key;
      KeyThere(t);
      EndOccurs("Double", t, s);
    }
  }

  lemma KeyThere(s: string)
    requires |s| >= 13 && s[..13] == "$numberDouble"
    ensures Occurs("Double", s)
  {
    assert s[7..13] == s[..13][7..13] == "Double";
    assert "Double" <= s[7..];
    RestIsEnd(s, 7);
    EndOccurs("Double", s[7..], s);
  }

  lemma ConstructSpelled(env: Env, name: string, args: seq<Node>)
    ensures var r := Construct(env, name, args);
            r.Some? ==> (r.value.Regex? ==> name == "RegExp") && (r.value.Double? ==> name == "Double")
  {
    hide FitsInt32, FitsInt64, IsObjectId, Lower, ConstructDate, NumberOf, TextOf, NumberLength;
    ConstructDateKind(env, args);
  }

  lemma ConstructorSpelled(env: Env, name: string, s: string, depth: nat)
    ensures var r := ParseConstructor(env, name, s, depth);
            r.Good? ==> (r.value.Regex? ==> name == "RegExp") && (r.value.Double? ==> name == "Double")
  {
    hide Construct, ParseArgs;
    if Skip(s).Some? {
      var t := Skip(s).value;
      ConstructSpelled(env, name, []);
      if ParseArgs(env, t, depth).Good? {
        ConstructSpelled(env, name, ParseArgs(env, t, depth).value);
      }
    }
  }

  lemma ExtendedSpelled(env: Env, entries: seq<Entry>)
    ensures var r := FromExtendedJson(env, entries);
            r.Some? ==> !r.value.Regex? && (r.value.Double? ==> |entries| == 1 && entries[0].key == "$numberDouble")
  {
    hide FindEntry, IsInteger, IsObjectId, Lower;
  }

  lemma {:induction false} ObjectSpelled(env: Env, t: string, depth: nat)
    requires t != "" && t[0] == '{' && ParseValue(env, t, depth).Good? && NeedsSpelling(env, ParseValue(env, t, depth).value)
    ensures Spelled(ParseValue(env, t, depth).value, t)
  {
    hide ParseEntries, FromExtendedJson, ParseItems, ParseWord, RegexBody, StringBody, NumberLength, NumberNode, Skip, Occurs,
      Readable, IsEndOf;
    SkipSolid(t);
    var u := Skip(t[1..]).value;
    SkipIsEnd(t[1..]);
    RestIsEnd(t, 1);
    EndOfEnd(u, t[1..], t);
    var entries := ParseEntries(env, u, depth).value;
    ExtendedSpelled(env, entries);
    FirstKey(env, u, depth);
    KeySpelled(u);
    SpelledBehind(ParseValue(env, t, depth).value, u, t);
  }

  lemma FirstKey(env: Env, s: string, depth: nat)
    ensures var r := ParseEntries(env, s, depth);
            r.Good? ==> |r.value| > 0 && ReadKey(s).Good? && r.value[0].key == ReadKey(s).value
  {
    hide ParseValue, ReadKey, Separator;
  }

  lemma {:induction false} LiteralIsReadable(env: Env, t: string, depth: nat)
    requires depth <= MAX_DEPTH && Skip(t) == Some(t) && t != "" && t[0] == '/' && ParseValue(env, t, depth).Good?
    ensures Readable(env, ParseValue(env, t, depth).value)
  {
    hide ParseEntries, FromExtendedJson, ParseItems, ParseWord, RegexBody, StringBody, NumberLength, NumberNode, IsPattern;
    var body := t[1..];
    NoComment(t);
    RegexExact(body);
    SpanHolds(RegexBody(body).rest, IsFlag);
    var p := RegexBody(body).value;
    assert p != "" ==> body[0] == p[0];
  }

  lemma NoComment(t: string)
    requires Skip(t) == Some(t) && t != "" && t[0] == '/'
    ensures |t| > 1 ==> t[1] != '/' && t[1] != '*'
  {
    CommentSkippedIf(t);
  }

  lemma CommentSkippedIf(t: string)
    ensures |t| > 1 && t[0] == '/' && (t[1] == '/' || t[1] == '*') && Skip(t).Some? ==> |Skip(t).value| < |t|
  {
  }

  lemma {:induction false} WordSpelled(env: Env, w: string, s: string, depth: nat)
    ensures var r := ParseWord(env, w, s, depth);
            r.Good? && NeedsSpelling(env, r.value) ==>
              Spelled(r.value, s) || (r.value.Regex? && w == "RegExp") || (r.value.Double? && w == "Double")
    decreases |s|, 2
  {
    hide ParseConstructor, ParseValue, Spelled, IsNumberText;
    var r := ParseWord(env, w, s, depth);
    if r.Good? && NeedsSpelling(env, r.value) && Skip(s).Some? {
      var t := Skip(s).value;
      SkipIsEnd(s);
      if w == "new" && t != "" {
        SpelledWhenRead(env, t, depth + 1);
        SpelledBehind(r.value, t, s);
      } else if t != "" {
        ConstructorSpelled(env, w, t[1..], depth);
      }
    }
  }

  // A value that no bare text is read as is spelled in the text it is read from.
  lemma {:induction false} SpelledWhenRead(env: Env, s: string, depth: nat)
    ensures var r := ParseValue(env, s, depth);
            r.Good? && NeedsSpelling(env, r.value) ==> Spelled(r.value, s)
    decreases |s|, 1
  {
    hide ParseEntries, FromExtendedJson, ParseItems, ParseWord, RegexBody, StringBody, NumberLength, NumberNode, Skip, Occurs,
      IsEndOf, Readable;
    var r := ParseValue(env, s, depth);
    if r.Good? && NeedsSpelling(env, r.value) {
      var t := Skip(s).value;
      SkipTwice(s);
      SkipIsEnd(s);
      BlanksDoNotMatter(env, s, t, depth);
      if t[0] == '{' {
        ObjectSpelled(env, t, depth);
      } else if t[0] == '/' {
        LiteralIsReadable(env, t, depth);
      } else if t[0] == '-' || IsDigit(t[0]) {
        NumberIsReadable(env, t);
      } else if IsStart(t[0]) {
        var n := 1 + Span(t[1..], IsPart);
        WordSpelled(env, t[..n], t[n..], depth);
        WordStands(r.value, t, n);
      }
      SpelledBehind(r.value, t, s);
    }
  }

  lemma WordStands(leaf: Node, t: string, n: nat)
    requires n <= |t|
    requires Spelled(leaf, t[n..]) || (leaf.Regex? && t[..n] == "RegExp") || (leaf.Double? && t[..n] == "Double")
    ensures Spelled(leaf, t)
  {
    RestIsEnd(t, n);
    if Spelled(leaf, t[n..]) {
      SpelledBehind(leaf, t[n..], t);
    } else {
      assert t[..n] <= t;
    }
  }

  // Where a value may end in a document.
  predicate Followed(t: string) {
    && Delimited(t)
    && Skip(t).Some?
    && (Skip(t).value == "" || Skip(t).value[0] in ",]})")
  }

  // A text from its first character that is no blank.
  function Bare(v: string): (r: string)
    ensures r == "" || !IsSpace(r[0])
    ensures r == v || (v != "" && IsSpace(v[0]))
  {
    if v != "" && IsSpace(v[0]) then Bare(v[1..]) else v
  }

  // Bare text that may be passed over, or begin something that is not a number or a pattern: an empty
  // pattern, one that begins with a slash or star, and for a double, behind its blanks, a slash, a brace, or
  // a word with something behind it.
  predicate OpensOther(node: Node) {
    match node
    case Regex(p, _) => p == "" || p[0] == '/' || p[0] == '*'
    case Double(v) =>
      var u := Bare(v);
      u != "" && (u[0] == '/' || u[0] == '{' || (IsStart(u[0]) && (u == "new" || !AllAre(u[1..], IsPart))))
    case _ => false
  }

  // The first bare text in the document that is not read as such opens nothing else, or nothing that is
  // written from there on spells its value.
  predicate Steady(env: Env, node: Node, indent: nat, step: nat, t: string)
    decreases node, 1
  {
    match node
    case Object(entries) => EntriesSteady(env, entries, indent + step, step, indent, t)
    case Array(items) => ItemsSteady(env, items, indent + step, step, indent, t)
    case _ => OpensOther(node) ==> !Spelled(node, Format(node, indent, step) + t)
  }

  predicate EntriesSteady(env: Env, entries: seq<Entry>, inner: nat, step: nat, indent: nat, t: string)
    decreases entries, 0
  {
    |entries| > 0 ==>
      if Readable(env, entries[0].value) then EntriesSteady(env, entries[1..], inner, step, indent, t)
      else Steady(env, entries[0].value, inner, step, AfterEntry(entries, inner, step, indent, t))
  }

  predicate ItemsSteady(env: Env, items: seq<Node>, inner: nat, step: nat, indent: nat, t: string)
    decreases items, 0
  {
    |items| > 0 ==>
      if Readable(env, items[0]) then ItemsSteady(env, items[1..], inner, step, indent, t)
      else Steady(env, items[0], inner, step, AfterItem(items, inner, step, indent, t))
  }

  lemma {:induction false} BareSkipped(v: string, t: string)
    ensures Skip(v + t) == Skip(Bare(v) + t)
  {
    if v != "" && IsSpace(v[0]) {
      assert (v + t)[1..] == v[1..] + t;
      BareSkipped(v[1..], t);
    }
  }

  // What is read as a double where nothing else is opened is the text that stands there.
  lemma {:induction false} DoubleStands(env: Env, v: string, t: string, depth: nat)
    requires Followed(t) && !OpensOther(Double(v)) && Bare(v) == v
    ensures var r := ParseValue(env, v + t, depth);
            r.Good? && r.value.Double? ==>
              r.value.v != "" && !IsSpace(r.value.v[0]) && (r.value.v == v ==> IsInteger(v) || IsDoubleText(env, v))
  {
    hide ParseEntries, FromExtendedJson, ParseItems, ParseWord, RegexBody, StringBody, NumberLength, IsInteger, NumberNode;
    if depth > MAX_DEPTH {
    } else if v == "" {
      assert v + t == t;
    } else if IsStart(v[0]) {
      WordBack(env, v, t, depth);
      WordLost(env, v, t, depth);
    } else {
      SkipSolid(v + t);
      var s := v + t;
      if (s[0] == '-' || IsDigit(s[0])) && NumberLength(s) > 0 {
        NumberStands(env, s[..NumberLength(s)]);
        if NumberNode(env, s[..NumberLength(s)]) == Some(Double(v)) {
          NumberIsText(env, v, t, NumberLength(s));
        }
      }
    }
  }

  lemma NumberStands(env: Env, s: string)
    ensures var node := NumberNode(env, s);
            node.Some? && node.value.Double? ==> node.value.v == s
  {
    hide IsInteger, FitsInt32, FitsInt64;
  }

  lemma {:induction false} DoubleLost(env: Env, v: string, t: string, depth: nat)
    requires Followed(t) && !OpensOther(Double(v)) && !IsInteger(v) && !IsDoubleText(env, v)
    ensures var r := ParseValue(env, v + t, depth);
            r.Good? ==> r.value != Double(v)
  {
    hide ParseValue, IsInteger, IsDoubleText, Skip;
    BareSkipped(v, t);
    BlanksDoNotMatter(env, v + t, Bare(v) + t, depth);
    BareTwice(v);
    DoubleStands(env, Bare(v), t, depth);
  }

  lemma BareTwice(v: string)
    ensures Bare(Bare(v)) == Bare(v)
  {
  }

  lemma WordLost(env: Env, w: string, t: string, depth: nat)
    requires Followed(t) && w != "new"
    ensures var r := ParseWord(env, w, t, depth);
            r.Good? && r.value.Double? ==> r.value.v == w && (w == "NaN" || w == "Infinity")
  {
    hide ParseConstructor;
    WordIsConstant(w, t);
  }

  lemma {:induction false} LeafLost(env: Env, leaf: Node, indent: nat, step: nat, t: string, depth: nat)
    requires IsLeaf(leaf) && Steady(env, leaf, indent, step, t) && !Readable(env, leaf) && Followed(t)
    ensures var r := ParseValue(env, Format(leaf, indent, step) + t, depth);
            r.Good? ==> r.value != leaf
  {
    hide ParseValue, FitsInt32, IsInteger, IsDoubleText, IsPattern, Skip, Spelled, Bare;
    var r := ParseValue(env, Format(leaf, indent, step) + t, depth);
    if OpensOther(leaf) {
      SpelledWhenRead(env, Format(leaf, indent, step) + t, depth);
    } else {
      match leaf
      case Int32(v) => IntegerLost(env, v, t, depth);
      case Double(v) => DoubleLost(env, v, t, depth);
      case Regex(p, f) =>
        if r.Good? && r.value == leaf {
          PatternRead(env, p, f, t, depth);
        }
    }
  }

  lemma AfterItemFollows(items: seq<Node>, inner: nat, step: nat, indent: nat, t: string)
    requires |items| > 0
    ensures Followed(AfterItem(items, inner, step, indent, t))
  {
    hide FormatItems, Closing;
    ClosingSkipped(indent, ']', t);
  }

  lemma AfterEntryFollows(entries: seq<Entry>, inner: nat, step: nat, indent: nat, t: string)
    requires |entries| > 0
    ensures Followed(AfterEntry(entries, inner, step, indent, t))
  {
    hide FormatEntries, Closing;
    ClosingSkipped(indent, '}', t);
  }

  // Blanks before the first of several items or fields do not matter.
  lemma BlanksBeforeMany(env: Env, s: string, t: string, depth: nat)
    requires Skip(s) == Skip(t)
    ensures ParseItems(env, s, depth) == ParseItems(env, t, depth)
    ensures ParseEntries(env, s, depth) == ParseEntries(env, t, depth)
  {
    hide ParseValue, Skip;
    BlanksDoNotMatter(env, s, t, depth + 1);
    assert ReadKey(s) == ReadKey(t);
  }

  lemma SeparatorNext(lines: string, close: char)
    requires close == ']' || close == '}'
    ensures Separator("," + ("\n" + lines), close) ==
            match Skip(lines)
            case None => Bad
            case Some(v) => if |v| > 0 && v[0] == close then Good(true, v[1..]) else Good(false, v)
  {
    hide Skip;
    var u := "," + ("\n" + lines);
    SkipSolid(u);
    assert u[1..] == "\n" + lines;
    SkipNewline(lines);
  }

  // One item and what the rest is read as.
  lemma {:induction false} ItemsLostLater(env: Env, s: string, value: Node, lines: string, items: seq<Node>, depth: nat)
    requires ParseValue(env, s, depth + 1) == Good(value, "," + ("\n" + lines))
    requires |items| > 1
    requires var r := ParseItems(env, lines, depth); r.Good? ==> r.value != items[1..]
    ensures var r := ParseItems(env, s, depth); r.Good? ==> r.value != items
  {
    hide ParseValue, Skip, Separator;
    SeparatorNext(lines, ']');
    SkipTwice(lines);
    if Skip(lines).Some? {
      BlanksBeforeMany(env, Skip(lines).value, lines, depth);
    }
  }

  lemma {:induction false} ItemsLost(
      env: Env, items: seq<Node>, inner: nat, step: nat, indent: nat, t: string, depth: nat)
    requires |items| > 0 && ItemsSteady(env, items, inner, step, indent, t)
    requires exists i :: 0 <= i < |items| && !Readable(env, items[i])
    ensures var r := ParseItems(env, FormatItems(items, inner, step) + Closing(indent, ']', t), depth);
            r.Good? ==> r.value != items
    decreases items, 0
  {
    hide ParseValue, Format, ParseItems, Steady, Readable, Skip, Closing, Spaces, Reread;
    var item := items[0];
    var more := AfterItem(items, inner, step, indent, t);
    var text := Format(item, inner, step) + more;
    AfterItemFollows(items, inner, step, indent, t);
    assert FormatItems(items, inner, step) + Closing(indent, ']', t) == Spaces(inner) + text;
    SkipSpaces(inner, text);
    BlanksBeforeMany(env, Spaces(inner) + text, text, depth);
    if Readable(env, item) {
      RereadBack(env, item, inner, step, more, depth + 1);
      var read := Reread(env, item, depth + 1);
      if read.Some? {
        var lines := FormatItems(items[1..], inner, step) + Closing(indent, ']', t);
        ItemsLost(env, items[1..], inner, step, indent, t, depth);
        ItemsLostLater(env, text, read.value, lines, items, depth);
      } else {
        NoFirstItem(env, text, depth);
      }
    } else {
      ValueLost(env, item, inner, step, more, depth + 1);
      FirstItem(env, text, depth);
    }
  }

  lemma NoFirstItem(env: Env, s: string, depth: nat)
    requires ParseValue(env, s, depth + 1) == Bad
    ensures ParseItems(env, s, depth) == Bad
  {
  }

  lemma FirstItem(env: Env, s: string, depth: nat)
    ensures var r := ParseItems(env, s, depth);
            r.Good? ==> ParseValue(env, s, depth + 1).Good? && r.value[0] == ParseValue(env, s, depth + 1).value
  {
    hide ParseValue, Separator;
  }

  // A field: its name, and whatever its value is read as.
  lemma {:induction false} EntryStart(env: Env, key: string, inner: nat, text: string, depth: nat)
    ensures ParseEntry(env, Spaces(inner) + (KeyText(key) + (": " + text)), depth) ==
            match ParseValue(env, text, depth + 1)
            case Bad => Bad
            case Good(value, rest) => Good(Entry(key, value), rest)
  {
    hide ParseValue, KeyText;
    var field := KeyText(key) + (": " + text);
    SkipSpaces(inner, field);
    assert ReadKey(Spaces(inner) + field) == ReadKey(field);
    assert ": " + text == ":" + (" " + text);
    KeyBack(key, " " + text);
    SkipSolid(":" + (" " + text));
    assert (":" + (" " + text))[1..] == " " + text;
    SkipSpace(text);
    BlanksDoNotMatter(env, " " + text, text, depth + 1);
  }

  lemma {:induction false} EntriesLostLater(env: Env, s: string, first: Entry, lines: string, entries: seq<Entry>, depth: nat)
    requires ParseEntry(env, s, depth) == Good(first, "," + ("\n" + lines))
    requires |entries| > 1
    requires var r := ParseEntries(env, lines, depth); r.Good? ==> r.value != entries[1..]
    ensures var r := ParseEntries(env, s, depth); r.Good? ==> r.value != entries
  {
    hide ParseEntry, Skip, Separator;
    SeparatorNext(lines, '}');
    SkipTwice(lines);
    if Skip(lines).Some? {
      BlanksBeforeMany(env, Skip(lines).value, lines, depth);
    }
  }

  lemma FirstEntry(env: Env, s: string, depth: nat)
    ensures var r := ParseEntries(env, s, depth);
            r.Good? ==> ParseEntry(env, s, depth).Good? && r.value[0] == ParseEntry(env, s, depth).value
  {
    hide ParseEntry, Separator;
  }

  lemma {:induction false} EntriesLost(
      env: Env, entries: seq<Entry>, inner: nat, step: nat, indent: nat, t: string, depth: nat)
    requires |entries| > 0 && EntriesSteady(env, entries, inner, step, indent, t)
    requires exists i :: 0 <= i < |entries| && !Readable(env, entries[i].value)
    ensures var r := ParseEntries(env, FormatEntries(entries, inner, step) + Closing(indent, '}', t), depth);
            r.Good? ==> r.value != entries
    decreases entries, 0
  {
    hide ParseValue, ParseEntry, Format, ParseEntries, Steady, Readable, Skip, Closing, Spaces, Reread, KeyText;
    var e := entries[0];
    var more := AfterEntry(entries, inner, step, indent, t);
    var text := Format(e.value, inner, step) + more;
    var field := Spaces(inner) + (KeyText(e.key) + (": " + text));
    AfterEntryFollows(entries, inner, step, indent, t);
    assert FormatEntries(entries, inner, step) + Closing(indent, '}', t) == field;
    EntryStart(env, e.key, inner, text, depth);
    FirstEntry(env, field, depth);
    if Readable(env, e.value) {
      RereadBack(env, e.value, inner, step, more, depth + 1);
      var read := Reread(env, e.value, depth + 1);
      if read.Some? {
        var lines := FormatEntries(entries[1..], inner, step) + Closing(indent, '}', t);
        EntriesLost(env, entries[1..], inner, step, indent, t, depth);
        EntriesLostLater(env, field, Entry(e.key, read.value), lines, entries, depth);
      }
    } else {
      ValueLost(env, e.value, inner, step, more, depth + 1);
    }
  }

  lemma {:induction false} ArrayLost(env: Env, lines: string, indent: nat, items: seq<Node>, t: string, depth: nat)
    requires items != []
    requires var r := ParseItems(env, lines + Closing(indent, ']', t), depth); r.Good? ==> r.value != items
    ensures var r := ParseValue(env, "[\n" + lines + "\n" + Spaces(indent) + "]" + t, depth);
            r.Good? ==> r.value != Array(items)
  {
    hide FromExtendedJson, ParseEntries, ParseItems, ParseWord, StringBody, RegexBody, NumberLength, NumberNode;
    var all := lines + Closing(indent, ']', t);
    var s := "[" + ("\n" + all);
    assert "[\n" + lines + "\n" + Spaces(indent) + "]" + t == s;
    SkipSolid(s);
    assert s[1..] == "\n" + all;
    SkipNewline(all);
    SkipTwice(all);
    if Skip(all).Some? {
      BlanksBeforeMany(env, Skip(all).value, all, depth);
    }
  }

  lemma {:induction false} ObjectLost(env: Env, lines: string, indent: nat, entries: seq<Entry>, t: string, depth: nat)
    requires entries != []
    requires var r := ParseEntries(env, lines + Closing(indent, '}', t), depth); r.Good? ==> r.value != entries
    ensures var r := ParseValue(env, "{\n" + lines + "\n" + Spaces(indent) + "}" + t, depth);
            r.Good? ==> r.value != Object(entries)
  {
    hide FromExtendedJson, ParseEntries, ParseItems, ParseWord, StringBody, RegexBody, NumberLength, NumberNode;
    var all := lines + Closing(indent, '}', t);
    var s := "{" + ("\n" + all);
    assert "{\n" + lines + "\n" + Spaces(indent) + "}" + t == s;
    SkipSolid(s);
    assert s[1..] == "\n" + all;
    SkipNewline(all);
    SkipTwice(all);
    if Skip(all).Some? {
      BlanksBeforeMany(env, Skip(all).value, all, depth);
      var r := ParseEntries(env, all, depth);
      if r.Good? {
        StaysObject(env, r.value, Object(entries));
      }
    }
  }

  // A steady document with a bare text that is not read as such is not read as itself.
  lemma {:induction false} ValueLost(env: Env, node: Node, indent: nat, step: nat, t: string, depth: nat)
    requires Steady(env, node, indent, step, t) && !Readable(env, node) && Followed(t)
    ensures var r := ParseValue(env, Format(node, indent, step) + t, depth);
            r.Good? ==> r.value != node
    decreases node, 1
  {
    hide ParseValue, ParseItems, ParseEntries, FormatItems, FormatEntries;
    match node
    case Object(entries) =>
      var lines := FormatEntries(entries, indent + step, step);
      EntriesLost(env, entries, indent + step, step, indent, t, depth);
      ObjectLost(env, lines, indent, entries, t, depth);
    case Array(items) =>
      var lines := FormatItems(items, indent + step, step);
      ItemsLost(env, items, indent + step, step, indent, t, depth);
      ArrayLost(env, lines, indent, items, t, depth);
    case _ =>
      hide Format, Readable, Steady;
      LeafLost(env, node, indent, step, t, depth);
  }

  lemma {:induction false} DocumentRead(env: Env, s: string, node: Node)
    ensures ParseDocument(env, s) == Some(node) ==> ParseValue(env, s, 0).Good? && ParseValue(env, s, 0).value == node
    ensures ParseValue(env, s, 0) == Good(node, "") ==> ParseDocument(env, s) == Some(node)
  {
    hide ParseValue;
  }

  // A document that is one leaf has no text to spare.
  lemma {:induction false} LeafTaken(env: Env, leaf: Node, indent: nat, step: nat)
    requires IsLeaf(leaf) && !Readable(env, leaf)
    ensures ParseDocument(env, Format(leaf, indent, step)) != Some(leaf)
  {
    hide ParseValue, Readable, Canonical, ParseDocument;
    var s := Format(leaf, indent, step);
    assert s + "" == s;
    DocumentRead(env, s, leaf);
    var r := ParseValue(env, s, 0);
    if r.Good? && r.value == leaf {
      ValueCost(env, s, 0);
      CostIsLength(env, leaf, indent, step);
      assert r.rest == "";
      LeafComesBack(env, leaf, indent, step, "", 0);
    }
  }

  lemma CostIsLength(env: Env, leaf: Node, indent: nat, step: nat)
    requires IsLeaf(leaf) && !Readable(env, leaf)
    ensures Cost(leaf) == |Format(leaf, indent, step)|
  {
    hide IsPattern, IsDoubleText, FitsInt32, IsInteger;
  }

  /**
   Parsing undoes printing. At every indentation, a document whose bare texts are read as such and that
   is canonical comes back. No other document does, unless the first bare text that is not read as such
   opens something else and the text from there on spells a constructor or key that could give its value.
   */
  lemma {:induction false} ParseUndoesFormat(env: Env, node: Node, indent: nat, step: nat)
    ensures Readable(env, node) && Canonical(env, node, 0) ==> ParseDocument(env, Format(node, indent, step)) == Some(node)
    ensures Steady(env, node, indent, step, "") || IsLeaf(node) ==>
            (ParseDocument(env, Format(node, indent, step)) == Some(node) <==> Readable(env, node) && Canonical(env, node, 0))
  {
    hide ParseValue, Format, Readable, Canonical, Reread, Steady, ParseDocument;
    var s := Format(node, indent, step);
    assert s + "" == s;
    DocumentRead(env, s, node);
    if Readable(env, node) {
      RereadBack(env, node, indent, step, "", 0);
      RereadItself(env, node, 0);
    } else if IsLeaf(node) {
      LeafTaken(env, node, indent, step);
    } else if Steady(env, node, indent, step, "") {
      ValueLost(env, node, indent, step, "", 0);
    }
  }

  /* ---------- Texts the editor reads, holds, and does not read again ---------- */

  lemma {:induction false} ExtendedRead(env: Env, key: string, v: string, indent: nat, step: nat)
    requires key == "$numberInt" || key == "$numberDouble"
    ensures ParseDocument(env, Format(Object([Entry(key, Text(v))]), indent, step)) ==
            FromExtendedJson(env, [Entry(key, Text(v))])
  {
    hide ParseValue, Format, FromExtendedJson;
    var entries := [Entry(key, Text(v))];
    var s := Format(Object(entries), indent, step);
    assert s + "" == s;
    RereadBack(env, Object(entries), indent, step, "", 0);
    assert entries[1..] == [];
    assert RereadEntries(env, entries[1..], 1) == Some([]);
    assert RereadEntries(env, entries, 1) == Some([Entry(key, Text(v))] + []);
    assert [Entry(key, Text(v))] + [] == entries;
  }

  // An integer beyond 32 bits that extended JSON calls one of 32 bits.
  lemma {:induction false} WideIntegerLost(env: Env, v: string, indent: nat, step: nat)
    requires IsInteger(v) && !FitsInt32(v)
    ensures ParseDocument(env, Format(Object([Entry("$numberInt", Text(v))]), indent, step)) == Some(Int32(v))
    ensures ParseDocument(env, Format(Int32(v), indent, step)) != Some(Int32(v))
  {
    hide ParseDocument, Format, IntegerOf;
    ExtendedRead(env, "$numberInt", v, indent, step);
    ParseUndoesFormat(env, Int32(v), indent, step);
  }

  lemma NinesLost(env: Env, indent: nat, step: nat)
    ensures var v := "99999999999";
            && ParseDocument(env, Format(Object([Entry("$numberInt", Text(v))]), indent, step)) == Some(Int32(v))
            && ParseDocument(env, Format(Int32(v), indent, step)) != Some(Int32(v))
  {
    hide ParseDocument, Format;
    var v := "99999999999";
    assert Digits(99999999999) == v;
    DigitsRead(99999999999);
    WideIntegerLost(env, v, indent, step);
  }

  // A double without a digit before its point.
  lemma {:induction false} LeadingDotLost(env: Env, indent: nat, step: nat)
    ensures ParseDocument(env, Format(Object([Entry("$numberDouble", Text(".5"))]), indent, step)) == Some(Double(".5"))
    ensures ParseDocument(env, Format(Double(".5"), indent, step)) != Some(Double(".5"))
  {
    hide ParseDocument, Format;
    ExtendedRead(env, "$numberDouble", ".5", indent, step);
    ParseUndoesFormat(env, Double(".5"), indent, step);
  }

  // An empty pattern is written as a line comment.
  lemma EmptyPatternLost(env: Env, indent: nat, step: nat)
    ensures ParseDocument(env, Format(Regex("", ""), indent, step)) == None
  {
    assert Format(Regex("", ""), indent, step) == "//";
    assert "//"[2..] == "";
    assert Skip("//") == Some("");
  }

  // A pattern that starts with a star is written as a comment that is never closed.
  lemma StarPatternLost(env: Env, indent: nat, step: nat)
    ensures ParseDocument(env, Format(Regex("*", ""), indent, step)) == None
  {
    assert Format(Regex("*", ""), indent, step) == "/*/";
    assert "/*/"[2..] == "/";
    assert Skip("/*/") == None;
  }

  // A slash inside a pattern ends it.
  lemma SlashPatternCut(env: Env, indent: nat, step: nat)
    ensures ParseDocument(env, Format(Regex("a/b", ""), indent, step)) == None
  {
    var s := "/a/b/";
    assert Format(Regex("a/b", ""), indent, step) == s;
    SkipSolid(s);
    assert s[1..] == "a/b/" && "a/b/"[1..] == "/b/" && "/b/"[1..] == "b/" && "b/"[1..] == "/" && "b/"[..1] == "b";
    assert RegexBody("/b/") == Good("", "b/");
    assert ['a'] + "" == "a";
    assert RegexBody("a/b/") == Good("a", "b/");
    assert Span("/", IsFlag) == 0;
    assert Span("b/", IsFlag) == 1;
    assert ParseValue(env, s, 0) == Good(Regex("a", "b"), "/");
    assert Skip("/") == Some("/");
  }

  lemma NumberUnread(env: Env, s: string)
    requires |s| > 0 && s[0] == '-' && NumberLength(s) == 0
    ensures ParseValue(env, s, 0) == Bad
  {
    hide ParseEntries, ParseItems, ParseWord, StringBody, RegexBody, NumberNode, FromExtendedJson, NumberLength;
    SkipSolid(s);
  }

  // Minus infinity is no number to the reader.
  lemma MinusInfinityLost(env: Env, indent: nat, step: nat)
    ensures ParseDocument(env, Format(Double("-Infinity"), indent, step)) == None
  {
    hide ParseValue, ExponentLength;
    var s := "-Infinity";
    assert s[1..] == "Infinity";
    assert PlainLength("Infinity") == 0;
    NumberUnread(env, s);
  }
}

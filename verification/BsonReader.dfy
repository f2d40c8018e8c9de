/**
 The reader as the source runs it: one object whose index moves through the text. Every method is
 proved to do what the function of the same name in `BsonDocument` says of the text still to be
 read; a failed read (the source throws) is reported by the result.
 */
module BsonReader {
  import opened Wrappers
  import opened Letters
  import opened Numerals
  import opened BsonDocument
  import opened BsonDocumentRoundTrip

  class Reader {
    const text: string
    var index: nat

    constructor (text: string)
      ensures this.text == text && index == 0
    {
      this.text := text;
      index := 0;
    }

    ghost predicate Valid()
      reads this
    {
      index <= |text|
    }

    // The text still to be read.
    function Rest(): string
      requires Valid()
      reads this
    {
      text[index..]
    }

    method SkipBlanks() returns (ok: bool)
      requires Valid()
      modifies this`index
      ensures Valid() && index >= old(index)
      ensures ok == Skip(old(Rest())).Some?
      ensures ok ==> Rest() == Skip(old(Rest())).value
    {
      ghost var start := Rest();
      while true
        invariant Valid() && index >= old(index)
        invariant Skip(start) == Skip(Rest())
        decreases |text| - index
      {
        if index < |text| && IsSpace(text[index]) {
          index := index + 1;
        } else if index + 1 < |text| && text[index] == '/' && text[index + 1] == '/' {
          ghost var s := Rest();
          index := index + 2;
          assert s[2..] == Rest();
          LineEnd();
        } else if index + 1 < |text| && text[index] == '/' && text[index + 1] == '*' {
          ghost var s := Rest();
          index := index + 2;
          assert s[2..] == Rest();
          var closed := CommentEnd();
          if !closed {
            return false;
          }
        } else {
          return true;
        }
      }
    }

    method LineEnd()
      requires Valid()
      modifies this`index
      ensures Valid() && index >= old(index) && Rest() == AfterLine(old(Rest()))
    {
      ghost var start := Rest();
      while index < |text| && text[index] != '\n'
        invariant Valid() && index >= old(index)
        invariant AfterLine(start) == AfterLine(Rest())
      {
        assert Rest()[1..] == text[index + 1..];
        index := index + 1;
      }
    }

    method CommentEnd() returns (closed: bool)
      requires Valid()
      modifies this`index
      ensures Valid() && index >= old(index)
      ensures closed == AfterComment(old(Rest())).Some?
      ensures closed ==> Rest() == AfterComment(old(Rest())).value
    {
      ghost var start := Rest();
      while index + 1 < |text|
        invariant Valid() && index >= old(index)
        invariant AfterComment(start) == AfterComment(Rest())
        decreases |text| - index
      {
        if text[index] == '*' && text[index + 1] == '/' {
          assert Rest()[2..] == text[index + 2..];
          index := index + 2;
          return true;
        }
        assert Rest()[1..] == text[index + 1..];
        index := index + 1;
      }
      return false;
    }

    // Skips blanks and tells the next character.
    method Peek() returns (ok: bool, c: Option<char>)
      requires Valid()
      modifies this`index
      ensures Valid() && index >= old(index)
      ensures ok == Skip(old(Rest())).Some?
      ensures ok ==> Rest() == Skip(old(Rest())).value
      ensures ok ==> c == if |Rest()| > 0 then Some(Rest()[0]) else None
    {
      ok := SkipBlanks();
      c := if index < |text| then Some(text[index]) else None;
    }

    method ExpectChar(c: char) returns (ok: bool)
      requires Valid()
      modifies this`index
      ensures Valid() && index >= old(index)
      ensures ok == Expect(old(Rest()), c).Good?
      ensures ok ==> index > old(index) && Rest() == Expect(old(Rest()), c).rest
    {
      ok := SkipBlanks();
      if !ok || index == |text| || text[index] != c {
        return false;
      }
      index := index + 1;
    }

    // A string; the index stands on its opening quote.
    method ReadString() returns (r: Option<string>)
      requires Valid() && |Rest()| > 0
      modifies this`index
      ensures Valid() && index > old(index)
      ensures var spec := StringBody(old(Rest())[1..], old(Rest())[0]);
              match spec { case Bad => r == None case Good(v, rest) => r == Some(v) && Rest() == rest }
    {
      var quote := text[index];
      index := index + 1;
      ghost var start := Rest();
      assert start == old(Rest())[1..];
      var out := "";
      assert StringBody(start, quote).Good? ==> out + StringBody(start, quote).value == StringBody(start, quote).value;
      while true
        invariant Valid() && index > old(index)
        invariant start == old(Rest())[1..]
        invariant StringBody(start, quote) ==
                  match StringBody(Rest(), quote) { case Bad => Bad case Good(v, rest) => Good(out + v, rest) }
        decreases |text| - index
      {
        ghost var here := Rest();
        if index == |text| {
          return None;
        }
        var c := text[index];
        index := index + 1;
        assert Rest() == here[1..];
        if c == quote {
          assert out + "" == out;
          return Some(out);
        }
        if c != '\\' {
          Joined(out, c, Rest(), quote);
          out := out + [c];
          continue;
        }
        var e := ReadEscape();
        if e.None? {
          return None;
        }
        Joined(out, e.value, Rest(), quote);
        out := out + [e.value];
      }
    }

    lemma Joined(out: string, c: char, s: string, quote: char)
      ensures StringBody(s, quote).Good? ==>
                (out + [c]) + StringBody(s, quote).value == out + ([c] + StringBody(s, quote).value)
    {
    }

    method ReadEscape() returns (r: Option<char>)
      requires Valid()
      modifies this`index
      ensures Valid() && index >= old(index)
      ensures match Escape(old(Rest())) { case Bad => r == None case Good(c, rest) => r == Some(c) && Rest() == rest }
    {
      ghost var here := Rest();
      if index == |text| {
        return None;
      }
      var e := text[index];
      index := index + 1;
      assert Rest() == here[1..];
      match e
      case 'n' => return Some('\n');
      case 't' => return Some('\t');
      case 'r' => return Some('\r');
      case 'b' => return Some('\U{0008}');
      case 'f' => return Some('\U{000c}');
      case '/' => return Some('/');
      case '\\' => return Some('\\');
      case '\"' => return Some('\"');
      case '\'' => return Some('\'');
      case 'u' =>
        if |text| - index < 4 || !AllAre(text[index..index + 4], IsHex) {
          assert |here| >= 5 ==> here[1..5] == text[index..index + 4];
          return None;
        }
        var hex := text[index..index + 4];
        assert here[1..5] == hex;
        var c := UnicodeChar(4096 * HexValue(hex[0]) + 256 * HexValue(hex[1]) + 16 * HexValue(hex[2]) + HexValue(hex[3]));
        index := index + 4;
        assert Rest() == here[5..];
        return c;
      case _ => return None;
    }

    // Moves past the characters that have a property.
    method Take(p: char -> bool)
      requires Valid()
      modifies this`index
      ensures Valid() && index == old(index) + Span(old(Rest()), p)
    {
      ghost var start := Rest();
      while index < |text| && p(text[index])
        invariant Valid() && index >= old(index)
        invariant Span(start, p) == index - old(index) + Span(Rest(), p)
      {
        assert Rest()[1..] == text[index + 1..];
        index := index + 1;
      }
    }

    method Key() returns (r: Option<string>)
      requires Valid()
      modifies this`index
      ensures Valid() && index >= old(index)
      ensures match ReadKey(old(Rest()))
              case Bad => r == None
              case Good(key, rest) => r == Some(key) && index > old(index) && Rest() == rest
    {
      hide StringBody, Span, Skip;
      var ok, c := Peek();
      if !ok || c.None? {
        return None;
      }
      ghost var t := Rest();
      var start := index;
      if c.value == '\"' || c.value == '\'' {
        r := ReadString();
      } else if IsStart(c.value) {
        index := index + 1;
        assert Rest() == t[1..];
        Take(IsPart);
        assert Rest() == t[index - start..] && text[start..index] == t[..index - start];
        return Some(text[start..index]);
      } else if IsDigit(c.value) {
        index := index + 1;
        assert Rest() == t[1..];
        Take(IsKeyDigit);
        assert Rest() == t[index - start..] && text[start..index] == t[..index - start];
        return Some(text[start..index]);
      } else {
        return None;
      }
    }

    // The outcome of a read that should do what a function of the text says.
    ghost predicate Did<T>(r: Option<T>, spec: Parsed<T>)
      requires Valid()
      reads this
    {
      match spec
      case Bad => r == None
      case Good(v, rest) => r == Some(v) && Rest() == rest
    }

    method Value(env: Env, depth: nat) returns (r: Option<Node>)
      requires Valid()
      modifies this`index
      ensures Valid() && index >= old(index) && Did(r, ParseValue(env, old(Rest()), depth))
      decreases |text| - index, 3
    {
      hide Skip, ParseEntries, ParseItems, ParseConstructor, ParseWord, StringBody, RegexBody, NumberLength, NumberNode,
           FromExtendedJson, Span;
      if depth > MAX_DEPTH {
        return None;
      }
      var ok, c := Peek();
      if !ok || c.None? {
        return None;
      }
      if c.value == '{' {
        r := ObjectValue(env, depth);
      } else if c.value == '[' {
        r := ArrayValue(env, depth);
      } else if c.value == '\"' || c.value == '\'' {
        var v := ReadString();
        r := if v.Some? then Some(Text(v.value)) else None;
      } else if c.value == '/' {
        r := RegexValue();
      } else if c.value == '-' || IsDigit(c.value) {
        r := NumberValue(env);
      } else if IsStart(c.value) {
        r := WordValue(env, depth);
      } else {
        return None;
      }
    }

    method NumberValue(env: Env) returns (r: Option<Node>)
      requires Valid() && |Rest()| > 0
      modifies this`index
      ensures Valid() && index >= old(index)
      ensures var t := old(Rest());
              var n := NumberLength(t);
              var node := if n > 0 then NumberNode(env, t[..n]) else None;
              Did(r, if node.Some? then Good(node.value, t[n..]) else Bad)
    {
      var t := text[index..];
      var n := NumberLength(t);
      if n == 0 {
        return None;
      }
      index := index + n;
      assert Rest() == t[n..];
      r := NumberNode(env, t[..n]);
    }

    method RegexValue() returns (r: Option<Node>)
      requires Valid() && |Rest()| > 0
      modifies this`index
      ensures Valid() && index >= old(index)
      ensures Did(r, match RegexBody(old(Rest())[1..])
                     case Bad => Bad
                     case Good(pattern, rest) => Good(Regex(pattern, rest[..Span(rest, IsFlag)]), rest[Span(rest, IsFlag)..]))
    {
      ghost var here := Rest();
      index := index + 1;
      assert Rest() == here[1..];
      var pattern := Pattern();
      if pattern.None? {
        return None;
      }
      ghost var rest := Rest();
      var flagsStart := index;
      Take(IsFlag);
      assert text[flagsStart..index] == rest[..index - flagsStart] && Rest() == rest[index - flagsStart..];
      r := Some(Regex(pattern.value, text[flagsStart..index]));
    }

    method Pattern() returns (r: Option<string>)
      requires Valid()
      modifies this`index
      ensures Valid() && index >= old(index) && Did(r, RegexBody(old(Rest())))
    {
      ghost var start := Rest();
      var pattern := "";
      PrefixNothing(RegexBody(start));
      while true
        invariant Valid() && index >= old(index)
        invariant RegexBody(start) == Prefixed(pattern, RegexBody(Rest()))
        decreases |text| - index
      {
        hide RegexBody;
        ghost var here, before := Rest(), pattern;
        if index == |text| {
          RegexEnds(here);
          return None;
        }
        var c := text[index];
        index := index + 1;
        assert Rest() == here[1..];
        if c == '/' {
          RegexEnds(here);
          assert pattern + "" == pattern;
          return Some(pattern);
        }
        RegexStep(here);
        pattern := pattern + [c];
        if c == '\\' && index < |text| {
          pattern := pattern + [text[index]];
          index := index + 1;
          assert Rest() == here[2..] && pattern == before + here[..2];
          PrefixTwice(before, here[..2], RegexBody(Rest()));
        } else {
          PrefixTwice(before, [c], RegexBody(Rest()));
        }
      }
    }

    lemma PrefixNothing(r: Parsed<string>)
      ensures Prefixed("", r) == r
    {
      if r.Good? {
        assert "" + r.value == r.value;
      }
    }

    lemma PrefixTwice(a: string, b: string, r: Parsed<string>)
      ensures Prefixed(a, Prefixed(b, r)) == Prefixed(a + b, r)
    {
      if r.Good? {
        assert a + (b + r.value) == (a + b) + r.value;
      }
    }

    lemma RegexEnds(s: string)
      ensures |s| == 0 ==> RegexBody(s) == Bad
      ensures |s| > 0 && s[0] == '/' ==> RegexBody(s) == Good("", s[1..])
    {
    }

    method WordValue(env: Env, depth: nat) returns (r: Option<Node>)
      requires Valid() && |Rest()| > 0 && IsStart(Rest()[0])
      modifies this`index
      ensures Valid() && index >= old(index)
      ensures var t := old(Rest());
              var n := 1 + Span(t[1..], IsPart);
              Did(r, ParseWord(env, t[..n], t[n..], depth))
      decreases |text| - index, 2
    {
      hide Skip, ParseConstructor, ParseValue, Span;
      ghost var t := Rest();
      var start := index;
      index := index + 1;
      assert Rest() == t[1..];
      Take(IsPart);
      ghost var n := 1 + Span(t[1..], IsPart);
      var word := text[start..index];
      assert word == t[..n] && Rest() == t[n..];
      var after := index;
      if word == "new" {
        var ok, c := Peek();
        if !ok {
          return None;
        }
        if c.Some? {
          SkipTwice(t[n..]);
          r := Value(env, depth + 1);
          return;
        }
        return None;
      }
      var simple := SimpleWord(word, "");
      if simple.Good? {
        assert SimpleWord(word, t[n..]) == Good(simple.value, t[n..]);
        return Some(simple.value);
      }
      assert SimpleWord(word, t[n..]).Bad?;
      var ok, c := Peek();
      if !ok || c != Some('(') {
        return None;
      }
      r := ConstructorValue(env, word, depth);
    }

    // The index stands on the opening parenthesis.
    method ConstructorValue(env: Env, name: string, depth: nat) returns (r: Option<Node>)
      requires Valid() && |Rest()| > 0
      modifies this`index
      ensures Valid() && index >= old(index) && Did(r, ParseConstructor(env, name, old(Rest())[1..], depth))
      decreases |text| - index, 1
    {
      hide Skip, Construct, ParseValue, ParseArgs;
      ghost var here := Rest();
      index := index + 1;
      assert Rest() == here[1..];
      var args: seq<Node> := [];
      var ok, c := Peek();
      if !ok {
        return None;
      }
      if c != Some(')') {
        var read := Args(env, depth);
        if read.None? {
          return None;
        }
        args := read.value;
      }
      var closed := ExpectChar(')');
      if !closed {
        return None;
      }
      r := Construct(env, name, args);
    }

    method Args(env: Env, depth: nat) returns (r: Option<seq<Node>>)
      requires Valid()
      modifies this`index
      ensures Valid() && index >= old(index) && Did(r, ParseArgs(env, old(Rest()), depth))
      decreases |text| - index, 4
    {
      hide Skip, ParseValue;
      ghost var start := Rest();
      var args: seq<Node> := [];
      assert ParseArgs(env, start, depth).Good? ==> args + ParseArgs(env, start, depth).value == ParseArgs(env, start, depth).value;
      while true
        invariant Valid() && index >= old(index)
        invariant ParseArgs(env, start, depth) ==
                  match ParseArgs(env, Rest(), depth) { case Bad => Bad case Good(v, rest) => Good(args + v, rest) }
        decreases |text| - index
      {
        ghost var here := Rest();
        var arg := Value(env, depth + 1);
        if arg.None? {
          return None;
        }
        ghost var before := args;
        args := args + [arg.value];
        var ok, c := Peek();
        if !ok {
          return None;
        }
        if c == Some(',') {
          ghost var comma := Rest();
          index := index + 1;
          assert Rest() == comma[1..];
          assert ParseArgs(env, Rest(), depth).Good? ==>
            before + ([arg.value] + ParseArgs(env, Rest(), depth).value) == args + ParseArgs(env, Rest(), depth).value;
          continue;
        }
        return Some(args);
      }
    }

    // The index stands on the opening bracket.
    method ArrayValue(env: Env, depth: nat) returns (r: Option<Node>)
      requires Valid() && |Rest()| > 0
      modifies this`index
      ensures Valid() && index >= old(index)
      ensures Did(r, match Skip(old(Rest())[1..])
                     case None => Bad
                     case Some(u) =>
                       if |u| > 0 && u[0] == ']' then Good(Array([]), u[1..])
                       else match ParseItems(env, u, depth)
                         case Bad => Bad
                         case Good(items, rest) => Good(Array(items), rest))
      decreases |text| - index, 2
    {
      hide Skip, ParseValue;
      ghost var here := Rest();
      index := index + 1;
      assert Rest() == here[1..];
      var ok, c := Peek();
      if !ok {
        return None;
      }
      ghost var start := Rest();
      if c == Some(']') {
        index := index + 1;
        assert Rest() == start[1..];
        return Some(Array([]));
      }
      var items := Items(env, depth);
      r := if items.Some? then Some(Array(items.value)) else None;
    }

    method ReadSeparator(close: char) returns (r: Option<bool>)
      requires Valid() && close != ','
      modifies this`index
      ensures Valid() && index >= old(index) && Did(r, Separator(old(Rest()), close))
      ensures r.Some? ==> index > old(index)
    {
      hide Skip;
      var ok, c := Peek();
      if !ok {
        return None;
      }
      ghost var next := Rest();
      if c == Some(',') {
        index := index + 1;
        assert Rest() == next[1..];
        ok, c := Peek();
        if !ok {
          return None;
        }
        next := Rest();
        if c == Some(close) {
          index := index + 1;
          assert Rest() == next[1..];
          return Some(true);
        }
        return Some(false);
      }
      if c == Some(close) {
        index := index + 1;
        assert Rest() == next[1..];
        return Some(true);
      }
      return None;
    }

    method Items(env: Env, depth: nat) returns (r: Option<seq<Node>>)
      requires Valid()
      modifies this`index
      ensures Valid() && index >= old(index) && Did(r, ParseItems(env, old(Rest()), depth))
      decreases |text| - index, 4
    {
      hide ParseValue, Separator;
      ghost var start := Rest();
      var items: seq<Node> := [];
      assert ParseItems(env, start, depth).Good? ==> items + ParseItems(env, start, depth).value == ParseItems(env, start, depth).value;
      while true
        invariant Valid() && index >= old(index)
        invariant ParseItems(env, start, depth) ==
                  match ParseItems(env, Rest(), depth) { case Bad => Bad case Good(v, rest) => Good(items + v, rest) }
        decreases |text| - index
      {
        var item := Value(env, depth + 1);
        if item.None? {
          return None;
        }
        ghost var before := items;
        items := items + [item.value];
        var closed := ReadSeparator(']');
        if closed.None? {
          return None;
        }
        if closed.value {
          return Some(items);
        }
        assert ParseItems(env, Rest(), depth).Good? ==>
          before + ([item.value] + ParseItems(env, Rest(), depth).value) == items + ParseItems(env, Rest(), depth).value;
      }
    }

    // The index stands on the opening brace.
    method ObjectValue(env: Env, depth: nat) returns (r: Option<Node>)
      requires Valid() && |Rest()| > 0
      modifies this`index
      ensures Valid() && index >= old(index)
      ensures Did(r, match Skip(old(Rest())[1..])
                     case None => Bad
                     case Some(u) =>
                       if |u| > 0 && u[0] == '}' then Good(Object([]), u[1..])
                       else match ParseEntries(env, u, depth)
                         case Bad => Bad
                         case Good(entries, rest) =>
                           var node := FromExtendedJson(env, entries);
                           if node.Some? then Good(node.value, rest) else Bad)
      decreases |text| - index, 2
    {
      hide Skip, ParseValue, ReadKey, Expect, FromExtendedJson;
      ghost var here := Rest();
      index := index + 1;
      assert Rest() == here[1..];
      var ok, c := Peek();
      if !ok {
        return None;
      }
      ghost var start := Rest();
      if c == Some('}') {
        index := index + 1;
        assert Rest() == start[1..];
        return Some(Object([]));
      }
      var entries := Entries(env, depth);
      if entries.None? {
        return None;
      }
      r := FromExtendedJson(env, entries.value);
    }

    method Field(env: Env, depth: nat) returns (r: Option<Entry>)
      requires Valid()
      modifies this`index
      ensures Valid() && index >= old(index) && Did(r, ParseEntry(env, old(Rest()), depth))
      ensures r.Some? ==> index > old(index)
      decreases |text| - index, 4
    {
      hide ParseValue, ReadKey, Expect;
      var key := Key();
      if key.None? {
        return None;
      }
      var colon := ExpectChar(':');
      if !colon {
        return None;
      }
      var value := Value(env, depth + 1);
      r := if value.Some? then Some(Entry(key.value, value.value)) else None;
    }

    method Entries(env: Env, depth: nat) returns (r: Option<seq<Entry>>)
      requires Valid()
      modifies this`index
      ensures Valid() && index >= old(index) && Did(r, ParseEntries(env, old(Rest()), depth))
      decreases |text| - index, 5
    {
      hide ParseEntry, Separator;
      ghost var start := Rest();
      var entries: seq<Entry> := [];
      assert ParseEntries(env, start, depth).Good? ==>
        entries + ParseEntries(env, start, depth).value == ParseEntries(env, start, depth).value;
      while true
        invariant Valid() && index >= old(index)
        invariant ParseEntries(env, start, depth) ==
                  match ParseEntries(env, Rest(), depth) { case Bad => Bad case Good(v, rest) => Good(entries + v, rest) }
        decreases |text| - index
      {
        var entry := Field(env, depth);
        if entry.None? {
          return None;
        }
        ghost var before := entries;
        entries := entries + [entry.value];
        var closed := ReadSeparator('}');
        if closed.None? {
          return None;
        }
        if closed.value {
          return Some(entries);
        }
        assert ParseEntries(env, Rest(), depth).Good? ==>
          before + ([entry.value] + ParseEntries(env, Rest(), depth).value) == entries + ParseEntries(env, Rest(), depth).value;
      }
    }
  }

  // Reads one document and nothing after it.
  method ReadDocument(env: Env, text: string) returns (r: Option<Node>)
    ensures r == ParseDocument(env, text)
  {
    var reader := new Reader(text);
    assert reader.Rest() == text;
    var node := reader.Value(env, 0);
    if node.None? {
      return None;
    }
    var ok := reader.SkipBlanks();
    if !ok || reader.index < |text| {
      return None;
    }
    r := node;
  }
}

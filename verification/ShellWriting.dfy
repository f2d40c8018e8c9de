/**
 What the editor prints for a document: each value in the one spelling that keeps its type, strings as short
 as they can be without control characters, and each field and item on its own line, indented by its depth.
 */
module ShellWriting {
  import opened Wrappers
  import opened Numerals
  import opened BsonDocument
  import opened ShellGrammar
  import opened ShellValues

  /* ---------- Strings ---------- */

  // No control character, which has to be escaped.
  predicate IsPrintable(s: string) {
    forall i :: 0 <= i < |s| ==> s[i] as int >= 32
  }

  // A string between double quotes, with no spelling shorter.
  ghost predicate IsPrintedText(q: string, v: string) {
    exists body ::
      && q == "\"" + body + "\"" && IsBody(body, '\"', v) && IsPrintable(body)
      && forall other :: IsBody(other, '\"', v) && IsPrintable(other) ==> |body| <= |other|
  }

  // A character that cannot stand for itself in a printed string.
  predicate NeedsEscape(c: char) {
    c as int < 32 || c == '\"' || c == '\\'
  }

  function EscapeLength(c: char): nat {
    if !NeedsEscape(c) then 1
    else if c == '\"' || c == '\\' || c == '\n' || c == '\t' || c == '\r' || c as int == 8 || c as int == 12 then 2
    else 6
  }

  function LengthOf(v: string): nat {
    if v == "" then 0 else EscapeLength(v[0]) + LengthOf(v[1..])
  }

  // Every spelling of a string has at least that length.
  lemma {:induction false} NoShorter(body: string, v: string)
    requires IsBody(body, '\"', v) && IsPrintable(body)
    ensures |body| >= LengthOf(v)
    decreases |body|
  {
    hide IsUnicode;
    if body != "" {
      if body[0] != '\\' {
        NoShorter(body[1..], v[1..]);
      } else if body[1] == 'u' {
        NoShorter(body[6..], v[1..]);
      } else {
        NoShorter(body[2..], v[1..]);
      }
    }
  }

  lemma HexIsPrinted(c: char)
    requires c as int < 32
    ensures IsUnicode("00" + [HexChar(c as int / 16), HexChar(c as int % 16)], c)
    ensures HexChar(c as int / 16) as int >= 32 && HexChar(c as int % 16) as int >= 32
  {
    var h := "00" + [HexChar(c as int / 16), HexChar(c as int % 16)];
    assert h[0] == '0' && h[1] == '0' && h[2] == HexChar(c as int / 16) && h[3] == HexChar(c as int % 16);
  }

  lemma CharPrinted(c: char)
    ensures |EscapedChar(c)| == EscapeLength(c) && IsPrintable(EscapedChar(c))
    ensures NeedsEscape(c) ==> IsEscape(EscapedChar(c), c)
    ensures !NeedsEscape(c) ==> EscapedChar(c) == [c]
  {
    if NeedsEscape(c) && EscapeLength(c) == 6 {
      HexIsPrinted(c);
      var e := EscapedChar(c);
      assert e == "\\u00" + [HexChar(c as int / 16), HexChar(c as int % 16)];
      assert e[2..6] == "00" + [HexChar(c as int / 16), HexChar(c as int % 16)];
    }
  }

  lemma {:induction false} EscapedIs(v: string)
    ensures IsBody(Escaped(v), '\"', v) && IsPrintable(Escaped(v)) && |Escaped(v)| == LengthOf(v)
  {
    hide IsBody, EscapedChar, IsEscape;
    if v == "" {
      EmptyBody('\"');
    } else {
      var c, more := v[0], Escaped(v[1..]);
      EscapedIs(v[1..]);
      CharPrinted(c);
      assert v == [c] + v[1..];
      if NeedsEscape(c) {
        EscapeInBody(EscapedChar(c), c, more, '\"', v[1..]);
      } else {
        CharInBody(c, more, '\"', v[1..]);
      }
    }
  }

  /** A string is printed in the shortest of its spellings without control characters. */
  lemma TextIsPrinted(v: string)
    ensures IsPrintedText(Quoted(v), v)
  {
    hide IsBody, Escaped;
    EscapedIs(v);
    forall other | IsBody(other, '\"', v) && IsPrintable(other) ensures |Escaped(v)| <= |other| {
      NoShorter(other, v);
    }
  }

  /* ---------- Values and their layout ---------- */

  predicate IsIndent(s: string, n: nat) {
    |s| == n && forall i :: 0 <= i < n ==> s[i] == ' '
  }

  // A call with one text.
  ghost predicate IsCallOf(text: string, name: string, v: string) {
    exists q :: text == name + "(" + q + ")" && IsPrintedText(q, v)
  }

  // The spelling of a value that is no object and no array.
  ghost predicate IsLeafText(text: string, node: Node) {
    match node
    case Text(v) => IsPrintedText(text, v)
    case Int32(v) => text == v
    case Int64(v) => IsCallOf(text, "NumberLong", v)
    case Double(v) => if IsIntegerText(v) then IsCallOf(text, "Double", v) else text == v
    case Decimal128(v) => IsCallOf(text, "NumberDecimal", v)
    case Bool(b) => text == if b then "true" else "false"
    case Null => text == "null"
    case ObjectId(v) => IsCallOf(text, "ObjectId", v)
    case Date(v) => IsCallOf(text, "ISODate", v)
    case Uuid(v) => IsCallOf(text, "UUID", v)
    case Binary(v, subtype) => exists q :: text == "BinData(" + subtype + ", " + q + ")" && IsPrintedText(q, v)
    case Regex(pattern, flags) => text == "/" + pattern + "/" + flags
    case Timestamp(seconds, increment) => text == "Timestamp(" + seconds + ", " + increment + ")"
    case MinKey => text == "MinKey()"
    case MaxKey => text == "MaxKey()"
    case _ => false
  }

  // A field name stands bare when it is a name, and else between quotes.
  ghost predicate IsPrintedName(text: string, key: string) {
    if IsNameText(key, "") then text == key else IsPrintedText(text, key)
  }

  ghost predicate IsPrinted(text: string, node: Node, indent: nat, step: nat)
    decreases node, 0
  {
    match node
    case Object(entries) =>
      if entries == [] then text == "{}"
      else exists lines, last ::
        && text == "{\n" + lines + "\n" + last + "}" && IsIndent(last, indent)
        && AreLines(lines, entries, indent + step, step)
    case Array(items) =>
      if items == [] then text == "[]"
      else exists lines, last ::
        && text == "[\n" + lines + "\n" + last + "]" && IsIndent(last, indent)
        && AreItemLines(lines, items, indent + step, step)
    case _ => IsLeafText(text, node)
  }

  // One line for each field, with commas behind all but the last.
  ghost predicate AreLines(lines: string, entries: seq<Entry>, indent: nat, step: nat)
    requires entries != []
    decreases entries, 2
  {
    if |entries| == 1 then IsLine(lines, entries[0].key, entries[0].value, indent, step)
    else exists line, more ::
      && lines == line + ",\n" + more && IsLine(line, entries[0].key, entries[0].value, indent, step)
      && AreLines(more, entries[1..], indent, step)
  }

  ghost predicate IsLine(line: string, key: string, value: Node, indent: nat, step: nat)
    decreases value, 1
  {
    exists before, name, text ::
      && line == before + name + ": " + text && IsIndent(before, indent) && IsPrintedName(name, key)
      && IsPrinted(text, value, indent, step)
  }

  ghost predicate AreItemLines(lines: string, items: seq<Node>, indent: nat, step: nat)
    requires items != []
    decreases items, 2
  {
    if |items| == 1 then IsItemLine(lines, items[0], indent, step)
    else exists line, more ::
      lines == line + ",\n" + more && IsItemLine(line, items[0], indent, step) && AreItemLines(more, items[1..], indent, step)
  }

  ghost predicate IsItemLine(line: string, item: Node, indent: nat, step: nat)
    decreases item, 1
  {
    exists before, text :: line == before + text && IsIndent(before, indent) && IsPrinted(text, item, indent, step)
  }

  lemma IndentIs(n: nat)
    ensures IsIndent(Spaces(n), n)
  {
  }

  lemma CallPrinted(name: string, v: string)
    ensures IsCallOf(Call(name, Quoted(v)), name, v)
  {
    hide IsPrintedText, Quoted;
    TextIsPrinted(v);
  }

  lemma NamePrinted(key: string)
    ensures IsPrintedName(KeyText(key), key)
  {
    hide IsPrintedText, Quoted;
    TextIsPrinted(key);
    NameIs(key);
  }

  lemma NameIs(key: string)
    ensures IsBareKey(key) <==> IsNameText(key, "")
  {
    if key != "" {
      forall i | 0 <= i < |key| ensures IsPart(key[i]) <==> GoesOnName(key[i]) {
        NameChars(key[i]);
      }
      NameChars(key[0]);
      hide IsStart, IsPart, GoesOnName, BeginsName;
      BareNames(key);
    }
  }

  lemma BareNames(key: string)
    requires key != "" && (IsStart(key[0]) <==> BeginsName(key[0])) && forall i :: 0 <= i < |key| ==> IsPart(key[i]) == GoesOnName(key[i])
    ensures IsBareKey(key) <==> IsNameText(key, "")
  {
    if IsBareKey(key) {
      forall i | 0 <= i < |key| ensures GoesOnName(key[i]) {
        if i > 0 {
          assert key[i] == key[1..][i - 1];
        }
      }
    }
  }

  lemma LeafPrinted(node: Node, indent: nat, step: nat)
    requires !node.Object? && !node.Array?
    ensures IsLeafText(Format(node, indent, step), node)
  {
    hide IsPrintedText, IsCallOf, Quoted, IsInteger, IsIntegerText;
    match node
    case Text(v) => TextIsPrinted(v);
    case Int64(v) => CallPrinted("NumberLong", v);
    case Double(v) =>
      IntegersAre(v);
      CallPrinted("Double", v);
    case Decimal128(v) => CallPrinted("NumberDecimal", v);
    case ObjectId(v) => CallPrinted("ObjectId", v);
    case Date(v) => CallPrinted("ISODate", v);
    case Uuid(v) => CallPrinted("UUID", v);
    case Binary(v, subtype) =>
      TextIsPrinted(v);
      BinaryText(subtype, Quoted(v));
    case Timestamp(seconds, increment) => TimestampText(seconds, increment);
    case _ =>
  }

  lemma BinaryText(subtype: string, q: string)
    ensures Call("BinData", subtype + ", " + q) == "BinData(" + subtype + ", " + q + ")"
  {
  }

  lemma TimestampText(seconds: string, increment: string)
    ensures Call("Timestamp", seconds + ", " + increment) == "Timestamp(" + seconds + ", " + increment + ")"
  {
  }

  /** What is printed for any document, at any indentation. */
  lemma {:induction false} DocumentIsPrinted(node: Node, indent: nat, step: nat)
    ensures IsPrinted(Format(node, indent, step), node, indent, step)
    decreases node, 0
  {
    hide IsLeafText, IsIndent, Spaces, AreLines, AreItemLines;
    match node
    case Object(entries) =>
      if entries != [] {
        IndentIs(indent);
        LinesArePrinted(entries, indent + step, step);
      }
    case Array(items) =>
      if items != [] {
        IndentIs(indent);
        ItemsArePrinted(items, indent + step, step);
      }
    case _ => LeafPrinted(node, indent, step);
  }

  lemma {:induction false} LinesArePrinted(entries: seq<Entry>, indent: nat, step: nat)
    requires entries != []
    ensures AreLines(FormatEntries(entries, indent, step), entries, indent, step)
    decreases entries, 2
  {
    hide IsPrinted, IsPrintedName, IsIndent, Spaces, KeyText, Format;
    var e := entries[0];
    IndentIs(indent);
    NamePrinted(e.key);
    DocumentIsPrinted(e.value, indent, step);
    var line := Spaces(indent) + KeyText(e.key) + ": " + Format(e.value, indent, step);
    assert IsLine(line, e.key, e.value, indent, step);
    if |entries| > 1 {
      LinesArePrinted(entries[1..], indent, step);
    }
  }

  lemma {:induction false} ItemsArePrinted(items: seq<Node>, indent: nat, step: nat)
    requires items != []
    ensures AreItemLines(FormatItems(items, indent, step), items, indent, step)
    decreases items, 2
  {
    hide IsPrinted, IsIndent, Spaces, Format;
    IndentIs(indent);
    DocumentIsPrinted(items[0], indent, step);
    assert IsItemLine(Spaces(indent) + Format(items[0], indent, step), items[0], indent, step);
    if |items| > 1 {
      ItemsArePrinted(items[1..], indent, step);
    }
  }
}

/**
 The document editor's text form: the reader of shell text and extended JSON and the writer of
 packages/db-admin/src/bsonDocument.ts, as functions on the text that is still to be read.
 */
module BsonDocument {
  import opened Wrappers
  import opened Letters
  import opened Numerals

  /* ---------- Documents ---------- */

  datatype Entry = Entry(key: string, value: Node)

  datatype Node =
    | Object(entries: seq<Entry>)
    | Array(items: seq<Node>)
    | Text(v: string)
    | Int32(v: string)
    | Int64(v: string)
    | Double(v: string)
    | Decimal128(v: string)
    | Bool(b: bool)
    | Null
    | ObjectId(v: string)
    | Date(v: string)
    | Uuid(v: string)
    | Binary(v: string, subtype: Number)
    | Regex(pattern: string, flags: string)
    | Timestamp(seconds: Number, increment: Number)
    | MinKey
    | MaxKey

  // What comes from outside: how dates are read (from text, and from a number's text), what number a
  // text is, and the current date.
  datatype Env = Env(dateOf: string -> Option<string>, dateOfNumber: string -> Option<string>,
                     number: string -> Number, now: string)

  datatype Parsed<+T> = Good(value: T, rest: string) | Bad

  /* ---------- Characters ---------- */

  predicate IsLetter(c: char) {
    'a' <= c <= 'z' || 'A' <= c <= 'Z'
  }

  predicate IsFlag(c: char) {
    'a' <= c <= 'z'
  }

  predicate IsStart(c: char) {
    IsLetter(c) || c == '_' || c == '$'
  }

  predicate IsPart(c: char) {
    IsStart(c) || IsDigit(c)
  }

  predicate IsHex(c: char) {
    IsDigit(c) || 'a' <= c <= 'f' || 'A' <= c <= 'F'
  }

  function HexValue(c: char): nat
    requires IsHex(c)
    ensures HexValue(c) < 16
  {
    if IsDigit(c) then DigitValue(c) else LowerChar(c) as int - 'a' as int + 10
  }

  function HexChar(d: nat): char
    requires d < 16
  {
    if d < 10 then DigitChar(d) else ('a' as int + d - 10) as char
  }

  // How many of the first characters have a property.
  function Span(s: string, p: char -> bool): (n: nat)
    ensures n <= |s|
  {
    if |s| > 0 && p(s[0]) then 1 + Span(s[1..], p) else 0
  }

  predicate AllAre(s: string, p: char -> bool) {
    forall i :: 0 <= i < |s| ==> p(s[i])
  }

  /* ---------- Reading: blanks and comments ---------- */

  function AfterLine(s: string): (r: string)
    ensures |r| <= |s|
  {
    if |s| == 0 || s[0] == '\n' then s else AfterLine(s[1..])
  }

  function AfterComment(s: string): (r: Option<string>)
    ensures r.Some? ==> |r.value| <= |s|
  {
    if |s| < 2 then None
    else if s[0] == '*' && s[1] == '/' then Some(s[2..])
    else AfterComment(s[1..])
  }

  function Skip(s: string): (r: Option<string>)
    ensures r.Some? ==> |r.value| <= |s|
    decreases |s|
  {
    if |s| == 0 then Some(s)
    else if IsSpace(s[0]) then Skip(s[1..])
    else if |s| > 1 && s[0] == '/' && s[1] == '/' then Skip(AfterLine(s[2..]))
    else if |s| > 1 && s[0] == '/' && s[1] == '*' then
      match AfterComment(s[2..])
      case None => None
      case Some(r) => Skip(r)
    else Some(s)
  }

  // The next character after blanks is `c`; what follows it.
  function Expect(s: string, c: char): (r: Parsed<()>)
    ensures r.Good? ==> |r.rest| < |s|
  {
    match Skip(s)
    case None => Bad
    case Some(t) => if |t| > 0 && t[0] == c then Good((), t[1..]) else Bad
  }

  /* ---------- Reading: strings, names, numbers ---------- */

  function UnicodeChar(n: nat): Option<char> {
    if n < 0xD800 || 0xE000 <= n < 0x11_0000 then Some(n as char) else None
  }

  // The escape after a backslash: the character it stands for and what follows.
  function Escape(s: string): (r: Parsed<char>)
    ensures r.Good? ==> |r.rest| < |s|
  {
    if |s| == 0 then Bad
    else match s[0]
      case 'n' => Good('\n', s[1..])
      case 't' => Good('\t', s[1..])
      case 'r' => Good('\r', s[1..])
      case 'b' => Good('\U{0008}', s[1..])
      case 'f' => Good('\U{000c}', s[1..])
      case '/' => Good('/', s[1..])
      case '\\' => Good('\\', s[1..])
      case '\"' => Good('\"', s[1..])
      case '\'' => Good('\'', s[1..])
      case 'u' =>
        if |s| >= 5 && AllAre(s[1..5], IsHex) then
          var c := UnicodeChar(4096 * HexValue(s[1]) + 256 * HexValue(s[2]) + 16 * HexValue(s[3]) + HexValue(s[4]));
          if c.Some? then Good(c.value, s[5..]) else Bad
        else Bad
      case _ => Bad
  }

  // The rest of a string after its opening quote.
  function StringBody(s: string, quote: char): (r: Parsed<string>)
    ensures r.Good? ==> |r.rest| < |s|
    decreases |s|
  {
    if |s| == 0 then Bad
    else if s[0] == quote then Good("", s[1..])
    else if s[0] != '\\' then
      match StringBody(s[1..], quote)
      case Bad => Bad
      case Good(v, rest) => Good([s[0]] + v, rest)
    else
      match Escape(s[1..])
      case Bad => Bad
      case Good(c, t) =>
        match StringBody(t, quote)
        case Bad => Bad
        case Good(v, rest) => Good([c] + v, rest)
  }

  predicate IsKeyDigit(c: char) {
    IsDigit(c) || c == '.'
  }

  function ReadKey(s: string): (r: Parsed<string>)
    ensures r.Good? ==> |r.rest| < |s|
  {
    match Skip(s)
    case None => Bad
    case Some(t) =>
      if |t| == 0 then Bad
      else if t[0] == '\"' || t[0] == '\'' then StringBody(t[1..], t[0])
      else if IsStart(t[0]) then Good(t[..1 + Span(t[1..], IsPart)], t[1 + Span(t[1..], IsPart)..])
      else if IsDigit(t[0]) then Good(t[..1 + Span(t[1..], IsKeyDigit)], t[1 + Span(t[1..], IsKeyDigit)..])
      else Bad
  }

  // How long an exponent stands at the start of the text: 0 when there is none.
  function ExponentLength(s: string): (n: nat)
    ensures n <= |s|
  {
    if |s| == 0 || (s[0] != 'e' && s[0] != 'E') then 0
    else
      var sign := if |s| > 1 && (s[1] == '+' || s[1] == '-') then 1 else 0;
      var digits := Span(s[1 + sign..], IsDigit);
      if digits == 0 then 0 else 1 + sign + digits
  }

  // How long a number without sign and exponent stands there: 0 when there is none.
  function PlainLength(s: string): (n: nat)
    ensures n <= |s|
  {
    var whole := Span(s, IsDigit);
    var dot := whole < |s| && s[whole] == '.';
    var fraction := if dot then Span(s[whole + 1..], IsDigit) else 0;
    if whole > 0 then (if dot then whole + 1 + fraction else whole)
    else if fraction > 0 then 1 + fraction
    else 0
  }

  function NumberLength(s: string): (n: nat)
    ensures n <= |s|
  {
    var sign := if |s| > 0 && s[0] == '-' then 1 else 0;
    var plain := PlainLength(s[sign..]);
    if plain == 0 then 0 else sign + plain + ExponentLength(s[sign + plain..])
  }

  // Text that is read as one number.
  predicate IsNumberText(v: string) {
    |v| > 0 && (v[0] == '-' || IsDigit(v[0])) && NumberLength(v) == |v|
  }

  // A JavaScript number, as the text it is printed as.
  type Number = s: string | IsNumberText(s) || s in NOT_FINITE witness "0"

  const NOT_FINITE: seq<string> := ["NaN", "Infinity", "-Infinity"]

  predicate IsInteger(s: string) {
    var digits := if |s| > 0 && s[0] == '-' then s[1..] else s;
    |digits| > 0 && AllDigits(digits)
  }

  function IntegerOf(s: string): int
    requires IsInteger(s)
  {
    if s[0] == '-' then -(ToNat(s[1..]) as int) else ToNat(s)
  }

  const INT32_LIMIT := 0x8000_0000
  const INT64_LIMIT := 0x8000_0000_0000_0000
  const MAX_DEPTH := 100

  predicate FitsInt32(s: string) {
    IsInteger(s) && -INT32_LIMIT <= IntegerOf(s) < INT32_LIMIT
  }

  predicate FitsInt64(s: string) {
    IsInteger(s) && -INT64_LIMIT <= IntegerOf(s) < INT64_LIMIT
  }

  function NumberNode(env: Env, s: string): Option<Node> {
    if IsInteger(s) then
      if FitsInt32(s) then Some(Int32(s)) else if FitsInt64(s) then Some(Int64(s)) else None
    else if env.number(s) !in NOT_FINITE then Some(Double(s))
    else None
  }

  /* ---------- Reading: constructors and extended JSON ---------- */

  predicate IsNumeric(n: Node) {
    n.Int32? || n.Int64? || n.Double?
  }

  // The text of a text or number argument.
  function TextOf(n: Node): Option<string> {
    match n
    case Text(v) => Some(v)
    case Int32(v) => Some(v)
    case Int64(v) => Some(v)
    case Double(v) => Some(v)
    case _ => None
  }

  predicate IsObjectId(s: string) {
    |s| == 24 && AllAre(s, IsHex)
  }

  // `Number(v)` of an argument's text; the number 0 when it has none.
  function NumberOf(env: Env, args: seq<Node>, i: nat): Number {
    if i >= |args| then "0"
    else match args[i]
      case Text(v) => env.number(v)
      case Int32(v) => env.number(v)
      case Int64(v) => env.number(v)
      case Double(v) => env.number(v)
      case Decimal128(v) => env.number(v)
      case ObjectId(v) => env.number(v)
      case Date(v) => env.number(v)
      case Uuid(v) => env.number(v)
      case Binary(v, _) => env.number(v)
      case Bool(b) => if b then "1" else "0"
      case _ => "0"
  }

  function Construct(env: Env, name: string, args: seq<Node>): Option<Node> {
    var text := if |args| > 0 then TextOf(args[0]) else None;
    match name
    case "ObjectId" =>
      if |args| == 0 then Some(ObjectId("000000000000000000000000"))
      else if text.Some? && IsObjectId(text.value) then Some(ObjectId(Lower(text.value)))
      else None
    case "ISODate" => ConstructDate(env, args)
    case "Date" => ConstructDate(env, args)
    case "NumberInt" => if text.Some? && FitsInt32(text.value) then Some(Int32(text.value)) else None
    case "NumberLong" => if text.Some? && FitsInt64(text.value) then Some(Int64(text.value)) else None
    case "NumberDecimal" => if text.Some? then Some(Decimal128(text.value)) else None
    case "Double" => if text.Some? then Some(Double(text.value)) else None
    case "UUID" => if text.Some? then Some(Uuid(Lower(text.value))) else None
    case "BinData" =>
      if |args| > 1 && TextOf(args[1]).Some? then
        Some(Binary(TextOf(args[1]).value,
                    if args[0].Int32? || args[0].Int64? then env.number(args[0].v) else "0"))
      else None
    case "Timestamp" => Some(Timestamp(NumberOf(env, args, 0), NumberOf(env, args, 1)))
    case "MinKey" => Some(MinKey)
    case "MaxKey" => Some(MaxKey)
    case "RegExp" =>
      if text.Some? then Some(Regex(text.value, if |args| > 1 && args[1].Text? then args[1].v else "")) else None
    case _ => None
  }

  function ConstructDate(env: Env, args: seq<Node>): Option<Node> {
    if |args| == 0 then Some(Date(env.now))
    else
      var date := if IsNumeric(args[0]) then env.dateOfNumber(args[0].v)
                  else if args[0].Text? then env.dateOf(args[0].v) else None;
      if date.Some? then Some(Date(date.value)) else None
  }

  function FindEntry(entries: seq<Entry>, key: string): Option<Node> {
    if |entries| == 0 then None
    else if entries[0].key == key then Some(entries[0].value)
    else FindEntry(entries[1..], key)
  }

  // `{ "$oid": … }` and the other extended JSON forms become real types.
  function FromExtendedJson(env: Env, entries: seq<Entry>): Option<Node> {
    if |entries| != 1 then Some(Object(entries))
    else
      var value := entries[0].value;
      var text := TextOf(value);
      match entries[0].key
      case "$oid" =>
        Some(if text.Some? && IsObjectId(text.value) then ObjectId(Lower(text.value)) else Object(entries))
      case "$date" =>
        if value.Object? then
          var inner := FindEntry(value.entries, "$numberLong");
          if inner.Some? && inner.value.Text? then
            var date := env.dateOfNumber(inner.value.v);
            if date.Some? then Some(Date(date.value)) else None
          else Some(Object(entries))
        else
          var date := if text.Some? && !value.Text? then env.dateOfNumber(text.value) else env.dateOf(text.GetOr(""));
          Some(if date.Some? then Date(date.value) else Object(entries))
      case "$numberInt" => Some(if text.Some? && IsInteger(text.value) then Int32(text.value) else Object(entries))
      case "$numberLong" => Some(if text.Some? && IsInteger(text.value) then Int64(text.value) else Object(entries))
      case "$numberDouble" => Some(if text.Some? then Double(text.value) else Object(entries))
      case "$numberDecimal" => Some(if text.Some? then Decimal128(text.value) else Object(entries))
      case "$uuid" => Some(if text.Some? then Uuid(Lower(text.value)) else Object(entries))
      case _ => Some(Object(entries))
  }

  /* ---------- Reading: values ---------- */

  // The rest of a regular expression after its opening slash: the pattern.
  function RegexBody(s: string): (r: Parsed<string>)
    ensures r.Good? ==> |r.rest| < |s|
    decreases |s|
  {
    if |s| == 0 then Bad
    else if s[0] == '/' then Good("", s[1..])
    else if s[0] == '\\' && |s| > 1 then
      match RegexBody(s[2..])
      case Bad => Bad
      case Good(v, rest) => Good(s[..2] + v, rest)
    else
      match RegexBody(s[1..])
      case Bad => Bad
      case Good(v, rest) => Good([s[0]] + v, rest)
  }

  function ParseValue(env: Env, s: string, depth: nat): (r: Parsed<Node>)
    ensures r.Good? ==> |r.rest| < |s|
    decreases |s|, 1
  {
    if depth > MAX_DEPTH then Bad
    else match Skip(s)
      case None => Bad
      case Some(t) =>
        if |t| == 0 then Bad
        else if t[0] == '{' then
          match Skip(t[1..])
          case None => Bad
          case Some(u) =>
            if |u| > 0 && u[0] == '}' then Good(Object([]), u[1..])
            else match ParseEntries(env, u, depth)
              case Bad => Bad
              case Good(entries, rest) =>
                var node := FromExtendedJson(env, entries);
                if node.Some? then Good(node.value, rest) else Bad
        else if t[0] == '[' then
          match Skip(t[1..])
          case None => Bad
          case Some(u) =>
            if |u| > 0 && u[0] == ']' then Good(Array([]), u[1..])
            else match ParseItems(env, u, depth)
              case Bad => Bad
              case Good(items, rest) => Good(Array(items), rest)
        else if t[0] == '\"' || t[0] == '\'' then
          match StringBody(t[1..], t[0])
          case Bad => Bad
          case Good(v, rest) => Good(Text(v), rest)
        else if t[0] == '/' then
          match RegexBody(t[1..])
          case Bad => Bad
          case Good(pattern, rest) =>
            var n := Span(rest, IsFlag);
            Good(Regex(pattern, rest[..n]), rest[n..])
        else if t[0] == '-' || IsDigit(t[0]) then
          var n := NumberLength(t);
          var node := if n > 0 then NumberNode(env, t[..n]) else None;
          if node.Some? then Good(node.value, t[n..]) else Bad
        else if IsStart(t[0]) then
          var n := 1 + Span(t[1..], IsPart);
          ParseWord(env, t[..n], t[n..], depth)
        else Bad
  }

  // A value that starts with the word `w`, followed by `s`.
  function ParseWord(env: Env, w: string, s: string, depth: nat): (r: Parsed<Node>)
    ensures r.Good? ==> |r.rest| <= |s|
    decreases |s|, 2
  {
    match Skip(s)
    case None =>
      // The source only looks past the word when the word asks for it.
      if w == "new" then Bad else SimpleWord(w, s)
    case Some(t) =>
      if w == "new" && |t| > 0 then ParseValue(env, t, depth + 1)
      else if SimpleWord(w, s).Good? then SimpleWord(w, s)
      else if |t| > 0 && t[0] == '(' then ParseConstructor(env, w, t[1..], depth)
      else Bad
  }

  function SimpleWord(w: string, s: string): (r: Parsed<Node>)
    ensures r.Good? ==> r.rest == s
  {
    match w
    case "true" => Good(Bool(true), s)
    case "false" => Good(Bool(false), s)
    case "null" => Good(Null, s)
    case "undefined" => Good(Null, s)
    case "NaN" => Good(Double(w), s)
    case "Infinity" => Good(Double(w), s)
    case _ => Bad
  }

  // After the opening parenthesis.
  function ParseConstructor(env: Env, name: string, s: string, depth: nat): (r: Parsed<Node>)
    ensures r.Good? ==> |r.rest| < |s|
    decreases |s|, 3
  {
    match Skip(s)
    case None => Bad
    case Some(t) =>
      var args := if |t| > 0 && t[0] == ')' then Good([], t) else ParseArgs(env, t, depth);
      match args
      case Bad => Bad
      case Good(nodes, u) =>
        match Expect(u, ')')
        case Bad => Bad
        case Good(_, rest) =>
          var node := Construct(env, name, nodes);
          if node.Some? then Good(node.value, rest) else Bad
  }

  function ParseArgs(env: Env, s: string, depth: nat): (r: Parsed<seq<Node>>)
    ensures r.Good? ==> |r.rest| < |s|
    decreases |s|, 2
  {
    match ParseValue(env, s, depth + 1)
    case Bad => Bad
    case Good(first, t) =>
      match Skip(t)
      case None => Bad
      case Some(u) =>
        if |u| > 0 && u[0] == ',' then
          match ParseArgs(env, u[1..], depth)
          case Bad => Bad
          case Good(more, rest) => Good([first] + more, rest)
        else Good([first], u)
  }

  // After an item or a field: whether the bracket closes (perhaps after a last comma) or another
  // one follows, and what is left.
  function Separator(s: string, close: char): (r: Parsed<bool>)
    ensures r.Good? ==> |r.rest| < |s|
  {
    match Skip(s)
    case None => Bad
    case Some(u) =>
      if |u| > 0 && u[0] == close then Good(true, u[1..])
      else if |u| > 0 && u[0] == ',' then
        match Skip(u[1..])
        case None => Bad
        case Some(v) => if |v| > 0 && v[0] == close then Good(true, v[1..]) else Good(false, v)
      else Bad
  }

  // The items of an array from the first one to the closing bracket.
  function ParseItems(env: Env, s: string, depth: nat): (r: Parsed<seq<Node>>)
    ensures r.Good? ==> |r.rest| < |s|
    decreases |s|, 2
  {
    match ParseValue(env, s, depth + 1)
    case Bad => Bad
    case Good(first, t) =>
      match Separator(t, ']')
      case Bad => Bad
      case Good(closed, u) =>
        if closed then Good([first], u)
        else match ParseItems(env, u, depth)
          case Bad => Bad
          case Good(more, rest) => Good([first] + more, rest)
  }

  // The fields of an object from the first one to the closing brace.
  function ParseEntries(env: Env, s: string, depth: nat): (r: Parsed<seq<Entry>>)
    ensures r.Good? ==> |r.rest| < |s|
    decreases |s|, 2
  {
    match ParseEntry(env, s, depth)
    case Bad => Bad
    case Good(first, t) =>
      match Separator(t, '}')
      case Bad => Bad
      case Good(closed, u) =>
        if closed then Good([first], u)
        else match ParseEntries(env, u, depth)
          case Bad => Bad
          case Good(more, rest) => Good([first] + more, rest)
  }

  function ParseEntry(env: Env, s: string, depth: nat): (r: Parsed<Entry>)
    ensures r.Good? ==> |r.rest| < |s|
    decreases |s|, 1
  {
    match ReadKey(s)
    case Bad => Bad
    case Good(key, a) =>
      match Expect(a, ':')
      case Bad => Bad
      case Good(_, b) =>
        match ParseValue(env, b, depth + 1)
        case Bad => Bad
        case Good(value, t) => Good(Entry(key, value), t)
  }

  // One value and nothing after it.
  function ParseDocument(env: Env, s: string): Option<Node> {
    match ParseValue(env, s, 0)
    case Bad => None
    case Good(node, rest) => if Skip(rest) == Some("") then Some(node) else None
  }

  /* ---------- Writing ---------- */

  function EscapedChar(c: char): string {
    if c == '\"' then "\\\""
    else if c == '\\' then "\\\\"
    else if c == '\n' then "\\n"
    else if c == '\t' then "\\t"
    else if c == '\r' then "\\r"
    else if c == '\U{0008}' then "\\b"
    else if c == '\U{000c}' then "\\f"
    else if c < ' ' then "\\u00" + [HexChar(c as int / 16), HexChar(c as int % 16)]
    else [c]
  }

  function Escaped(v: string): string {
    if |v| == 0 then "" else EscapedChar(v[0]) + Escaped(v[1..])
  }

  function Quoted(v: string): string {
    "\"" + Escaped(v) + "\""
  }

  predicate IsBareKey(key: string) {
    |key| > 0 && IsStart(key[0]) && AllAre(key[1..], IsPart)
  }

  function KeyText(key: string): string {
    if IsBareKey(key) then key else Quoted(key)
  }

  function Spaces(n: nat): string {
    seq(n, _ => ' ')
  }

  function Call(name: string, args: string): string {
    name + "(" + args + ")"
  }

  function Format(node: Node, indent: nat, step: nat): string
    decreases node, 0
  {
    match node
    case Object(entries) =>
      if |entries| == 0 then "{}"
      else "{\n" + FormatEntries(entries, indent + step, step) + "\n" + Spaces(indent) + "}"
    case Array(items) =>
      if |items| == 0 then "[]"
      else "[\n" + FormatItems(items, indent + step, step) + "\n" + Spaces(indent) + "]"
    case Text(v) => Quoted(v)
    case Int32(v) => v
    case Int64(v) => Call("NumberLong", Quoted(v))
    case Double(v) => if IsInteger(v) then Call("Double", Quoted(v)) else v
    case Decimal128(v) => Call("NumberDecimal", Quoted(v))
    case Bool(b) => if b then "true" else "false"
    case Null => "null"
    case ObjectId(v) => Call("ObjectId", Quoted(v))
    case Date(v) => Call("ISODate", Quoted(v))
    case Uuid(v) => Call("UUID", Quoted(v))
    case Binary(v, subtype) => Call("BinData", subtype + ", " + Quoted(v))
    case Regex(pattern, flags) => "/" + pattern + "/" + flags
    case Timestamp(seconds, increment) => Call("Timestamp", seconds + ", " + increment)
    case MinKey => Call("MinKey", "")
    case MaxKey => Call("MaxKey", "")
  }

  // The lines of an object, joined by a comma and a line break.
  function FormatEntries(entries: seq<Entry>, inner: nat, step: nat): string
    requires |entries| > 0
    decreases entries, 1
  {
    var first := Spaces(inner) + KeyText(entries[0].key) + ": " + Format(entries[0].value, inner, step);
    if |entries| == 1 then first else first + ",\n" + FormatEntries(entries[1..], inner, step)
  }

  function FormatItems(items: seq<Node>, inner: nat, step: nat): string
    requires |items| > 0
    decreases items, 1
  {
    var first := Spaces(inner) + Format(items[0], inner, step);
    if |items| == 1 then first else first + ",\n" + FormatItems(items[1..], inner, step)
  }
}

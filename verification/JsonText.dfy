/** JSON text: what printing a value writes and what loading reads, as functions of the text. */
module JsonText {
  import opened JsonNode

  // ---- Characters

  predicate IsSpace(c: char) {
    c == ' ' || c == '\t' || c == '\n' || c == '\r' || c == 11 as char || c == 12 as char
  }

  predicate IsDigit(c: char) {
    '0' <= c <= '9'
  }

  predicate IsAlpha(c: char) {
    'a' <= c <= 'z' || 'A' <= c <= 'Z'
  }

  /** The classes of characters by their codes. */
  lemma CharacterCodes(c: char)
    ensures IsSpace(c) <==> c as int == 32 || 9 <= c as int <= 13
    ensures IsDigit(c) <==> 48 <= c as int <= 57
    ensures IsAlpha(c) <==> 65 <= c as int <= 90 || 97 <= c as int <= 122
  {
  }

  // ---- Printing

  function Spaces(k: int): string {
    if k <= 0 then "" else Spaces(k - 1) + " "
  }

  function EscapedChar(c: char): string {
    if c == '\r' then "\\r"
    else if c == '\n' then "\\n"
    else if c == '"' || c == '\\' then ['\\', c]
    else [c]
  }

  function Escaped(s: string): string {
    if s == "" then "" else EscapedChar(s[0]) + Escaped(s[1..])
  }

  function PrintString(s: string): string {
    "\"" + Escaped(s) + "\""
  }

  function Digit(d: nat): char
    requires d < 10
  {
    '0' + d as char
  }

  function PrintNat(n: nat): string {
    if n < 10 then [Digit(n)] else PrintNat(n / 10) + [Digit(n % 10)]
  }

  function PrintInt(i: int): string {
    if i < 0 then "-" + PrintNat(-i) else PrintNat(i)
  }

  function PrintNode(n: Node, step: int, indent: int): string {
    match n
    case Null => "null"
    case Bool(flag) => if flag then "true" else "false"
    case Int(i) => PrintInt(i)
    case Double(literal) => literal
    case Str(text) => PrintString(text)
    case Array(items) => "[\n" + PrintItems(items, true, step, indent + step) + "\n" + Spaces(indent) + "]"
    case Dict(entries) => "{\n" + PrintEntries(entries, true, step, indent + step) + "\n" + Spaces(indent) + "}"
  }

  function Separator(first: bool): string {
    if first then "" else ",\n"
  }

  function PrintItems(items: seq<Node>, first: bool, step: int, indent: int): string {
    if items == [] then ""
    else
      Separator(first) + Spaces(indent) + PrintNode(items[0], step, indent)
      + PrintItems(items[1..], false, step, indent)
  }

  function PrintEntries(entries: seq<Entry>, first: bool, step: int, indent: int): string {
    if entries == [] then ""
    else
      Separator(first) + Spaces(indent) + PrintString(entries[0].key) + ": " + PrintNode(entries[0].value, step, indent)
      + PrintEntries(entries[1..], false, step, indent)
  }

  // ---- Loading

  datatype ParsingError =
    | UnexpectedEof | ArrayError | DictError | DuplicateKey | ColonExpected | CommaExpected
    | StringError | UnknownEscape | EndOfLine | BadBool | BadNull | DigitExpected | NotConvertible

  /** Which literals the library's conversion to double accepts; it refuses those outside the range of double. */
  type Converter = string -> bool

  /** What was read and the text left over. */
  datatype Parse<T> = Parsed(value: T, rest: string) | Failed(error: ParsingError)

  function SkipSpaces(s: string): (r: string)
    ensures |r| <= |s| && (r == "" || !IsSpace(r[0]))
  {
    if s != "" && IsSpace(s[0]) then SkipSpaces(s[1..]) else s
  }

  function ParseString(s: string, done: string): (r: Parse<string>)
    ensures r.Parsed? ==> |r.rest| < |s|
    decreases |s|
  {
    if s == "" then Failed(StringError)
    else if s[0] == '"' then Parsed(done, s[1..])
    else if s[0] == '\\' then
      if |s| == 1 then Failed(StringError)
      else if s[1] == 'n' then ParseString(s[2..], done + "\n")
      else if s[1] == 't' then ParseString(s[2..], done + "\t")
      else if s[1] == 'r' then ParseString(s[2..], done + "\r")
      else if s[1] == '"' || s[1] == '\\' then ParseString(s[2..], done + [s[1]])
      else Failed(UnknownEscape)
    else if s[0] == '\n' || s[0] == '\r' then Failed(EndOfLine)
    else ParseString(s[1..], done + [s[0]])
  }

  /** The length of the longest prefix of letters. */
  function LiteralLength(s: string): (k: nat)
    ensures k <= |s|
  {
    if s != "" && IsAlpha(s[0]) then 1 + LiteralLength(s[1..]) else 0
  }

  function ParseBool(s: string): Parse<Node> {
    var k := LiteralLength(s);
    if s[..k] == "true" then Parsed(Bool(true), s[k..])
    else if s[..k] == "false" then Parsed(Bool(false), s[k..])
    else Failed(BadBool)
  }

  function ParseNull(s: string): Parse<Node> {
    var k := LiteralLength(s);
    if s[..k] == "null" then Parsed(Null, s[k..]) else Failed(BadNull)
  }

  /** The length of the longest prefix of digits. */
  function DigitsLength(s: string): (k: nat)
    ensures k <= |s| && forall m :: 0 <= m < k ==> IsDigit(s[m])
  {
    if s != "" && IsDigit(s[0]) then 1 + DigitsLength(s[1..]) else 0
  }

  function NatValue(digits: string): nat
    requires forall m :: 0 <= m < |digits| ==> IsDigit(digits[m])
  {
    if digits == "" then 0
    else
      assert IsDigit(digits[|digits| - 1]);
      10 * NatValue(digits[..|digits| - 1]) + (digits[|digits| - 1] - '0') as nat
  }

  /** Where reading a part of a number ends, if it has the digits it needs. */
  datatype Scan = Reached(at: nat) | Stuck

  /** At least one digit at position `from`. */
  function AfterDigits(s: string, from: nat): (r: Scan)
    requires from <= |s|
    ensures r.Reached? ==> from < r.at <= |s|
  {
    var k := DigitsLength(s[from..]);
    if k == 0 then Stuck else Reached(from + k)
  }

  function AfterSign(s: string): (k: nat)
    ensures k <= |s|
  {
    if s != "" && s[0] == '-' then 1 else 0
  }

  /** A leading zero stands alone. */
  function AfterWhole(s: string): (r: Scan)
    ensures r.Reached? ==> AfterSign(s) < r.at <= |s|
  {
    var from := AfterSign(s);
    if from < |s| && s[from] == '0' then Reached(from + 1) else AfterDigits(s, from)
  }

  function AfterFraction(s: string, from: nat): (r: Scan)
    requires from <= |s|
    ensures r.Reached? ==> from <= r.at <= |s|
  {
    if from < |s| && s[from] == '.' then AfterDigits(s, from + 1) else Reached(from)
  }

  function AfterExponent(s: string, from: nat): (r: Scan)
    requires from <= |s|
    ensures r.Reached? ==> from <= r.at <= |s|
  {
    if from < |s| && (s[from] == 'e' || s[from] == 'E') then
      if from + 1 < |s| && (s[from + 1] == '+' || s[from + 1] == '-') then AfterDigits(s, from + 2)
      else AfterDigits(s, from + 1)
    else Reached(from)
  }

  /** A whole number without fraction or exponent becomes an int if it fits one; other numbers become doubles,
      if they can be converted. */
  function ConvertNumber(conv: Converter, literal: string, isInt: bool, rest: string): Parse<Node> {
    if isInt && IntValue(literal).IntFits? then Parsed(Int(IntValue(literal).number), rest)
    else if conv(literal) then Parsed(Double(literal), rest)
    else Failed(NotConvertible)
  }

  datatype IntResult = IntFits(number: int) | NotAnInt

  function IntValue(literal: string): IntResult {
    var digits := literal[AfterSign(literal)..];
    if digits == "" || DigitsLength(digits) < |digits| then NotAnInt
    else
      var magnitude: int := NatValue(digits);
      var number := if AfterSign(literal) == 1 then -magnitude else magnitude;
      if INT_MIN <= number <= INT_MAX then IntFits(number) else NotAnInt
  }

  function ParseNumber(conv: Converter, s: string): (r: Parse<Node>)
    ensures r.Parsed? ==> |r.rest| < |s|
  {
    var whole := AfterWhole(s);
    if whole.Stuck? then Failed(DigitExpected)
    else
      var fraction := AfterFraction(s, whole.at);
      if fraction.Stuck? then Failed(DigitExpected)
      else
        var exponent := AfterExponent(s, fraction.at);
        if exponent.Stuck? then Failed(DigitExpected)
        else ConvertNumber(conv, s[..exponent.at], exponent.at == whole.at, s[exponent.at..])
  }

  function ParseNode(conv: Converter, s: string): (r: Parse<Node>)
    ensures r.Parsed? ==> |r.rest| < |s|
    decreases |s|, 0
  {
    var s := SkipSpaces(s);
    if s == "" then Failed(UnexpectedEof)
    else if s[0] == '[' then ParseArray(conv, s[1..], [])
    else if s[0] == '{' then ParseDict(conv, s[1..], [])
    else if s[0] == '"' then
      var text := ParseString(s[1..], "");
      if text.Failed? then Failed(text.error) else Parsed(Str(text.value), text.rest)
    else if s[0] == 't' || s[0] == 'f' then ParseBool(s)
    else if s[0] == 'n' then ParseNull(s)
    else ParseNumber(conv, s)
  }

  /** The rest of an array after the items in `done`; one comma before an item is read over, and none is needed. */
  function ParseArray(conv: Converter, s: string, done: seq<Node>): (r: Parse<Node>)
    ensures r.Parsed? ==> |r.rest| < |s|
    decreases |s|, 1
  {
    var s := SkipSpaces(s);
    if s == "" then Failed(ArrayError)
    else if s[0] == ']' then Parsed(Array(done), s[1..])
    else
      var item := ParseNode(conv, if s[0] == ',' then s[1..] else s);
      if item.Failed? then Failed(item.error) else ParseArray(conv, item.rest, done + [item.value])
  }

  function ParseDict(conv: Converter, s: string, done: seq<Entry>): (r: Parse<Node>)
    ensures r.Parsed? ==> |r.rest| < |s|
    decreases |s|, 1
  {
    var s := SkipSpaces(s);
    if s == "" then Failed(DictError)
    else if s[0] == '}' then Parsed(Dict(done), s[1..])
    else if s[0] == ',' then ParseDict(conv, s[1..], done)
    else if s[0] != '"' then Failed(CommaExpected)
    else
      var key := ParseString(s[1..], "");
      if key.Failed? then Failed(key.error)
      else
        var colon := SkipSpaces(key.rest);
        if colon == "" || colon[0] != ':' then Failed(ColonExpected)
        else if HasKey(done, key.value) then Failed(DuplicateKey)
        else
          var value := ParseNode(conv, colon[1..]);
          if value.Failed? then Failed(value.error)
          else ParseDict(conv, value.rest, Emplace(done, key.value, value.value))
  }
}

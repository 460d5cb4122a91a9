/** The loaders and printers of json.cpp, which advance an input stream and append to an output stream. */
module JsonStream {
  import opened Wrappers
  import opened Sequences
  import opened JsonNode
  import opened JsonText
  import opened JsonRoundTrip

  // ---- Loading

  /** A text with a reading position. */
  class InputStream {
    const text: string
    var pos: nat

    ghost predicate Valid()
      reads this
    {
      pos <= |text|
    }

    /** What is left to read. */
    ghost function Left(): string
      requires Valid()
      reads this
    {
      text[pos..]
    }

    constructor (text: string)
      ensures this.text == text && pos == 0 && Valid() && Left() == text
    {
      this.text := text;
      pos := 0;
    }

    /** The next character without reading it. */
    function Peek(): Option<char>
      reads this
    {
      if pos < |text| then Some(text[pos]) else None
    }

    /** Reads one character. */
    method Get() returns (c: char)
      requires Valid() && Left() != ""
      modifies this
      ensures Valid() && pos == old(pos) + 1 && c == old(Left())[0] && Left() == old(Left())[1..]
    {
      c := text[pos];
      pos := pos + 1;
    }

    /** Unreads the last character. */
    method PutBack()
      requires Valid() && pos > 0
      modifies this
      ensures Valid() && pos == old(pos) - 1 && Left() == [text[pos]] + old(Left())
    {
      pos := pos - 1;
    }

    /** Formatted extraction: skips white space and reads one character, if there is one. */
    method Extract() returns (c: Option<char>)
      requires Valid()
      modifies this
      ensures Valid() && pos >= old(pos)
      ensures var s := SkipSpaces(old(Left()));
        if s == "" then c == None && Left() == ""
        else c == Some(s[0]) && Left() == s[1..] && pos > old(pos) && text[pos - 1] == s[0]
    {
      while pos < |text| && IsSpace(text[pos])
        invariant Valid() && pos >= old(pos)
        invariant SkipSpaces(Left()) == SkipSpaces(old(Left()))
        decreases |text| - pos
      {
        assert Left()[1..] == text[pos + 1..];
        pos := pos + 1;
      }
      if pos == |text| {
        return None;
      }
      c := Some(text[pos]);
      assert Left()[1..] == text[pos + 1..];
      pos := pos + 1;
    }
  }

  method LoadLiteral(input: InputStream) returns (s: string)
    requires input.Valid()
    modifies input
    ensures input.Valid() && input.pos >= old(input.pos)
    ensures var k := LiteralLength(old(input.Left()));
      s == old(input.Left())[..k] && input.Left() == old(input.Left())[k..]
  {
    s := "";
    ghost var all := input.Left();
    while input.Peek().Some? && IsAlpha(input.Peek().value)
      invariant input.Valid() && input.pos >= old(input.pos)
      invariant |s| <= |all| && s == all[..|s|] && input.Left() == all[|s|..]
      invariant LiteralLength(all) == |s| + LiteralLength(input.Left())
      decreases |input.text| - input.pos
    {
      var c := input.Get();
      s := s + [c];
    }
  }

  method LoadString(input: InputStream) returns (r: Result<string, ParsingError>)
    requires input.Valid()
    modifies input
    ensures input.Valid() && input.pos >= old(input.pos)
    ensures ParseString(old(input.Left()), "") ==
            if r.Success? then Parsed(r.value, input.Left()) else Failed(r.error)
  {
    var s := "";
    while true
      invariant input.Valid() && input.pos >= old(input.pos)
      invariant ParseString(old(input.Left()), "") == ParseString(input.Left(), s)
      decreases |input.text| - input.pos
    {
      if input.Peek().None? {
        return Failure(StringError);
      }
      ghost var left := input.Left();
      var ch := input.Get();
      if ch == '"' {
        return Success(s);
      } else if ch == '\\' {
        if input.Peek().None? {
          return Failure(StringError);
        }
        var escaped := input.Get();
        assert left[1..][1..] == left[2..];
        if escaped == 'n' {
          s := s + "\n";
        } else if escaped == 't' {
          s := s + "\t";
        } else if escaped == 'r' {
          s := s + "\r";
        } else if escaped == '"' || escaped == '\\' {
          s := s + [escaped];
        } else {
          return Failure(UnknownEscape);
        }
      } else if ch == '\n' || ch == '\r' {
        return Failure(EndOfLine);
      } else {
        s := s + [ch];
      }
    }
  }

  method LoadBool(input: InputStream) returns (r: Result<Node, ParsingError>)
    requires input.Valid()
    modifies input
    ensures input.Valid() && input.pos >= old(input.pos)
    ensures Outcome(r, input.Left(), ParseBool(old(input.Left())))
  {
    var s := LoadLiteral(input);
    return if s == "true" then Success(Bool(true)) else if s == "false" then Success(Bool(false)) else Failure(BadBool);
  }

  method LoadNull(input: InputStream) returns (r: Result<Node, ParsingError>)
    requires input.Valid()
    modifies input
    ensures input.Valid() && input.pos >= old(input.pos)
    ensures Outcome(r, input.Left(), ParseNull(old(input.Left())))
  {
    var s := LoadLiteral(input);
    return if s == "null" then Success(Null) else Failure(BadNull);
  }

  /** A loader's result and what it left agree with parsing; after an error nothing is said about the position. */
  predicate Outcome(r: Result<Node, ParsingError>, left: string, p: Parse<Node>) {
    p == if r.Success? then Parsed(r.value, left) else Failed(r.error)
  }

  /** Appends a run of at least one digit to the number read so far. */
  method ReadDigits(input: InputStream, parsed: string, ghost all: string) returns (r: Result<string, ParsingError>)
    requires input.Valid() && ReadSoFar(parsed, input.Left(), all)
    modifies input
    ensures input.Valid() && input.pos >= old(input.pos)
    ensures var end := AfterDigits(all, |parsed|);
      if end.Stuck? then r == Failure(DigitExpected)
      else r.Success? && |r.value| == end.at && ReadSoFar(r.value, input.Left(), all)
  {
    if input.Peek().None? || !IsDigit(input.Peek().value) {
      return Failure(DigitExpected);
    }
    var s := parsed;
    while input.Peek().Some? && IsDigit(input.Peek().value)
      invariant input.Valid() && input.pos >= old(input.pos)
      invariant |s| >= |parsed| && ReadSoFar(s, input.Left(), all)
      invariant DigitsLength(all[|parsed|..]) == |s| - |parsed| + DigitsLength(input.Left())
      decreases |input.text| - input.pos
    {
      s := ReadChar(input, s, all);
    }
    return Success(s);
  }

  /** The text splits into what was read and what is left. */
  predicate ReadSoFar(parsed: string, left: string, all: string) {
    |parsed| <= |all| && parsed == all[..|parsed|] && left == all[|parsed|..]
  }

  method ReadChar(input: InputStream, parsed: string, ghost all: string) returns (s: string)
    requires input.Valid() && ReadSoFar(parsed, input.Left(), all) && input.Left() != ""
    modifies input
    ensures input.Valid() && input.pos == old(input.pos) + 1
    ensures |s| == |parsed| + 1 && ReadSoFar(s, input.Left(), all)
  {
    var c := input.Get();
    s := parsed + [c];
    assert all[|parsed|..][1..] == all[|parsed| + 1..];
  }

  method ReadWhole(input: InputStream, ghost all: string) returns (r: Result<string, ParsingError>)
    requires input.Valid() && input.Left() == all
    modifies input
    ensures input.Valid() && input.pos >= old(input.pos)
    ensures var end := AfterWhole(all);
      if end.Stuck? then r == Failure(DigitExpected)
      else r.Success? && |r.value| == end.at && ReadSoFar(r.value, input.Left(), all)
  {
    var parsed := "";
    if input.Peek() == Some('-') {
      parsed := ReadChar(input, parsed, all);
    }
    if input.Peek() == Some('0') {
      parsed := ReadChar(input, parsed, all);
      return Success(parsed);
    }
    r := ReadDigits(input, parsed, all);
  }

  method ReadFraction(input: InputStream, whole: string, ghost all: string) returns (r: Result<string, ParsingError>)
    requires input.Valid() && ReadSoFar(whole, input.Left(), all)
    modifies input
    ensures input.Valid() && input.pos >= old(input.pos)
    ensures var end := AfterFraction(all, |whole|);
      if end.Stuck? then r == Failure(DigitExpected)
      else r.Success? && |r.value| == end.at && ReadSoFar(r.value, input.Left(), all)
  {
    if input.Peek() != Some('.') {
      return Success(whole);
    }
    var parsed := ReadChar(input, whole, all);
    r := ReadDigits(input, parsed, all);
  }

  method ReadExponent(input: InputStream, mantissa: string, ghost all: string) returns (r: Result<string, ParsingError>)
    requires input.Valid() && ReadSoFar(mantissa, input.Left(), all)
    modifies input
    ensures input.Valid() && input.pos >= old(input.pos)
    ensures var end := AfterExponent(all, |mantissa|);
      if end.Stuck? then r == Failure(DigitExpected)
      else r.Success? && |r.value| == end.at && ReadSoFar(r.value, input.Left(), all)
  {
    if input.Peek() != Some('e') && input.Peek() != Some('E') {
      return Success(mantissa);
    }
    var parsed := ReadChar(input, mantissa, all);
    if input.Peek() == Some('+') || input.Peek() == Some('-') {
      parsed := ReadChar(input, parsed, all);
    }
    r := ReadDigits(input, parsed, all);
  }

  method LoadNumber(conv: Converter, input: InputStream) returns (r: Result<Node, ParsingError>)
    requires input.Valid()
    modifies input
    ensures input.Valid() && input.pos >= old(input.pos)
    ensures Outcome(r, input.Left(), ParseNumber(conv, old(input.Left())))
  {
    ghost var all := input.Left();
    var whole := ReadWhole(input, all);
    if whole.Failure? {
      return Failure(whole.error);
    }
    var fraction := ReadFraction(input, whole.value, all);
    if fraction.Failure? {
      return Failure(fraction.error);
    }
    var exponent := ReadExponent(input, fraction.value, all);
    if exponent.Failure? {
      return Failure(exponent.error);
    }
    var literal, isInt := exponent.value, |exponent.value| == |whole.value|;
    if isInt {
      var number := IntValue(literal);
      if number.IntFits? {
        return Success(Int(number.number));
      }
    }
    if !conv(literal) {
      return Failure(NotConvertible);
    }
    return Success(Double(literal));
  }

  method LoadArray(conv: Converter, input: InputStream) returns (r: Result<Node, ParsingError>)
    requires input.Valid()
    modifies input
    ensures input.Valid() && input.pos >= old(input.pos)
    ensures Outcome(r, input.Left(), ParseArray(conv, old(input.Left()), []))
    decreases |input.text| - input.pos, 3
  {
    var result: seq<Node> := [];
    ghost var expected := ParseArray(conv, input.Left(), []);
    ghost var all := input.Left();
    var c := input.Extract();
    PendingIsSkipped(conv, all, c, input.Left(), [], []);
    while c.Some? && c.value != ']'
      invariant input.Valid() && input.pos >= old(input.pos) && JustExtracted(input, c)
      invariant c.Some? ==> input.pos > old(input.pos)
      invariant expected == ParseArray(conv, Pending(c) + input.Left(), result)
      decreases |input.text| - input.pos, c.Some?
    {
      var more, next := LoadItem(conv, input, c.value, result);
      if more.Failure? {
        return Failure(more.error);
      }
      result, c := more.value, next;
    }
    ParseArrayEnd(conv, c, input.Left(), result);
    if c.None? {
      return Failure(ArrayError);
    }
    return Success(Array(result));
  }

  /** c is the character before the position, or nothing at the end of the text. */
  ghost predicate JustExtracted(input: InputStream, c: Option<char>)
    reads input
  {
    && input.Valid()
    && if c.Some? then input.pos > 0 && input.text[input.pos - 1] == c.value && !IsSpace(c.value)
       else input.Left() == ""
  }

  /** A character already extracted stands before what is left. */
  function Pending(c: Option<char>): string {
    if c.Some? then [c.value] else ""
  }

  /** Extracting a character and looking at it is what the parsers do by skipping white space. */
  lemma PendingIsSkipped(conv: Converter, s: string, c: Option<char>, left: string,
                         items: seq<Node>, entries: seq<Entry>)
    requires var t := SkipSpaces(s); if t == "" then c == None && left == "" else c == Some(t[0]) && left == t[1..]
    ensures ParseArray(conv, s, items) == ParseArray(conv, Pending(c) + left, items)
    ensures ParseDict(conv, s, entries) == ParseDict(conv, Pending(c) + left, entries)
  {
    assert Pending(c) + left == SkipSpaces(s) == SkipSpaces(SkipSpaces(s));
  }

  lemma ParseArrayEnd(conv: Converter, c: Option<char>, left: string, done: seq<Node>)
    requires if c.Some? then c.value == ']' else left == ""
    ensures ParseArray(conv, Pending(c) + left, done) ==
            if c.None? then Failed(ArrayError) else Parsed(Array(done), left)
  {
    if c.Some? {
      assert SkipSpaces([']'] + left) == [']'] + left && ([']'] + left)[1..] == left;
    }
  }

  lemma ParseArrayItem(conv: Converter, c: char, left: string, done: seq<Node>)
    requires !IsSpace(c) && c != ']'
    ensures var item := ParseNode(conv, if c == ',' then left else [c] + left);
      ParseArray(conv, [c] + left, done) ==
      if item.Failed? then Failed(item.error) else ParseArray(conv, item.rest, done + [item.value])
  {
    assert SkipSpaces([c] + left) == [c] + left && ([c] + left)[1..] == left;
  }

  /** The body of that loop: reads an item whose first character, or the comma before it, was extracted already,
      and the character after it. */
  method LoadItem(conv: Converter, input: InputStream, c: char, result: seq<Node>)
    returns (r: Result<seq<Node>, ParsingError>, next: Option<char>)
    requires JustExtracted(input, Some(c)) && c != ']'
    modifies input
    ensures input.Valid() && input.pos + 1 >= old(input.pos)
    ensures r.Success? ==>
      input.pos >= old(input.pos) && JustExtracted(input, next) && (next.Some? ==> input.pos > old(input.pos))
    ensures ParseArray(conv, [c] + old(input.Left()), result) ==
            if r.Failure? then Failed(r.error) else ParseArray(conv, Pending(next) + input.Left(), r.value)
    decreases |input.text| - input.pos + 1, 2
  {
    next := None;
    ParseArrayItem(conv, c, input.Left(), result);
    var item := LoadBegun(conv, input, c);
    if item.Failure? {
      return Failure(item.error), next;
    }
    ghost var left := input.Left();
    next := input.Extract();
    PendingIsSkipped(conv, left, next, input.Left(), result + [item.value], []);
    return Success(result + [item.value]), next;
  }

  /** Reads a value whose first character was extracted already, unless that was a comma. */
  method LoadBegun(conv: Converter, input: InputStream, c: char) returns (r: Result<Node, ParsingError>)
    requires JustExtracted(input, Some(c))
    modifies input
    ensures input.Valid() && input.pos + 1 >= old(input.pos) && (r.Success? ==> input.pos >= old(input.pos))
    ensures Outcome(r, input.Left(), ParseNode(conv, if c == ',' then old(input.Left()) else [c] + old(input.Left())))
    decreases |input.text| - input.pos + 1, 1
  {
    ghost var all := input.Left();
    if c != ',' {
      input.PutBack();
      assert input.Left() == [c] + all;
    }
    r := LoadNode(conv, input);
    if r.Success? {
      assert |input.Left()| < |if c == ',' then all else [c] + all|;
    }
  }

  method LoadNode(conv: Converter, input: InputStream) returns (r: Result<Node, ParsingError>)
    requires input.Valid()
    modifies input
    ensures input.Valid() && input.pos >= old(input.pos)
    ensures Outcome(r, input.Left(), ParseNode(conv, old(input.Left())))
    decreases |input.text| - input.pos, 0
  {
    ghost var s := SkipSpaces(input.Left());
    var c := input.Extract();
    if c.None? {
      return Failure(UnexpectedEof);
    }
    if c.value == '[' {
      r := LoadArray(conv, input);
    } else if c.value == '{' {
      r := LoadDict(conv, input);
    } else if c.value == '"' {
      var text := LoadString(input);
      r := if text.Success? then Success(Str(text.value)) else Failure(text.error);
    } else {
      input.PutBack();
      assert input.Left() == s;
      if c.value == 't' || c.value == 'f' {
        r := LoadBool(input);
      } else if c.value == 'n' {
        r := LoadNull(input);
      } else {
        r := LoadNumber(conv, input);
      }
    }
  }

  method LoadDict(conv: Converter, input: InputStream) returns (r: Result<Node, ParsingError>)
    requires input.Valid()
    modifies input
    ensures input.Valid() && input.pos >= old(input.pos)
    ensures Outcome(r, input.Left(), ParseDict(conv, old(input.Left()), []))
    decreases |input.text| - input.pos, 2
  {
    var dict: seq<Entry> := [];
    ghost var all := input.Left();
    var c := input.Extract();
    PendingIsSkipped(conv, all, c, input.Left(), [], []);
    while c.Some? && c.value != '}'
      invariant input.Valid() && input.pos >= old(input.pos)
      invariant c.Some? ==> input.pos > old(input.pos) && !IsSpace(c.value)
      invariant ParseDict(conv, all, []) == ParseDict(conv, Pending(c) + input.Left(), dict)
      invariant c.None? ==> input.Left() == ""
      decreases |input.text| - input.pos, c.Some?
    {
      ghost var s := [c.value] + input.Left();
      assert SkipSpaces(s) == s && s[1..] == input.Left();
      if c.value == '"' {
        ParseDictEntry(conv, s, dict);
      }
      if c.value == '"' {
        var more := LoadEntry(conv, input, dict);
        if more.Failure? {
          return Failure(more.error);
        }
        dict := more.value;
      } else if c.value != ',' {
        return Failure(CommaExpected);
      }
      ghost var left := input.Left();
      c := input.Extract();
      PendingIsSkipped(conv, left, c, input.Left(), [], dict);
    }
    if c.None? {
      return Failure(DictError);
    }
    assert (Pending(c) + input.Left())[1..] == input.Left();
    return Success(Dict(dict));
  }

  /** The rest of an entry after the quote that opens its key. */
  function ParseEntry(conv: Converter, s: string, dict: seq<Entry>): Parse<seq<Entry>> {
    var key := ParseString(s, "");
    if key.Failed? then Failed(key.error)
    else
      var colon := SkipSpaces(key.rest);
      if colon == "" || colon[0] != ':' then Failed(ColonExpected)
      else if HasKey(dict, key.value) then Failed(DuplicateKey)
      else
        var value := ParseNode(conv, colon[1..]);
        if value.Failed? then Failed(value.error)
        else Parsed(Emplace(dict, key.value, value.value), value.rest)
  }

  lemma ParseDictEntry(conv: Converter, s: string, dict: seq<Entry>)
    requires s != "" && s[0] == '"'
    ensures var e := ParseEntry(conv, s[1..], dict);
      ParseDict(conv, s, dict) == if e.Failed? then Failed(e.error) else ParseDict(conv, e.rest, e.value)
  {
  }

  method LoadEntry(conv: Converter, input: InputStream, dict: seq<Entry>) returns (r: Result<seq<Entry>, ParsingError>)
    requires input.Valid()
    modifies input
    ensures input.Valid() && input.pos >= old(input.pos)
    ensures ParseEntry(conv, old(input.Left()), dict) ==
            if r.Success? then Parsed(r.value, input.Left()) else Failed(r.error)
    decreases |input.text| - input.pos, 1
  {
    var key := LoadString(input);
    if key.Failure? {
      return Failure(key.error);
    }
    var c := input.Extract();
    if c != Some(':') {
      return Failure(ColonExpected);
    }
    if HasKey(dict, key.value) {
      return Failure(DuplicateKey);
    }
    var value := LoadNode(conv, input);
    if value.Failure? {
      return Failure(value.error);
    }
    return Success(Emplace(dict, key.value, value.value));
  }

  /** Loads one document; text after its value is left unread. */
  method Load(conv: Converter, input: InputStream) returns (r: Result<Node, ParsingError>)
    requires input.Valid()
    modifies input
    ensures input.Valid()
    ensures Outcome(r, input.Left(), ParseNode(conv, old(input.Left())))
    ensures r.Success? ==> WellFormed(r.value)
  {
    ParsedWellFormed(conv, input.Left());
    r := LoadNode(conv, input);
  }

  // ---- Printing

  class OutputStream {
    var text: string

    constructor ()
      ensures text == ""
    {
      text := "";
    }

    method Put(c: char)
      modifies this
      ensures text == old(text) + [c]
    {
      text := text + [c];
    }

    method Write(s: string)
      modifies this
      ensures text == old(text) + s
    {
      text := text + s;
    }
  }

  datatype PrintContext = PrintContext(out: OutputStream, indentStep: int, indent: int) {
    function Indented(): PrintContext {
      PrintContext(out, indentStep, indentStep + indent)
    }
  }

  method PrintIndent(ctx: PrintContext)
    modifies ctx.out
    ensures ctx.out.text == old(ctx.out.text) + Spaces(ctx.indent)
  {
    var i := 0;
    while i < ctx.indent
      invariant 0 <= i && (i <= ctx.indent || i == 0)
      invariant ctx.out.text == old(ctx.out.text) + Spaces(i)
    {
      ctx.out.Put(' ');
      i := i + 1;
    }
  }

  method PrintChar(c: char, out: OutputStream)
    modifies out
    ensures out.text == old(out.text) + EscapedChar(c)
  {
    if c == '\r' {
      out.Write("\\r");
    } else if c == '\n' {
      out.Write("\\n");
    } else {
      if c == '"' || c == '\\' {
        out.Put('\\');
      }
      out.Put(c);
    }
  }

  lemma EscapedStep(value: string, m: nat)
    requires m < |value|
    ensures Escaped(value[m..]) == EscapedChar(value[m]) + Escaped(value[m + 1..])
  {
    assert value[m..][1..] == value[m + 1..];
  }

  lemma FiveParts(before: string, open: string, inside: string, spaces: string, close: string)
    ensures before + open + inside + ['\n'] + spaces + close == before + (open + inside + "\n" + spaces + close)
  {
  }

  method PrintText(value: string, out: OutputStream)
    modifies out
    ensures out.text == old(out.text) + PrintString(value)
  {
    out.Put('"');
    ghost var start := out.text;
    assert value[0..] == value;
    for m := 0 to |value|
      invariant out.text + Escaped(value[m..]) == start + Escaped(value)
    {
      ghost var before := out.text;
      EscapedStep(value, m);
      PrintChar(value[m], out);
      ConcatAssociates(before, EscapedChar(value[m]), Escaped(value[m + 1..]));
    }
    assert out.text + "" == out.text;
    out.Put('"');
  }

  /** An item of an array on a line of its own. */
  function ItemText(item: Node, first: bool, step: int, indent: int): string {
    Separator(first) + Spaces(indent) + PrintNode(item, step, indent)
  }

  lemma PrintItemsStep(items: seq<Node>, m: nat, step: int, indent: int)
    requires m < |items|
    ensures PrintItems(items[m..], m == 0, step, indent) ==
            ItemText(items[m], m == 0, step, indent) + PrintItems(items[m + 1..], false, step, indent)
  {
    assert items[m..][1..] == items[m + 1..];
  }

  method PrintItem(item: Node, first: bool, inner: PrintContext)
    modifies inner.out
    ensures inner.out.text == old(inner.out.text) + ItemText(item, first, inner.indentStep, inner.indent)
    decreases item, 3
  {
    if !first {
      inner.out.Write(",\n");
    }
    PrintIndent(inner);
    PrintValue(item, inner);
  }

  /** The loop over the items, each on a line of its own. */
  method PrintItemsInLines(items: seq<Node>, inner: PrintContext)
    modifies inner.out
    ensures inner.out.text == old(inner.out.text) + PrintItems(items, true, inner.indentStep, inner.indent)
    decreases items, 0
  {
    var out := inner.out;
    ghost var start, step, indent := out.text, inner.indentStep, inner.indent;
    var first := true;
    assert items[0..] == items;
    for m := 0 to |items|
      invariant first == (m == 0)
      invariant out.text + PrintItems(items[m..], first, step, indent) ==
                start + PrintItems(items, true, step, indent)
    {
      ghost var before, more := out.text, PrintItems(items[m + 1..], false, step, indent);
      PrintItemsStep(items, m, step, indent);
      PrintItem(items[m], first, inner);
      ConcatAssociates(before, ItemText(items[m], m == 0, step, indent), more);
      first := false;
    }
    assert out.text + "" == out.text;
  }

  method PrintArray(items: seq<Node>, ctx: PrintContext)
    modifies ctx.out
    ensures ctx.out.text == old(ctx.out.text) + PrintNode(Array(items), ctx.indentStep, ctx.indent)
    decreases items, 1
  {
    var out, inner := ctx.out, ctx.Indented();
    out.Write("[\n");
    PrintItemsInLines(items, inner);
    out.Put('\n');
    PrintIndent(ctx);
    out.Put(']');
    ghost var inside := PrintItems(items, true, inner.indentStep, inner.indent);
    FiveParts(old(ctx.out.text), "[\n", inside, Spaces(ctx.indent), "]");
  }

  /** An entry of a dictionary on a line of its own. */
  function EntryText(e: Entry, first: bool, step: int, indent: int): string {
    Separator(first) + Spaces(indent) + PrintString(e.key) + ": " + PrintNode(e.value, step, indent)
  }

  lemma PrintEntriesStep(entries: seq<Entry>, m: nat, step: int, indent: int)
    requires m < |entries|
    ensures PrintEntries(entries[m..], m == 0, step, indent) ==
            EntryText(entries[m], m == 0, step, indent) + PrintEntries(entries[m + 1..], false, step, indent)
  {
    assert entries[m..][1..] == entries[m + 1..];
  }

  method PrintEntry(e: Entry, first: bool, inner: PrintContext)
    modifies inner.out
    ensures inner.out.text == old(inner.out.text) + EntryText(e, first, inner.indentStep, inner.indent)
    decreases e, 3
  {
    if !first {
      inner.out.Write(",\n");
    }
    PrintIndent(inner);
    PrintText(e.key, inner.out);
    inner.out.Write(": ");
    ghost var before := inner.out.text;
    PrintValue(e.value, inner);
    SixParts(old(inner.out.text), Separator(first), Spaces(inner.indent), PrintString(e.key), before,
             PrintNode(e.value, inner.indentStep, inner.indent));
  }

  lemma SixParts(start: string, separator: string, spaces: string, key: string, before: string, value: string)
    requires before == start + separator + spaces + key + ": "
    ensures before + value == start + (separator + spaces + key + ": " + value)
  {
  }

  /** The loop over the entries, each on a line of its own. */
  method PrintEntriesInLines(entries: seq<Entry>, inner: PrintContext)
    modifies inner.out
    ensures inner.out.text == old(inner.out.text) + PrintEntries(entries, true, inner.indentStep, inner.indent)
    decreases entries, 0
  {
    var out := inner.out;
    ghost var start, step, indent := out.text, inner.indentStep, inner.indent;
    var first := true;
    assert entries[0..] == entries;
    for m := 0 to |entries|
      invariant first == (m == 0)
      invariant out.text + PrintEntries(entries[m..], first, step, indent) ==
                start + PrintEntries(entries, true, step, indent)
    {
      ghost var before, more := out.text, PrintEntries(entries[m + 1..], false, step, indent);
      PrintEntriesStep(entries, m, step, indent);
      PrintEntry(entries[m], first, inner);
      ConcatAssociates(before, EntryText(entries[m], m == 0, step, indent), more);
      first := false;
    }
    assert out.text + "" == out.text;
  }

  method PrintDict(entries: seq<Entry>, ctx: PrintContext)
    modifies ctx.out
    ensures ctx.out.text == old(ctx.out.text) + PrintNode(Dict(entries), ctx.indentStep, ctx.indent)
    decreases entries, 1
  {
    var out, inner := ctx.out, ctx.Indented();
    out.Write("{\n");
    PrintEntriesInLines(entries, inner);
    out.Put('\n');
    PrintIndent(ctx);
    out.Put('}');
    ghost var inside := PrintEntries(entries, true, inner.indentStep, inner.indent);
    FiveParts(old(ctx.out.text), "{\n", inside, Spaces(ctx.indent), "}");
  }

  method PrintValue(node: Node, ctx: PrintContext)
    modifies ctx.out
    ensures ctx.out.text == old(ctx.out.text) + PrintNode(node, ctx.indentStep, ctx.indent)
    decreases node, 2
  {
    match node
    case Null => ctx.out.Write("null");
    case Bool(flag) => ctx.out.Write(if flag then "true" else "false");
    case Int(number) => ctx.out.Write(PrintInt(number));
    case Double(literal) => ctx.out.Write(literal);
    case Str(text) => PrintText(text, ctx.out);
    case Array(items) => PrintArray(items, ctx);
    case Dict(entries) => PrintDict(entries, ctx);
  }

  /** Prints one document with the default indentation of four. */
  method Print(root: Node, out: OutputStream)
    modifies out
    ensures out.text == old(out.text) + PrintNode(root, 4, 0)
  {
    PrintValue(root, PrintContext(out, 4, 0));
  }

  /** What Print writes to an empty stream, Load reads back to the last character. */
  method PrintThenLoad(conv: Converter, root: Node) returns (r: Result<Node, ParsingError>)
    requires WellFormed(root) && NoDoubles(root)
    ensures r == Success(root)
  {
    var out := new OutputStream();
    Print(root, out);
    NodeReadsBack(conv, root, 4, 0, "");
    assert out.text + "" == out.text == PrintNode(root, 4, 0);
    var input := new InputStream(out.text);
    r := Load(conv, input);
  }
}

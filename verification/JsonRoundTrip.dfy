/** Loading printed JSON text gives the value back. */
module JsonRoundTrip {
  import opened Strings
  import opened JsonNode
  import opened JsonText

  // ---- White space

  lemma {:induction false} SkipSpacesOver(k: int, s: string)
    ensures SkipSpaces(Spaces(k) + s) == SkipSpaces(s)
    decreases if k < 0 then 0 else k
  {
    if k <= 0 {
      assert Spaces(k) + s == s;
    } else {
      assert Spaces(k) + s == Spaces(k - 1) + (" " + s);
      SkipSpacesOver(k - 1, " " + s);
      assert (" " + s)[1..] == s;
    }
  }

  lemma SkipNewline(s: string)
    ensures SkipSpaces("\n" + s) == SkipSpaces(s)
  {
    assert ("\n" + s)[1..] == s;
  }

  // ---- Strings

  lemma {:induction false} StringReadsBack(s: string, done: string, rest: string)
    ensures ParseString(Escaped(s) + "\"" + rest, done) == Parsed(done + s, rest)
  {
    if s == "" {
      assert Escaped(s) + "\"" + rest == "\"" + rest;
      assert done + s == done;
    } else {
      var tail := Escaped(s[1..]) + "\"" + rest;
      assert Escaped(s) + "\"" + rest == EscapedChar(s[0]) + tail;
      StringReadsBack(s[1..], done + [s[0]], rest);
      assert done + [s[0]] + s[1..] == done + s;
      var text := EscapedChar(s[0]) + tail;
      if |EscapedChar(s[0])| == 1 {
        assert text[1..] == tail;
      } else {
        assert text[2..] == tail;
      }
    }
  }

  // ---- Numbers

  lemma {:induction false} PrintNatDigits(n: nat)
    ensures PrintNat(n) != "" && forall m :: 0 <= m < |PrintNat(n)| ==> IsDigit(PrintNat(n)[m])
    ensures PrintNat(n)[0] == '0' <==> n == 0
    ensures n == 0 ==> PrintNat(n) == "0"
    ensures NatValue(PrintNat(n)) == n
  {
    if n >= 10 {
      PrintNatDigits(n / 10);
      var text := PrintNat(n);
      assert text[..|text| - 1] == PrintNat(n / 10);
    } else {
      assert [Digit(n)][..0] == "";
    }
  }

  /** What must not follow a number: it would be read as part of it. */
  predicate EndsDigits(rest: string) {
    rest == "" || !IsDigit(rest[0])
  }

  lemma {:induction false} DigitsLengthOf(digits: string, rest: string)
    requires forall m :: 0 <= m < |digits| ==> IsDigit(digits[m])
    requires EndsDigits(rest)
    ensures DigitsLength(digits + rest) == |digits|
  {
    if digits == "" {
      assert digits + rest == rest;
    } else {
      DigitsLengthOf(digits[1..], rest);
      assert (digits + rest)[1..] == digits[1..] + rest;
    }
  }

  lemma WholeReadsBack(i: int, rest: string)
    requires EndsDigits(rest) || i == 0
    ensures AfterWhole(PrintInt(i) + rest) == Reached(|PrintInt(i)|)
  {
    var text, digits := PrintInt(i), PrintNat(if i < 0 then -i else i);
    var from := if i < 0 then 1 else 0;
    PrintNatDigits(if i < 0 then -i else i);
    assert (text + rest)[from..] == digits + rest;
    assert AfterSign(text + rest) == from;
    assert (text + rest)[from] == digits[0];
    if i != 0 {
      DigitsLengthOf(digits, rest);
    }
  }

  lemma IntValueOf(i: int)
    requires INT_MIN <= i <= INT_MAX
    ensures IntValue(PrintInt(i)) == IntFits(i)
  {
    var digits := PrintNat(if i < 0 then -i else i);
    PrintNatDigits(if i < 0 then -i else i);
    DigitsLengthOf(digits, "");
    assert digits + "" == digits;
    assert PrintInt(i)[AfterSign(PrintInt(i))..] == digits;
  }

  /** The text after a printed integer does not continue the number. */
  predicate EndsInt(i: int, rest: string) {
    rest == "" || ((i == 0 || !IsDigit(rest[0])) && rest[0] != '.' && rest[0] != 'e' && rest[0] != 'E')
  }

  lemma NumberByParts(conv: Converter, s: string, whole: nat, fraction: nat, exponent: nat)
    requires AfterWhole(s) == Reached(whole) && whole <= fraction <= exponent <= |s|
    requires AfterFraction(s, whole) == Reached(fraction) && AfterExponent(s, fraction) == Reached(exponent)
    ensures ParseNumber(conv, s) == ConvertNumber(conv, s[..exponent], exponent == whole, s[exponent..])
  {
  }

  /** Neither a fraction nor an exponent stands at the position. */
  lemma NoTail(s: string, at: nat, rest: string)
    requires at <= |s| && s[at..] == rest
    requires rest == "" || (rest[0] != '.' && rest[0] != 'e' && rest[0] != 'E')
    ensures AfterFraction(s, at) == Reached(at) && AfterExponent(s, at) == Reached(at)
  {
    if at < |s| {
      assert s[at] == rest[0];
    }
  }

  lemma NumberReadsBack(conv: Converter, i: int, rest: string)
    requires INT_MIN <= i <= INT_MAX && EndsInt(i, rest)
    ensures ParseNumber(conv, PrintInt(i) + rest) == Parsed(Int(i), rest)
  {
    var s, at := PrintInt(i) + rest, |PrintInt(i)|;
    assert s[..at] == PrintInt(i) && s[at..] == rest;
    WholeReadsBack(i, rest);
    NoTail(s, at, rest);
    NumberByParts(conv, s, at, at, at);
    IntValueOf(i);
  }

  // ---- Words

  lemma {:induction false} LiteralLengthOf(word: string, rest: string)
    requires forall m :: 0 <= m < |word| ==> IsAlpha(word[m])
    requires rest == "" || !IsAlpha(rest[0])
    ensures LiteralLength(word + rest) == |word|
    ensures (word + rest)[..|word|] == word && (word + rest)[|word|..] == rest
  {
    if word == "" {
      assert word + rest == rest;
    } else {
      LiteralLengthOf(word[1..], rest);
      assert (word + rest)[1..] == word[1..] + rest;
    }
  }

  // ---- Values

  /** The text after a printed value does not run into it: words and integers need an end, other values
      bring their own. */
  predicate Delimited(n: Node, rest: string) {
    match n
    case Int(i) => EndsInt(i, rest)
    case Bool(_) => rest == "" || !IsAlpha(rest[0])
    case Null => rest == "" || !IsAlpha(rest[0])
    case _ => true
  }

  /** The first character of a printed value decides how it is read. */
  lemma PrintStart(n: Node, step: int, indent: int)
    requires NoDoubles(n)
    ensures var text := PrintNode(n, step, indent);
      && text != "" && !IsSpace(text[0]) && text[0] != ',' && text[0] != ']'
      && (n.Int? ==> text[0] == '-' || IsDigit(text[0]))
  {
    match n
    case Int(i) => PrintNatDigits(if i < 0 then -i else i);
    case _ =>
  }

  lemma QuotedReadsBack(s: string, rest: string)
    ensures var text := PrintString(s) + rest;
      text[0] == '"' && SkipSpaces(text) == text && ParseString(text[1..], "") == Parsed(s, rest)
  {
    var text := PrintString(s) + rest;
    StringReadsBack(s, "", rest);
    assert text[1..] == Escaped(s) + "\"" + rest;
    assert "" + s == s;
  }

  /** Printed text of a value without doubles, at any indentation, loads as the value and leaves what follows it. */
  lemma {:induction false} NodeReadsBack(conv: Converter, n: Node, step: int, indent: int, rest: string)
    requires WellFormed(n) && NoDoubles(n) && Delimited(n, rest)
    ensures ParseNode(conv, PrintNode(n, step, indent) + rest) == Parsed(n, rest)
    decreases n, 2, 0
  {
    match n
    case Array(items) => ArrayReadsBack(conv, n, step, indent, rest);
    case Dict(entries) => DictReadsBack(conv, n, step, indent, rest);
    case _ => ScalarReadsBack(conv, n, step, indent, rest);
  }

  lemma ScalarReadsBack(conv: Converter, n: Node, step: int, indent: int, rest: string)
    requires !n.Array? && !n.Dict? && WellFormed(n) && NoDoubles(n) && Delimited(n, rest)
    ensures ParseNode(conv, PrintNode(n, step, indent) + rest) == Parsed(n, rest)
  {
    match n
    case Null => NullReadsBack(conv, rest);
    case Bool(flag) => BoolReadsBack(conv, flag, rest);
    case Int(i) => IntReadsBack(conv, i, rest);
    case Str(s) => QuotedReadsBack(s, rest);
  }

  /** A text that starts with neither white space nor a bracket or quote goes to the loader its first letter names. */
  lemma DispatchWord(conv: Converter, s: string)
    requires s != "" && !IsSpace(s[0])
    ensures s[0] == 't' || s[0] == 'f' ==> ParseNode(conv, s) == ParseBool(s)
    ensures s[0] == 'n' ==> ParseNode(conv, s) == ParseNull(s)
    ensures s[0] == '-' || IsDigit(s[0]) ==> ParseNode(conv, s) == ParseNumber(conv, s)
  {
  }

  /** Other texts are arrays, dictionaries, strings or numbers. */
  lemma DispatchNested(conv: Converter, t: string)
    requires t != "" && !IsSpace(t[0])
    ensures t[0] == '[' ==> ParseNode(conv, t) == ParseArray(conv, t[1..], [])
    ensures t[0] == '{' ==> ParseNode(conv, t) == ParseDict(conv, t[1..], [])
    ensures t[0] == '"' && ParseNode(conv, t).Parsed? ==>
              ParseString(t[1..], "").Parsed? && ParseNode(conv, t).rest == ParseString(t[1..], "").rest
    ensures t[0] !in ['[', '{', '"', 't', 'f', 'n'] ==> ParseNode(conv, t) == ParseNumber(conv, t)
  {
  }

  lemma NullReadsBack(conv: Converter, rest: string)
    requires rest == "" || !IsAlpha(rest[0])
    ensures ParseNode(conv, "null" + rest) == Parsed(Null, rest)
  {
    LiteralLengthOf("null", rest);
    DispatchWord(conv, "null" + rest);
  }

  lemma BoolReadsBack(conv: Converter, flag: bool, rest: string)
    requires rest == "" || !IsAlpha(rest[0])
    ensures ParseNode(conv, (if flag then "true" else "false") + rest) == Parsed(Bool(flag), rest)
  {
    var word := if flag then "true" else "false";
    LiteralLengthOf(word, rest);
    DispatchWord(conv, word + rest);
  }

  lemma IntReadsBack(conv: Converter, i: int, rest: string)
    requires INT_MIN <= i <= INT_MAX && EndsInt(i, rest)
    ensures ParseNode(conv, PrintInt(i) + rest) == Parsed(Int(i), rest)
  {
    PrintNatDigits(if i < 0 then -i else i);
    DispatchWord(conv, PrintInt(i) + rest);
    NumberReadsBack(conv, i, rest);
  }

  lemma {:induction false} ArrayReadsBack(conv: Converter, n: Node, step: int, indent: int, rest: string)
    requires n.Array? && WellFormed(n) && NoDoubles(n)
    ensures ParseNode(conv, PrintNode(n, step, indent) + rest) == Parsed(n, rest)
    decreases n, 1, |n.items| + 1
  {
    var items, tail := n.items, "\n" + Spaces(indent) + "]" + rest;
    ItemsReadBack(conv, n, items, [], true, step, indent + step, tail);
    EndOfArray(conv, items, indent, rest);
    assert [] + items == items;
    NestedReads(conv, n, "[", PrintItems(items, true, step, indent + step), Spaces(indent), "]", rest);
    NestedText(n, step, indent);
  }

  lemma {:induction false} DictReadsBack(conv: Converter, n: Node, step: int, indent: int, rest: string)
    requires n.Dict? && WellFormed(n) && NoDoubles(n)
    ensures ParseNode(conv, PrintNode(n, step, indent) + rest) == Parsed(n, rest)
    decreases n, 1, |n.entries| + 2
  {
    EndOfDict(conv, n.entries, indent, rest);
    AllEntriesReadBack(conv, n, n.entries, step, indent + step, "\n" + Spaces(indent) + "}" + rest, rest);
    NestedReads(conv, n, "{", PrintEntries(n.entries, true, step, indent + step), Spaces(indent), "}", rest);
    NestedText(n, step, indent);
  }

  lemma NestedText(n: Node, step: int, indent: int)
    ensures n.Array? ==>
      PrintNode(n, step, indent) ==
      "[" + "\n" + PrintItems(n.items, true, step, indent + step) + "\n" + Spaces(indent) + "]"
    ensures n.Dict? ==>
      PrintNode(n, step, indent) ==
      "{" + "\n" + PrintEntries(n.entries, true, step, indent + step) + "\n" + Spaces(indent) + "}"
  {
    assert "[\n" == "[" + "\n" && "{\n" == "{" + "\n";
  }

  lemma NestedReads(conv: Converter, n: Node, open: string, inside: string, spaces: string, close: string, rest: string)
    requires open == "[" || open == "{"
    requires var body := "\n" + (inside + ("\n" + spaces + close + rest));
      (if open == "[" then ParseArray(conv, body, []) else ParseDict(conv, body, [])) == Parsed(n, rest)
    ensures ParseNode(conv, open + "\n" + inside + "\n" + spaces + close + rest) == Parsed(n, rest)
  {
    Bracketed(open, inside, spaces, close, rest);
    DispatchNested(conv, open + "\n" + inside + "\n" + spaces + close + rest);
  }

  lemma {:induction false} AllEntriesReadBack(conv: Converter, n: Node, entries: seq<Entry>, step: int, indent: int,
                                              tail: string, rest: string)
    requires forall m :: 0 <= m < |entries| ==>
               entries[m].value < n && WellFormed(entries[m].value) && NoDoubles(entries[m].value)
    requires Sorted(entries) && tail != "" && tail[0] == '\n'
    requires ParseDict(conv, tail, entries) == Parsed(Dict(entries), rest)
    ensures ParseDict(conv, "\n" + (PrintEntries(entries, true, step, indent) + tail), []) ==
            Parsed(Dict(entries), rest)
    decreases n, 1, |entries| + 1
  {
    assert [] + entries == entries;
    EntriesReadBack(conv, n, entries, [], true, step, indent, tail);
  }

  lemma Bracketed(open: string, inside: string, spaces: string, close: string, rest: string)
    requires |open| == 1 && !IsSpace(open[0])
    ensures var text := open + "\n" + inside + "\n" + spaces + close + rest;
      && text[0] == open[0] && text[1..] == "\n" + (inside + ("\n" + spaces + close + rest))
      && SkipSpaces(text) == text
  {
  }

  lemma ParseDictSkips(conv: Converter, s: string, t: string, done: seq<Entry>)
    requires SkipSpaces(s) == SkipSpaces(t)
    ensures ParseDict(conv, s, done) == ParseDict(conv, t, done)
  {
  }

  lemma ParseArraySkips(conv: Converter, s: string, t: string, done: seq<Node>)
    requires SkipSpaces(s) == SkipSpaces(t)
    ensures ParseArray(conv, s, done) == ParseArray(conv, t, done)
  {
  }

  lemma BracketEnds(conv: Converter, items: seq<Node>, entries: seq<Entry>, rest: string)
    ensures ParseArray(conv, "]" + rest, items) == Parsed(Array(items), rest)
    ensures ParseDict(conv, "}" + rest, entries) == Parsed(Dict(entries), rest)
  {
    assert ("]" + rest)[1..] == rest && ("}" + rest)[1..] == rest;
  }

  lemma EndSkips(indent: int, close: string, rest: string)
    ensures SkipSpaces("\n" + Spaces(indent) + close + rest) == SkipSpaces(close + rest)
  {
    assert "\n" + Spaces(indent) + close + rest == "\n" + (Spaces(indent) + (close + rest));
    SkipNewline(Spaces(indent) + (close + rest));
    SkipSpacesOver(indent, close + rest);
  }

  lemma EndOfArray(conv: Converter, items: seq<Node>, indent: int, rest: string)
    ensures ParseArray(conv, "\n" + Spaces(indent) + "]" + rest, items) == Parsed(Array(items), rest)
  {
    EndSkips(indent, "]", rest);
    ParseArraySkips(conv, "\n" + Spaces(indent) + "]" + rest, "]" + rest, items);
    BracketEnds(conv, items, [], rest);
  }

  lemma EndOfDict(conv: Converter, entries: seq<Entry>, indent: int, rest: string)
    ensures ParseDict(conv, "\n" + Spaces(indent) + "}" + rest, entries) == Parsed(Dict(entries), rest)
  {
    EndSkips(indent, "}", rest);
    ParseDictSkips(conv, "\n" + Spaces(indent) + "}" + rest, "}" + rest, entries);
    BracketEnds(conv, [], entries, rest);
  }

  /** Leading white space does not matter to a loader that skips it. */
  lemma ParseNodeSkips(conv: Converter, s: string, t: string)
    requires SkipSpaces(s) == SkipSpaces(t)
    ensures ParseNode(conv, s) == ParseNode(conv, t)
  {
  }

  /** What follows an item or entry: a separator and more of them, or the end of line before the closing bracket. */
  lemma MoreItemsStart(items: seq<Node>, step: int, indent: int, tail: string)
    requires tail != "" && tail[0] == '\n'
    ensures var s := PrintItems(items, false, step, indent) + tail; s[0] == ',' || s[0] == '\n'
  {
  }

  lemma MoreEntriesStart(entries: seq<Entry>, step: int, indent: int, tail: string)
    requires tail != "" && tail[0] == '\n'
    ensures var s := PrintEntries(entries, false, step, indent) + tail; s[0] == ',' || s[0] == '\n'
  {
  }

  /** One item on a line of its own, before it a comma or nothing. */
  lemma ItemReadsBack(conv: Converter, item: string, value: Node, done: seq<Node>, indent: int, more: string)
    requires item != "" && !IsSpace(item[0]) && item[0] != ',' && item[0] != ']'
    requires ParseNode(conv, item + more) == Parsed(value, more)
    ensures ParseArray(conv, "\n" + (Spaces(indent) + (item + more)), done) == ParseArray(conv, more, done + [value])
    ensures ParseArray(conv, ",\n" + (Spaces(indent) + (item + more)), done) == ParseArray(conv, more, done + [value])
  {
    var text, spaced := item + more, Spaces(indent) + (item + more);
    SkipSpacesOver(indent, text);
    SkipNewline(spaced);
    assert SkipSpaces("\n" + spaced) == text;
    ParseNodeSkips(conv, "\n" + spaced, text);
    assert ",\n" + spaced == "," + ("\n" + spaced);
    assert ("," + ("\n" + spaced))[1..] == "\n" + spaced;
  }

  /** Before the items of a printed array stands the end of its opening line. */
  function Opened(first: bool, text: string): string {
    if first then "\n" + text else text
  }

  /** Concatenation regrouped to the right. */
  lemma Regroup(a: string, b: string, c: string, d: string, tail: string)
    ensures a + b + c + d + tail == a + (b + (c + (d + tail)))
  {
  }

  /** The line break and, between items, the comma before an item. */
  function LineStart(first: bool): string {
    if first then "\n" else ",\n"
  }

  lemma PrintItemsUnfold(items: seq<Node>, first: bool, step: int, indent: int, tail: string)
    requires items != []
    ensures Opened(first, PrintItems(items, first, step, indent) + tail) ==
            LineStart(first)
            + (Spaces(indent)
               + (PrintNode(items[0], step, indent) + (PrintItems(items[1..], false, step, indent) + tail)))
  {
    var item, rest := PrintNode(items[0], step, indent), PrintItems(items[1..], false, step, indent);
    Regroup(Separator(first), Spaces(indent), item, rest, tail);
    assert Opened(first, Separator(first)) == LineStart(first);
  }

  /** Reading the printed items of an array, all or the later ones, appends them to those already read. */
  lemma {:induction false} ItemsReadBack(conv: Converter, n: Node, items: seq<Node>, done: seq<Node>, first: bool,
                                         step: int, indent: int, tail: string)
    requires forall m :: 0 <= m < |items| ==> items[m] < n && WellFormed(items[m]) && NoDoubles(items[m])
    requires tail != "" && tail[0] == '\n'
    ensures ParseArray(conv, Opened(first, PrintItems(items, first, step, indent) + tail), done) ==
            ParseArray(conv, tail, done + items)
    decreases n, 1, |items|
  {
    if items == [] {
      NoMore(conv, first, tail);
      assert done + items == done;
    } else {
      var more := PrintItems(items[1..], false, step, indent) + tail;
      MoreItemsStart(items[1..], step, indent, tail);
      NodeReadsBack(conv, items[0], step, indent, more);
      FirstItemReadsBack(conv, items, done, first, step, indent, tail, more);
      ItemsReadBack(conv, n, items[1..], done + [items[0]], false, step, indent, tail);
      Shift(done, items);
    }
  }

  lemma FirstItemReadsBack(conv: Converter, items: seq<Node>, done: seq<Node>, first: bool, step: int, indent: int,
                           tail: string, more: string)
    requires items != [] && NoDoubles(items[0]) && more == PrintItems(items[1..], false, step, indent) + tail
    requires ParseNode(conv, PrintNode(items[0], step, indent) + more) == Parsed(items[0], more)
    ensures ParseArray(conv, Opened(first, PrintItems(items, first, step, indent) + tail), done) ==
            ParseArray(conv, more, done + [items[0]])
  {
    PrintStart(items[0], step, indent);
    ItemReadsBack(conv, PrintNode(items[0], step, indent), items[0], done, indent, more);
    PrintItemsUnfold(items, first, step, indent, tail);
  }

  lemma Shift<T>(done: seq<T>, left: seq<T>)
    requires left != []
    ensures done + [left[0]] + left[1..] == done + left
  {
  }

  lemma NoMore(conv: Converter, first: bool, tail: string)
    ensures forall done :: ParseArray(conv, Opened(first, "" + tail), done) == ParseArray(conv, tail, done)
    ensures forall done :: ParseDict(conv, Opened(first, "" + tail), done) == ParseDict(conv, tail, done)
  {
    assert "" + tail == tail;
    SkipNewline(tail);
  }

  /** A key, a colon and a value, when nothing but white space comes before. */
  lemma KeyReadsBack(conv: Converter, s: string, key: string, value: Node, printed: string,
                     done: seq<Entry>, more: string)
    requires SkipSpaces(s) == PrintString(key) + (": " + (printed + more))
    requires !HasKey(done, key) && ParseNode(conv, printed + more) == Parsed(value, more)
    ensures ParseDict(conv, s, done) == ParseDict(conv, more, Emplace(done, key, value))
  {
    var rest := ": " + (printed + more);
    QuotedReadsBack(key, rest);
    ColonReadsBack(conv, printed + more);
  }

  lemma ColonReadsBack(conv: Converter, text: string)
    ensures SkipSpaces(": " + text) == ": " + text && ParseNode(conv, (": " + text)[1..]) == ParseNode(conv, text)
  {
    assert (": " + text)[1..] == " " + text;
    assert (" " + text)[1..] == text;
    ParseNodeSkips(conv, " " + text, text);
  }

  /** One entry on a line of its own, before it a comma or nothing. */
  lemma EntryReadsBack(conv: Converter, key: string, value: Node, printed: string,
                       done: seq<Entry>, indent: int, more: string)
    requires !HasKey(done, key) && ParseNode(conv, printed + more) == Parsed(value, more)
    ensures var text := PrintString(key) + (": " + (printed + more));
      && ParseDict(conv, "\n" + (Spaces(indent) + text), done) == ParseDict(conv, more, Emplace(done, key, value))
      && ParseDict(conv, ",\n" + (Spaces(indent) + text), done) == ParseDict(conv, more, Emplace(done, key, value))
  {
    var text := PrintString(key) + (": " + (printed + more));
    var line := "\n" + (Spaces(indent) + text);
    SkipSpacesOver(indent, text);
    SkipNewline(Spaces(indent) + text);
    assert SkipSpaces(line) == text;
    KeyReadsBack(conv, line, key, value, printed, done, more);
    assert ",\n" + (Spaces(indent) + text) == "," + line;
    assert ("," + line)[1..] == line;
  }

  lemma PrintEntriesUnfold(entries: seq<Entry>, first: bool, step: int, indent: int, tail: string)
    requires entries != []
    ensures Opened(first, PrintEntries(entries, first, step, indent) + tail) ==
            LineStart(first)
            + (Spaces(indent) + (PrintString(entries[0].key) + (": " + (PrintNode(entries[0].value, step, indent)
               + (PrintEntries(entries[1..], false, step, indent) + tail)))))
  {
    var key, item := PrintString(entries[0].key), PrintNode(entries[0].value, step, indent);
    var rest := PrintEntries(entries[1..], false, step, indent);
    Regroup(Separator(first), Spaces(indent), key, ": " , item + rest + tail);
    EntryRegroup(Separator(first) + Spaces(indent) + key + ": ", item, rest, tail);
    assert Opened(first, Separator(first)) == LineStart(first);
  }

  lemma EntryRegroup(head: string, item: string, rest: string, tail: string)
    ensures head + item + rest + tail == head + (item + rest + tail)
    ensures item + rest + tail == item + (rest + tail)
  {
  }

  lemma {:induction false} EntriesReadBack(conv: Converter, n: Node, entries: seq<Entry>, done: seq<Entry>, first: bool,
                                           step: int, indent: int, tail: string)
    requires forall m :: 0 <= m < |entries| ==>
               entries[m].value < n && WellFormed(entries[m].value) && NoDoubles(entries[m].value)
    requires Sorted(done + entries)
    requires tail != "" && tail[0] == '\n'
    ensures ParseDict(conv, Opened(first, PrintEntries(entries, first, step, indent) + tail), done) ==
            ParseDict(conv, tail, done + entries)
    decreases n, 1, |entries|
  {
    if entries == [] {
      NoMore(conv, first, tail);
      assert done + entries == done;
    } else {
      var e := entries[0];
      var more := PrintEntries(entries[1..], false, step, indent) + tail;
      MoreEntriesStart(entries[1..], step, indent, tail);
      NodeReadsBack(conv, e.value, step, indent, more);
      FirstEntryReadsBack(conv, entries, done, first, step, indent, tail, more);
      Shift(done, entries);
      EntriesReadBack(conv, n, entries[1..], done + [e], false, step, indent, tail);
    }
  }

  lemma FirstEntryReadsBack(conv: Converter, entries: seq<Entry>, done: seq<Entry>, first: bool, step: int, indent: int,
                            tail: string, more: string)
    requires entries != [] && Sorted(done + entries) && more == PrintEntries(entries[1..], false, step, indent) + tail
    requires ParseNode(conv, PrintNode(entries[0].value, step, indent) + more) == Parsed(entries[0].value, more)
    ensures ParseDict(conv, Opened(first, PrintEntries(entries, first, step, indent) + tail), done) ==
            ParseDict(conv, more, done + [entries[0]])
  {
    NextKeyIsLast(done, entries);
    var printed := PrintNode(entries[0].value, step, indent);
    EntryReadsBack(conv, entries[0].key, entries[0].value, printed, done, indent, more);
    PrintEntriesUnfold(entries, first, step, indent, tail);
  }

  /** The entries of a printed map come in order, so each goes behind those already read. */
  lemma NextKeyIsLast(done: seq<Entry>, entries: seq<Entry>)
    requires entries != [] && Sorted(done + entries)
    ensures !HasKey(done, entries[0].key)
    ensures Emplace(done, entries[0].key, entries[0].value) == done + [entries[0]]
  {
    forall m | 0 <= m < |done| ensures Less(done[m].key, entries[0].key) {
      assert (done + entries)[m] == done[m] && (done + entries)[|done|] == entries[0];
    }
    EmplaceLast(done, entries[0].key, entries[0].value);
  }

  // ---- The delimiter is needed

  lemma {:induction false} DigitsLengthMore(digits: string, rest: string)
    requires forall m :: 0 <= m < |digits| ==> IsDigit(digits[m])
    requires rest != "" && IsDigit(rest[0])
    ensures DigitsLength(digits + rest) > |digits|
  {
    if digits == "" {
      assert digits + rest == rest;
    } else {
      DigitsLengthMore(digits[1..], rest);
      assert (digits + rest)[1..] == digits[1..] + rest;
    }
  }

  lemma WholeReadsOn(i: int, rest: string)
    requires rest != "" && IsDigit(rest[0]) && i != 0
    ensures AfterWhole(PrintInt(i) + rest).Reached? && AfterWhole(PrintInt(i) + rest).at > |PrintInt(i)|
  {
    var text, digits := PrintInt(i), PrintNat(if i < 0 then -i else i);
    var from := if i < 0 then 1 else 0;
    PrintNatDigits(if i < 0 then -i else i);
    assert (text + rest)[from..] == digits + rest;
    assert AfterSign(text + rest) == from;
    assert (text + rest)[from] == digits[0];
    DigitsLengthMore(digits, rest);
  }

  lemma {:induction false} LiteralLengthMore(word: string, rest: string)
    requires forall m :: 0 <= m < |word| ==> IsAlpha(word[m])
    requires rest != "" && IsAlpha(rest[0])
    ensures LiteralLength(word + rest) > |word|
  {
    if word == "" {
      assert word + rest == rest;
    } else {
      LiteralLengthMore(word[1..], rest);
      assert (word + rest)[1..] == word[1..] + rest;
    }
  }

  lemma NumberReadsOn(conv: Converter, i: int, rest: string)
    requires INT_MIN <= i <= INT_MAX && !EndsInt(i, rest)
    ensures ParseNumber(conv, PrintInt(i) + rest) != Parsed(Int(i), rest)
  {
    var text := PrintInt(i) + rest;
    if i != 0 && IsDigit(rest[0]) {
      WholeReadsOn(i, rest);
    } else {
      WholeReadsBack(i, rest);
      assert text[|PrintInt(i)|] == rest[0];
    }
  }

  lemma WordReadsOn(conv: Converter, word: string, rest: string)
    requires word == "null" || word == "true" || word == "false"
    requires rest != "" && IsAlpha(rest[0])
    ensures ParseNode(conv, word + rest).Failed?
  {
    LiteralLengthMore(word, rest);
    DispatchWord(conv, word + rest);
  }

  lemma IntReadsOn(conv: Converter, i: int, rest: string)
    requires INT_MIN <= i <= INT_MAX && !EndsInt(i, rest)
    ensures ParseNode(conv, PrintInt(i) + rest) != Parsed(Int(i), rest)
  {
    PrintNatDigits(if i < 0 then -i else i);
    DispatchWord(conv, PrintInt(i) + rest);
    NumberReadsOn(conv, i, rest);
  }

  /** A printed value reads back in front of other text if and only if that text does not run into it. */
  lemma ReadsBackIffDelimited(conv: Converter, n: Node, step: int, indent: int, rest: string)
    requires WellFormed(n) && NoDoubles(n)
    ensures ParseNode(conv, PrintNode(n, step, indent) + rest) == Parsed(n, rest) <==> Delimited(n, rest)
  {
    if Delimited(n, rest) {
      NodeReadsBack(conv, n, step, indent, rest);
    } else {
      match n
      case Null => WordReadsOn(conv, "null", rest);
      case Bool(flag) => WordReadsOn(conv, if flag then "true" else "false", rest);
      case Int(i) => IntReadsOn(conv, i, rest);
    }
  }

  // ---- Whatever was loaded prints and loads again

  lemma {:induction false} ParsedWellFormed(conv: Converter, s: string)
    ensures ParseNode(conv, s).Parsed? ==> WellFormed(ParseNode(conv, s).value)
    decreases |s|, 0
  {
    var s := SkipSpaces(s);
    if s != "" && s[0] == '[' {
      ParsedArrayWellFormed(conv, s[1..], []);
    } else if s != "" && s[0] == '{' {
      ParsedDictWellFormed(conv, s[1..], []);
    }
  }

  lemma {:induction false} ParsedArrayWellFormed(conv: Converter, s: string, done: seq<Node>)
    requires WellFormed(Array(done))
    ensures ParseArray(conv, s, done).Parsed? ==> WellFormed(ParseArray(conv, s, done).value)
    decreases |s|, 1
  {
    var s := SkipSpaces(s);
    if s != "" && s[0] != ']' {
      var input := if s[0] == ',' then s[1..] else s;
      ParsedWellFormed(conv, input);
      if ParseNode(conv, input).Parsed? {
        ParsedArrayWellFormed(conv, ParseNode(conv, input).rest, done + [ParseNode(conv, input).value]);
      }
    }
  }

  lemma {:induction false} ParsedDictWellFormed(conv: Converter, s: string, done: seq<Entry>)
    requires WellFormed(Dict(done))
    ensures ParseDict(conv, s, done).Parsed? ==> WellFormed(ParseDict(conv, s, done).value)
    decreases |s|, 1
  {
    var s := SkipSpaces(s);
    if s != "" && s[0] == ',' {
      ParsedDictWellFormed(conv, s[1..], done);
    } else if s != "" && s[0] == '"' && ParseString(s[1..], "").Parsed? {
      var key := ParseString(s[1..], "");
      var colon := SkipSpaces(key.rest);
      if colon != "" && colon[0] == ':' && !HasKey(done, key.value) {
        ParsedWellFormed(conv, colon[1..]);
        var value := ParseNode(conv, colon[1..]);
        if value.Parsed? {
          EmplaceSorted(done, key.value, value.value);
          var more := Emplace(done, key.value, value.value);
          forall m | 0 <= m < |more| ensures WellFormed(more[m].value) {
            assert more[m] in more;
          }
          ParsedDictWellFormed(conv, value.rest, more);
        }
      }
    }
  }

  /** Loading any text, printing the value and loading again changes nothing more, unless it holds doubles. */
  lemma ReprintedReadsBack(conv: Converter, s: string, step: int, indent: int)
    requires ParseNode(conv, s).Parsed? && NoDoubles(ParseNode(conv, s).value)
    ensures ParseNode(conv, PrintNode(ParseNode(conv, s).value, step, indent)) == Parsed(ParseNode(conv, s).value, "")
  {
    ParsedWellFormed(conv, s);
    var n := ParseNode(conv, s).value;
    NodeReadsBack(conv, n, step, indent, "");
    assert PrintNode(n, step, indent) + "" == PrintNode(n, step, indent);
  }
}

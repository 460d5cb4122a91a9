/** What printing writes: exactly one spelling of the grammar for every value, with its white space. */
module JsonPrinted {
  import opened Wrappers
  import opened Sequences
  import opened JsonNode
  import opened JsonText
  import opened JsonRoundTrip
  import opened JsonGrammar

  // ---- Decimal numerals

  function Pow10(k: nat): nat {
    if k == 0 then 1 else 10 * Pow10(k - 1)
  }

  /** Digits are read as decimal places. */
  lemma {:induction false} NatValueMeans(high: string, low: string)
    requires forall m :: 0 <= m < |high| ==> IsDigit(high[m])
    requires forall m :: 0 <= m < |low| ==> IsDigit(low[m])
    ensures forall m :: 0 <= m < |high + low| ==> IsDigit((high + low)[m])
    ensures NatValue(high + low) == NatValue(high) * Pow10(|low|) + NatValue(low)
    ensures forall c | IsDigit(c) :: NatValue([c]) == c as int - '0' as int
  {
    forall c | IsDigit(c) ensures NatValue([c]) == c as int - '0' as int {
      assert [c][..0] == "";
    }
    if low == "" {
      assert high + low == high;
    } else {
      var init := low[..|low| - 1];
      NatValueMeans(high, init);
      assert (high + low)[..|high + low| - 1] == high + init;
      TimesTen(NatValue(high), Pow10(|init|), NatValue(init));
    }
  }

  lemma TimesTen(a: nat, b: nat, c: nat)
    ensures 10 * (a * b + c) == a * (10 * b) + 10 * c
  {
  }

  /** A printed integer is a minus sign, exactly if it is negative, and the digits of its magnitude, without leading
      zeros. */
  lemma PrintIntMeans(i: int)
    ensures var text := PrintInt(i);
      var digits := if i < 0 then text[1..] else text;
      && (i < 0 ==> text[0] == '-') && digits != "" && (forall m :: 0 <= m < |digits| ==> IsDigit(digits[m]))
      && (digits[0] == '0' ==> digits == "0") && NatValue(digits) == if i < 0 then -i else i
  {
    PrintNatDigits(if i < 0 then -i else i);
  }

  // ---- The layout of a printed value

  function Blanks(k: int): string {
    seq(if k < 0 then 0 else k, _ => ' ')
  }

  /** Line feeds, carriage returns, quotes and backslashes are escaped, and nothing else. */
  function PieceOf(c: char): Piece {
    if c == '\n' then Escape('n')
    else if c == '\r' then Escape('r')
    else if c == '"' || c == '\\' then Escape(c)
    else Plain(c)
  }

  function PiecesOf(s: string): seq<Piece> {
    if s == "" then [] else [PieceOf(s[0])] + PiecesOf(s[1..])
  }

  function NumeralOf(i: int): Numeral {
    Numeral(i < 0, PrintNat(if i < 0 then -i else i), None, None)
  }

  /** Every item and entry stands on a line of its own, one step further in than the brackets, which end on a line
      of their own; a comma ends the line before each later item; a blank follows a colon. */
  function LayoutOf(n: Node, step: int, indent: int): Layout
    requires NoDoubles(n)
  {
    match n
    case Int(i) => Number(NumeralOf(i))
    case Str(text) => Quoted(PiecesOf(text))
    case Array(items) =>
      Listed(LayoutItems(items, true, step, indent + step), Opened(items == [], "\n" + Blanks(indent)))
    case Dict(entries) =>
      Keyed(LayoutEntries(entries, true, step, indent + step), Opened(entries == [], "\n" + Blanks(indent)))
    case _ => Word(n)
  }

  function LayoutItems(items: seq<Node>, first: bool, step: int, indent: int): seq<Item>
    requires forall m :: 0 <= m < |items| ==> NoDoubles(items[m])
  {
    if items == [] then []
    else
      [Item("", !first, "\n" + Blanks(indent), LayoutOf(items[0], step, indent))]
      + LayoutItems(items[1..], false, step, indent)
  }

  function LayoutEntries(entries: seq<Entry>, first: bool, step: int, indent: int): seq<Field>
    requires forall m :: 0 <= m < |entries| ==> NoDoubles(entries[m].value)
  {
    if entries == [] then []
    else
      [Field(LineStart(first) + Blanks(indent), PiecesOf(entries[0].key), "", " ",
             LayoutOf(entries[0].value, step, indent))]
      + LayoutEntries(entries[1..], false, step, indent)
  }

  lemma {:induction false} SpacesAreBlanks(k: int)
    ensures Spaces(k) == Blanks(k)
    decreases if k < 0 then 0 else k
  {
    if k > 0 {
      SpacesAreBlanks(k - 1);
    }
  }

  lemma PieceText(c: char)
    ensures EscapedChar(c) == if PieceOf(c).Plain? then [PieceOf(c).c] else ['\\', PieceOf(c).c]
  {
  }

  lemma OnePiece(p: Piece, pieces: seq<Piece>, rest: string)
    ensures PiecesText([p] + pieces, rest) ==
            (if p.Plain? then [p.c] else ['\\', p.c]) + PiecesText(pieces, rest)
  {
    assert ([p] + pieces)[1..] == pieces;
  }

  lemma {:induction false} EscapedText(s: string, rest: string)
    ensures Escaped(s) + ("\"" + rest) == PiecesText(PiecesOf(s), rest)
  {
    var end := "\"" + rest;
    if s == "" {
      assert "" + end == end;
    } else {
      EscapedText(s[1..], rest);
      PieceText(s[0]);
      OnePiece(PieceOf(s[0]), PiecesOf(s[1..]), rest);
      ConcatAssociates(EscapedChar(s[0]), Escaped(s[1..]), end);
    }
  }

  lemma StringText(s: string, rest: string)
    ensures PrintString(s) + rest == "\"" + PiecesText(PiecesOf(s), rest)
  {
    EscapedText(s, rest);
    assert PrintString(s) + rest == "\"" + (Escaped(s) + ("\"" + rest));
  }

  lemma IntText(i: int, rest: string)
    ensures PrintInt(i) + rest == NumeralText(NumeralOf(i), rest)
  {
    var digits := PrintNat(if i < 0 then -i else i);
    assert PrintInt(i) == (if i < 0 then "-" else "") + digits;
    assert (if i < 0 then "-" else "") + digits + rest == (if i < 0 then "-" else "") + (digits + rest);
  }

  /** The printed text of a value without doubles is the text of its layout. */
  lemma {:induction false} PrintedText(n: Node, step: int, indent: int, rest: string)
    requires NoDoubles(n)
    ensures PrintNode(n, step, indent) + rest == Text(LayoutOf(n, step, indent), rest)
    decreases n, 1, 0
  {
    match n
    case Int(i) => IntText(i, rest);
    case Str(s) => StringText(s, rest);
    case Array(_) => ArrayPrinted(n, step, indent, rest);
    case Dict(_) => DictPrinted(n, step, indent, rest);
    case _ =>
  }

  lemma {:induction false} ArrayPrinted(n: Node, step: int, indent: int, rest: string)
    requires NoDoubles(n) && n.Array?
    ensures PrintNode(n, step, indent) + rest == Text(LayoutOf(n, step, indent), rest)
    decreases n, 0, |n.items| + 1
  {
    var items, close := n.items, "]" + rest;
    var end := "\n" + Blanks(indent) + close;
    ItemsPrinted(n, items, true, step, indent + step, end);
    NestedText(n, step, indent);
    NestedPrinted("[", PrintItems(items, true, step, indent + step), indent, "]", rest);
    ListedText(LayoutItems(items, true, step, indent + step), items == [], indent, rest);
  }

  lemma {:induction false} DictPrinted(n: Node, step: int, indent: int, rest: string)
    requires NoDoubles(n) && n.Dict?
    ensures PrintNode(n, step, indent) + rest == Text(LayoutOf(n, step, indent), rest)
    decreases n, 0, |n.entries| + 1
  {
    var entries, close := n.entries, "}" + rest;
    var end := "\n" + Blanks(indent) + close;
    EntriesPrinted(n, entries, true, step, indent + step, end);
    NestedText(n, step, indent);
    NestedPrinted("{", PrintEntries(entries, true, step, indent + step), indent, "}", rest);
    KeyedText(LayoutEntries(entries, true, step, indent + step), entries == [], indent, rest);
  }

  lemma ListedText(items: seq<Item>, empty: bool, indent: int, rest: string)
    ensures Text(Listed(items, Opened(empty, "\n" + Blanks(indent))), rest) ==
            "[" + ItemsText(items, Opened(empty, "\n" + Blanks(indent) + ("]" + rest)))
  {
    EmptyEnds(empty, indent, "]" + rest);
  }

  lemma KeyedText(fields: seq<Field>, empty: bool, indent: int, rest: string)
    ensures Text(Keyed(fields, Opened(empty, "\n" + Blanks(indent))), rest) ==
            "{" + FieldsText(fields, Opened(empty, "\n" + Blanks(indent) + ("}" + rest)))
  {
    EmptyEnds(empty, indent, "}" + rest);
  }

  lemma EmptyEnds(empty: bool, indent: int, close: string)
    ensures Opened(empty, "\n" + Blanks(indent)) + close == Opened(empty, "\n" + Blanks(indent) + close)
  {
  }

  lemma NestedPrinted(open: string, inside: string, indent: int, close: string, rest: string)
    ensures open + "\n" + inside + "\n" + Spaces(indent) + close + rest ==
            open + Opened(true, inside + ("\n" + Blanks(indent) + (close + rest)))
  {
    SpacesAreBlanks(indent);
  }

  lemma {:induction false} ItemsPrinted(n: Node, items: seq<Node>, first: bool, step: int, indent: int, end: string)
    requires forall m :: 0 <= m < |items| ==> items[m] < n && NoDoubles(items[m])
    ensures Opened(first, PrintItems(items, first, step, indent) + end) ==
            ItemsText(LayoutItems(items, first, step, indent), Opened(first && items == [], end))
    decreases n, 0, |items|
  {
    if items == [] {
      assert "" + end == end;
    } else {
      var more := PrintItems(items[1..], false, step, indent) + end;
      PrintedText(items[0], step, indent, more);
      ItemsPrinted(n, items[1..], false, step, indent, end);
      PrintItemsUnfold(items, first, step, indent, end);
      SpacesAreBlanks(indent);
      ItemLine(first, Blanks(indent), Text(LayoutOf(items[0], step, indent), more));
      assert LayoutItems(items, first, step, indent)[1..] == LayoutItems(items[1..], false, step, indent);
    }
  }

  lemma ItemLine(first: bool, blanks: string, text: string)
    ensures LineStart(first) + (blanks + text) == "" + ((if !first then "," else "") + ("\n" + blanks + text))
  {
  }

  lemma {:induction false} EntriesPrinted(n: Node, entries: seq<Entry>, first: bool, step: int, indent: int,
                                          end: string)
    requires forall m :: 0 <= m < |entries| ==> entries[m].value < n && NoDoubles(entries[m].value)
    ensures Opened(first, PrintEntries(entries, first, step, indent) + end) ==
            FieldsText(LayoutEntries(entries, first, step, indent), Opened(first && entries == [], end))
    decreases n, 0, |entries|
  {
    if entries == [] {
      assert "" + end == end;
    } else {
      var more := PrintEntries(entries[1..], false, step, indent) + end;
      PrintedText(entries[0].value, step, indent, more);
      EntriesPrinted(n, entries[1..], false, step, indent, end);
      PrintEntriesUnfold(entries, first, step, indent, end);
      SpacesAreBlanks(indent);
      EntryLine(entries[0].key, LineStart(first), Blanks(indent), Text(LayoutOf(entries[0].value, step, indent), more));
      assert LayoutEntries(entries, first, step, indent)[1..] == LayoutEntries(entries[1..], false, step, indent);
    }
  }

  lemma EntryLine(key: string, start: string, blanks: string, text: string)
    ensures start + (blanks + (PrintString(key) + (": " + text))) ==
            start + blanks + ("\"" + PiecesText(PiecesOf(key), "" + (":" + (" " + text))))
  {
    StringText(key, ": " + text);
    assert "" + (":" + (" " + text)) == ": " + text;
  }

  lemma WordsPrinted(step: int, indent: int)
    ensures PrintNode(Null, step, indent) == "null"
    ensures PrintNode(Bool(true), step, indent) == "true" && PrintNode(Bool(false), step, indent) == "false"
    ensures PrintNode(Int(0), step, indent) == "0" && PrintNode(Int(-10), step, indent) == "-10"
  {
  }

  /** Between the brackets of an empty container stands an empty line. */
  lemma EmptyPrinted(step: int, indent: int)
    ensures PrintNode(Array([]), step, indent) == "[\n\n" + Blanks(indent) + "]"
    ensures PrintNode(Dict([]), step, indent) == "{\n\n" + Blanks(indent) + "}"
  {
    SpacesAreBlanks(indent);
  }

  /** By code: line feed, carriage return, quote and backslash are escaped; a tab, like any other, stays. */
  lemma EscapedCharMeans(c: char)
    ensures EscapedChar(c) ==
            if c as int == 10 then "\\n"
            else if c as int == 13 then "\\r"
            else if c as int == 34 then "\\\""
            else if c as int == 92 then "\\\\"
            else [c]
  {
  }
}

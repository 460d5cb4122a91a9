/** A grammar of the texts that load: every spelling of a value the loaders accept, and no others. It is wider than
    JSON in two ways: commas may be missing, and between the entries of a dictionary there may be any number of them.
    It is narrower in one: a number that is no int must be one the conversion to double accepts. */
module JsonGrammar {
  import opened Wrappers
  import opened JsonNode
  import opened JsonText
  import opened JsonRoundTrip

  // ---- Spellings

  /** A character of a string, as it is or behind a backslash. */
  datatype Piece = Plain(c: char) | Escape(c: char)

  datatype Exponent = Exponent(mark: char, sign: string, digits: string)

  datatype Numeral = Numeral(negative: bool, whole: string, fraction: Option<string>, exponent: Option<Exponent>)

  /** How a value is written down, with the white space and commas inside it. */
  datatype Layout =
    | Word(node: Node)
    | Number(numeral: Numeral)
    | Quoted(pieces: seq<Piece>)
    | Listed(items: seq<Item>, tail: string)
    | Keyed(fields: seq<Field>, tail: string)

  datatype Item = Item(before: string, comma: bool, after: string, layout: Layout)

  datatype Field = Field(lead: string, key: seq<Piece>, beforeColon: string, afterColon: string, layout: Layout)

  // ---- Their texts, in front of what follows them

  function PiecesText(pieces: seq<Piece>, rest: string): string {
    if pieces == [] then "\"" + rest
    else (if pieces[0].Plain? then [pieces[0].c] else ['\\', pieces[0].c]) + PiecesText(pieces[1..], rest)
  }

  function FractionText(fraction: Option<string>, rest: string): string {
    if fraction.None? then rest else "." + (fraction.value + rest)
  }

  function ExponentText(exponent: Option<Exponent>, rest: string): string {
    if exponent.None? then rest
    else [exponent.value.mark] + (exponent.value.sign + (exponent.value.digits + rest))
  }

  function NumeralText(x: Numeral, rest: string): string {
    (if x.negative then "-" else "") + (x.whole + FractionText(x.fraction, ExponentText(x.exponent, rest)))
  }

  function WordText(n: Node): string {
    match n
    case Null => "null"
    case Bool(flag) => if flag then "true" else "false"
    case _ => ""
  }

  function Text(l: Layout, rest: string): string {
    match l
    case Word(node) => WordText(node) + rest
    case Number(numeral) => NumeralText(numeral, rest)
    case Quoted(pieces) => "\"" + PiecesText(pieces, rest)
    case Listed(items, tail) => "[" + ItemsText(items, tail + ("]" + rest))
    case Keyed(fields, tail) => "{" + FieldsText(fields, tail + ("}" + rest))
  }

  function ItemsText(items: seq<Item>, end: string): string {
    if items == [] then end
    else
      items[0].before + ((if items[0].comma then "," else "")
                         + (items[0].after + Text(items[0].layout, ItemsText(items[1..], end))))
  }

  function FieldsText(fields: seq<Field>, end: string): string {
    if fields == [] then end
    else
      fields[0].lead + ("\"" + PiecesText(fields[0].key, fields[0].beforeColon
                               + (":" + (fields[0].afterColon
                                         + Text(fields[0].layout, FieldsText(fields[1..], end))))))
  }

  // ---- Their meanings

  function PieceMeans(p: Piece): char {
    if p.Plain? then p.c
    else if p.c == 'n' then '\n'
    else if p.c == 't' then '\t'
    else if p.c == 'r' then '\r'
    else p.c
  }

  function PiecesMean(pieces: seq<Piece>): string {
    if pieces == [] then "" else [PieceMeans(pieces[0])] + PiecesMean(pieces[1..])
  }

  /** A numeral without fraction and exponent is an int if it fits one. */
  function NumeralMeans(x: Numeral): Node
    requires Digits(x.whole)
  {
    var magnitude: int := NatValue(x.whole);
    var number := if x.negative then -magnitude else magnitude;
    if x.fraction.None? && x.exponent.None? && INT_MIN <= number <= INT_MAX then Int(number)
    else Double(NumeralText(x, ""))
  }

  /** Ints are those of 32 bits. */
  lemma NumeralMeansIff(x: Numeral, i: int)
    requires Digits(x.whole)
    ensures NumeralMeans(x) == Int(i) <==>
            && x.fraction.None? && x.exponent.None? && -2147483648 <= i <= 2147483647
            && (if x.negative then -i else i) == NatValue(x.whole)
    ensures !NumeralMeans(x).Int? ==> NumeralMeans(x) == Double(NumeralText(x, ""))
  {
  }

  function Means(l: Layout): Node
    requires Proper(l)
  {
    match l
    case Word(node) => node
    case Number(numeral) => NumeralMeans(numeral)
    case Quoted(pieces) => Str(PiecesMean(pieces))
    case Listed(items, _) => Array(ItemsMean(items))
    case Keyed(fields, _) => Dict(FieldsMean(fields, []))
  }

  function ItemsMean(items: seq<Item>): seq<Node>
    requires ProperItems(items)
  {
    if items == [] then [] else [Means(items[0].layout)] + ItemsMean(items[1..])
  }

  function FieldsMean(fields: seq<Field>, done: seq<Entry>): seq<Entry>
    requires ProperFields(fields)
  {
    if fields == [] then done
    else FieldsMean(fields[1..], Emplace(done, PiecesMean(fields[0].key), Means(fields[0].layout)))
  }

  // ---- What a spelling must keep to

  predicate Digits(s: string) {
    s != "" && forall m :: 0 <= m < |s| ==> IsDigit(s[m])
  }

  predicate AllSpaces(s: string) {
    forall m :: 0 <= m < |s| ==> IsSpace(s[m])
  }

  predicate SpacesAndCommas(s: string) {
    forall m :: 0 <= m < |s| ==> IsSpace(s[m]) || s[m] == ','
  }

  predicate ProperPiece(p: Piece) {
    if p.Plain? then p.c != '"' && p.c != '\\' && p.c != '\n' && p.c != '\r'
    else p.c == 'n' || p.c == 't' || p.c == 'r' || p.c == '"' || p.c == '\\'
  }

  predicate ProperPieces(pieces: seq<Piece>) {
    forall m :: 0 <= m < |pieces| ==> ProperPiece(pieces[m])
  }

  /** A whole part of more than one digit does not begin with zero. */
  predicate ProperNumeral(x: Numeral) {
    && Digits(x.whole) && (x.whole[0] == '0' ==> x.whole == "0")
    && (x.fraction.Some? ==> Digits(x.fraction.value))
    && (x.exponent.Some? ==> ProperExponent(x.exponent.value))
  }

  predicate ProperExponent(e: Exponent) {
    (e.mark == 'e' || e.mark == 'E') && (e.sign == "" || e.sign == "+" || e.sign == "-") && Digits(e.digits)
  }

  predicate Proper(l: Layout) {
    match l
    case Word(node) => node.Null? || node.Bool?
    case Number(numeral) => ProperNumeral(numeral)
    case Quoted(pieces) => ProperPieces(pieces)
    case Listed(items, tail) => ProperItems(items) && AllSpaces(tail)
    case Keyed(fields, tail) => ProperFields(fields) && NewKeys([], fields) && SpacesAndCommas(tail)
  }

  predicate ProperItems(items: seq<Item>) {
    items == [] || (AllSpaces(items[0].before) && AllSpaces(items[0].after) && Proper(items[0].layout)
                    && ProperItems(items[1..]))
  }

  predicate ProperFields(fields: seq<Field>) {
    fields == [] || (SpacesAndCommas(fields[0].lead) && ProperPieces(fields[0].key) && AllSpaces(fields[0].beforeColon)
                     && AllSpaces(fields[0].afterColon) && Proper(fields[0].layout) && ProperFields(fields[1..]))
  }

  /** The keys differ from each other and from those already there. */
  predicate NewKeys(done: seq<Entry>, fields: seq<Field>) {
    && (forall m :: 0 <= m < |fields| ==> !HasKey(done, PiecesMean(fields[m].key)))
    && (forall a, b :: 0 <= a < b < |fields| ==> PiecesMean(fields[a].key) != PiecesMean(fields[b].key))
  }

  predicate Begins(s: string, c: char) {
    s != "" && s[0] == c
  }

  /** The numeral is an int, or the conversion to double accepts it. */
  predicate NumeralConverts(conv: Converter, x: Numeral)
    requires Digits(x.whole)
  {
    NumeralMeans(x).Int? || conv(NumeralText(x, ""))
  }

  /** All numbers in a spelling can be converted. */
  predicate Converts(conv: Converter, l: Layout)
    requires Proper(l)
  {
    match l
    case Number(numeral) => NumeralConverts(conv, numeral)
    case Listed(items, _) => ItemsConvert(conv, items)
    case Keyed(fields, _) => FieldsConvert(conv, fields)
    case _ => true
  }

  predicate ItemsConvert(conv: Converter, items: seq<Item>)
    requires ProperItems(items)
  {
    items == [] || (Converts(conv, items[0].layout) && ItemsConvert(conv, items[1..]))
  }

  predicate FieldsConvert(conv: Converter, fields: seq<Field>)
    requires ProperFields(fields)
  {
    fields == [] || (Converts(conv, fields[0].layout) && FieldsConvert(conv, fields[1..]))
  }

  /** What follows does not continue the numeral. */
  predicate EndsNumeral(x: Numeral, rest: string) {
    && (EndsDigits(rest) || (x.whole == "0" && x.fraction.None? && x.exponent.None?))
    && (x.exponent.None? ==> !Begins(rest, 'e') && !Begins(rest, 'E'))
    && (x.exponent.None? && x.fraction.None? ==> !Begins(rest, '.'))
  }

  /** No word or number runs into what follows it, at any depth. */
  predicate Apart(l: Layout, rest: string) {
    match l
    case Word(_) => rest == "" || !IsAlpha(rest[0])
    case Number(numeral) => EndsNumeral(numeral, rest)
    case Quoted(_) => true
    case Listed(items, tail) => ItemsApart(items, tail + ("]" + rest))
    case Keyed(fields, tail) => FieldsApart(fields, tail + ("}" + rest))
  }

  predicate ItemsApart(items: seq<Item>, end: string) {
    items == [] || (Apart(items[0].layout, ItemsText(items[1..], end)) && ItemsApart(items[1..], end))
  }

  predicate FieldsApart(fields: seq<Field>, end: string) {
    fields == [] || (Apart(fields[0].layout, FieldsText(fields[1..], end)) && FieldsApart(fields[1..], end))
  }

  // ---- White space and commas

  lemma {:induction false} SkipAll(space: string, s: string)
    requires AllSpaces(space)
    ensures SkipSpaces(space + s) == SkipSpaces(s)
  {
    if space == "" {
      assert space + s == s;
    } else {
      SkipAll(space[1..], s);
      assert (space + s)[1..] == space[1..] + s;
    }
  }

  lemma MoreSpaces(c: char, space: string, rest: string)
    requires IsSpace(c) && AllSpaces(space)
    ensures AllSpaces([c] + space) && [c] + (space + rest) == [c] + space + rest
  {
  }

  lemma {:induction false} SkipSplits(s: string) returns (space: string)
    ensures AllSpaces(space) && s == space + SkipSpaces(s)
  {
    if s != "" && IsSpace(s[0]) {
      var more := SkipSplits(s[1..]);
      space := [s[0]] + more;
      assert s == [s[0]] + s[1..];
      MoreSpaces(s[0], more, SkipSpaces(s[1..]));
    } else {
      space := "";
    }
  }

  /** In a dictionary white space and commas before an entry are read over, however many there are. */
  lemma {:induction false} DictSkips(conv: Converter, lead: string, s: string, done: seq<Entry>)
    requires SpacesAndCommas(lead)
    ensures ParseDict(conv, lead + s, done) == ParseDict(conv, s, done)
  {
    if lead == "" {
      assert lead + s == s;
    } else {
      DictSkips(conv, lead[1..], s, done);
      assert (lead + s)[0] == lead[0] && (lead + s)[1..] == lead[1..] + s;
      if lead[0] == ',' {
        DictSkipsComma(conv, lead + s, done);
      } else {
        DictSkipsSpace(conv, lead + s, done);
      }
    }
  }

  lemma DictSkipsComma(conv: Converter, s: string, done: seq<Entry>)
    requires Begins(s, ',')
    ensures ParseDict(conv, s, done) == ParseDict(conv, s[1..], done)
  {
  }

  lemma DictSkipsSpace(conv: Converter, s: string, done: seq<Entry>)
    requires s != "" && IsSpace(s[0])
    ensures ParseDict(conv, s, done) == ParseDict(conv, s[1..], done)
  {
    ParseDictSkips(conv, s, s[1..], done);
  }

  predicate StartsItem(s: string) {
    var t := SkipSpaces(s);
    t != "" && t[0] != ',' && t[0] != ']'
  }

  /** In an array one comma before an item makes no difference, and none may stand anywhere else. */
  lemma ArrayCommaExact(conv: Converter, s: string, done: seq<Node>)
    ensures StartsItem(s) ==> ParseArray(conv, "," + s, done) == ParseArray(conv, s, done)
    ensures ParseArray(conv, "," + s, done).Parsed? <==> StartsItem(s) && ParseArray(conv, s, done).Parsed?
  {
    var t := SkipSpaces(s);
    assert ("," + s)[1..] == s;
    ParseNodeSkips(conv, s, t);
    if t != "" && (t[0] == ',' || t[0] == ']') {
      NoNumber(conv, t);
    }
  }

  /** A comma at the end of an array or after another comma is an error. */
  lemma NoNumber(conv: Converter, s: string)
    requires Begins(s, ',') || Begins(s, ']')
    ensures ParseNode(conv, s) == Failed(DigitExpected)
  {
    assert SkipSpaces(s) == s && s[0..] == s;
  }
}

/** The loaders accept exactly the texts of the grammar, each as what it means. */
module JsonLanguage {
  import opened Strings
  import opened JsonNode
  import opened JsonText
  import opened JsonRoundTrip
  import opened JsonGrammar
  import opened JsonScalars

  // ---- Every spelling loads as its meaning

  /** A spelling that keeps to the rules, does not run into what follows it, and has numbers that can be converted. */
  predicate Admissible(conv: Converter, l: Layout, rest: string) {
    Proper(l) && Apart(l, rest) && Converts(conv, l)
  }

  /** The first character of a spelling decides how it is read. */
  lemma TextStart(l: Layout, rest: string)
    requires Proper(l)
    ensures var s := Text(l, rest); s != "" && !IsSpace(s[0]) && s[0] != ',' && s[0] != ']' && s[0] != '}'
    ensures l.Number? ==> Text(l, rest)[0] == '-' || IsDigit(Text(l, rest)[0])
  {
  }

  lemma {:induction false} LayoutReads(conv: Converter, l: Layout, rest: string)
    requires Admissible(conv, l, rest)
    ensures ParseNode(conv, Text(l, rest)) == Parsed(Means(l), rest)
    decreases l, 0
  {
    var s := Text(l, rest);
    TextStart(l, rest);
    match l
    case Word(node) => WordReads(conv, node, rest);
    case Number(numeral) =>
      NumeralReads(conv, numeral, rest);
      DispatchWord(conv, s);
    case Quoted(pieces) =>
      PiecesRead(pieces, rest, "");
      assert s[1..] == PiecesText(pieces, rest) && "" + PiecesMean(pieces) == PiecesMean(pieces);
    case Listed(items, tail) =>
      ItemsRead(conv, items, tail + ("]" + rest), []);
      ListEnds(conv, tail, rest, ItemsMean(items));
      assert s[1..] == ItemsText(items, tail + ("]" + rest)) && [] + ItemsMean(items) == ItemsMean(items);
    case Keyed(fields, tail) =>
      FieldsRead(conv, fields, tail + ("}" + rest), []);
      DictEnds(conv, tail, rest, FieldsMean(fields, []));
      assert s[1..] == FieldsText(fields, tail + ("}" + rest));
  }

  lemma ListEnds(conv: Converter, tail: string, rest: string, done: seq<Node>)
    requires AllSpaces(tail)
    ensures ParseArray(conv, tail + ("]" + rest), done) == Parsed(Array(done), rest)
  {
    SkipAll(tail, "]" + rest);
    assert ("]" + rest)[1..] == rest;
  }

  lemma DictEnds(conv: Converter, tail: string, rest: string, done: seq<Entry>)
    requires SpacesAndCommas(tail)
    ensures ParseDict(conv, tail + ("}" + rest), done) == Parsed(Dict(done), rest)
  {
    DictSkips(conv, tail, "}" + rest, done);
    assert ("}" + rest)[1..] == rest;
  }

  /** A value, before it white space, and before that perhaps a comma, in an array. */
  lemma ItemReads(conv: Converter, before: string, comma: bool, after: string, text: string,
                  value: Node, more: string, done: seq<Node>)
    requires AllSpaces(before) && AllSpaces(after) && ParseNode(conv, text) == Parsed(value, more)
    requires text != "" && !IsSpace(text[0]) && text[0] != ',' && text[0] != ']'
    ensures ParseArray(conv, before + ((if comma then "," else "") + (after + text)), done) ==
            ParseArray(conv, more, done + [value])
  {
    var s := (if comma then "," else "") + (after + text);
    SkipAll(before, s);
    SkipAll(after, text);
    ParseArraySkips(conv, before + s, s, done);
    ParseNodeSkips(conv, after + text, text);
    if comma {
      assert s[1..] == after + text;
    } else {
      assert s == after + text;
      ParseArraySkips(conv, s, text, done);
    }
  }

  lemma {:induction false} ItemsRead(conv: Converter, items: seq<Item>, end: string, done: seq<Node>)
    requires ProperItems(items) && ItemsApart(items, end) && ItemsConvert(conv, items)
    ensures ParseArray(conv, ItemsText(items, end), done) == ParseArray(conv, end, done + ItemsMean(items))
    decreases items, 1
  {
    if items == [] {
      assert done + [] == done;
    } else {
      var item, more := items[0], ItemsText(items[1..], end);
      LayoutReads(conv, item.layout, more);
      TextStart(item.layout, more);
      ItemReads(conv, item.before, item.comma, item.after, Text(item.layout, more), Means(item.layout), more, done);
      ItemsRead(conv, items[1..], end, done + [Means(item.layout)]);
      assert done + [Means(item.layout)] + ItemsMean(items[1..]) == done + ItemsMean(items);
    }
  }

  lemma HasKeyUnfold(entries: seq<Entry>, x: string)
    requires entries != []
    ensures HasKey(entries, x) <==> entries[0].key == x || HasKey(entries[1..], x)
  {
    if HasKey(entries, x) {
      var m :| 0 <= m < |entries| && entries[m].key == x;
      assert m > 0 ==> entries[1..][m - 1].key == x;
    }
    if HasKey(entries[1..], x) {
      var m :| 0 <= m < |entries| - 1 && entries[1..][m].key == x;
      assert entries[m + 1].key == x;
    }
  }

  lemma {:induction false} EmplaceHas(entries: seq<Entry>, key: string, value: Node, x: string)
    ensures HasKey(Emplace(entries, key, value), x) <==> HasKey(entries, x) || x == key
  {
    var more := Emplace(entries, key, value);
    HasKeyUnfold(more, x);
    if entries != [] {
      HasKeyUnfold(entries, x);
      if Less(key, entries[0].key) {
        assert more[1..] == entries;
      } else if entries[0].key != key {
        EmplaceHas(entries[1..], key, value, x);
        assert more[1..] == Emplace(entries[1..], key, value);
      }
    }
  }

  lemma NewKeysStep(done: seq<Entry>, fields: seq<Field>, value: Node)
    requires fields != []
    ensures var key := PiecesMean(fields[0].key);
      NewKeys(done, fields) <==> !HasKey(done, key) && NewKeys(Emplace(done, key, value), fields[1..])
  {
    var key, more := PiecesMean(fields[0].key), Emplace(done, PiecesMean(fields[0].key), value);
    forall m | 1 <= m < |fields|
      ensures var k := PiecesMean(fields[m].key); HasKey(more, k) <==> HasKey(done, k) || k == key
    {
      EmplaceHas(done, key, value, PiecesMean(fields[m].key));
    }
    assert forall m :: 1 <= m < |fields| ==> fields[m] == fields[1..][m - 1];
    assert forall m :: 0 <= m < |fields| - 1 ==> fields[1..][m] == fields[m + 1];
  }

  lemma EntryByParts(conv: Converter, s: string, done: seq<Entry>, key: string, afterKey: string, afterColon: string,
                     value: Node, more: string)
    requires Begins(s, '"') && ParseString(s[1..], "") == Parsed(key, afterKey)
    requires SkipSpaces(afterKey) == ":" + afterColon && !HasKey(done, key)
    requires ParseNode(conv, afterColon) == Parsed(value, more)
    ensures ParseDict(conv, s, done) == ParseDict(conv, more, Emplace(done, key, value))
  {
    assert (":" + afterColon)[1..] == afterColon;
  }

  lemma FieldReads(conv: Converter, f: Field, text: string, value: Node, more: string, done: seq<Entry>)
    requires SpacesAndCommas(f.lead) && ProperPieces(f.key) && AllSpaces(f.beforeColon) && AllSpaces(f.afterColon)
    requires text != "" && !IsSpace(text[0]) && ParseNode(conv, text) == Parsed(value, more)
    requires !HasKey(done, PiecesMean(f.key))
    ensures ParseDict(conv, f.lead + ("\"" + PiecesText(f.key, f.beforeColon + (":" + (f.afterColon + text)))), done) ==
            ParseDict(conv, more, Emplace(done, PiecesMean(f.key), value))
  {
    var colon := ":" + (f.afterColon + text);
    var s := "\"" + PiecesText(f.key, f.beforeColon + colon);
    DictSkips(conv, f.lead, s, done);
    PiecesRead(f.key, f.beforeColon + colon, "");
    assert s[1..] == PiecesText(f.key, f.beforeColon + colon) && "" + PiecesMean(f.key) == PiecesMean(f.key);
    SkipAll(f.beforeColon, colon);
    SkipAll(f.afterColon, text);
    ParseNodeSkips(conv, f.afterColon + text, text);
    EntryByParts(conv, s, done, PiecesMean(f.key), f.beforeColon + colon, f.afterColon + text, value, more);
  }

  lemma {:induction false} FieldsRead(conv: Converter, fields: seq<Field>, end: string, done: seq<Entry>)
    requires ProperFields(fields) && FieldsApart(fields, end) && FieldsConvert(conv, fields) && NewKeys(done, fields)
    ensures ParseDict(conv, FieldsText(fields, end), done) == ParseDict(conv, end, FieldsMean(fields, done))
    decreases fields, 1
  {
    if fields != [] {
      var f, more := fields[0], FieldsText(fields[1..], end);
      LayoutReads(conv, f.layout, more);
      TextStart(f.layout, more);
      NewKeysStep(done, fields, Means(f.layout));
      FieldReads(conv, f, Text(f.layout, more), Means(f.layout), more, done);
      FieldsRead(conv, fields[1..], end, Emplace(done, PiecesMean(f.key), Means(f.layout)));
    }
  }

  // ---- Whatever loads is a spelling

  /** A spelling of what the text at hand, without leading white space, loads as. */
  ghost predicate Covers(conv: Converter, l: Layout, t: string, rest: string) {
    t == Text(l, rest) && Admissible(conv, l, rest)
  }

  lemma {:induction false} NodeIsSpelled(conv: Converter, s: string) returns (space: string, l: Layout)
    requires ParseNode(conv, s).Parsed?
    ensures AllSpaces(space) && s == space + Text(l, ParseNode(conv, s).rest)
    ensures Admissible(conv, l, ParseNode(conv, s).rest)
    decreases |s|, 1
  {
    space := SkipSplits(s);
    var t := SkipSpaces(s);
    ParseNodeSkips(conv, s, t);
    if t[0] == '[' || t[0] == '{' {
      l := NestedIsSpelled(conv, t);
    } else {
      l := ScalarIsSpelled(conv, t);
    }
  }

  lemma QuotedIsSpelled(conv: Converter, t: string) returns (l: Layout)
    requires t != "" && t[0] == '"' && ParseString(t[1..], "").Parsed?
    ensures Covers(conv, l, t, ParseString(t[1..], "").rest)
  {
    var pieces := StringIsSpelled(t[1..], "");
    l := Quoted(pieces);
    assert t == "\"" + t[1..];
  }

  lemma CoversNumber(conv: Converter, x: Numeral, t: string, rest: string)
    requires ProperNumeral(x) && EndsNumeral(x, rest) && t == NumeralText(x, rest) && NumeralConverts(conv, x)
    ensures Covers(conv, Number(x), t, rest)
  {
  }

  lemma CoversWord(conv: Converter, n: Node, t: string, rest: string)
    requires (n.Null? || n.Bool?) && t == WordText(n) + rest && (rest == "" || !IsAlpha(rest[0]))
    ensures Covers(conv, Word(n), t, rest)
  {
  }

  lemma ScalarIsSpelled(conv: Converter, t: string) returns (l: Layout)
    requires t != "" && !IsSpace(t[0]) && t[0] != '[' && t[0] != '{' && ParseNode(conv, t).Parsed?
    ensures Covers(conv, l, t, ParseNode(conv, t).rest)
  {
    DispatchNested(conv, t);
    if t[0] == '"' {
      l := QuotedIsSpelled(conv, t);
    } else if t[0] == 't' || t[0] == 'f' || t[0] == 'n' {
      var n := WordIsSpelled(conv, t);
      CoversWord(conv, n, t, ParseNode(conv, t).rest);
      l := Word(n);
    } else {
      var x := NumberIsSpelled(conv, t);
      CoversNumber(conv, x, t, ParseNumber(conv, t).rest);
      l := Number(x);
    }
  }

  lemma CoversListed(conv: Converter, items: seq<Item>, tail: string, t: string, rest: string)
    requires Begins(t, '[') && t[1..] == ItemsText(items, tail + ("]" + rest))
    requires ProperItems(items) && AllSpaces(tail) && ItemsApart(items, tail + ("]" + rest))
    requires ItemsConvert(conv, items)
    ensures Covers(conv, Listed(items, tail), t, rest)
  {
    assert t == "[" + t[1..];
  }

  lemma CoversKeyed(conv: Converter, fields: seq<Field>, tail: string, t: string, rest: string)
    requires Begins(t, '{') && t[1..] == FieldsText(fields, tail + ("}" + rest))
    requires ProperFields(fields) && NewKeys([], fields) && SpacesAndCommas(tail)
    requires FieldsApart(fields, tail + ("}" + rest)) && FieldsConvert(conv, fields)
    ensures Covers(conv, Keyed(fields, tail), t, rest)
  {
    assert t == "{" + t[1..];
  }

  lemma {:induction false} NestedIsSpelled(conv: Converter, t: string) returns (l: Layout)
    requires t != "" && (t[0] == '[' || t[0] == '{') && ParseNode(conv, t).Parsed?
    ensures Covers(conv, l, t, ParseNode(conv, t).rest)
    decreases |t|, 0
  {
    DispatchNested(conv, t);
    if t[0] == '[' {
      var items, tail := ArrayIsSpelled(conv, t[1..], []);
      CoversListed(conv, items, tail, t, ParseNode(conv, t).rest);
      l := Listed(items, tail);
    } else {
      var fields, tail := DictIsSpelled(conv, t[1..], []);
      CoversKeyed(conv, fields, tail, t, ParseNode(conv, t).rest);
      l := Keyed(fields, tail);
    }
  }

  lemma {:induction false} ArrayIsSpelled(conv: Converter, s: string, done: seq<Node>)
    returns (items: seq<Item>, tail: string)
    requires ParseArray(conv, s, done).Parsed?
    ensures var end := tail + ("]" + ParseArray(conv, s, done).rest);
      && ProperItems(items) && AllSpaces(tail) && s == ItemsText(items, end) && ItemsApart(items, end)
      && ItemsConvert(conv, items)
    decreases |s|, 2
  {
    var space := SkipSplits(s);
    var t := SkipSpaces(s);
    if t[0] == ']' {
      items, tail := [], space;
      assert t == "]" + t[1..];
    } else {
      var comma := t[0] == ',';
      var input := if comma then t[1..] else t;
      assert t == (if comma then "," else "") + input;
      var after, l := NodeIsSpelled(conv, input);
      var item := ParseNode(conv, input);
      var others, end := ArrayIsSpelled(conv, item.rest, done + [item.value]);
      items, tail := [Item(space, comma, after, l)] + others, end;
      assert items[1..] == others;
    }
  }

  lemma LeadMore(space: string, field: Field, others: seq<Field>, end: string)
    ensures FieldsText([field.(lead := space + ("," + field.lead))] + others, end) ==
            space + ("," + FieldsText([field] + others, end))
  {
    var longer := field.(lead := space + ("," + field.lead));
    assert ([field] + others)[1..] == others && ([longer] + others)[1..] == others;
  }

  lemma {:induction false} DictIsSpelled(conv: Converter, s: string, done: seq<Entry>)
    returns (fields: seq<Field>, tail: string)
    requires ParseDict(conv, s, done).Parsed?
    ensures var end := tail + ("}" + ParseDict(conv, s, done).rest);
      ProperFields(fields) && SpacesAndCommas(tail) && s == FieldsText(fields, end) && FieldsApart(fields, end)
    ensures NewKeys(done, fields) && FieldsConvert(conv, fields)
    decreases |s|, 2
  {
    var space := SkipSplits(s);
    var t := SkipSpaces(s);
    if t[0] == '}' {
      fields, tail := [], space;
      assert t == "}" + t[1..];
    } else if t[0] == ',' {
      assert t == "," + t[1..];
      fields, tail := DictIsSpelled(conv, t[1..], done);
      fields, tail := LongerLead(conv, space, t[1..], ParseDict(conv, s, done).rest, done, fields, tail);
    } else {
      fields, tail := EntriesAreSpelled(conv, space, t, done);
    }
  }

  /** White space and a comma before entries belong to the first of them, or to the end. */
  lemma LongerLead(conv: Converter, space: string, s: string, rest: string, done: seq<Entry>,
                   fields: seq<Field>, tail: string)
    returns (more: seq<Field>, end: string)
    requires ProperFields(fields) && FieldsConvert(conv, fields) && NewKeys(done, fields)
    requires SpacesAndCommas(tail) && AllSpaces(space)
    requires s == FieldsText(fields, tail + ("}" + rest)) && FieldsApart(fields, tail + ("}" + rest))
    ensures ProperFields(more) && FieldsConvert(conv, more) && NewKeys(done, more) && SpacesAndCommas(end)
    ensures space + ("," + s) == FieldsText(more, end + ("}" + rest)) && FieldsApart(more, end + ("}" + rest))
  {
    if fields == [] {
      more, end := [], space + ("," + tail);
    } else {
      var longer := fields[0].(lead := space + ("," + fields[0].lead));
      more, end := [longer] + fields[1..], tail;
      LeadMore(space, fields[0], fields[1..], tail + ("}" + rest));
      assert fields == [fields[0]] + fields[1..] && more[1..] == fields[1..];
    }
  }

  lemma {:induction false} EntriesAreSpelled(conv: Converter, space: string, t: string, done: seq<Entry>)
    returns (fields: seq<Field>, tail: string)
    requires AllSpaces(space) && t != "" && !IsSpace(t[0]) && t[0] != '}' && t[0] != ','
    requires ParseDict(conv, t, done).Parsed?
    ensures var end := tail + ("}" + ParseDict(conv, t, done).rest);
      ProperFields(fields) && SpacesAndCommas(tail) && space + t == FieldsText(fields, end) && FieldsApart(fields, end)
    ensures NewKeys(done, fields) && FieldsConvert(conv, fields)
    decreases |t|, 1
  {
    var key := ParseString(t[1..], "");
    var pieces := StringIsSpelled(t[1..], "");
    PiecesRead(pieces, key.rest, "");
    assert "" + PiecesMean(pieces) == PiecesMean(pieces) && t == "\"" + t[1..];
    var colon := SkipSpaces(key.rest);
    var beforeColon := SkipSplits(key.rest);
    assert colon == ":" + colon[1..];
    var afterColon, l := NodeIsSpelled(conv, colon[1..]);
    var value := ParseNode(conv, colon[1..]);
    var others, end := DictIsSpelled(conv, value.rest, Emplace(done, key.value, value.value));
    var f := Field(space, pieces, beforeColon, afterColon, l);
    fields, tail := [f] + others, end;
    assert fields[1..] == others;
    NewKeysStep(done, fields, value.value);
  }

  // ---- The language

  /** The text is white space and a spelling of n, in front of the rest. */
  ghost predicate Spells(conv: Converter, s: string, n: Node, rest: string) {
    exists space, l :: AllSpaces(space) && Admissible(conv, l, rest) && s == space + Text(l, rest) && Means(l) == n
  }

  /** A text loads as n, leaving the rest, if and only if it spells n in front of that rest. */
  lemma LoadsExactly(conv: Converter, s: string, n: Node, rest: string)
    ensures ParseNode(conv, s) == Parsed(n, rest) <==> Spells(conv, s, n, rest)
  {
    if ParseNode(conv, s) == Parsed(n, rest) {
      var space, l := NodeIsSpelled(conv, s);
      SpelledReads(conv, s, space, l, rest);
    }
    if Spells(conv, s, n, rest) {
      var space, l :| AllSpaces(space) && Admissible(conv, l, rest) && s == space + Text(l, rest) && Means(l) == n;
      SpelledReads(conv, s, space, l, rest);
    }
  }

  lemma SpelledReads(conv: Converter, s: string, space: string, l: Layout, rest: string)
    requires AllSpaces(space) && Admissible(conv, l, rest) && s == space + Text(l, rest)
    ensures ParseNode(conv, s) == Parsed(Means(l), rest)
  {
    LayoutReads(conv, l, rest);
    SkipAll(space, Text(l, rest));
    ParseNodeSkips(conv, s, Text(l, rest));
  }
}

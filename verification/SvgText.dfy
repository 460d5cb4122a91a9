/** The escaping of SVG text in svg.cpp: five passes over the string, one per predefined entity of section 4.6
    of XML 1.0. */
module SvgText {
  import opened Wrappers
  import opened Sequences

  /** The replacements in the order of the passes; the ampersand comes first. */
  datatype Replacement = Replacement(symbol: char, entity: string)

  const REPLACEMENTS: seq<Replacement> := [
    Replacement('&', "&amp;"),
    Replacement('"', "&quot;"),
    Replacement('\'', "&apos;"),
    Replacement('<', "&lt;"),
    Replacement('>', "&gt;")]

  function ReplaceAll(symbol: char, entity: string, s: string): string {
    if s == "" then "" else (if s[0] == symbol then entity else [s[0]]) + ReplaceAll(symbol, entity, s[1..])
  }

  /** The search of each pass begins behind the first character. */
  function Pass(symbol: char, entity: string, s: string): string {
    if s == "" then "" else [s[0]] + ReplaceAll(symbol, entity, s[1..])
  }

  function Passes(s: string, k: nat): string
    requires k <= |REPLACEMENTS|
  {
    if k == 0 then s else Pass(REPLACEMENTS[k - 1].symbol, REPLACEMENTS[k - 1].entity, Passes(s, k - 1))
  }

  // ---- One substitution

  function EscapeChar(c: char): string {
    if c == '&' then "&amp;"
    else if c == '"' then "&quot;"
    else if c == '\'' then "&apos;"
    else if c == '<' then "&lt;"
    else if c == '>' then "&gt;"
    else [c]
  }

  /** Every character replaced by its entity at once. */
  function Escape(s: string): string {
    if s == "" then "" else EscapeChar(s[0]) + Escape(s[1..])
  }

  /** The predefined entities by the code of the character. */
  lemma EscapeCharMeans(c: char)
    ensures EscapeChar(c) ==
            if c as int == 38 then "&amp;"
            else if c as int == 34 then "&quot;"
            else if c as int == 39 then "&apos;"
            else if c as int == 60 then "&lt;"
            else if c as int == 62 then "&gt;"
            else [c]
  {
  }

  lemma {:induction false} ReplaceAllConcat(symbol: char, entity: string, a: string, b: string)
    ensures ReplaceAll(symbol, entity, a + b) == ReplaceAll(symbol, entity, a) + ReplaceAll(symbol, entity, b)
  {
    if a == "" {
      assert a + b == b;
    } else {
      ReplaceAllConcat(symbol, entity, a[1..], b);
      assert (a + b)[0] == a[0] && (a + b)[1..] == a[1..] + b;
      var first := if a[0] == symbol then entity else [a[0]];
      ConcatAssociates(first, ReplaceAll(symbol, entity, a[1..]), ReplaceAll(symbol, entity, b));
    }
  }

  lemma {:induction false} ReplaceAllAbsent(symbol: char, entity: string, s: string)
    requires symbol !in s
    ensures ReplaceAll(symbol, entity, s) == s
  {
    if s != "" {
      ReplaceAllAbsent(symbol, entity, s[1..]);
    }
  }

  lemma ReplaceOne(symbol: char, entity: string)
    ensures ReplaceAll(symbol, entity, [symbol]) == entity
  {
    assert [symbol][1..] == "" && entity + "" == entity;
  }

  /** The replacements applied in turn to a whole string. */
  function Chain(s: string, k: nat): string
    requires k <= |REPLACEMENTS|
  {
    if k == 0 then s else ReplaceAll(REPLACEMENTS[k - 1].symbol, REPLACEMENTS[k - 1].entity, Chain(s, k - 1))
  }

  lemma {:induction false} ChainConcat(a: string, b: string, k: nat)
    requires k <= |REPLACEMENTS|
    ensures Chain(a + b, k) == Chain(a, k) + Chain(b, k)
  {
    if k != 0 {
      ChainConcat(a, b, k - 1);
      ReplaceAllConcat(REPLACEMENTS[k - 1].symbol, REPLACEMENTS[k - 1].entity, Chain(a, k - 1), Chain(b, k - 1));
    }
  }

  lemma Entities(m: nat)
    requires m < |REPLACEMENTS|
    ensures REPLACEMENTS[m].entity == EscapeChar(REPLACEMENTS[m].symbol)
    ensures REPLACEMENTS[m].symbol in ['&', '"', '\'', '<', '>'] && (m > 0 ==> REPLACEMENTS[m].symbol != '&')
  {
    if m == 0 {
      assert REPLACEMENTS[m] == Replacement('&', "&amp;");
    } else if m == 1 {
      assert REPLACEMENTS[m] == Replacement('"', "&quot;");
    } else if m == 2 {
      assert REPLACEMENTS[m] == Replacement('\'', "&apos;");
    } else if m == 3 {
      assert REPLACEMENTS[m] == Replacement('<', "&lt;");
    } else {
      assert REPLACEMENTS[m] == Replacement('>', "&gt;");
    }
  }

  /** Entities are spelled with letters, an ampersand and a semicolon. */
  lemma SymbolNotIn(symbol: char, m: nat)
    requires m < |REPLACEMENTS| && symbol in ['"', '\'', '<', '>']
    ensures symbol !in REPLACEMENTS[m].entity
  {
    Entities(m);
    if m == 0 {
      assert REPLACEMENTS[m].entity == ['&', 'a', 'm', 'p', ';'];
    } else if m == 1 {
      assert REPLACEMENTS[m].entity == ['&', 'q', 'u', 'o', 't', ';'];
    } else if m == 2 {
      assert REPLACEMENTS[m].entity == ['&', 'a', 'p', 'o', 's', ';'];
    } else if m == 3 {
      assert REPLACEMENTS[m].entity == ['&', 'l', 't', ';'];
    } else {
      assert REPLACEMENTS[m].entity == ['&', 'g', 't', ';'];
    }
  }

  /** c is among the first k symbols. */
  predicate Replaced(c: char, k: nat)
    requires k <= |REPLACEMENTS|
  {
    exists m :: 0 <= m < k && REPLACEMENTS[m].symbol == c
  }

  /** No pass touches what an earlier pass wrote: the only symbol in an entity is the ampersand, whose pass is over. */
  lemma {:induction false} ChainChar(c: char, k: nat)
    requires k <= |REPLACEMENTS|
    ensures Chain([c], k) == if Replaced(c, k) then EscapeChar(c) else [c]
  {
    if k != 0 {
      var last := k - 1;
      ChainChar(c, last);
      PassOverChar(c, last);
    }
  }

  lemma PassOverChar(c: char, k: nat)
    requires k < |REPLACEMENTS|
    ensures ReplaceAll(REPLACEMENTS[k].symbol, REPLACEMENTS[k].entity, if Replaced(c, k) then EscapeChar(c) else [c]) ==
            if Replaced(c, k + 1) then EscapeChar(c) else [c]
  {
    var symbol, entity := REPLACEMENTS[k].symbol, REPLACEMENTS[k].entity;
    Entities(k);
    if Replaced(c, k) {
      var m :| 0 <= m < k && REPLACEMENTS[m].symbol == c;
      Entities(m);
      SymbolNotIn(symbol, m);
      ReplaceAllAbsent(symbol, entity, REPLACEMENTS[m].entity);
    } else if c == symbol {
      ReplaceOne(symbol, entity);
    } else {
      ReplaceAllAbsent(symbol, entity, [c]);
    }
  }

  lemma {:induction false} ChainIsEscape(s: string)
    ensures Chain(s, |REPLACEMENTS|) == Escape(s)
  {
    if s == "" {
      ChainEmpty(|REPLACEMENTS|);
    } else {
      ChainIsEscape(s[1..]);
      ChainConcat([s[0]], s[1..], |REPLACEMENTS|);
      assert s == [s[0]] + s[1..];
      ChainChar(s[0], |REPLACEMENTS|);
      AllSymbols(s[0]);
    }
  }

  lemma {:induction false} ChainEmpty(k: nat)
    requires k <= |REPLACEMENTS|
    ensures Chain("", k) == ""
  {
    if k != 0 {
      ChainEmpty(k - 1);
    }
  }

  lemma AllSymbols(c: char)
    ensures Replaced(c, |REPLACEMENTS|) <==> EscapeChar(c) != [c]
  {
    var r := REPLACEMENTS;
    assert r[0].symbol == '&' && r[1].symbol == '"' && r[2].symbol == '\'' && r[3].symbol == '<' && r[4].symbol == '>';
  }

  lemma {:induction false} PassesAreChain(s: string, k: nat)
    requires k <= |REPLACEMENTS|
    ensures Passes(s, k) == if s == "" then "" else [s[0]] + Chain(s[1..], k)
  {
    if k != 0 {
      PassesAreChain(s, k - 1);
    } else if s != "" {
      assert s == [s[0]] + s[1..];
    }
  }

  // ---- Reading the entities back

  /** The character an entity at the start of s stands for, and the entity's length. */
  function EntityAt(s: string): (char, nat) {
    if "&amp;" <= s then ('&', 5)
    else if "&quot;" <= s then ('"', 6)
    else if "&apos;" <= s then ('\'', 6)
    else if "&lt;" <= s then ('<', 4)
    else if "&gt;" <= s then ('>', 4)
    else (' ', 0)
  }

  function Unescape(s: string): string {
    if s == "" then ""
    else
      var (c, length) := EntityAt(s);
      if length > 0 then [c] + Unescape(s[length..]) else [s[0]] + Unescape(s[1..])
  }

  lemma EntityIsFound(c: char, rest: string)
    ensures EntityAt(EscapeChar(c) + rest) == if EscapeChar(c) == [c] then (' ', 0) else (c, |EscapeChar(c)|)
  {
    var s := EscapeChar(c) + rest;
    assert forall m :: 0 <= m < |EscapeChar(c)| ==> s[m] == EscapeChar(c)[m];
    if c == '&' {
      assert s[..5] == "&amp;";
    } else if c == '"' {
      assert s[..6] == "&quot;" && s[1] == 'q';
    } else if c == '\'' {
      assert s[..6] == "&apos;" && s[1] == 'a' && s[2] == 'p';
    } else if c == '<' {
      assert s[..4] == "&lt;" && s[1] == 'l';
    } else if c == '>' {
      assert s[..4] == "&gt;" && s[1] == 'g';
    } else {
      assert s[0] == c && c != '&';
    }
  }

  lemma UnescapeEntity(s: string, c: char, length: nat)
    requires EntityAt(s) == (c, length) && 0 < length <= |s|
    ensures Unescape(s) == [c] + Unescape(s[length..])
  {
  }

  lemma UnescapePlain(s: string)
    requires s != "" && EntityAt(s).1 == 0
    ensures Unescape(s) == [s[0]] + Unescape(s[1..])
  {
  }

  lemma UnescapeChar(c: char, rest: string)
    ensures Unescape(EscapeChar(c) + rest) == [c] + Unescape(rest)
  {
    var escaped := EscapeChar(c);
    var s := escaped + rest;
    EntityIsFound(c, rest);
    assert s[|escaped|..] == rest && s[0] == escaped[0];
    if escaped == [c] {
      UnescapePlain(s);
    } else {
      UnescapeEntity(s, c, |escaped|);
    }
  }

  lemma {:induction false} UnescapeUndoesEscape(s: string)
    ensures Unescape(Escape(s)) == s
  {
    if s != "" {
      UnescapeUndoesEscape(s[1..]);
      UnescapeChar(s[0], Escape(s[1..]));
    }
  }

  /** The name of an entity, without its ampersand, begins s. */
  predicate BeginsEntity(s: string) {
    "amp;" <= s || "quot;" <= s || "apos;" <= s || "lt;" <= s || "gt;" <= s
  }

  predicate Plain(word: string) {
    forall m :: 0 <= m < |word| ==> EscapeChar(word[m]) == [word[m]]
  }

  /** Escaping leaves words without special characters alone, so it neither makes nor breaks an entity name. */
  lemma {:induction false} EscapeKeepsWord(word: string, s: string)
    requires Plain(word)
    ensures word <= Escape(s) <==> word <= s
  {
    if word != "" && s != "" {
      EscapeKeepsWord(word[1..], s[1..]);
      assert word == [word[0]] + word[1..] && s == [s[0]] + s[1..];
      if s[0] == word[0] {
        assert Escape(s) == [s[0]] + Escape(s[1..]);
        assert Escape(s)[1..] == Escape(s[1..]);
        assert word <= Escape(s) <==> word[1..] <= Escape(s)[1..];
        assert word <= s <==> word[1..] <= s[1..];
      } else {
        assert Escape(s)[0] == EscapeChar(s[0])[0];
      }
    }
  }

  // ---- The result of SetData

  /** The five passes together escape all characters but the first at once. */
  lemma PassesAreOneEscape(s: string)
    ensures Passes(s, |REPLACEMENTS|) == if s == "" then "" else [s[0]] + Escape(s[1..])
  {
    PassesAreChain(s, |REPLACEMENTS|);
    if s != "" {
      ChainIsEscape(s[1..]);
    }
  }

  /** A replaced character grows. */
  lemma ReplacedGrows(c: char)
    ensures EscapeChar(c) == [c] || |EscapeChar(c)| > 1
  {
  }

  lemma HeadDecides(head: string, c: char, tail: string)
    requires head == [c] || |head| > 1
    ensures [c] + tail == head + tail <==> head == [c]
  {
    if |head| > 1 {
      assert |head + tail| > |[c] + tail|;
    }
  }

  /** So SetData escapes the text if and only if its first character needs no escaping. */
  lemma SetDataEscapesIff(s: string)
    ensures Passes(s, |REPLACEMENTS|) == Escape(s) <==> s == "" || EscapeChar(s[0]) == [s[0]]
  {
    PassesAreOneEscape(s);
    if s != "" {
      ReplacedGrows(s[0]);
      HeadDecides(EscapeChar(s[0]), s[0], Escape(s[1..]));
    }
  }

  lemma EntityWordsPlain()
    ensures Plain("amp;") && Plain("quot;") && Plain("apos;") && Plain("lt;") && Plain("gt;")
  {
  }

  lemma EntityAppears(word: string, rest: string)
    requires word <= rest && Plain(word)
    ensures "&" + Escape(rest) == ("&" + word) + Escape(rest[|word|..])
  {
    EscapeKeepsWord(word, rest);
    EscapeDrops(word, rest);
    PrefixSplit(word, Escape(rest));
  }

  lemma PrefixSplit(word: string, text: string)
    requires word <= text
    ensures "&" + text == ("&" + word) + text[|word|..]
  {
  }

  lemma EntityReadsShort(c: char, word: string, rest: string)
    requires word <= rest && |word| > 1 && EscapeChar(c) == "&" + word && Plain(word)
    ensures |Unescape("&" + Escape(rest))| < |rest| + 1
  {
    var tail := rest[|word|..];
    EntityAppears(word, rest);
    UnescapeChar(c, Escape(tail));
    UnescapeUndoesEscape(tail);
  }

  /** A leading ampersand that happens to begin an entity is read back as that entity, too short. */
  lemma AmpersandReadsShort(rest: string)
    requires BeginsEntity(rest)
    ensures |Unescape("&" + Escape(rest))| < |rest| + 1
  {
    EntityWordsPlain();
    if "amp;" <= rest {
      EntityReadsShort('&', "amp;", rest);
    } else if "quot;" <= rest {
      EntityReadsShort('"', "quot;", rest);
    } else if "apos;" <= rest {
      EntityReadsShort('\'', "apos;", rest);
    } else if "lt;" <= rest {
      EntityReadsShort('<', "lt;", rest);
    } else {
      EntityReadsShort('>', "gt;", rest);
    }
  }

  lemma {:induction false} EscapeDrops(word: string, s: string)
    requires word <= s && Plain(word)
    ensures |Escape(s)| >= |word| && Escape(s)[|word|..] == Escape(s[|word|..])
  {
    if word != "" {
      EscapeDrops(word[1..], s[1..]);
      assert s[0] == word[0];
      assert Escape(s) == [s[0]] + Escape(s[1..]);
      assert s[1..][|word| - 1..] == s[|word|..];
    }
  }

  lemma EntityNamesKept(rest: string)
    ensures BeginsEntity(Escape(rest)) <==> BeginsEntity(rest)
  {
    EntityWordsPlain();
    EscapeKeepsWord("amp;", rest);
    EscapeKeepsWord("quot;", rest);
    EscapeKeepsWord("apos;", rest);
    EscapeKeepsWord("lt;", rest);
    EscapeKeepsWord("gt;", rest);
  }

  lemma FirstCharacterKept(c: char, rest: string)
    requires !(c == '&' && BeginsEntity(rest))
    ensures Unescape([c] + Escape(rest)) == [c] + rest
  {
    EntityNamesKept(rest);
    NoEntityAt(c, Escape(rest));
    assert ([c] + Escape(rest))[1..] == Escape(rest);
    UnescapeUndoesEscape(rest);
  }

  lemma NoEntityAt(c: char, rest: string)
    requires !(c == '&' && BeginsEntity(rest))
    ensures EntityAt([c] + rest).1 == 0
  {
    var s := [c] + rest;
    assert s[1..] == rest;
    assert "&amp;"[1..] == "amp;" && "&quot;"[1..] == "quot;" && "&apos;"[1..] == "apos;";
    assert "&lt;"[1..] == "lt;" && "&gt;"[1..] == "gt;";
    PrefixTail("&amp;", s);
    PrefixTail("&quot;", s);
    PrefixTail("&apos;", s);
    PrefixTail("&lt;", s);
    PrefixTail("&gt;", s);
  }

  lemma PrefixTail(word: string, s: string)
    requires word != "" && s != ""
    ensures word <= s ==> word[0] == s[0] && word[1..] <= s[1..]
  {
  }

  /** Unescaping undoes SetData if and only if the text does not begin with an entity of its own. */
  lemma UnescapeUndoesSetData(s: string)
    ensures Unescape(Passes(s, |REPLACEMENTS|)) == s <==> s == "" || !(s[0] == '&' && BeginsEntity(s[1..]))
  {
    PassesAreOneEscape(s);
    if s != "" {
      if s[0] == '&' && BeginsEntity(s[1..]) {
        AmpersandReadsShort(s[1..]);
        assert "&" == [s[0]];
      } else {
        FirstCharacterKept(s[0], s[1..]);
        assert s == [s[0]] + s[1..];
      }
    }
  }

  // ---- The loops

  /** Position of the first occurrence of c at or after `from`. */
  method Find(data: string, c: char, from: nat) returns (r: Option<nat>)
    ensures r.None? ==> forall m :: from <= m < |data| ==> data[m] != c
    ensures r.Some? ==> from <= r.value < |data| && data[r.value] == c
    ensures r.Some? ==> forall m :: from <= m < r.value ==> data[m] != c
  {
    var p := from;
    while p < |data|
      invariant forall m :: from <= m < p && m < |data| ==> data[m] != c
      invariant from <= p
    {
      if data[p] == c {
        return Some(p);
      }
      p := p + 1;
    }
    return None;
  }

  lemma ReplaceAtFound(symbol: char, entity: string, rest: string, i: nat)
    requires i < |rest| && rest[i] == symbol && symbol !in rest[..i]
    ensures ReplaceAll(symbol, entity, rest) == rest[..i] + entity + ReplaceAll(symbol, entity, rest[i + 1..])
  {
    assert rest == rest[..i] + rest[i..] && rest[i..][1..] == rest[i + 1..];
    ReplaceAllConcat(symbol, entity, rest[..i], rest[i..]);
    ReplaceAllAbsent(symbol, entity, rest[..i]);
  }

  /** The text before `rest` is finished, and the goal is reached by replacing in `rest`. */
  ghost predicate Midway(data: string, done: string, rest: string, pos: nat, symbol: char, entity: string, goal: string)
  {
    && data == done + rest && pos < |done|
    && (forall m :: pos < m < |done| ==> done[m] != symbol)
    && goal == done + ReplaceAll(symbol, entity, rest)
  }

  lemma PassBegins(s: string, symbol: char, entity: string)
    requires s != ""
    ensures Midway(s, [s[0]], s[1..], 0, symbol, entity, Pass(symbol, entity, s))
  {
  }

  lemma PassEnds(data: string, done: string, rest: string, pos: nat, symbol: char, entity: string, goal: string)
    requires Midway(data, done, rest, pos, symbol, entity, goal)
    requires forall m :: pos < m < |data| ==> data[m] != symbol
    ensures data == goal
  {
    assert forall m :: 0 <= m < |rest| ==> rest[m] == data[|done| + m];
    ReplaceAllAbsent(symbol, entity, rest);
  }

  lemma PassGoesOn(data: string, done: string, rest: string, pos: nat, symbol: char, entity: string, goal: string,
                   found: nat)
    returns (done': string, rest': string)
    requires Midway(data, done, rest, pos, symbol, entity, goal) && entity != "" && symbol !in entity[1..]
    requires pos < found < |data| && data[found] == symbol && forall m :: pos < m < found ==> data[m] != symbol
    ensures Midway(data[..found] + (entity + data[found + 1..]), done', rest', found, symbol, entity, goal)
    ensures |rest'| < |rest|
  {
    assert found >= |done|;
    var i := found - |done|;
    assert forall m :: 0 <= m < |rest| ==> rest[m] == data[|done| + m];
    ReplaceAtFound(symbol, entity, rest, i);
    done', rest' := done + rest[..i] + entity, rest[i + 1..];
    assert data[..found] == done + rest[..i] && data[found + 1..] == rest';
    assert forall m :: found < m < |done'| ==> done'[m] == entity[1..][m - found - 1];
  }

  /** One pass: find, replace, and search on behind the replacement's first character. */
  method RunPass(s: string, symbol: char, entity: string) returns (data: string)
    requires entity != "" && symbol !in entity[1..]
    ensures data == Pass(symbol, entity, s)
  {
    data := s;
    var pos := 0;
    if s == "" {
      var found := Find(data, symbol, pos + 1);
      return;
    }
    ghost var done, rest, goal := [s[0]], s[1..], Pass(symbol, entity, s);
    PassBegins(s, symbol, entity);
    while true
      invariant Midway(data, done, rest, pos, symbol, entity, goal)
      decreases |rest|
    {
      var found := Find(data, symbol, pos + 1);
      if found.None? {
        PassEnds(data, done, rest, pos, symbol, entity, goal);
        break;
      }
      done, rest := PassGoesOn(data, done, rest, pos, symbol, entity, goal, found.value);
      pos := found.value;
      var afterPos := entity + data[pos + 1..];
      data := data[..pos] + afterPos;
    }
  }

  method SetData(text: string) returns (data: string)
    ensures data == Passes(text, |REPLACEMENTS|)
  {
    data := text;
    for k := 0 to |REPLACEMENTS|
      invariant data == Passes(text, k)
    {
      Entities(k);
      data := RunPass(data, REPLACEMENTS[k].symbol, REPLACEMENTS[k].entity);
    }
  }
}

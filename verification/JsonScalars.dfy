/** Strings, numbers and words are accepted exactly as the grammar spells them. */
module JsonScalars {
  import opened Wrappers
  import opened JsonNode
  import opened JsonText
  import opened JsonRoundTrip
  import opened JsonGrammar

  // ---- Strings

  lemma {:induction false} PiecesRead(pieces: seq<Piece>, rest: string, done: string)
    requires ProperPieces(pieces)
    ensures ParseString(PiecesText(pieces, rest), done) == Parsed(done + PiecesMean(pieces), rest)
  {
    if pieces == [] {
      assert ("\"" + rest)[1..] == rest;
      assert done + "" == done;
    } else {
      var p, more := pieces[0], PiecesText(pieces[1..], rest);
      PieceReads(p, more, done);
      PiecesRead(pieces[1..], rest, done + [PieceMeans(p)]);
      OneMore(done, PieceMeans(p), PiecesMean(pieces[1..]));
    }
  }

  lemma OneMore(done: string, c: char, more: string)
    ensures done + [c] + more == done + ([c] + more)
  {
  }

  lemma PieceReads(p: Piece, more: string, done: string)
    requires ProperPiece(p)
    ensures ParseString((if p.Plain? then [p.c] else ['\\', p.c]) + more, done) ==
            ParseString(more, done + [PieceMeans(p)])
  {
    if p.Plain? {
      assert ([p.c] + more)[1..] == more;
    } else {
      assert (['\\', p.c] + more)[2..] == more;
    }
  }

  lemma {:induction false} StringIsSpelled(s: string, done: string) returns (pieces: seq<Piece>)
    requires ParseString(s, done).Parsed?
    ensures ProperPieces(pieces) && s == PiecesText(pieces, ParseString(s, done).rest)
    decreases |s|
  {
    if s[0] == '"' {
      pieces := [];
      assert s == "\"" + s[1..];
    } else {
      var p := if s[0] == '\\' then Escape(s[1]) else Plain(s[0]);
      var more := if s[0] == '\\' then s[2..] else s[1..];
      assert s == (if p.Plain? then [p.c] else ['\\', p.c]) + more;
      PieceReads(p, more, done);
      var others := StringIsSpelled(more, done + [PieceMeans(p)]);
      pieces := [p] + others;
      assert pieces[1..] == others;
    }
  }

  /** The escapes of strings, by the code of the character behind the backslash. */
  lemma EscapesRead(c: char, rest: string, done: string)
    ensures ParseString(['\\', c] + rest, done) ==
            if c as int == 110 then ParseString(rest, done + [10 as char])
            else if c as int == 116 then ParseString(rest, done + [9 as char])
            else if c as int == 114 then ParseString(rest, done + [13 as char])
            else if c as int == 34 || c as int == 92 then ParseString(rest, done + [c])
            else Failed(UnknownEscape)
  {
    assert (['\\', c] + rest)[2..] == rest;
  }

  /** A character by itself ends the string, is an error or stands for itself. */
  lemma PlainRead(c: char, rest: string, done: string)
    requires c != '\\'
    ensures ParseString([c] + rest, done) ==
            if c as int == 34 then Parsed(done, rest)
            else if c as int == 10 || c as int == 13 then Failed(EndOfLine)
            else ParseString(rest, done + [c])
  {
    assert ([c] + rest)[1..] == rest;
  }

  // ---- Numbers

  lemma {:induction false} DigitsEnd(s: string)
    ensures EndsDigits(s[DigitsLength(s)..])
  {
    if s != "" && IsDigit(s[0]) {
      DigitsEnd(s[1..]);
      assert s[DigitsLength(s)..] == s[1..][DigitsLength(s[1..])..];
    }
  }

  lemma AfterDigitsReads(s: string, from: nat, digits: string, rest: string)
    requires from <= |s| && s[from..] == digits + rest && Digits(digits) && EndsDigits(rest)
    ensures AfterDigits(s, from) == Reached(from + |digits|) && s[from + |digits|..] == rest
  {
    DigitsLengthOf(digits, rest);
    Onward(s, from, digits, rest);
  }

  /** Behind a part that was read stands what follows it. */
  lemma Onward(s: string, from: nat, part: string, rest: string)
    requires from <= |s| && s[from..] == part + rest
    ensures from + |part| <= |s| && s[from + |part|..] == rest
  {
    assert s[from + |part|..] == s[from..][|part|..];
  }

  lemma WholeReads(x: Numeral, s: string, t: string)
    requires Digits(x.whole) && (x.whole[0] == '0' ==> x.whole == "0") && (EndsDigits(t) || x.whole == "0")
    requires s == (if x.negative then "-" else "") + (x.whole + t)
    ensures var at := (if x.negative then 1 else 0) + |x.whole|;
      AfterWhole(s) == Reached(at) && at <= |s| && s[at..] == t
  {
    var from := if x.negative then 1 else 0;
    assert s[from..] == x.whole + t;
    assert AfterSign(s) == from && s[from] == x.whole[0];
    Onward(s, from, x.whole, t);
    if x.whole[0] != '0' {
      AfterDigitsReads(s, from, x.whole, t);
    }
  }

  lemma FractionReads(fraction: Option<string>, s: string, from: nat, t: string)
    requires from <= |s| && s[from..] == FractionText(fraction, t)
    requires if fraction.Some? then Digits(fraction.value) && EndsDigits(t) else !Begins(t, '.')
    ensures var at := from + if fraction.Some? then 1 + |fraction.value| else 0;
      AfterFraction(s, from) == Reached(at) && at <= |s| && s[at..] == t
  {
    if fraction.Some? {
      Onward(s, from, ".", fraction.value + t);
      assert s[from] == s[from..][0];
      AfterDigitsReads(s, from + 1, fraction.value, t);
    } else if from < |s| {
      assert s[from] == s[from..][0];
    }
  }

  lemma ExponentAt(s: string, from: nat, signed: bool)
    requires from < |s| && (s[from] == 'e' || s[from] == 'E')
    requires signed <==> from + 1 < |s| && (s[from + 1] == '+' || s[from + 1] == '-')
    ensures AfterExponent(s, from) == AfterDigits(s, if signed then from + 2 else from + 1)
  {
  }

  lemma SignAt(s: string, at: nat, e: Exponent, rest: string)
    requires at <= |s| && s[at..] == e.sign + (e.digits + rest) && ProperExponent(e)
    ensures at < |s| && (s[at] == '+' || s[at] == '-' <==> e.sign != "") && (e.sign != "" ==> |e.sign| == 1)
  {
    assert s[at] == s[at..][0];
    assert e.sign == "" ==> s[at] == e.digits[0];
  }

  lemma MarkedReads(e: Exponent, s: string, from: nat, rest: string)
    requires from <= |s| && s[from..] == [e.mark] + (e.sign + (e.digits + rest))
    requires ProperExponent(e) && EndsDigits(rest)
    ensures var at := from + 1 + |e.sign| + |e.digits|;
      AfterExponent(s, from) == Reached(at) && at <= |s| && s[at..] == rest
  {
    Onward(s, from, [e.mark], e.sign + (e.digits + rest));
    SignAt(s, from + 1, e, rest);
    Onward(s, from + 1, e.sign, e.digits + rest);
    assert s[from] == s[from..][0];
    ExponentAt(s, from, e.sign != "");
    AfterDigitsReads(s, from + 1 + |e.sign|, e.digits, rest);
  }

  lemma ExponentReads(exponent: Option<Exponent>, s: string, from: nat, rest: string)
    requires from <= |s| && s[from..] == ExponentText(exponent, rest)
    requires if exponent.Some? then ProperExponent(exponent.value) && EndsDigits(rest)
             else !Begins(rest, 'e') && !Begins(rest, 'E')
    ensures var at := from + if exponent.Some? then 1 + |exponent.value.sign| + |exponent.value.digits| else 0;
      AfterExponent(s, from) == Reached(at) && at <= |s| && s[at..] == rest
  {
    if exponent.Some? {
      MarkedReads(exponent.value, s, from, rest);
    } else if from < |s| {
      assert s[from] == s[from..][0];
    }
  }

  lemma NumeralSplits(x: Numeral, rest: string)
    ensures NumeralText(x, rest) == NumeralText(x, "") + rest
  {
    assert ExponentText(x.exponent, rest) == ExponentText(x.exponent, "") + rest;
    assert FractionText(x.fraction, ExponentText(x.exponent, rest)) ==
           FractionText(x.fraction, ExponentText(x.exponent, "")) + rest;
  }

  lemma NumeralNode(conv: Converter, x: Numeral, rest: string)
    requires ProperNumeral(x)
    ensures var converted := ConvertNumber(conv, NumeralText(x, ""), x.fraction.None? && x.exponent.None?, rest);
      converted == if NumeralConverts(conv, x) then Parsed(NumeralMeans(x), rest) else Failed(NotConvertible)
  {
    var literal := NumeralText(x, "");
    if x.fraction.None? && x.exponent.None? {
      assert x.whole + "" == x.whole;
      DigitsLengthOf(x.whole, "");
      assert literal[if x.negative then 1 else 0..] == x.whole;
      assert AfterSign(literal) == if x.negative then 1 else 0;
    }
  }

  lemma WholePart(x: Numeral, s: string, t: string) returns (whole: nat)
    requires ProperNumeral(x) && s == (if x.negative then "-" else "") + (x.whole + t)
    requires EndsDigits(t) || x.whole == "0"
    ensures AfterWhole(s) == Reached(whole) && whole <= |s| && s[whole..] == t
  {
    WholeReads(x, s, t);
    whole := AfterWhole(s).at;
  }

  lemma FractionPart(x: Numeral, s: string, whole: nat, t: string) returns (fraction: nat)
    requires ProperNumeral(x) && whole <= |s| && s[whole..] == FractionText(x.fraction, t)
    requires if x.fraction.Some? then EndsDigits(t) else !Begins(t, '.')
    ensures AfterFraction(s, whole) == Reached(fraction) && whole <= fraction <= |s| && s[fraction..] == t
    ensures fraction == whole <==> x.fraction.None?
  {
    FractionReads(x.fraction, s, whole, t);
    fraction := AfterFraction(s, whole).at;
  }

  lemma ExponentPart(x: Numeral, s: string, fraction: nat, rest: string) returns (exponent: nat)
    requires ProperNumeral(x) && EndsNumeral(x, rest)
    requires fraction <= |s| && s[fraction..] == ExponentText(x.exponent, rest)
    ensures AfterExponent(s, fraction) == Reached(exponent) && fraction <= exponent <= |s| && s[exponent..] == rest
    ensures exponent == fraction <==> x.exponent.None?
  {
    ExponentReads(x.exponent, s, fraction, rest);
    exponent := AfterExponent(s, fraction).at;
  }

  /** No part of a numeral runs into the next. */
  lemma PartsApart(x: Numeral, rest: string)
    requires ProperNumeral(x) && EndsNumeral(x, rest)
    ensures var e := ExponentText(x.exponent, rest);
      && (if x.fraction.Some? then EndsDigits(e) else !Begins(e, '.'))
      && (EndsDigits(FractionText(x.fraction, e)) || x.whole == "0")
  {
  }

  /** Where the parts of a numeral end. */
  lemma NumeralParts(x: Numeral, s: string, rest: string) returns (whole: nat, fraction: nat, exponent: nat)
    requires ProperNumeral(x) && EndsNumeral(x, rest) && s == NumeralText(x, rest)
    ensures AfterWhole(s) == Reached(whole) && whole <= fraction <= exponent <= |s|
    ensures AfterFraction(s, whole) == Reached(fraction) && AfterExponent(s, fraction) == Reached(exponent)
    ensures s[exponent..] == rest && (exponent == whole <==> x.fraction.None? && x.exponent.None?)
  {
    var e := ExponentText(x.exponent, rest);
    PartsApart(x, rest);
    whole := WholePart(x, s, FractionText(x.fraction, e));
    fraction := FractionPart(x, s, whole, e);
    exponent := ExponentPart(x, s, fraction, rest);
  }

  lemma SamePrefix(s: string, prefix: string, rest: string, at: nat)
    requires at <= |s| && s == prefix + rest && s[at..] == rest
    ensures s[..at] == prefix
  {
  }

  lemma NumeralReads(conv: Converter, x: Numeral, rest: string)
    requires ProperNumeral(x) && EndsNumeral(x, rest)
    ensures ParseNumber(conv, NumeralText(x, rest)) ==
            if NumeralConverts(conv, x) then Parsed(NumeralMeans(x), rest) else Failed(NotConvertible)
  {
    var s, literal := NumeralText(x, rest), NumeralText(x, "");
    var whole, fraction, exponent := NumeralParts(x, s, rest);
    NumberByParts(conv, s, whole, fraction, exponent);
    NumeralSplits(x, rest);
    SamePrefix(s, literal, rest, exponent);
    NumeralNode(conv, x, rest);
  }

  /** The part of s between two positions, in front of the part behind the second. */
  lemma Between(s: string, from: nat, to: nat)
    requires from <= to <= |s|
    ensures s[from..] == s[from..to] + s[to..]
  {
  }

  lemma DigitsBetween(s: string, from: nat)
    requires from <= |s| && AfterDigits(s, from).Reached?
    ensures var at := AfterDigits(s, from).at;
      Digits(s[from..at]) && s[from..] == s[from..at] + s[at..] && EndsDigits(s[at..])
  {
    var k := DigitsLength(s[from..]);
    DigitsEnd(s[from..]);
    assert s[from..][k..] == s[from + k..] && s[from..from + k] == s[from..][..k];
  }

  lemma FractionSpelled(s: string, from: nat) returns (fraction: Option<string>)
    requires from <= |s| && AfterFraction(s, from).Reached?
    ensures s[from..] == FractionText(fraction, s[AfterFraction(s, from).at..])
    ensures if fraction.Some? then Digits(fraction.value) && EndsDigits(s[AfterFraction(s, from).at..])
            else !Begins(s[from..], '.') && AfterFraction(s, from).at == from
  {
    if from < |s| && s[from] == '.' {
      DigitsBetween(s, from + 1);
      fraction := Some(s[from + 1..AfterFraction(s, from).at]);
      assert s[from..] == "." + s[from + 1..];
    } else {
      fraction := None;
    }
  }

  lemma ExponentSpelled(s: string, from: nat) returns (exponent: Option<Exponent>)
    requires from <= |s| && AfterExponent(s, from).Reached?
    ensures s[from..] == ExponentText(exponent, s[AfterExponent(s, from).at..])
    ensures if exponent.Some? then ProperExponent(exponent.value) && EndsDigits(s[AfterExponent(s, from).at..])
            else !Begins(s[from..], 'e') && !Begins(s[from..], 'E') && AfterExponent(s, from).at == from
  {
    if from < |s| && (s[from] == 'e' || s[from] == 'E') {
      var signed := from + 1 < |s| && (s[from + 1] == '+' || s[from + 1] == '-');
      var start, at := if signed then from + 2 else from + 1, AfterExponent(s, from).at;
      DigitsBetween(s, start);
      var sign := if signed then [s[from + 1]] else "";
      exponent := Some(Exponent(s[from], sign, s[start..at]));
      assert s[from..] == [s[from]] + (sign + s[start..]);
    } else {
      exponent := None;
    }
  }

  lemma WholeSpelled(s: string) returns (negative: bool, whole: string)
    requires AfterWhole(s).Reached?
    ensures Digits(whole) && (whole[0] == '0' ==> whole == "0")
    ensures s == (if negative then "-" else "") + (whole + s[AfterWhole(s).at..])
    ensures whole == "0" || EndsDigits(s[AfterWhole(s).at..])
  {
    var from, at := AfterSign(s), AfterWhole(s).at;
    negative, whole := from == 1, s[from..at];
    Between(s, from, at);
    assert s == s[..from] + s[from..] && s[..from] == if negative then "-" else "";
    if s[from] != '0' {
      DigitsBetween(s, from);
    }
  }

  /** Every number that loads is a numeral, and ends where the numeral must. */
  lemma NumberIsSpelled(conv: Converter, s: string) returns (x: Numeral)
    requires ParseNumber(conv, s).Parsed?
    ensures var rest := ParseNumber(conv, s).rest;
      ProperNumeral(x) && EndsNumeral(x, rest) && s == NumeralText(x, rest) && NumeralConverts(conv, x)
  {
    var whole := AfterWhole(s).at;
    var fraction := AfterFraction(s, whole).at;
    var negative, digits := WholeSpelled(s);
    var f := FractionSpelled(s, whole);
    var e := ExponentSpelled(s, fraction);
    x := Numeral(negative, digits, f, e);
    NumeralReads(conv, x, s[AfterExponent(s, fraction).at..]);
  }

  // ---- Words

  lemma {:induction false} LiteralEnds(s: string)
    ensures var rest := s[LiteralLength(s)..]; rest == "" || !IsAlpha(rest[0])
  {
    if s != "" && IsAlpha(s[0]) {
      LiteralEnds(s[1..]);
      assert s[LiteralLength(s)..] == s[1..][LiteralLength(s[1..])..];
    }
  }

  lemma WordReads(conv: Converter, n: Node, rest: string)
    requires (n.Null? || n.Bool?) && (rest == "" || !IsAlpha(rest[0]))
    ensures ParseNode(conv, WordText(n) + rest) == Parsed(n, rest)
  {
    if n.Null? {
      NullReadsBack(conv, rest);
    } else {
      BoolReadsBack(conv, n.flag, rest);
    }
  }

  lemma WordIsSpelled(conv: Converter, s: string) returns (n: Node)
    requires s != "" && (s[0] == 't' || s[0] == 'f' || s[0] == 'n') && ParseNode(conv, s).Parsed?
    ensures var rest := ParseNode(conv, s).rest;
      (n.Null? || n.Bool?) && s == WordText(n) + rest && (rest == "" || !IsAlpha(rest[0]))
  {
    DispatchWord(conv, s);
    LiteralEnds(s);
    var k := LiteralLength(s);
    n := if s[..k] == "true" then Bool(true) else if s[..k] == "false" then Bool(false) else Null;
    assert s == s[..k] + s[k..];
  }
}

/** JSON strings, as section 7 of RFC 8259 spells them, and that the reader of secrets reads just these. */
module SecretJson {
  import opened Options
  import opened Texts
  import opened Secrets

  predicate Digit(c: char, value: nat) {
    value < 16 && (c == "0123456789abcdef"[value] || c == "0123456789ABCDEF"[value])
  }

  /** Four hexadecimal digits behind a backslash and a `u`. */
  predicate CodeBy(unit: string, code: nat, a: nat, b: nat, c: nat, d: nat) {
    && |unit| == 6 && unit[0] == '\\' && unit[1] == 'u'
    && Digit(unit[2], a) && Digit(unit[3], b) && Digit(unit[4], c) && Digit(unit[5], d)
    && code == ((a * 16 + b) * 16 + c) * 16 + d
  }

  ghost predicate Code(unit: string, code: nat) {
    exists a: nat, b: nat, c: nat, d: nat :: CodeBy(unit, code, a, b, c, d)
  }

  /** The letter behind a backslash, and what the two stand for. */
  predicate Short(letter: char, c: char) {
    || (letter == c && c in "\"\\/")
    || (letter == 'b' && c == '\U{8}') || (letter == 'f' && c == '\U{C}')
    || (letter == 'n' && c == '\n') || (letter == 'r' && c == '\r') || (letter == 't' && c == '\t')
  }

  /** A character beyond the basic plane, as two code units. */
  ghost predicate Pair(unit: string, c: char) {
    |unit| == 12 &&
    exists high: nat, low: nat ::
      && Code(unit[..6], high) && Code(unit[6..], low)
      && 0xD800 <= high <= 0xDBFF && 0xDC00 <= low <= 0xDFFF
      && c as int == 0x10000 + (high - 0xD800) * 0x400 + (low - 0xDC00)
  }

  /** How one character of a string is written. */
  ghost predicate Unit(unit: string, c: char) {
    || (unit == [c] && ' ' <= c && c != '"' && c != '\\')
    || (|unit| == 2 && unit[0] == '\\' && Short(unit[1], c))
    || Code(unit, c as int)
    || Pair(unit, c)
  }

  function Concat(units: seq<string>): string {
    if units == [] then "" else units[0] + Concat(units[1..])
  }

  ghost predicate SpelledBy(s: string, text: string, units: seq<string>) {
    && |units| == |text| && s == Concat(units) + "\""
    && forall k :: 0 <= k < |units| ==> Unit(units[k], text[k])
  }

  /** The rest of a JSON string after its opening quote. */
  ghost predicate SpellsText(s: string, text: string) {
    exists units :: SpelledBy(s, text, units)
  }

  lemma HexExactly(c: char, value: nat)
    ensures HexValue(c) == Some(value) <==> Digit(c, value)
  {
    if value < 10 {
      LowDigit(value);
    } else if value < 16 {
      HighDigit(value);
    }
  }

  lemma LowDigit(value: nat)
    requires value < 10
    ensures "0123456789abcdef"[value] as int == '0' as int + value
    ensures "0123456789ABCDEF"[value] as int == '0' as int + value
  {
  }

  lemma HighDigit(value: nat)
    requires 10 <= value < 16
    ensures "0123456789abcdef"[value] as int == 'a' as int + value - 10
    ensures "0123456789ABCDEF"[value] as int == 'A' as int + value - 10
  {
  }

  lemma Hex4Exactly(s: string, code: nat)
    ensures Hex4(s) == Some(code) <==> |s| >= 6 && Code(s[..6], code)
  {
    hide HexValue, Digit;
    if |s| >= 6 {
      forall k, value: nat | 2 <= k < 6 ensures HexValue(s[k]) == Some(value) <==> Digit(s[..6][k], value) {
        HexExactly(s[k], value);
      }
      if Hex4(s) == Some(code) {
        var a, b, c, d := HexValue(s[2]).value, HexValue(s[3]).value, HexValue(s[4]).value, HexValue(s[5]).value;
        assert CodeBy(s[..6], code, a, b, c, d);
      }
      if Code(s[..6], code) {
        var a: nat, b: nat, c: nat, d: nat :| CodeBy(s[..6], code, a, b, c, d);
        DigitsAreSmall(s[..6], code, a, b, c, d);
        assert HexValue(s[2]) == Some(a) && HexValue(s[3]) == Some(b);
        assert HexValue(s[4]) == Some(c) && HexValue(s[5]) == Some(d);
      }
    }
  }

  lemma DigitsAreSmall(unit: string, code: nat, a: nat, b: nat, c: nat, d: nat)
    requires CodeBy(unit, code, a, b, c, d)
    ensures a < 16 && b < 16 && c < 16 && d < 16
  {
  }

  /** The character that a text starts with, and how long it is written. */
  lemma FirstUnit(s: string) returns (unit: string, c: char)
    requires JsonString(s).Some? && s != "\""
    ensures Unit(unit, c) && unit != "" && unit <= s && JsonString(s) == Cons(c, JsonString(s[|unit|..]))
  {
    hide Hex4, Code;
    if s[0] != '\\' {
      unit, c := s[..1], s[0];
    } else if s[1] != 'u' {
      unit := s[..2];
      c := JsonString(s).value[0];
    } else {
      unit, c := FirstCode(s);
    }
  }

  lemma FirstCode(s: string) returns (unit: string, c: char)
    requires JsonUnicode(s).Some?
    ensures Unit(unit, c) && unit != "" && unit <= s && JsonUnicode(s) == Cons(c, JsonString(s[|unit|..]))
  {
    hide Code, JsonString, Hex4;
    var code := Hex4(s).value;
    Hex4Exactly(s, code);
    if code < 0xD800 || 0xDFFF < code {
      unit, c := s[..6], code as char;
    } else {
      var low := Hex4(s[6..]).value;
      Hex4Exactly(s[6..], low);
      unit, c := s[..12], (0x10000 + (code - 0xD800) * 0x400 + (low - 0xDC00)) as char;
      assert unit[..6] == s[..6] && unit[6..] == s[6..][..6];
      assert Pair(unit, c);
    }
  }

  lemma UnitReads(unit: string, c: char, tail: string)
    requires Unit(unit, c)
    ensures JsonString(unit + tail) == Cons(c, JsonString(tail))
  {
    hide Code, Pair;
    var s := unit + tail;
    if unit == [c] && ' ' <= c && c != '"' && c != '\\' {
      assert s[1..] == tail;
    } else if |unit| == 2 && unit[0] == '\\' && Short(unit[1], c) {
      assert s[2..] == tail;
    } else if Code(unit, c as int) {
      CodeReads(unit, c, tail);
    } else {
      PairReads(unit, c, tail);
    }
  }

  lemma CodeReads(unit: string, c: char, tail: string)
    requires Code(unit, c as int)
    ensures JsonString(unit + tail) == Cons(c, JsonString(tail))
  {
    var s := unit + tail;
    CodeStarts(unit, c as int);
    assert s[..6] == unit && s[6..] == tail;
    Hex4Exactly(s, c as int);
    hide Code, Hex4, JsonString;
    ReadsUnicode(s);
  }

  lemma ReadsUnicode(s: string)
    requires |s| >= 2 && s[0] == '\\' && s[1] == 'u'
    ensures JsonString(s) == JsonUnicode(s)
  {
    hide JsonUnicode;
  }

  lemma CodeStarts(unit: string, code: nat)
    requires Code(unit, code)
    ensures |unit| == 6 && unit[0] == '\\' && unit[1] == 'u'
  {
  }

  lemma PairReads(unit: string, c: char, tail: string)
    requires Pair(unit, c)
    ensures JsonString(unit + tail) == Cons(c, JsonString(tail))
  {
    var s := unit + tail;
    hide Code, Hex4;
    var high: nat, low: nat :|
      && Code(unit[..6], high) && Code(unit[6..], low)
      && 0xD800 <= high <= 0xDBFF && 0xDC00 <= low <= 0xDFFF
      && c as int == 0x10000 + (high - 0xD800) * 0x400 + (low - 0xDC00);
    CodeStarts(unit[..6], high);
    assert s[..6] == unit[..6] && s[6..][..6] == unit[6..] && s[12..] == tail;
    Hex4Exactly(s, high);
    Hex4Exactly(s[6..], low);
    hide JsonString;
    ReadsUnicode(s);
  }

  lemma {:induction false} TextIsSpelled(s: string)
    requires JsonString(s).Some?
    ensures SpellsText(s, JsonString(s).value)
    decreases |s|
  {
    hide Unit;
    if s == "\"" {
      assert SpelledBy(s, "", []);
    } else {
      var unit, c := FirstUnit(s);
      var rest := s[|unit|..];
      hide JsonString;
      TextIsSpelled(rest);
      var units :| SpelledBy(rest, JsonString(rest).value, units);
      assert ([unit] + units)[1..] == units && s == unit + rest;
      assert SpelledBy(s, [c] + JsonString(rest).value, [unit] + units);
    }
  }

  lemma {:induction false} SpelledIsText(s: string, text: string, units: seq<string>)
    requires SpelledBy(s, text, units)
    ensures JsonString(s) == Some(text)
    decreases |units|
  {
    hide Unit;
    if units != [] {
      var rest := Concat(units[1..]) + "\"";
      assert s == units[0] + rest && text == [text[0]] + text[1..];
      SpelledIsText(rest, text[1..], units[1..]);
      hide JsonString;
      UnitReads(units[0], text[0], rest);
    }
  }

  /** The reader accepts the JSON strings there are, and gives the text each spells. */
  lemma JsonExactly(s: string, text: string)
    ensures JsonString(s) == Some(text) <==> SpellsText(s, text)
  {
    hide JsonString, SpelledBy;
    if JsonString(s) == Some(text) {
      TextIsSpelled(s);
    }
    if SpellsText(s, text) {
      var units :| SpelledBy(s, text, units);
      SpelledIsText(s, text, units);
    }
  }
}

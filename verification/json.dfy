/** The string encoding of Go's `encoding/json` as `json.Marshal` writes
    it (HTML-safe: `<`, `>` and `&` become `\u003c`, `\u003e`, `\u0026`),
    a decoder for JSON string literals after section 7 of RFC 8259, and the
    `bytes.Replace(b, "\u0026", "&", -1)` that the router writer applies to
    marshalled records. */
module JsonText {
  import opened Wrappers
  import GoStrings

  const HexDigits: string := "0123456789abcdef"
  const EscapedAmp: string := "\\u0026"
  const LineSeparator: char := 0x2028 as char
  const ParagraphSeparator: char := 0x2029 as char

  function HexChar(n: nat): char
    requires n < 16
  {
    HexDigits[n]
  }

  function HexValue(c: char): (r: Option<nat>)
    ensures r.Some? ==> r.value < 16
  {
    if '0' <= c <= '9' then Some(c as int - '0' as int)
    else if 'a' <= c <= 'f' then Some(c as int - 'a' as int + 10)
    else if 'A' <= c <= 'F' then Some(c as int - 'A' as int + 10)
    else None
  }

  /** Reading a digit back gives the nibble it was written for. */
  lemma HexRoundTrip(n: nat)
    requires n < 16
    ensures HexValue(HexChar(n)) == Some(n)
  {
    assert HexDigits == ['0', '1', '2', '3', '4', '5', '6', '7', '8', '9', 'a', 'b', 'c', 'd', 'e', 'f'];
  }

  /** The characters `json.Marshal` writes as `\u00XX`: controls other than
      tab, newline and carriage return, and the three HTML specials. With
      `escapeAmp` false, `&` is left as it is. */
  predicate NeedsHexEscape(c: char, escapeAmp: bool)
  {
    (c as int < 0x20 && c != '\n' && c != '\r' && c != '\t')
    || c == '<' || c == '>' || (c == '&' && escapeAmp)
  }

  /** What the encoder writes for one character. */
  function Escape(c: char, escapeAmp: bool): (r: string)
    ensures |r| > 0
    ensures r[0] != '"' && (r[0] as int >= 0x20 || r[0] == '\\')
  {
    if c == '"' then "\\\""
    else if c == '\\' then "\\\\"
    else if c == '\n' then "\\n"
    else if c == '\r' then "\\r"
    else if c == '\t' then "\\t"
    else if NeedsHexEscape(c, escapeAmp) then "\\u00" + [HexChar(c as int / 16), HexChar(c as int % 16)]
    else if c == LineSeparator || c == ParagraphSeparator then "\\u202" + [HexChar(c as int % 16)]
    else [c]
  }

  /** The text between the quotes of an encoded string. */
  function Body(s: string, escapeAmp: bool): string
  {
    if s == [] then [] else Escape(s[0], escapeAmp) + Body(s[1..], escapeAmp)
  }

  /** A string as `json.Marshal` encodes it (`escapeAmp` true), or with
      literal ampersands (`escapeAmp` false). */
  function Quote(s: string, escapeAmp: bool): (r: string)
    ensures |r| >= 2 && r[0] == '"' && r[|r| - 1] == '"'
  {
    "\"" + Body(s, escapeAmp) + "\""
  }

  // ------------------------------------------------------------- decoding

  function Cons(c: char, r: Option<(string, string)>): Option<(string, string)>
  {
    match r
    case None => None
    case Some((s, rest)) => Some(([c] + s, rest))
  }

  /** The two-character escapes of section 7 of RFC 8259. */
  function ShortEscape(e: char): Option<char>
  {
    if e == '"' then Some('"')
    else if e == '\\' then Some('\\')
    else if e == '/' then Some('/')
    else if e == 'b' then Some(0x08 as char)
    else if e == 'f' then Some(0x0c as char)
    else if e == 'n' then Some('\n')
    else if e == 'r' then Some('\r')
    else if e == 't' then Some('\t')
    else None
  }

  /** The four hex digits of a `\uXXXX` escape. A lone surrogate is refused. */
  function UnicodeEscape(h: string): (r: Option<char>)
    requires |h| == 4
  {
    match (HexValue(h[0]), HexValue(h[1]), HexValue(h[2]), HexValue(h[3]))
    case (Some(a), Some(b), Some(c), Some(d)) =>
      var v := ((a * 16 + b) * 16 + c) * 16 + d;
      if 0xD800 <= v < 0xE000 then None else Some(v as char)
    case _ => None
  }

  /** Reads the rest of a string literal whose opening quote is already
      consumed: the characters it stands for and the text after its closing
      quote. `None` when the literal is not valid JSON (unterminated, an
      unescaped control character, an unknown or truncated escape). */
  function Scan(t: string): (r: Option<(string, string)>)
    decreases |t|
  {
    if t == [] then None
    else if t[0] == '"' then Some(([], t[1..]))
    else if t[0] as int < 0x20 then None
    else if t[0] != '\\' then Cons(t[0], Scan(t[1..]))
    else if |t| < 2 then None
    else if ShortEscape(t[1]).Some? then Cons(ShortEscape(t[1]).value, Scan(t[2..]))
    else if t[1] == 'u' && |t| >= 6 && UnicodeEscape(t[2..6]).Some? then
      Cons(UnicodeEscape(t[2..6]).value, Scan(t[6..]))
    else None
  }

  /** A whole JSON string literal. */
  function Unquote(t: string): Option<string>
  {
    if t != [] && t[0] == '"' && Scan(t[1..]).Some? && Scan(t[1..]).value.1 == [] then Some(Scan(t[1..]).value.0)
    else None
  }

  lemma HexEscapeDecodes(c: char, rest: string)
    requires c as int < 0x80
    ensures var t := "\\u00" + [HexChar(c as int / 16), HexChar(c as int % 16)] + rest;
      |t| >= 6 && t[1] == 'u' && UnicodeEscape(t[2..6]) == Some(c) && t[6..] == rest
  {
    HexRoundTrip(c as int / 16);
    HexRoundTrip(c as int % 16);
  }

  lemma SeparatorDecodes(c: char, rest: string)
    requires c == LineSeparator || c == ParagraphSeparator
    ensures var t := "\\u202" + [HexChar(c as int % 16)] + rest;
      |t| >= 6 && t[1] == 'u' && UnicodeEscape(t[2..6]) == Some(c) && t[6..] == rest
  {
    HexRoundTrip(c as int % 16);
  }

  lemma ShortEscapeDecodes(e: string, c: char, rest: string)
    requires |e| == 2 && e[0] == '\\' && ShortEscape(e[1]) == Some(c)
    ensures Scan(e + rest) == Cons(c, Scan(rest))
  {
    assert (e + rest)[1] == e[1] && (e + rest)[2..] == rest;
  }

  /** Reading undoes one character's escape. */
  lemma EscapeDecodes(c: char, escapeAmp: bool, rest: string)
    ensures Scan(Escape(c, escapeAmp) + rest) == Cons(c, Scan(rest))
  {
    var t := Escape(c, escapeAmp) + rest;
    if c == '"' || c == '\\' || c == '\n' || c == '\r' || c == '\t' {
      ShortEscapeDecodes(Escape(c, escapeAmp), c, rest);
    } else if NeedsHexEscape(c, escapeAmp) {
      HexEscapeDecodes(c, rest);
    } else if c == LineSeparator || c == ParagraphSeparator {
      SeparatorDecodes(c, rest);
    } else {
      assert t[1..] == rest;
    }
  }

  /** Reading an encoded body up to its closing quote gives the string back
      and stops right after the quote. */
  lemma {:induction false} BodyDecodes(s: string, escapeAmp: bool, rest: string)
    ensures Scan(Body(s, escapeAmp) + ("\"" + rest)) == Some((s, rest))
  {
    if s == [] {
      assert Body(s, escapeAmp) + ("\"" + rest) == "\"" + rest;
    } else {
      var tail := Body(s[1..], escapeAmp) + ("\"" + rest);
      assert Body(s, escapeAmp) + ("\"" + rest) == Escape(s[0], escapeAmp) + tail;
      EscapeDecodes(s[0], escapeAmp, tail);
      BodyDecodes(s[1..], escapeAmp, rest);
      assert Cons(s[0], Some((s[1..], rest))) == Some(([s[0]] + s[1..], rest));
      assert [s[0]] + s[1..] == s;
    }
  }

  /** Text that does not read as a string literal still does not after an
      encoded body. */
  lemma {:induction false} BodyThenInvalid(s: string, escapeAmp: bool, t: string)
    requires Scan(t) == None
    ensures Scan(Body(s, escapeAmp) + t) == None
  {
    if s == [] {
      assert Body(s, escapeAmp) + t == t;
    } else {
      var tail := Body(s[1..], escapeAmp) + t;
      assert Body(s, escapeAmp) + t == Escape(s[0], escapeAmp) + tail;
      EscapeDecodes(s[0], escapeAmp, tail);
      BodyThenInvalid(s[1..], escapeAmp, t);
    }
  }

  /** Every encoded string reads back as itself, with or without escaped
      ampersands. */
  lemma QuoteRoundTrip(s: string, escapeAmp: bool)
    ensures Unquote(Quote(s, escapeAmp)) == Some(s)
  {
    var q := Quote(s, escapeAmp);
    assert q[1..] == Body(s, escapeAmp) + ("\"" + []);
    BodyDecodes(s, escapeAmp, []);
  }

  /** The encoding of a concatenation is the concatenation of encodings. */
  lemma {:induction false} BodyAppend(a: string, b: string, escapeAmp: bool)
    ensures Body(a + b, escapeAmp) == Body(a, escapeAmp) + Body(b, escapeAmp)
  {
    if a == [] {
      assert a + b == b;
    } else {
      assert (a + b)[1..] == a[1..] + b;
      BodyAppend(a[1..], b, escapeAmp);
      GoStrings.ConcatAssoc(Escape(a[0], escapeAmp), Body(a[1..], escapeAmp), Body(b, escapeAmp));
    }
  }

  // -------------------------------------------------- restoring ampersands

  /** `t` starts with the six characters `\u0026`. */
  predicate AmpAt(t: string)
  {
    |t| >= 6 && t[0] == '\\' && t[1] == 'u' && t[2] == '0' && t[3] == '0' && t[4] == '2' && t[5] == '6'
  }

  /** `bytes.Replace(t, "\u0026", "&", -1)`: every occurrence of the six
      characters, leftmost first, without overlaps. */
  function RestoreAmpersands(t: string): string
    decreases |t|
  {
    if AmpAt(t) then "&" + RestoreAmpersands(t[6..])
    else if t == [] then []
    else [t[0]] + RestoreAmpersands(t[1..])
  }

  /** Text without a backslash holds no occurrence and passes through. */
  lemma {:induction false} RestorePlain(p: string, rest: string)
    requires '\\' !in p
    ensures RestoreAmpersands(p + rest) == p + RestoreAmpersands(rest)
  {
    if p == [] {
      assert p + rest == rest;
    } else {
      var t := p + rest;
      assert t[0] == p[0];
      assert t[1..] == p[1..] + rest;
      RestorePlain(p[1..], rest);
      assert [p[0]] + (p[1..] + RestoreAmpersands(rest)) == p + RestoreAmpersands(rest);
    }
  }

  /** A `\u00XX` escape of a character other than `&` is not an occurrence. */
  lemma HexEscapeNotAmp(c: char, rest: string)
    requires c as int < 0x80 && c != '&'
    ensures !AmpAt("\\u00" + [HexChar(c as int / 16), HexChar(c as int % 16)] + rest)
  {
    HexRoundTrip(c as int / 16);
    HexRoundTrip(c as int % 16);
  }

  /** An escape other than `\u0026` is a backslash followed by text
      without one, and passes through. */
  lemma RestoreOtherEscape(e: string, rest: string)
    requires |e| >= 2 && e[0] == '\\' && '\\' !in e[1..]
    requires !AmpAt(e + rest)
    ensures RestoreAmpersands(e + rest) == e + RestoreAmpersands(rest)
  {
    var t := e + rest;
    assert t[0] == e[0] && t[1..] == e[1..] + rest;
    assert RestoreAmpersands(t) == [e[0]] + RestoreAmpersands(e[1..] + rest);
    RestorePlain(e[1..], rest);
    assert [e[0]] + (e[1..] + RestoreAmpersands(rest)) == e + RestoreAmpersands(rest);
  }

  lemma RestoreEscape(c: char, rest: string)
    requires c != '\\'
    ensures RestoreAmpersands(Escape(c, true) + rest) == Escape(c, false) + RestoreAmpersands(rest)
  {
    var e := Escape(c, true);
    if c == '&' {
      assert AmpAt(e + rest) && (e + rest)[6..] == rest;
    } else if NeedsHexEscape(c, true) {
      HexEscapeNotAmp(c, rest);
      RestoreOtherEscape(e, rest);
    } else if e[0] == '\\' {
      RestoreOtherEscape(e, rest);
    } else {
      RestorePlain(e, rest);
    }
  }

  /** For a string without a backslash, restoring the ampersands of its
      encoding gives the encoding with literal ampersands. */
  lemma {:induction false} RestoreBody(s: string, rest: string)
    requires '\\' !in s
    ensures RestoreAmpersands(Body(s, true) + rest) == Body(s, false) + RestoreAmpersands(rest)
  {
    if s == [] {
      assert Body(s, true) + rest == rest;
    } else {
      assert '\\' !in s[1..] by {
        assert forall i | 0 <= i < |s[1..]| :: s[1..][i] == s[i + 1];
      }
      RestoreBody(s[1..], rest);
      RestoreBodyStep(s, rest);
    }
  }

  /** The inductive step of `RestoreBody`: the first character's escape is
      restored on its own. */
  lemma RestoreBodyStep(s: string, rest: string)
    requires s != [] && s[0] != '\\'
    requires RestoreAmpersands(Body(s[1..], true) + rest) == Body(s[1..], false) + RestoreAmpersands(rest)
    ensures RestoreAmpersands(Body(s, true) + rest) == Body(s, false) + RestoreAmpersands(rest)
  {
    var e, e' := Escape(s[0], true), Escape(s[0], false);
    var tail := Body(s[1..], true) + rest;
    assert Body(s, true) + rest == e + tail by {
      GoStrings.ConcatAssoc(e, Body(s[1..], true), rest);
    }
    assert RestoreAmpersands(e + tail) == e' + RestoreAmpersands(tail) by {
      RestoreEscape(s[0], tail);
    }
    assert e' + (Body(s[1..], false) + RestoreAmpersands(rest)) == Body(s, false) + RestoreAmpersands(rest) by {
      GoStrings.ConcatAssoc(e', Body(s[1..], false), RestoreAmpersands(rest));
    }
  }

  /** The encoding of the six characters `\u0026`: the backslash doubled. */
  lemma BodyOfEscapedAmp()
    ensures Body(EscapedAmp, true) == "\\\\u0026"
  {
    assert Body("6", true) == "6";
    assert Body("26", true) == "2" + Body("6", true);
    assert Body("026", true) == "0" + Body("26", true);
    assert Body("0026", true) == "0" + Body("026", true);
    assert Body("u0026", true) == "u" + Body("0026", true);
    assert Body(EscapedAmp, true) == "\\\\" + Body("u0026", true);
  }

  /** After a doubled backslash the replacement still finds `\u0026`,
      leaving a single backslash before `&`. */
  lemma RestoreDoubled(rest: string)
    ensures RestoreAmpersands("\\\\u0026" + rest) == "\\&" + RestoreAmpersands(rest)
  {
    var t := "\\\\u0026" + rest;
    assert !AmpAt(t) && t[1..] == EscapedAmp + rest;
    assert AmpAt(t[1..]) && t[1..][6..] == rest;
  }

  /** A backslash before `&` is not an escape. */
  lemma BackslashAmpInvalid(rest: string)
    ensures Scan("\\&" + rest) == None
  {
    var t := "\\&" + rest;
    assert t[0] == '\\' && t[1] == '&';
    assert ShortEscape('&').None?;
  }

  lemma SplitAtEscapedAmp(a: string, z: string, rest: string)
    ensures Body(a + EscapedAmp + z, true) + rest == Body(a, true) + ("\\\\u0026" + (Body(z, true) + rest))
  {
    var x, e, y := Body(a, true), Body(EscapedAmp, true), Body(z, true);
    assert Body(a + EscapedAmp + z, true) == x + e + y by {
      BodyAppend(a + EscapedAmp, z, true);
      BodyAppend(a, EscapedAmp, true);
    }
    BodyOfEscapedAmp();
    assert x + e + y + rest == x + (e + (y + rest)) by {
      GoStrings.ConcatAssoc(x + e, y, rest);
      GoStrings.ConcatAssoc(x, e, y + rest);
    }
  }

  /** When the text holds `\u0026` itself, after a part without a
      backslash, restoring the ampersands of its encoding leaves `\&` there,
      and the literal no longer reads. */
  lemma RestoreBreaksLiteral(a: string, z: string, rest: string)
    requires '\\' !in a
    ensures Scan(RestoreAmpersands(Body(a + EscapedAmp + z, true) + rest)) == None
  {
    var x := "\\\\u0026" + (Body(z, true) + rest);
    SplitAtEscapedAmp(a, z, rest);
    RestoreBody(a, x);
    RestoreDoubled(Body(z, true) + rest);
    BackslashAmpInvalid(RestoreAmpersands(Body(z, true) + rest));
    BodyThenInvalid(a, false, "\\&" + RestoreAmpersands(Body(z, true) + rest));
  }

  // --------------------------------------------- records of a fixed layout

  /** A record with two string fields as `json.Marshal` lays it out: the
      text up to the first field's opening quote, the first field, the text
      between the fields (from the first field's closing quote to the
      second's opening one, `"` + `between`), the second field, and the rest
      of the record after its closing quote. */
  function PairRecord(head: string, first: string, between: string, second: string, tail: string, escapeAmp: bool): string
  {
    head + (Body(first, escapeAmp) + ("\"" + between + (Body(second, escapeAmp) + ("\"" + tail))))
  }

  /** A reader for records laid out as `PairRecord` lays them out: the two
      fields, or `None` when the text is not such a record. */
  function ReadPair(t: string, head: string, between: string, tail: string): Option<(string, string)>
  {
    if !(head <= t) then None
    else
      match Scan(t[|head|..])
      case None => None
      case Some((first, rest)) =>
        if !(between <= rest) then None
        else
          match Scan(rest[|between|..])
          case None => None
          case Some((second, rest')) => if rest' == tail then Some((first, second)) else None
  }

  lemma PairRoundTrip(head: string, first: string, between: string, second: string, tail: string, escapeAmp: bool)
    ensures ReadPair(PairRecord(head, first, between, second, tail, escapeAmp), head, between, tail) == Some((first, second))
  {
    var after := Body(second, escapeAmp) + ("\"" + tail);
    var mid := between + after;
    var t := PairRecord(head, first, between, second, tail, escapeAmp);
    assert "\"" + between + after == "\"" + mid;
    assert t[|head|..] == Body(first, escapeAmp) + ("\"" + mid);
    BodyDecodes(first, escapeAmp, mid);
    assert mid[|between|..] == after;
    BodyDecodes(second, escapeAmp, tail);
  }

  /** The replacement leaves the head and the first field of a record alone
      when they hold no backslash, and acts on the rest on its own. */
  lemma RestorePairHead(head: string, first: string, between: string, x: string)
    requires '\\' !in head && '\\' !in first && '\\' !in "\"" + between
    ensures RestoreAmpersands(head + (Body(first, true) + ("\"" + between + x)))
      == head + (Body(first, false) + ("\"" + between + RestoreAmpersands(x)))
  {
    RestorePlain("\"" + between, x);
    RestoreBody(first, "\"" + between + x);
    RestorePlain(head, Body(first, true) + ("\"" + between + x));
  }

  /** Without backslashes in the layout and the fields, replacing `\u0026`
      gives exactly the record written with literal ampersands. */
  lemma RestorePair(head: string, first: string, between: string, second: string, tail: string)
    requires '\\' !in head && '\\' !in "\"" + between && '\\' !in "\"" + tail
    requires '\\' !in first && '\\' !in second
    ensures RestoreAmpersands(PairRecord(head, first, between, second, tail, true))
      == PairRecord(head, first, between, second, tail, false)
  {
    var x := Body(second, true) + ("\"" + tail);
    RestorePairHead(head, first, between, x);
    RestoreBody(second, "\"" + tail);
    RestorePlain("\"" + tail, []);
    assert "\"" + tail + [] == "\"" + tail;
  }

  /** When the second field holds `\u0026` itself, after a part without a
      backslash, the replaced record no longer reads. */
  lemma RestorePairBroken(head: string, first: string, between: string, a: string, z: string, tail: string)
    requires '\\' !in head && '\\' !in "\"" + between && '\\' !in first && '\\' !in a
    ensures ReadPair(RestoreAmpersands(PairRecord(head, first, between, a + EscapedAmp + z, tail, true)), head, between, tail)
      == None
  {
    var x := Body(a + EscapedAmp + z, true) + ("\"" + tail);
    assert PairRecord(head, first, between, a + EscapedAmp + z, tail, true)
      == head + (Body(first, true) + ("\"" + between + x));
    RestorePairHead(head, first, between, x);
    RestoreBreaksLiteral(a, z, "\"" + tail);
    ReadPairStops(head, first, between, RestoreAmpersands(x), tail);
  }

  /** A record whose second field does not read does not read. */
  lemma ReadPairStops(head: string, first: string, between: string, y: string, tail: string)
    requires Scan(y) == None
    ensures ReadPair(head + (Body(first, false) + ("\"" + between + y)), head, between, tail) == None
  {
    var t := head + (Body(first, false) + ("\"" + between + y));
    var mid := between + y;
    assert "\"" + between + y == "\"" + mid;
    assert t[|head|..] == Body(first, false) + ("\"" + mid);
    BodyDecodes(first, false, mid);
    assert mid[|between|..] == y;
  }

  /** A record with one string field: `head`, the field, then `"` and
      `tail`. */
  function SingleRecord(head: string, field: string, tail: string): string
  {
    head + (Body(field, true) + ("\"" + tail))
  }

  function ReadSingle(t: string, head: string, tail: string): Option<string>
  {
    if !(head <= t) then None
    else
      match Scan(t[|head|..])
      case Some((field, rest)) => if rest == tail then Some(field) else None
      case None => None
  }

  lemma SingleRoundTrip(head: string, field: string, tail: string)
    ensures ReadSingle(SingleRecord(head, field, tail), head, tail) == Some(field)
  {
    assert SingleRecord(head, field, tail)[|head|..] == Body(field, true) + ("\"" + tail);
    BodyDecodes(field, true, tail);
  }
}

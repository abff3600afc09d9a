/** The parts of Go's `strings` package the receiver relies on, for
    single-character separators and ASCII case mapping. */
module GoStrings {
  import opened Wrappers

  /** Position of the first `c` in `s`. */
  function FirstIndex(s: string, c: char): (i: nat)
    requires c in s
    ensures i < |s| && s[i] == c
    ensures c !in s[..i]
  {
    if s[0] == c then 0
    else
      var j := FirstIndex(s[1..], c);
      assert s[..j + 1] == [s[0]] + s[1..][..j];
      j + 1
  }

  /** `strings.Join(parts, string(c))`. */
  function Join(parts: seq<string>, c: char): string
  {
    if |parts| == 0 then ""
    else if |parts| == 1 then parts[0]
    else parts[0] + [c] + Join(parts[1..], c)
  }

  /** `strings.Split(s, string(c))`: no piece holds the separator, and
      joining the pieces gives `s` back. */
  function Split(s: string, c: char): (parts: seq<string>)
    ensures |parts| >= 1
    ensures forall i | 0 <= i < |parts| :: c !in parts[i]
    ensures Join(parts, c) == s
    decreases |s|
  {
    if c !in s then [s]
    else
      var i := FirstIndex(s, c);
      assert s == s[..i] + [c] + s[i + 1..];
      var rest := Split(s[i + 1..], c);
      var parts := [s[..i]] + rest;
      assert parts[1..] == rest;
      parts
  }

  /** There is one more piece than there are separators. */
  lemma {:induction false} SplitCount(s: string, c: char)
    ensures |Split(s, c)| == multiset(s)[c] + 1
    decreases |s|
  {
    if c in s {
      var i := FirstIndex(s, c);
      assert s == s[..i] + [c] + s[i + 1..];
      assert multiset(s[..i])[c] == 0;
      SplitCount(s[i + 1..], c);
    } else {
      assert multiset(s)[c] == 0;
    }
  }

  /** `strings.SplitN(s, string(c), 2)`: the text before the first `c` and
      everything after it. */
  function SplitN2(s: string, c: char): (parts: seq<string>)
    ensures c !in s ==> parts == [s]
    ensures c in s ==> |parts| == 2 && c !in parts[0] && parts[0] + [c] + parts[1] == s
  {
    if c !in s then [s]
    else
      var i := FirstIndex(s, c);
      assert s == s[..i] + [c] + s[i + 1..];
      [s[..i], s[i + 1..]]
  }

  /** Splitting on every `c` and re-joining all pieces but the first is the
      same as splitting once at the first `c` (the idiom
      `key, value := parts[0], strings.Join(parts[1:], "=")`). */
  lemma SplitHeadTail(s: string, c: char)
    requires c in s
    ensures |Split(s, c)| >= 2
    ensures Split(s, c)[0] == SplitN2(s, c)[0]
    ensures Join(Split(s, c)[1..], c) == SplitN2(s, c)[1]
  {
    var i := FirstIndex(s, c);
    assert Split(s, c)[1..] == Split(s[i + 1..], c);
  }

  /** The first separator of `a + [c] + b` is the one after `a`. */
  lemma {:induction false} FirstIndexAfter(a: string, b: string, c: char)
    requires c !in a
    ensures FirstIndex(a + [c] + b, c) == |a|
  {
    if a != [] {
      assert (a + [c] + b)[1..] == a[1..] + [c] + b;
      FirstIndexAfter(a[1..], b, c);
    }
  }

  /** A split at the first separator is determined by the two halves. */
  lemma FirstSplitUnique(a: string, b: string, c: char)
    requires c !in a
    ensures SplitN2(a + [c] + b, c) == [a, b]
  {
    var s := a + [c] + b;
    FirstIndexAfter(a, b, c);
    assert s[..|a|] == a;
    assert s[|a| + 1..] == b;
  }

  /** `Split(a + [c] + b)` when `a` holds no separator: `a`, then the pieces of `b`. */
  lemma SplitFirst(a: string, b: string, c: char)
    requires c !in a
    ensures Split(a + [c] + b, c) == [a] + Split(b, c)
  {
    var s := a + [c] + b;
    FirstIndexAfter(a, b, c);
    assert s[..|a|] == a;
    assert s[|a| + 1..] == b;
  }

  /** Splitting undoes joining pieces that hold no separator. */
  lemma {:induction false} SplitJoin(parts: seq<string>, c: char)
    requires |parts| >= 1
    requires forall i | 0 <= i < |parts| :: c !in parts[i]
    ensures Split(Join(parts, c), c) == parts
    decreases |parts|
  {
    if |parts| > 1 {
      SplitFirst(parts[0], Join(parts[1..], c), c);
      SplitJoin(parts[1..], c);
      assert parts == [parts[0]] + parts[1..];
    }
  }

  /** Appending one more piece to a join. */
  lemma {:induction false} JoinAppend(parts: seq<string>, x: string, c: char)
    requires |parts| >= 1
    ensures Join(parts + [x], c) == Join(parts, c) + [c] + x
    decreases |parts|
  {
    if |parts| > 1 {
      JoinAppend(parts[1..], x, c);
      assert (parts + [x])[1..] == parts[1..] + [x];
    } else {
      assert (parts + [x])[1..] == [x];
    }
  }

  /** Joining two non-empty lists of pieces is joining each and putting a
      separator between. */
  lemma {:induction false} JoinConcat(a: seq<string>, b: seq<string>, c: char)
    requires |a| >= 1 && |b| >= 1
    ensures Join(a + b, c) == Join(a, c) + [c] + Join(b, c)
    decreases |a|
  {
    assert (a + b)[0] == a[0];
    if |a| == 1 {
      assert (a + b)[1..] == b;
    } else {
      assert (a + b)[1..] == a[1..] + b;
      JoinConcat(a[1..], b, c);
      assert a[0] + [c] + (Join(a[1..], c) + [c] + Join(b, c))
          == (a[0] + [c] + Join(a[1..], c)) + [c] + Join(b, c);
    }
  }

  /** A piece made of a separator and a join, joined with further pieces, is
      the separator and the join of all of them. */
  lemma JoinLed(a: seq<string>, b: seq<string>, c: char)
    requires |a| >= 1 && |b| >= 1
    ensures Join([[c] + Join(a, c)] + b, c) == [c] + Join(a + b, c)
  {
    var d, t := Join(a, c), Join(b, c);
    var e := [[c] + d] + b;
    assert e[0] == [c] + d && e[1..] == b;
    JoinConcat(a, b, c);
    assert ([c] + d) + [c] + t == [c] + (d + [c] + t);
  }

  /** A position holding the first `c` is the one `FirstIndex` finds. */
  lemma FirstIndexUnique(s: string, c: char, i: nat)
    requires i < |s| && s[i] == c && c !in s[..i]
    ensures FirstIndex(s, c) == i
  {
    var k := FirstIndex(s, c);
  }

  /** A separator-free piece appended after a separator becomes the last piece. */
  lemma {:induction false} SplitAppendPiece(s: string, x: string, c: char)
    requires c !in x
    ensures Split(s + [c] + x, c) == Split(s, c) + [x]
    decreases |s|
  {
    if c !in s {
      SplitFirst(s, x, c);
    } else {
      var t := s + [c] + x;
      var j := FirstIndex(s, c);
      var head, rest := s[..j], s[j + 1..];
      assert FirstIndex(t, c) == j && t[..j] == head by {
        assert t[..j] == s[..j];
        FirstIndexUnique(t, c, j);
      }
      assert t[j + 1..] == rest + [c] + x;
      SplitUnfold(t, c);
      SplitUnfold(s, c);
      SplitAppendPiece(rest, x, c);
      ConcatAssoc([head], Split(rest, c), [x]);
    }
  }

  lemma ConcatAssoc<T>(a: seq<T>, b: seq<T>, d: seq<T>)
    ensures a + (b + d) == (a + b) + d
  {
  }

  lemma InitLast<T>(s: seq<T>)
    requires |s| > 0
    ensures s == s[..|s| - 1] + [s[|s| - 1]]
  {
  }

  lemma ConsParts<T>(x: T, s: seq<T>)
    ensures ([x] + s)[0] == x && ([x] + s)[1..] == s && [] + s == s
  {
  }

  /** Text without the separator is a single piece. */
  lemma SplitWhole(s: string, c: char)
    requires c !in s
    ensures Split(s, c) == [s]
  {
  }

  /** One step of `Split`: the text before the first separator, then the
      pieces of the remainder. */
  lemma SplitUnfold(s: string, c: char)
    requires c in s
    ensures Split(s, c) == [s[..FirstIndex(s, c)]] + Split(s[FirstIndex(s, c) + 1..], c)
  {
  }

  // ---------------------------------------------------------------- prefixes

  predicate HasPrefix(s: string, prefix: string)
  {
    prefix <= s
  }

  predicate HasSuffix(s: string, suffix: string)
  {
    |suffix| <= |s| && s[|s| - |suffix|..] == suffix
  }

  /** `regexp.MustCompile("^" + prefix).ReplaceAllString(s, "")` for a literal
      prefix: the anchor lets the prefix be removed at most once. */
  function TrimPrefix(s: string, prefix: string): (r: string)
    ensures HasPrefix(s, prefix) ==> s == prefix + r
    ensures !HasPrefix(s, prefix) ==> r == s
  {
    if HasPrefix(s, prefix) then s[|prefix|..] else s
  }

  // ------------------------------------------------------- substring search

  predicate OccursAt(s: string, pat: string, j: nat)
  {
    j + |pat| <= |s| && s[j..j + |pat|] == pat
  }

  function IndexFrom(s: string, pat: string, k: nat): (r: Option<nat>)
    ensures r.Some? ==> k <= r.value && OccursAt(s, pat, r.value)
    ensures r.Some? ==> forall j: nat | k <= j < r.value :: !OccursAt(s, pat, j)
    ensures r.None? ==> forall j: nat | k <= j :: !OccursAt(s, pat, j)
    decreases |s| + 1 - k
  {
    if k + |pat| > |s| then None
    else if s[k..k + |pat|] == pat then Some(k)
    else IndexFrom(s, pat, k + 1)
  }

  /** `strings.Index(s, pat)`: the leftmost occurrence, if any. */
  function Index(s: string, pat: string): (r: Option<nat>)
    ensures r.Some? ==> OccursAt(s, pat, r.value)
    ensures r.Some? ==> forall j: nat | j < r.value :: !OccursAt(s, pat, j)
    ensures r.None? ==> forall j: nat :: !OccursAt(s, pat, j)
  {
    IndexFrom(s, pat, 0)
  }

  /** `strings.Replace(s, pat, replacement, 1)`. */
  function ReplaceFirst(s: string, pat: string, replacement: string): string
  {
    match Index(s, pat)
    case None => s
    case Some(i) => s[..i] + replacement + s[i + |pat|..]
  }

  /** Removing the first occurrence of a prefix leaves the rest of the text. */
  lemma ReplaceFirstPrefix(s: string, pat: string)
    requires HasPrefix(s, pat)
    ensures s == pat + ReplaceFirst(s, pat, "")
  {
    ReplaceFirstAt("", pat, s[|pat|..], "");
    assert "" + pat + s[|pat|..] == s;
  }

  /** The first occurrence is the one replaced: when `pat` does not start
      anywhere inside `a`, `a + pat + b` becomes `a + replacement + b`. */
  lemma ReplaceFirstAt(a: string, pat: string, b: string, replacement: string)
    requires forall j: nat | j < |a| :: !OccursAt(a + pat + b, pat, j)
    ensures ReplaceFirst(a + pat + b, pat, replacement) == a + replacement + b
  {
    var s := a + pat + b;
    assert s[|a|..|a| + |pat|] == pat;
    assert OccursAt(s, pat, |a|);
    var i := Index(s, pat).value;
    assert i == |a|;
    assert s[..i] == a;
    assert s[i + |pat|..] == b;
  }

  /** Without an occurrence nothing is replaced. */
  lemma ReplaceFirstAbsent(s: string, pat: string, replacement: string)
    requires forall j: nat :: !OccursAt(s, pat, j)
    ensures ReplaceFirst(s, pat, replacement) == s
  {
  }

  /** `strings.Replace(s, string(a), string(b), -1)`. */
  function ReplaceChar(s: string, a: char, b: char): (r: string)
    ensures |r| == |s|
    ensures forall i | 0 <= i < |s| :: r[i] == (if s[i] == a then b else s[i])
  {
    if s == [] then []
    else [if s[0] == a then b else s[0]] + ReplaceChar(s[1..], a, b)
  }

  // ------------------------------------------------------------- case mapping

  function LowerChar(c: char): char
  {
    if 'A' <= c <= 'Z' then (c as int + 32) as char else c
  }

  /** `strings.ToLower`, restricted to ASCII letters. */
  function ToLower(s: string): (r: string)
    ensures |r| == |s|
    ensures forall i | 0 <= i < |s| :: r[i] == LowerChar(s[i])
  {
    if s == [] then [] else [LowerChar(s[0])] + ToLower(s[1..])
  }

  /** Lower-casing twice is lower-casing once. */
  lemma ToLowerIdempotent(s: string)
    ensures ToLower(ToLower(s)) == ToLower(s)
  {
    assert forall i | 0 <= i < |s| :: ToLower(ToLower(s))[i] == ToLower(s)[i];
  }

  lemma ToLowerAppend(a: string, b: string)
    ensures ToLower(a + b) == ToLower(a) + ToLower(b)
  {
    assert forall i | 0 <= i < |a + b| :: ToLower(a + b)[i] == (ToLower(a) + ToLower(b))[i];
  }
}

/** `strconv.Itoa`, `strconv.Atoi` and `strconv.ParseInt(s, 10, 64)` on a
    64-bit platform. */
module GoStrconv {

  predicate IsDigit(c: char)
  {
    '0' <= c <= '9'
  }

  predicate AllDigits(s: string)
  {
    forall i | 0 <= i < |s| :: IsDigit(s[i])
  }

  function DigitValue(c: char): nat
    requires IsDigit(c)
  {
    c as int - '0' as int
  }

  function DigitChar(d: nat): (c: char)
    requires d < 10
    ensures IsDigit(c) && DigitValue(c) == d
  {
    ('0' as int + d) as char
  }

  /** The number a run of decimal digits denotes. */
  function DecimalValue(s: string): nat
    requires AllDigits(s)
  {
    if s == [] then 0 else DecimalValue(s[..|s| - 1]) * 10 + DigitValue(s[|s| - 1])
  }

  /** The value of a digit string never decreases when digits are appended. */
  lemma {:induction false} DecimalValueMonotone(s: string, k: nat)
    requires AllDigits(s) && k <= |s|
    ensures DecimalValue(s[..k]) <= DecimalValue(s)
    decreases |s|
  {
    if k < |s| {
      var t := s[..|s| - 1];
      assert t[..k] == s[..k];
      DecimalValueMonotone(t, k);
    } else {
      assert s[..k] == s;
    }
  }

  /** Decimal digits of `n` without leading zeros. */
  function NatToDecimal(n: nat): (s: string)
    ensures |s| > 0 && AllDigits(s)
    ensures DecimalValue(s) == n
    ensures s[0] != '0' || n == 0
  {
    if n < 10 then [DigitChar(n)]
    else
      var prefix := NatToDecimal(n / 10);
      var s := prefix + [DigitChar(n % 10)];
      assert s[..|s| - 1] == prefix;
      s
  }

  /** `strconv.Itoa`. */
  function Itoa(n: int): string
  {
    if n < 0 then "-" + NatToDecimal(-n) else NatToDecimal(n)
  }

  const MinInt64: int := -0x8000_0000_0000_0000
  const MaxInt64: int := 0x7fff_ffff_ffff_ffff
  const MaxUint64: int := 0xffff_ffff_ffff_ffff

  /** Go's `(n, err)` from a numeric parse: `ok` is `err == nil`. */
  datatype Parsed = Parsed(value: int, ok: bool)

  /** Length of the longest run of digits at the start of `s`. */
  function DigitPrefixLength(s: string): (k: nat)
    ensures k <= |s| && AllDigits(s[..k])
    ensures k < |s| ==> !IsDigit(s[k])
  {
    if s == [] || !IsDigit(s[0]) then 0
    else
      var k := 1 + DigitPrefixLength(s[1..]);
      assert s[..k] == [s[0]] + s[1..][..k - 1];
      k
  }

  /** `strconv.ParseInt(s, 10, 64)`: an optional sign followed by ASCII digits.
      Digits are consumed left to right: once the magnitude overflows 64 bits
      the result is a range error with the value clamped to the sign's bound;
      a non-digit reached first is a syntax error with value 0; a magnitude
      outside the int64 range is also a clamped range error. */
  function ParseInt64(s: string): (r: Parsed)
    ensures r.ok ==> MinInt64 <= r.value <= MaxInt64
    ensures r.value == 0 || r.ok || r.value == MinInt64 || r.value == MaxInt64
  {
    var neg := |s| > 0 && s[0] == '-';
    var body := if |s| > 0 && (s[0] == '+' || s[0] == '-') then s[1..] else s;
    var k := DigitPrefixLength(body);
    if body == [] then Parsed(0, false)
    else if DecimalValue(body[..k]) > MaxUint64 then
      Parsed(if neg then MinInt64 else MaxInt64, false)
    else if k < |body| then Parsed(0, false)
    else
      assert body[..k] == body;
      var m: int := DecimalValue(body);
      if !neg && m > MaxInt64 then Parsed(MaxInt64, false)
      else if neg && m > -MinInt64 then Parsed(MinInt64, false)
      else Parsed(if neg then -m else m, true)
  }

  /** `strconv.Atoi`, which on a 64-bit platform is `ParseInt(s, 10, 64)`. */
  function Atoi(s: string): Parsed
  {
    ParseInt64(s)
  }

  /** Parsing what `Itoa` printed gives the number back. */
  lemma ParseItoa(n: int)
    requires MinInt64 <= n <= MaxInt64
    ensures ParseInt64(Itoa(n)) == Parsed(n, true)
  {
    var s := Itoa(n);
    var digits := NatToDecimal(if n < 0 then -n else n);
    if n < 0 {
      assert s[1..] == digits;
    } else {
      assert s == digits;
      assert IsDigit(s[0]);
    }
    assert DigitPrefixLength(digits) == |digits|;
    assert digits[..|digits|] == digits;
  }

  /** Distinct numbers print differently. */
  lemma ItoaInjective(a: int, b: int)
    requires MinInt64 <= a <= MaxInt64 && MinInt64 <= b <= MaxInt64
    requires Itoa(a) == Itoa(b)
    ensures a == b
  {
    ParseItoa(a);
    ParseItoa(b);
  }
}

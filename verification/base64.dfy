/** `encoding/base64.StdEncoding` (the alphabet of section 4 of RFC 4648,
    with `=` padding), as Go 1.6 decodes it: carriage returns and line feeds
    are ignored anywhere, the rest must be whole four-character groups, only
    the last group may be padded (`xx==` or `xxx=`), and unused low bits of a
    padded group are not checked. */
module Base64 {
  import opened Wrappers

  type byte = x: int | 0 <= x < 256

  /** The character that stands for a six-bit value. */
  function SextetChar(v: nat): (c: char)
    requires v < 64
    ensures c != '=' && c != '\r' && c != '\n'
  {
    if v < 26 then ('A' as int + v) as char
    else if v < 52 then ('a' as int + (v - 26)) as char
    else if v < 62 then ('0' as int + (v - 52)) as char
    else if v == 62 then '+'
    else '/'
  }

  /** The six-bit value of an alphabet character; `None` for any other. */
  function SextetValue(c: char): (r: Option<nat>)
    ensures r.Some? ==> r.value < 64 && SextetChar(r.value) == c
    ensures r.None? ==> forall v: nat | v < 64 :: SextetChar(v) != c
  {
    if 'A' <= c <= 'Z' then Some(c as int - 'A' as int)
    else if 'a' <= c <= 'z' then Some(c as int - 'a' as int + 26)
    else if '0' <= c <= '9' then Some(c as int - '0' as int + 52)
    else if c == '+' then Some(62)
    else if c == '/' then Some(63)
    else None
  }

  lemma SextetValueOfChar(v: nat)
    requires v < 64
    ensures SextetValue(SextetChar(v)) == Some(v)
  {
  }

  predicate InAlphabet(c: char)
  {
    SextetValue(c).Some?
  }

  /** The input with every `\r` and `\n` removed. */
  function StripNewlines(s: string): (t: string)
    ensures forall i | 0 <= i < |t| :: t[i] != '\r' && t[i] != '\n'
    ensures forall c | c in s && c != '\r' && c != '\n' :: c in t
    ensures forall c | c in t :: c in s
  {
    if s == [] then []
    else if s[0] == '\r' || s[0] == '\n' then StripNewlines(s[1..])
    else [s[0]] + StripNewlines(s[1..])
  }

  /** The three bytes four six-bit values stand for, as Go assembles them
      (`s0<<2 | s1>>4`, `s1<<4 | s2>>2`, `s2<<6 | s3`, each kept to eight bits). */
  function Bytes3(s0: nat, s1: nat, s2: nat, s3: nat): (b: seq<byte>)
    requires s0 < 64 && s1 < 64 && s2 < 64 && s3 < 64
    ensures |b| == 3
  {
    [s0 * 4 + s1 / 16, (s1 % 16) * 16 + s2 / 4, (s2 % 4) * 64 + s3]
  }

  /** An unpadded group: four alphabet characters give three bytes. */
  function DecodeFull(g: string): (r: Option<seq<byte>>)
    requires |g| == 4
    ensures r.Some? <==> InAlphabet(g[0]) && InAlphabet(g[1]) && InAlphabet(g[2]) && InAlphabet(g[3])
    ensures r.Some? ==> |r.value| == 3
  {
    var v0 := SextetValue(g[0]);
    var v1 := SextetValue(g[1]);
    var v2 := SextetValue(g[2]);
    var v3 := SextetValue(g[3]);
    if v0.Some? && v1.Some? && v2.Some? && v3.Some? then
      Some(Bytes3(v0.value, v1.value, v2.value, v3.value))
    else None
  }

  /** The final group, which may carry one or two `=`. */
  function DecodeLast(g: string): (r: Option<seq<byte>>)
    requires |g| == 4
    ensures r.Some? ==> InAlphabet(g[0]) && InAlphabet(g[1])
    ensures r.Some? ==> |r.value| == 3 - (if g[3] == '=' then 1 else 0) - (if g[2] == '=' then 1 else 0)
    ensures r.Some? ==> (g[2] == '=' ==> g[3] == '=') && (g[2] == '=' || InAlphabet(g[2]))
    ensures r.Some? ==> g[3] == '=' || InAlphabet(g[3])
  {
    var v0 := SextetValue(g[0]);
    var v1 := SextetValue(g[1]);
    var v2 := SextetValue(g[2]);
    if g[3] != '=' then DecodeFull(g)
    else if v0.None? || v1.None? then None
    else if g[2] == '=' then
      Some(Bytes3(v0.value, v1.value, 0, 0)[..1])
    else if v2.None? then None
    else Some(Bytes3(v0.value, v1.value, v2.value, 0)[..2])
  }

  /** Decodes whole groups; only the last may be padded. */
  function DecodeGroups(t: string): (r: Option<seq<byte>>)
    requires |t| % 4 == 0
    ensures r.Some? ==> forall i | 0 <= i < |t| - 4 :: InAlphabet(t[i])
    ensures r.Some? ==> forall i | 0 <= i < |t| :: InAlphabet(t[i]) || t[i] == '='
    ensures r.Some? && (t == [] || t[|t| - 1] != '=') ==> |r.value| * 4 == |t| * 3
    decreases |t|
  {
    if t == [] then Some([])
    else if |t| == 4 then DecodeLast(t)
    else
      match DecodeFull(t[..4])
      case None => None
      case Some(head) =>
        match DecodeGroups(t[4..])
        case None => None
        case Some(tail) =>
          assert forall i | 4 <= i < |t| :: t[i] == t[4..][i - 4];
          Some(head + tail)
  }

  /** `StdEncoding.DecodeString`. The error text (which in Go names the byte
      offset) is not modelled. */
  function Decode(s: string): (r: Result<seq<byte>>)
    ensures r.Ok? ==> |StripNewlines(s)| % 4 == 0
    ensures r.Ok? ==> forall c | c in s :: InAlphabet(c) || c == '=' || c == '\r' || c == '\n'
  {
    var t := StripNewlines(s);
    if |t| % 4 != 0 then Err("illegal base64 data")
    else
      match DecodeGroups(t)
      case None => Err("illegal base64 data")
      case Some(b) =>
        assert forall c | c in t :: InAlphabet(c) || c == '=' by {
          forall c | c in t
            ensures InAlphabet(c) || c == '='
          {
            var i :| 0 <= i < |t| && t[i] == c;
          }
        }
        Ok(b)
  }

  // --------------------------------------------------------------- encoding

  /** The four characters for three bytes. */
  function EncodeGroup(b0: byte, b1: byte, b2: byte): (g: string)
    ensures |g| == 4
  {
    [SextetChar(b0 / 4), SextetChar((b0 % 4) * 16 + b1 / 16),
     SextetChar((b1 % 16) * 4 + b2 / 64), SextetChar(b2 % 64)]
  }

  /** `StdEncoding.EncodeToString`: the partner of `Decode`. */
  function Encode(b: seq<byte>): (s: string)
    ensures |s| % 4 == 0
    ensures |b| > 0 ==> |s| >= 4
    decreases |b|
  {
    if |b| == 0 then ""
    else if |b| == 1 then
      var g := EncodeGroup(b[0], 0, 0);
      assert |g[..2] + "=="| == 4;
      g[..2] + "=="
    else if |b| == 2 then
      var g := EncodeGroup(b[0], b[1], 0);
      assert |g[..3] + "="| == 4;
      g[..3] + "="
    else
      var g, t := EncodeGroup(b[0], b[1], b[2]), Encode(b[3..]);
      assert |g + t| == |t| + 4;
      g + t
  }

  /** Splitting three bytes into sextets and reassembling them is lossless. */
  lemma SextetsReassemble(b0: byte, b1: byte, b2: byte)
    ensures Bytes3(b0 / 4, (b0 % 4) * 16 + b1 / 16, (b1 % 16) * 4 + b2 / 64, b2 % 64) == [b0, b1, b2]
  {
    var s1 := (b0 % 4) * 16 + b1 / 16;
    var s2 := (b1 % 16) * 4 + b2 / 64;
    assert s1 / 16 == b0 % 4 && s1 % 16 == b1 / 16;
    assert s2 / 4 == b1 % 16 && s2 % 4 == b2 / 64;
  }

  lemma EncodeGroupDecodes(b0: byte, b1: byte, b2: byte)
    ensures DecodeFull(EncodeGroup(b0, b1, b2)) == Some([b0, b1, b2])
  {
    SextetValueOfChar(b0 / 4);
    SextetValueOfChar((b0 % 4) * 16 + b1 / 16);
    SextetValueOfChar((b1 % 16) * 4 + b2 / 64);
    SextetValueOfChar(b2 % 64);
    SextetsReassemble(b0, b1, b2);
  }

  lemma GroupOfSeqDecodes(h: seq<byte>)
    requires |h| == 3
    ensures DecodeFull(EncodeGroup(h[0], h[1], h[2])) == Some(h)
  {
    EncodeGroupDecodes(h[0], h[1], h[2]);
    assert [h[0], h[1], h[2]] == h;
  }

  lemma EncodeOneDecodes(b0: byte)
    ensures DecodeLast(EncodeGroup(b0, 0, 0)[..2] + "==") == Some([b0])
  {
    var g := EncodeGroup(b0, 0, 0)[..2] + "==";
    SextetValueOfChar(b0 / 4);
    SextetValueOfChar((b0 % 4) * 16);
    SextetsReassemble(b0, 0, 0);
    assert g[0] == SextetChar(b0 / 4) && g[1] == SextetChar((b0 % 4) * 16);
    assert g[3] == '=' && g[2] == '=';
    assert Bytes3(b0 / 4, (b0 % 4) * 16, 0, 0)[..1] == [b0];
  }

  lemma EncodeTwoDecodes(b0: byte, b1: byte)
    ensures DecodeLast(EncodeGroup(b0, b1, 0)[..3] + "=") == Some([b0, b1])
  {
    var g := EncodeGroup(b0, b1, 0)[..3] + "=";
    SextetValueOfChar(b0 / 4);
    SextetValueOfChar((b0 % 4) * 16 + b1 / 16);
    SextetValueOfChar((b1 % 16) * 4);
    SextetsReassemble(b0, b1, 0);
    assert g[0] == SextetChar(b0 / 4) && g[1] == SextetChar((b0 % 4) * 16 + b1 / 16);
    assert g[2] == SextetChar((b1 % 16) * 4);
    assert g[3] == '=' && g[2] != '=';
    assert Bytes3(b0 / 4, (b0 % 4) * 16 + b1 / 16, (b1 % 16) * 4, 0)[..2] == [b0, b1];
  }

  lemma EncodeHasNoNewlines(b: seq<byte>)
    ensures StripNewlines(Encode(b)) == Encode(b)
  {
    var s := Encode(b);
    EncodeCharacters(b);
    NoNewlinesStripIdentity(s);
  }

  lemma {:induction false} NoNewlinesStripIdentity(s: string)
    requires forall i | 0 <= i < |s| :: s[i] != '\r' && s[i] != '\n'
    ensures StripNewlines(s) == s
    decreases |s|
  {
    if s != [] {
      NoNewlinesStripIdentity(s[1..]);
    }
  }

  lemma {:induction false} EncodeCharacters(b: seq<byte>)
    ensures forall i | 0 <= i < |Encode(b)| :: Encode(b)[i] != '\r' && Encode(b)[i] != '\n'
    decreases |b|
  {
    if |b| >= 3 {
      EncodeCharacters(b[3..]);
    }
  }

  lemma DecodeGroupsCons(g: string, rest: string, head: seq<byte>, tail: seq<byte>)
    requires |g| == 4 && |rest| % 4 == 0 && rest != []
    requires DecodeFull(g) == Some(head) && DecodeGroups(rest) == Some(tail)
    ensures DecodeGroups(g + rest) == Some(head + tail)
  {
    var t := g + rest;
    assert t[..4] == g;
    assert t[4..] == rest;
  }

  lemma RoundTripOne(b: seq<byte>)
    requires |b| == 1
    ensures DecodeGroups(Encode(b)) == Some(b)
  {
    var s := EncodeGroup(b[0], 0, 0)[..2] + "==";
    assert Encode(b) == s;
    assert DecodeGroups(s) == DecodeLast(s);
    EncodeOneDecodes(b[0]);
    assert [b[0]] == b;
  }

  lemma RoundTripTwo(b: seq<byte>)
    requires |b| == 2
    ensures DecodeGroups(Encode(b)) == Some(b)
  {
    var s := EncodeGroup(b[0], b[1], 0)[..3] + "=";
    assert Encode(b) == s;
    assert DecodeGroups(s) == DecodeLast(s);
    EncodeTwoDecodes(b[0], b[1]);
    assert [b[0], b[1]] == b;
  }

  lemma RoundTripThree(b: seq<byte>)
    requires |b| == 3
    ensures DecodeGroups(Encode(b)) == Some(b)
  {
    var g := EncodeGroup(b[0], b[1], b[2]);
    assert b[3..] == [];
    assert Encode(b) == g + Encode(b[3..]);
    assert Encode(b) == g;
    assert DecodeGroups(g) == DecodeLast(g);
    assert g[3] != '=';
    EncodeGroupDecodes(b[0], b[1], b[2]);
    assert [b[0], b[1], b[2]] == b;
  }

  lemma RoundTripCons(head: seq<byte>, tail: seq<byte>)
    requires |head| == 3 && tail != []
    requires DecodeGroups(Encode(tail)) == Some(tail)
    ensures DecodeGroups(Encode(head + tail)) == Some(head + tail)
  {
    var b := head + tail;
    assert b[3..] == tail;
    assert b[0] == head[0] && b[1] == head[1] && b[2] == head[2];
    var g := EncodeGroup(head[0], head[1], head[2]);
    var rest := Encode(tail);
    assert Encode(b) == g + rest;
    GroupOfSeqDecodes(head);
    DecodeGroupsCons(g, rest, head, tail);
  }

  /** Decoding what `Encode` produced gives the bytes back. */
  lemma {:induction false} DecodeGroupsEncode(b: seq<byte>)
    ensures DecodeGroups(Encode(b)) == Some(b)
    decreases |b|
  {
    if |b| == 1 {
      RoundTripOne(b);
    } else if |b| == 2 {
      RoundTripTwo(b);
    } else if |b| == 3 {
      RoundTripThree(b);
    } else if |b| > 3 {
      DecodeGroupsEncode(b[3..]);
      RoundTripCons(b[..3], b[3..]);
      assert b[..3] + b[3..] == b;
    }
  }

  lemma DecodeEncode(b: seq<byte>)
    ensures Decode(Encode(b)) == Ok(b)
  {
    EncodeCharacters(b);
    NoNewlinesStripIdentity(Encode(b));
    DecodeGroupsEncode(b);
  }
}

/** The port-binding rewrite shared by every compose-file revision: the
    pattern `"?\d+:(\d+)"?` is searched (unanchored, leftmost-first, as Go's
    `regexp.FindStringSubmatch` does) and a match is replaced by its capture,
    turning `host:container` into `container`. */
module PortBinding {
  import opened Wrappers
  import opened GoStrconv

  /** A `:` with a digit on each side: the colon of a `\d+:\d+` match. */
  predicate BindingColon(p: string, j: nat)
  {
    0 < j && j + 1 < |p| && IsDigit(p[j - 1]) && p[j] == ':' && IsDigit(p[j + 1])
  }

  predicate HasBinding(p: string)
  {
    exists j: nat | j < |p| :: BindingColon(p, j)
  }

  /** The leftmost binding colon at or after `k`. */
  function BindingFrom(p: string, k: nat): (r: Option<nat>)
    ensures r.Some? ==> k <= r.value && BindingColon(p, r.value)
    ensures r.Some? ==> forall j: nat | k <= j < r.value :: !BindingColon(p, j)
    ensures r.None? ==> forall j: nat | k <= j :: !BindingColon(p, j)
    decreases |p| - k
  {
    if k >= |p| then None
    else if BindingColon(p, k) then Some(k)
    else BindingFrom(p, k + 1)
  }

  /** The longest run of digits at the start of `s` (what a greedy `\d+` takes). */
  function MaxDigits(s: string): (r: string)
    ensures r <= s && AllDigits(r)
    ensures |r| < |s| ==> !IsDigit(s[|r|])
  {
    s[..DigitPrefixLength(s)]
  }

  /** The value a port entry takes after the rewrite: the digits after the
      leftmost binding colon, or the entry unchanged when there is none. */
  function PortRewrite(p: string): (r: string)
    ensures !HasBinding(p) ==> r == p
    ensures HasBinding(p) ==> r != [] && AllDigits(r) && r != p
  {
    match BindingFrom(p, 0)
    case None => p
    case Some(j) =>
      var r := MaxDigits(p[j + 1..]);
      assert p[j + 1..][0] == p[j + 1];
      assert p[j] in p && !IsDigit(p[j]);
      r
  }

  // --------------------------------------------- the regular expression itself

  /** `\d+:` followed by a digit, with the digits spanning `i..j` and the
      colon at `j`: the only way `\d+:(\d+)` can match from `i`. */
  predicate RunTo(p: string, i: nat, j: nat)
  {
    i < j && j + 1 < |p| && AllDigits(p[i..j]) && p[j] == ':' && IsDigit(p[j + 1])
  }

  /** The pattern `"?\d+:(\d+)"?` matches starting at `i`, with its colon at `j`. */
  predicate MatchWithColon(p: string, i: nat, j: nat)
  {
    RunTo(p, i, j) || (i < |p| && p[i] == '"' && RunTo(p, i + 1, j))
  }

  predicate MatchStart(p: string, i: nat)
  {
    exists j: nat | j < |p| :: MatchWithColon(p, i, j)
  }

  /** The pattern matches somewhere exactly when the entry has a binding colon. */
  lemma MatchIffBinding(p: string)
    ensures HasBinding(p) <==> exists i: nat :: MatchStart(p, i)
  {
    if HasBinding(p) {
      var j: nat :| j < |p| && BindingColon(p, j);
      assert p[j - 1..j] == [p[j - 1]];
      assert RunTo(p, j - 1, j);
      assert MatchWithColon(p, j - 1, j);
      assert MatchStart(p, j - 1);
    }
    if exists i: nat :: MatchStart(p, i) {
      var i: nat :| MatchStart(p, i);
      var j: nat :| j < |p| && MatchWithColon(p, i, j);
      var s := if RunTo(p, i, j) then i else i + 1;
      assert p[j - 1] == p[s..j][j - 1 - s];
      assert BindingColon(p, j);
    }
  }

  /** For the leftmost match (the one `FindStringSubmatch` reports) the
      capture group, a greedy `\d+` after the colon, is what `PortRewrite`
      returns. */
  lemma RegexCapture(p: string, i: nat, j: nat)
    requires MatchWithColon(p, i, j)
    requires forall k: nat | k < i :: !MatchStart(p, k)
    ensures PortRewrite(p) == MaxDigits(p[j + 1..])
  {
    var s := if RunTo(p, i, j) then i else i + 1;
    assert BindingColon(p, j) by {
      assert RunTo(p, s, j);
      assert p[j - 1] == p[s..j][j - 1 - s];
    }
    NoEarlierColon(p, i, j);
    assert BindingFrom(p, 0) == Some(j);
  }

  /** Before the colon of the leftmost match no colon binds: one would
      start an earlier match or sit inside this match's digits. */
  lemma NoEarlierColon(p: string, i: nat, j: nat)
    requires MatchWithColon(p, i, j)
    requires forall k: nat | k < i :: !MatchStart(p, k)
    ensures forall c: nat | c < j :: !BindingColon(p, c)
  {
    var s := if RunTo(p, i, j) then i else i + 1;
    assert RunTo(p, s, j);
    forall c: nat | c < j
      ensures !BindingColon(p, c)
    {
      if c >= s {
        assert p[c] == p[s..j][c - s];
      } else if c > 0 {
        assert BindingColon(p, c) ==> RunTo(p, c - 1, c) by {
          if BindingColon(p, c) {
            assert p[c - 1..c] == [p[c - 1]];
          }
        }
        assert !MatchStart(p, c - 1);
        assert !MatchWithColon(p, c - 1, c);
      }
    }
  }

  // -------------------------------------------------------------- properties

  /** A rewritten entry holds no further binding. */
  lemma RewriteLeavesNoBinding(p: string)
    ensures !HasBinding(PortRewrite(p))
  {
  }

  /** A second rewrite changes nothing. */
  lemma RewriteIdempotent(p: string)
    ensures PortRewrite(PortRewrite(p)) == PortRewrite(p)
  {
    RewriteLeavesNoBinding(p);
  }
}

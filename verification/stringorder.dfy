/** Go's ordering of strings (`<` compares bytes of the UTF-8 encoding, which
    orders exactly like comparing code points) and sorting of key sets. */
module StringOrder {

  /** `a <= b` on Go strings. */
  predicate LessEq(a: string, b: string)
    decreases |a|
  {
    |a| == 0 || (|b| > 0 && (a[0] < b[0] || (a[0] == b[0] && LessEq(a[1..], b[1..]))))
  }

  predicate Less(a: string, b: string)
  {
    LessEq(a, b) && a != b
  }

  lemma {:induction false} Reflexive(a: string)
    ensures LessEq(a, a)
    decreases |a|
  {
    if |a| > 0 {
      Reflexive(a[1..]);
    }
  }

  lemma {:induction false} Antisymmetric(a: string, b: string)
    requires LessEq(a, b) && LessEq(b, a)
    ensures a == b
    decreases |a|
  {
    if |a| > 0 {
      Antisymmetric(a[1..], b[1..]);
      assert a == [a[0]] + a[1..];
      assert b == [b[0]] + b[1..];
    }
  }

  lemma {:induction false} Transitive(a: string, b: string, c: string)
    requires LessEq(a, b) && LessEq(b, c)
    ensures LessEq(a, c)
    decreases |a|
  {
    if |a| > 0 && a[0] == b[0] && b[0] == c[0] {
      Transitive(a[1..], b[1..], c[1..]);
    }
  }

  lemma {:induction false} Total(a: string, b: string)
    ensures LessEq(a, b) || LessEq(b, a)
    decreases |a|
  {
    if |a| > 0 && |b| > 0 && a[0] == b[0] {
      Total(a[1..], b[1..]);
    }
  }

  lemma AntisymmetricAll()
    ensures forall a, b | LessEq(a, b) && LessEq(b, a) :: a == b
  {
    forall a, b | LessEq(a, b) && LessEq(b, a)
      ensures a == b
    {
      Antisymmetric(a, b);
    }
  }

  /** Strictly ascending, hence free of duplicates. */
  predicate Sorted(s: seq<string>)
  {
    forall i, j | 0 <= i < j < |s| :: Less(s[i], s[j])
  }

  predicate IsMin(m: string, s: set<string>)
  {
    m in s && forall y | y in s :: LessEq(m, y)
  }

  lemma {:induction false} MinExists(s: set<string>)
    requires s != {}
    ensures exists m :: IsMin(m, s)
    decreases |s|
  {
    var x :| x in s;
    if s == {x} {
      Reflexive(x);
      assert IsMin(x, s);
    } else {
      MinExists(s - {x});
      var m :| IsMin(m, s - {x});
      Total(m, x);
      if LessEq(m, x) {
        assert IsMin(m, s);
      } else {
        forall y | y in s
          ensures LessEq(x, y)
        {
          if y == x {
            Reflexive(x);
          } else {
            Transitive(x, m, y);
          }
        }
        assert IsMin(x, s);
      }
    }
  }

  /** The elements of `s` in ascending order. */
  function SortedSeq(s: set<string>): (r: seq<string>)
    ensures Sorted(r)
    ensures |r| == |s|
    ensures forall x :: x in r <==> x in s
    decreases |s|
  {
    if s == {} then []
    else
      MinExists(s);
      AntisymmetricAll();
      var m :| IsMin(m, s);
      var rest := SortedSeq(s - {m});
      assert forall y | y in rest :: Less(m, y);
      [m] + rest
  }

  lemma SameMembersNonEmpty(a: seq<string>, b: seq<string>)
    requires a != [] && forall x :: x in a <==> x in b
    ensures b != []
  {
    assert a[0] in b;
  }

  /** A duplicate-free ascending listing of a set is unique. */
  lemma {:induction false} SortedUnique(a: seq<string>, b: seq<string>)
    requires Sorted(a) && Sorted(b)
    requires forall x :: x in a <==> x in b
    ensures a == b
    decreases |a|
  {
    if a != [] {
      SameMembersNonEmpty(a, b);
    }
    if b != [] {
      SameMembersNonEmpty(b, a);
    }
    if a != [] {
      if a[0] != b[0] {
        assert b[0] in a;
        assert a[0] in b;
        var i :| 0 <= i < |a| && a[i] == b[0];
        var j :| 0 <= j < |b| && b[j] == a[0];
        assert LessEq(a[0], b[0]);
        assert LessEq(b[0], a[0]);
        Antisymmetric(a[0], b[0]);
      }
      assert a == [a[0]] + a[1..];
      assert b == [b[0]] + b[1..];
      forall x
        ensures x in a[1..] <==> x in b[1..]
      {
        if x in a[1..] {
          var i :| 1 <= i < |a| && a[i] == x;
          assert Less(a[0], a[i]);
          assert x in a;
          var j :| 0 <= j < |b| && b[j] == x;
          assert j != 0;
          assert b[1..][j - 1] == x;
        }
        if x in b[1..] {
          var i :| 1 <= i < |b| && b[i] == x;
          assert Less(b[0], b[i]);
          assert x in b;
          var j :| 0 <= j < |a| && a[j] == x;
          assert j != 0;
          assert a[1..][j - 1] == x;
        }
      }
      SortedUnique(a[1..], b[1..]);
    }
  }

  /** Inserts `x` into an ascending sequence that does not hold it. */
  function Insert(s: seq<string>, x: string): (r: seq<string>)
    requires Sorted(s) && x !in s
    ensures Sorted(r)
    ensures |r| == |s| + 1
    ensures forall y :: y in r <==> y in s || y == x
  {
    if s == [] then [x]
    else if LessEq(x, s[0]) then
      assert forall y | y in s :: Less(x, y) by {
        forall y | y in s
          ensures Less(x, y)
        {
          var i :| 0 <= i < |s| && s[i] == y;
          if i > 0 {
            assert Less(s[0], s[i]);
            Transitive(x, s[0], y);
          }
        }
      }
      [x] + s
    else
      Total(x, s[0]);
      var rest := Insert(s[1..], x);
      assert forall y | y in rest :: Less(s[0], y) by {
        forall y | y in rest
          ensures Less(s[0], y)
        {
          if y != x {
            var i :| 1 <= i < |s| && s[i] == y;
          }
        }
      }
      [s[0]] + rest
  }
}

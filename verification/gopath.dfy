/** `path/filepath.Join` and `Clean` for slash-separated paths, as the
    receiver uses them to build compose-file and unpacked-file paths. */
module GoPath {
  import opened GoStrings

  /** A path element that `Clean` keeps verbatim. */
  predicate PlainElement(e: string)
  {
    e != "" && '/' !in e && e != "." && e != ".."
  }

  /** One step of `Clean`'s lexical walk: empty and `.` elements vanish, `..`
      removes the previous real element (or stays, at the front of a relative
      path; or vanishes, at the root of a rooted one). */
  function Step(stack: seq<string>, seg: string, rooted: bool): seq<string>
  {
    if seg == "" || seg == "." then stack
    else if seg == ".." then
      if |stack| > 0 && stack[|stack| - 1] != ".." then stack[..|stack| - 1]
      else if rooted then stack
      else stack + [".."]
    else stack + [seg]
  }

  function Walk(stack: seq<string>, segs: seq<string>, rooted: bool): seq<string>
    decreases |segs|
  {
    if segs == [] then stack else Walk(Step(stack, segs[0], rooted), segs[1..], rooted)
  }

  function Render(stack: seq<string>, rooted: bool): string
  {
    if rooted then "/" + Join(stack, '/')
    else if stack == [] then "."
    else Join(stack, '/')
  }

  /** `filepath.Clean`: the shortest lexically equivalent path; `"."` for an
      empty result. */
  function Clean(p: string): string
  {
    if p == "" then "."
    else
      var rooted := p[0] == '/';
      Render(Walk([], Split(p, '/'), rooted), rooted)
  }

  /** `filepath.Join(elems...)`: leading empty elements are ignored, the rest
      are joined with `/` and cleaned; all-empty gives `""`. */
  function JoinPath(elems: seq<string>): string
  {
    if elems == [] then ""
    else if elems[0] == "" then JoinPath(elems[1..])
    else Clean(Join(elems, '/'))
  }

  /** The final element of a path (the text after its last `/`). */
  function LastElement(p: string): string
  {
    var parts := Split(p, '/');
    parts[|parts| - 1]
  }

  lemma {:induction false} WalkAppend(stack: seq<string>, a: seq<string>, b: seq<string>, rooted: bool)
    ensures Walk(stack, a + b, rooted) == Walk(Walk(stack, a, rooted), b, rooted)
    decreases |a|
  {
    if a != [] {
      assert (a + b)[0] == a[0];
      assert (a + b)[1..] == a[1..] + b;
      WalkAppend(Step(stack, a[0], rooted), a[1..], b, rooted);
    } else {
      assert a + b == b;
    }
  }

  lemma {:induction false} WalkPlain(stack: seq<string>, segs: seq<string>, rooted: bool)
    requires forall i | 0 <= i < |segs| :: PlainElement(segs[i])
    ensures Walk(stack, segs, rooted) == stack + segs
    decreases |segs|
  {
    if segs != [] {
      WalkPlain(stack + [segs[0]], segs[1..], rooted);
      assert stack + [segs[0]] + segs[1..] == stack + segs;
    }
  }

  lemma SplitRooted(segs: seq<string>)
    requires |segs| >= 1
    requires forall i | 0 <= i < |segs| :: '/' !in segs[i]
    ensures Split("/" + Join(segs, '/'), '/') == [""] + segs
  {
    var j := Join(segs, '/');
    assert "/" + j == "" + ['/'] + j;
    SplitFirst("", j, '/');
    SplitJoin(segs, '/');
  }

  /** A rooted path made only of plain elements is already clean. */
  lemma CleanRootedPlain(segs: seq<string>)
    requires |segs| >= 1
    requires forall i | 0 <= i < |segs| :: PlainElement(segs[i])
    ensures Clean("/" + Join(segs, '/')) == "/" + Join(segs, '/')
  {
    var p := "/" + Join(segs, '/');
    SplitRooted(segs);
    WalkRootedPlain(segs);
    assert p[0] == '/';
  }

  lemma WalkRootedPlain(segs: seq<string>)
    requires forall i | 0 <= i < |segs| :: PlainElement(segs[i])
    ensures Walk([], [""] + segs, true) == segs
  {
    ConsParts("", segs);
    WalkPlain([], segs, true);
  }

  /** `filepath.Join` of a rooted path of plain elements and further plain
      elements is their rooted join, unchanged by cleaning. */
  lemma JoinPathRootedPlain(dirs: seq<string>, rest: seq<string>)
    requires |dirs| >= 1 && |rest| >= 1
    requires forall i | 0 <= i < |dirs| :: PlainElement(dirs[i])
    requires forall e | e in rest :: PlainElement(e)
    ensures JoinPath(["/" + Join(dirs, '/')] + rest) == "/" + Join(dirs + rest, '/')
  {
    var e := ["/" + Join(dirs, '/')] + rest;
    assert e[0] != "";
    assert JoinPath(e) == Clean(Join(e, '/'));
    assert Join(e, '/') == "/" + Join(dirs + rest, '/') by {
      JoinLed(dirs, rest, '/');
    }
    var segs := dirs + rest;
    assert forall i | 0 <= i < |segs| :: PlainElement(segs[i]) by {
      forall i | 0 <= i < |segs|
        ensures PlainElement(segs[i])
      {
        if i < |dirs| {
          assert segs[i] == dirs[i];
        } else {
          assert segs[i] == rest[i - |dirs|] && rest[i - |dirs|] in rest;
        }
      }
    }
    CleanRootedPlain(segs);
  }

  /** The same, for three further elements. */
  lemma JoinPathRootedThree(dirs: seq<string>, a: string, b: string, c: string)
    requires |dirs| >= 1 && forall i | 0 <= i < |dirs| :: PlainElement(dirs[i])
    requires PlainElement(a) && PlainElement(b) && PlainElement(c)
    ensures JoinPath(["/" + Join(dirs, '/')] + [a, b, c]) == "/" + Join(dirs + [a, b, c], '/')
  {
    PlainThree(a, b, c);
    JoinPathRootedPlain(dirs, [a, b, c]);
  }

  lemma PlainThree(a: string, b: string, c: string)
    requires PlainElement(a) && PlainElement(b) && PlainElement(c)
    ensures forall e | e in [a, b, c] :: PlainElement(e)
  {
  }

  lemma LastElementAfterSlash(pre: string, x: string)
    requires '/' !in x
    ensures LastElement(pre + "/" + x) == x
  {
    SplitAppendPiece(pre, x, '/');
  }

  lemma LastElementPlain(x: string)
    requires '/' !in x
    ensures LastElement(x) == x
  {
  }

  /** The rendering of a walk ending in a plain element ends in that element. */
  lemma RenderLast(stack: seq<string>, x: string, rooted: bool)
    requires PlainElement(x)
    ensures LastElement(Render(stack + [x], rooted)) == x
  {
    if stack == [] {
      assert Join([x], '/') == x;
      if rooted {
        LastElementAfterSlash("", x);
        assert "/" + x == "" + "/" + x;
      }
    } else {
      JoinAppend(stack, x, '/');
      if rooted {
        assert "/" + Join(stack + [x], '/') == ("/" + Join(stack, '/')) + "/" + x;
        LastElementAfterSlash("/" + Join(stack, '/'), x);
      } else {
        LastElementAfterSlash(Join(stack, '/'), x);
      }
    }
  }

  /** `filepath.Join` keeps a plain final element as the file name, whatever
      the directories before it are. */
  lemma {:induction false} JoinPathLast(elems: seq<string>, x: string)
    requires PlainElement(x)
    ensures LastElement(JoinPath(elems + [x])) == x
    decreases |elems|
  {
    if elems == [] {
      assert Join([x], '/') == x;
      assert x[0] != '/' by { assert x[0] in x; }
      assert Walk([], [x], false) == [x];
      assert JoinPath([x]) == Render([x], false);
      RenderLast([], x, false);
    } else if elems[0] == "" {
      assert (elems + [x])[1..] == elems[1..] + [x];
      JoinPathLast(elems[1..], x);
    } else {
      var j := Join(elems, '/');
      var q := Join(elems + [x], '/');
      JoinAppend(elems, x, '/');
      assert q == j + "/" + x;
      assert j != "" && j[0] == elems[0][0] by {
        if |elems| > 1 {
          assert j == elems[0] + ['/'] + Join(elems[1..], '/');
        }
      }
      var rooted := q[0] == '/';
      SplitAppendPiece(j, x, '/');
      var w := Walk([], Split(j, '/'), rooted);
      WalkAppend([], Split(j, '/'), [x], rooted);
      assert Walk(w, [x], rooted) == w + [x];
      RenderLast(w, x, rooted);
    }
  }

  /** Different plain file names under the same directories give different
      paths. */
  lemma JoinPathDistinct(elems: seq<string>, x: string, y: string)
    requires PlainElement(x) && PlainElement(y) && x != y
    ensures JoinPath(elems + [x]) != JoinPath(elems + [y])
  {
    JoinPathLast(elems, x);
    JoinPathLast(elems, y);
  }
}

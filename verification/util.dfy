/** `SortKeys` and `RemoveUnpackedFiles` of `receiver/util/util.go`. The
    map's iteration order and the directory on disk are inputs: the first a
    listing of the keys in whatever order the runtime visits them, the
    second a value naming the entries and the ones that cannot be removed. */
module Util {
  import opened Wrappers
  import opened StringOrder
  import opened GoPath

  // --------------------------------------------------------------- SortKeys

  /** `visit` lists the keys of `kv` once each. */
  predicate VisitOrder(kv: map<string, string>, visit: seq<string>)
  {
    (forall k | k in visit :: k in kv)
    && (forall k | k in kv :: k in visit)
    && (forall i, j | 0 <= i < j < |visit| :: visit[i] != visit[j])
  }

  /** `SortKeys`: the keys, collected in visiting order, then sorted. The
      result is ascending, holds every key once, and does not depend on the
      order of the visit. */
  method SortKeys(kv: map<string, string>, visit: seq<string>) returns (keys: seq<string>)
    requires VisitOrder(kv, visit)
    ensures Sorted(keys)
    ensures |keys| == |kv|
    ensures forall k :: k in keys <==> k in kv
    ensures keys == SortedSeq(kv.Keys)
    ensures kv == map[] ==> keys == []
  {
    keys := [];
    var i := 0;
    while i < |visit|
      invariant 0 <= i <= |visit|
      invariant Sorted(keys)
      invariant forall k :: k in keys <==> k in visit[..i]
    {
      assert visit[i] !in visit[..i];
      keys := Insert(keys, visit[i]);
      assert visit[..i + 1] == visit[..i] + [visit[i]];
      i := i + 1;
    }
    assert visit[..i] == visit;
    SortedUnique(keys, SortedSeq(kv.Keys));
  }

  // ---------------------------------------------------- RemoveUnpackedFiles

  /** The unpacked repository directory: whether it can be listed, the names
      of its top-level entries in listing order, the paths whose removal
      fails, and the error text of any failure. */
  datatype Directory = Directory(readable: bool, names: seq<string>, unremovable: set<string>, cause: string)

  function EntryPath(repositoryPath: string, name: string): string
  {
    JoinPath([repositoryPath, name])
  }

  /** The path of every entry, in listing order. */
  function EntryPaths(repositoryPath: string, names: seq<string>): (r: seq<string>)
    ensures |r| == |names| && forall i | 0 <= i < |names| :: r[i] == EntryPath(repositoryPath, names[i])
  {
    seq(|names|, i requires 0 <= i < |names| => EntryPath(repositoryPath, names[i]))
  }

  /** The position of the first entry the clean-up would remove (its path
      is not `keep`) but cannot. */
  function FirstStuck(paths: seq<string>, keep: string, unremovable: set<string>): (r: Option<nat>)
    ensures r.None? <==> forall i | 0 <= i < |paths| :: paths[i] == keep || paths[i] !in unremovable
    ensures r.Some? ==> r.value < |paths| && paths[r.value] != keep && paths[r.value] in unremovable
    ensures r.Some? ==> forall j | 0 <= j < r.value :: paths[j] == keep || paths[j] !in unremovable
    decreases |paths|
  {
    if paths == [] then None
    else if paths[0] != keep && paths[0] in unremovable then Some(0)
    else match FirstStuck(paths[1..], keep, unremovable)
      case None => None
      case Some(i) => Some(i + 1)
  }

  /** The entries among `names` whose path is `keep`. */
  function KeptOnly(names: seq<string>, paths: seq<string>, keep: string): (r: seq<string>)
    requires |paths| == |names|
    ensures forall n :: n in r <==> exists i | 0 <= i < |names| :: names[i] == n && paths[i] == keep
    decreases |names|
  {
    if names == [] then []
    else
      var rest := KeptOnly(names[1..], paths[1..], keep);
      assert forall i | 1 <= i < |names| :: names[i] == names[1..][i - 1] && paths[i] == paths[1..][i - 1];
      if paths[0] == keep then [names[0]] + rest else rest
  }

  /** The loop over the entries: the names still present afterwards and the
      outcome. */
  function RemoveEntries(names: seq<string>, paths: seq<string>, keep: string, unremovable: set<string>, cause: string)
    : (r: (seq<string>, Outcome))
    requires |paths| == |names|
    ensures FirstStuck(paths, keep, unremovable).None? ==> r == (KeptOnly(names, paths, keep), Pass)
    ensures FirstStuck(paths, keep, unremovable).Some? ==>
      var i := FirstStuck(paths, keep, unremovable).value;
      r == (KeptOnly(names[..i], paths[..i], keep) + names[i..],
            Fail(Wrap("Failed to remove files in " + paths[i] + ".", cause)))
    decreases |names|
  {
    if names == [] then ([], Pass)
    else if paths[0] != keep && paths[0] in unremovable then
      assert names[..0] == [] && paths[..0] == [] && names[0..] == names;
      assert FirstStuck(paths, keep, unremovable) == Some(0) && KeptOnly([], [], keep) == [];
      assert KeptOnly(names[..0], paths[..0], keep) + names[0..] == names;
      (names, Fail(Wrap("Failed to remove files in " + paths[0] + ".", cause)))
    else
      var (rest, out) := RemoveEntries(names[1..], paths[1..], keep, unremovable, cause);
      var stuck := FirstStuck(paths, keep, unremovable);
      var r := if paths[0] == keep then ([names[0]] + rest, out) else (rest, out);
      if stuck.Some? then
        assert FirstStuck(paths[1..], keep, unremovable) == Some(stuck.value - 1);
        assert paths[1..][stuck.value - 1] == paths[stuck.value];
        RemoveStep(names, paths, keep, stuck.value);
        r
      else r
  }

  /** Past a first entry that is kept or removed, the names left in front of
      the stuck entry `i` are those left in front of it in the rest. */
  lemma RemoveStep(names: seq<string>, paths: seq<string>, keep: string, i: nat)
    requires |paths| == |names| && 0 < i < |names|
    ensures var left := KeptOnly(names[..i], paths[..i], keep) + names[i..];
      var rest := KeptOnly(names[1..][..i - 1], paths[1..][..i - 1], keep) + names[1..][i - 1..];
      left == if paths[0] == keep then [names[0]] + rest else rest
  {
    assert names[..i][1..] == names[1..][..i - 1] && paths[..i][1..] == paths[1..][..i - 1];
    assert names[1..][i - 1..] == names[i..];
    var k := KeptOnly(names[1..][..i - 1], paths[1..][..i - 1], keep);
    if paths[0] == keep {
      assert KeptOnly(names[..i], paths[..i], keep) == [names[0]] + k;
      GoStrings.ConcatAssoc([names[0]], k, names[i..]);
    } else {
      assert KeptOnly(names[..i], paths[..i], keep) == k;
    }
  }

  /** `RemoveUnpackedFiles`: every top-level entry except the new compose
      file is removed, in listing order, the first failed removal ending the
      clean-up; a directory that cannot be listed is an error. */
  function RemoveUnpackedFiles(d: Directory, repositoryPath: string, newComposeFilePath: string): (r: (Directory, Outcome))
    ensures !d.readable ==> r == (d, Fail(Wrap("Failed to open " + repositoryPath + ".", d.cause)))
    ensures r.0 == d.(names := r.0.names)
    ensures r.1.Pass? <==> d.readable && FirstStuck(EntryPaths(repositoryPath, d.names), newComposeFilePath, d.unremovable).None?
    ensures r.1.Pass? ==>
      forall n :: n in r.0.names <==> n in d.names && EntryPath(repositoryPath, n) == newComposeFilePath
    ensures d.readable && r.1.Fail? ==>
      var i := FirstStuck(EntryPaths(repositoryPath, d.names), newComposeFilePath, d.unremovable).value;
      r.1.msg == Wrap("Failed to remove files in " + EntryPath(repositoryPath, d.names[i]) + ".", d.cause)
      && (forall j | 0 <= j < i :: d.names[j] in r.0.names <== EntryPath(repositoryPath, d.names[j]) == newComposeFilePath)
      && forall j | i <= j < |d.names| :: d.names[j] in r.0.names
  {
    if !d.readable then (d, Fail(Wrap("Failed to open " + repositoryPath + ".", d.cause)))
    else
      var paths := EntryPaths(repositoryPath, d.names);
      var (rest, out) := RemoveEntries(d.names, paths, newComposeFilePath, d.unremovable, d.cause);
      if out.Fail? then
        AfterStuck(d.names, paths, newComposeFilePath, d.unremovable);
        (d.(names := rest), out)
      else
        (d.(names := rest), out)
  }

  lemma AfterStuck(names: seq<string>, paths: seq<string>, keep: string, unremovable: set<string>)
    requires |paths| == |names| && FirstStuck(paths, keep, unremovable).Some?
    ensures var i := FirstStuck(paths, keep, unremovable).value;
      var rest := KeptOnly(names[..i], paths[..i], keep) + names[i..];
      (forall j | 0 <= j < i && paths[j] == keep :: names[j] in rest)
      && forall j | i <= j < |names| :: names[j] in rest
  {
    var i := FirstStuck(paths, keep, unremovable).value;
    var rest := KeptOnly(names[..i], paths[..i], keep) + names[i..];
    forall j | 0 <= j < i && paths[j] == keep
      ensures names[j] in rest
    {
      assert names[..i][j] == names[j] && paths[..i][j] == keep;
    }
    forall j | i <= j < |names|
      ensures names[j] in rest
    {
      assert names[j] == names[i..][j - i];
    }
  }

  /** With distinct, plain entry names, at most one entry survives a
      successful clean-up. */
  lemma {:induction false} AtMostOneSurvivor(d: Directory, repositoryPath: string, newComposeFilePath: string)
    requires forall n | n in d.names :: PlainElement(n)
    requires RemoveUnpackedFiles(d, repositoryPath, newComposeFilePath).1.Pass?
    ensures forall a, b | a in RemoveUnpackedFiles(d, repositoryPath, newComposeFilePath).0.names
                       && b in RemoveUnpackedFiles(d, repositoryPath, newComposeFilePath).0.names :: a == b
  {
    var left := RemoveUnpackedFiles(d, repositoryPath, newComposeFilePath).0.names;
    forall a, b | a in left && b in left
      ensures a == b
    {
      if a != b {
        assert [repositoryPath] + [a] == [repositoryPath, a];
        assert [repositoryPath] + [b] == [repositoryPath, b];
        JoinPathDistinct([repositoryPath], a, b);
      }
    }
  }

  /** Cleaning up a cleaned-up directory succeeds and removes nothing more. */
  lemma RemoveAgain(d: Directory, repositoryPath: string, newComposeFilePath: string)
    requires RemoveUnpackedFiles(d, repositoryPath, newComposeFilePath).1.Pass?
    ensures var d' := RemoveUnpackedFiles(d, repositoryPath, newComposeFilePath).0;
      RemoveUnpackedFiles(d', repositoryPath, newComposeFilePath).1.Pass?
      && forall n :: n in RemoveUnpackedFiles(d', repositoryPath, newComposeFilePath).0.names <==> n in d'.names
  {
    var d' := RemoveUnpackedFiles(d, repositoryPath, newComposeFilePath).0;
    var paths := EntryPaths(repositoryPath, d'.names);
    assert forall i | 0 <= i < |paths| :: paths[i] == newComposeFilePath by {
      forall i | 0 <= i < |paths|
        ensures paths[i] == newComposeFilePath
      {
        assert d'.names[i] in d'.names;
      }
    }
  }
}

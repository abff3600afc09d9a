/** `K=V` entries as the receiver reads and writes them: environment and
    build-argument lists of compose files, and the lines of the config file.
    Every reader splits an entry with `strings.Split(e, "=")`, takes the
    first piece as the key and re-joins the rest with `=` as the value, and
    writes the pairs into a map in order, so a later entry with the same key
    wins. */
module KeyValueText {
  import opened GoStrings
  import opened StringOrder

  /** The key of an entry: the text before its first `=`, or all of it. */
  function EntryKey(e: string): string
  {
    SplitN2(e, '=')[0]
  }

  /** The value of an entry: the text after its first `=`, later `=` kept;
      empty when there is no `=`. */
  function EntryValue(e: string): string
  {
    if '=' in e then SplitN2(e, '=')[1] else ""
  }

  /** The readers' idiom `parts := strings.Split(e, "=")`, key `parts[0]`,
      value `strings.Join(parts[1:], "=")` gives exactly this key and value. */
  lemma EntrySplitsAtFirst(e: string)
    ensures EntryKey(e) == Split(e, '=')[0]
    ensures EntryValue(e) == Join(Split(e, '=')[1..], '=')
  {
    if '=' in e {
      SplitHeadTail(e, '=');
    } else {
      SplitWhole(e, '=');
    }
  }

  /** An entry splits at its first `=` into key and value. */
  lemma EntryHalves(e: string)
    ensures '=' !in EntryKey(e)
    ensures '=' in e ==> e == EntryKey(e) + "=" + EntryValue(e)
    ensures '=' !in e ==> EntryKey(e) == e && EntryValue(e) == ""
  {
  }

  /** A key without `=` and any value come back from the entry they form. */
  lemma EntryOf(k: string, v: string)
    requires '=' !in k
    ensures EntryKey(k + "=" + v) == k && EntryValue(k + "=" + v) == v
  {
    assert k + "=" + v == k + ['='] + v;
    FirstSplitUnique(k, v, '=');
  }

  // ------------------------------------------------------------ reading

  /** An entry read as a key and a value. */
  datatype KeyValue = KeyValue(key: string, value: string)

  function Parse(e: string): (kv: KeyValue)
    ensures '=' !in kv.key
  {
    EntryHalves(e);
    KeyValue(EntryKey(e), EntryValue(e))
  }

  /** Whether an entry takes part: one without `=` counts only when `bare`
      is set, and then as its own key with an empty value. */
  predicate Counts(e: string, bare: bool)
  {
    bare || '=' in e
  }

  /** The entries that count, in order. */
  function Kept(entries: seq<string>, bare: bool): (r: seq<string>)
    ensures |r| <= |entries|
    decreases |entries|
  {
    if entries == [] then []
    else
      var e := entries[|entries| - 1];
      Kept(entries[..|entries| - 1], bare) + (if Counts(e, bare) then [e] else [])
  }

  /** The counted entries, in order, as keys and values. */
  function Counted(entries: seq<string>, bare: bool): (r: seq<KeyValue>)
    ensures |r| == |Kept(entries, bare)|
    ensures forall i | 0 <= i < |r| :: '=' !in r[i].key
  {
    var kept := Kept(entries, bare);
    seq(|kept|, i requires 0 <= i < |kept| => Parse(kept[i]))
  }

  /** Counting one more entry appends its pair, if it counts. */
  lemma CountedAppend(init: seq<string>, e: string, bare: bool)
    ensures Counted(init + [e], bare) == Counted(init, bare) + (if Counts(e, bare) then [Parse(e)] else [])
  {
    assert (init + [e])[..|init|] == init;
  }

  /** No later pair has the key of pair `i`. */
  predicate LastFor(kvs: seq<KeyValue>, i: nat)
    requires i < |kvs|
  {
    forall j | i < j < |kvs| :: kvs[j].key != kvs[i].key
  }

  function KeysOf(kvs: seq<KeyValue>): set<string>
  {
    set i | 0 <= i < |kvs| :: kvs[i].key
  }

  /** `m` holds exactly the keys of the pairs, each with the value of the
      last pair carrying it. */
  predicate Describes(m: map<string, string>, kvs: seq<KeyValue>)
  {
    m.Keys == KeysOf(kvs)
    && forall i | 0 <= i < |kvs| && LastFor(kvs, i) :: kvs[i].key in m && m[kvs[i].key] == kvs[i].value
  }

  lemma KeysOfAppend(init: seq<KeyValue>, kv: KeyValue)
    ensures KeysOf(init + [kv]) == KeysOf(init) + {kv.key}
  {
    var kvs := init + [kv];
    forall x | x in KeysOf(kvs)
      ensures x in KeysOf(init) + {kv.key}
    {
      var i :| 0 <= i < |kvs| && kvs[i].key == x;
      if i < |init| {
        assert init[i] == kvs[i];
      }
    }
    forall x | x in KeysOf(init) + {kv.key}
      ensures x in KeysOf(kvs)
    {
      if x == kv.key {
        assert kvs[|init|] == kv;
      } else {
        var i :| 0 <= i < |init| && init[i].key == x;
        assert kvs[i] == init[i];
      }
    }
  }

  /** One more pair written into the map keeps the map's promise. */
  lemma AssignStep(init: seq<KeyValue>, kv: KeyValue, m: map<string, string>)
    requires Describes(m, init)
    ensures Describes(m[kv.key := kv.value], init + [kv])
  {
    var kvs := init + [kv];
    var r := m[kv.key := kv.value];
    KeysOfAppend(init, kv);
    forall i | 0 <= i < |kvs| && LastFor(kvs, i)
      ensures kvs[i].key in r && r[kvs[i].key] == kvs[i].value
    {
      if i < |init| {
        assert kvs[i] == init[i];
        assert kvs[|init|] == kv;
        assert LastFor(init, i) by {
          forall j | i < j < |init|
            ensures init[j].key != init[i].key
          {
            assert kvs[j] == init[j];
          }
        }
      }
    }
  }

  /** The reading loop: each counted entry in turn written into the map. */
  function Assignments(entries: seq<string>, bare: bool): (m: map<string, string>)
    ensures Describes(m, Counted(entries, bare))
    ensures forall k | k in m :: '=' !in k
    decreases |entries|
  {
    if entries == [] then map[]
    else
      var init, e := entries[..|entries| - 1], entries[|entries| - 1];
      var m := Assignments(init, bare);
      InitLast(entries);
      CountedAppend(init, e, bare);
      if Counts(e, bare) then
        AssignStep(Counted(init, bare), Parse(e), m);
        m[Parse(e).key := Parse(e).value]
      else
        assert Counted(init, bare) + [] == Counted(init, bare);
        m
  }

  /** The position of the last pair with key `k`. */
  function LastIndex(kvs: seq<KeyValue>, k: string): (i: nat)
    requires k in KeysOf(kvs)
    ensures i < |kvs| && kvs[i].key == k && LastFor(kvs, i)
    decreases |kvs|
  {
    var n := |kvs| - 1;
    if kvs[n].key == k then n
    else
      var init := kvs[..n];
      assert k in KeysOf(init) by {
        var j :| 0 <= j < |kvs| && kvs[j].key == k;
        assert j < n && init[j] == kvs[j];
      }
      var i := LastIndex(init, k);
      assert kvs[i] == init[i];
      assert forall j | i < j < n :: kvs[j] == init[j];
      i
  }

  /** The map a description fixes is unique. */
  lemma DescribesUnique(m1: map<string, string>, m2: map<string, string>, kvs: seq<KeyValue>)
    requires Describes(m1, kvs) && Describes(m2, kvs)
    ensures m1 == m2
  {
    forall k | k in m1
      ensures m2[k] == m1[k]
    {
      var i := LastIndex(kvs, k);
    }
  }

  /** When every entry counts, all are kept. */
  lemma {:induction false} KeptAll(entries: seq<string>, bare: bool)
    requires forall i | 0 <= i < |entries| :: Counts(entries[i], bare)
    ensures Kept(entries, bare) == entries
    decreases |entries|
  {
    if entries != [] {
      var init := entries[..|entries| - 1];
      KeptAll(init, bare);
      InitLast(entries);
    }
  }

  /** The entries kept are exactly those that count. */
  lemma {:induction false} KeptMembers(entries: seq<string>, bare: bool)
    ensures forall e :: e in Kept(entries, bare) <==> e in entries && Counts(e, bare)
    decreases |entries|
  {
    if entries != [] {
      var init := entries[..|entries| - 1];
      KeptMembers(init, bare);
      InitLast(entries);
    }
  }

  /** The keys of the entries that count. */
  function KeysIn(entries: seq<string>, bare: bool): set<string>
  {
    set e | e in entries && Counts(e, bare) :: EntryKey(e)
  }

  /** The keys read are the keys of the entries that count: with `bare`
      unset, an entry without `=` contributes nothing. */
  lemma AssignedKeys(entries: seq<string>, bare: bool)
    ensures Assignments(entries, bare).Keys == KeysIn(entries, bare)
  {
    var kept := Kept(entries, bare);
    var kvs := Counted(entries, bare);
    KeptMembers(entries, bare);
    forall k | k in KeysOf(kvs)
      ensures k in set e | e in entries && Counts(e, bare) :: EntryKey(e)
    {
      var i :| 0 <= i < |kvs| && kvs[i].key == k;
      assert kept[i] in kept;
    }
    forall e | e in entries && Counts(e, bare)
      ensures EntryKey(e) in KeysOf(kvs)
    {
      var i :| 0 <= i < |kept| && kept[i] == e;
      assert kvs[i].key == EntryKey(e);
    }
  }

  // ------------------------------------------------------------ writing

  /** A map written out as `K=V` entries, one per key. Go ranges over the
      map in no fixed order; here the keys come in ascending order. */
  function Entries(m: map<string, string>): (r: seq<string>)
    ensures |r| == |m|
  {
    var keys := SortedSeq(m.Keys);
    seq(|keys|, i requires 0 <= i < |keys| => keys[i] + "=" + m[keys[i]])
  }

  /** Every entry written for a map whose keys hold no `=` holds `=`, and
      parses back to the key in its position and that key's value. */
  lemma EntriesParse(m: map<string, string>)
    requires forall k | k in m :: '=' !in k
    ensures var keys := SortedSeq(m.Keys);
      |Entries(m)| == |keys|
      && forall i | 0 <= i < |keys| :: '=' in Entries(m)[i] && Parse(Entries(m)[i]) == KeyValue(keys[i], m[keys[i]])
  {
    var keys := SortedSeq(m.Keys);
    var r := Entries(m);
    forall i | 0 <= i < |r|
      ensures '=' in r[i] && Parse(r[i]) == KeyValue(keys[i], m[keys[i]])
    {
      EntryOf(keys[i], m[keys[i]]);
      assert r[i][|keys[i]|] == '=';
    }
  }

  /** The pairs of a list of keys, each with its value in `m`, describe
      `m` when the list covers its keys. */
  lemma DescribesListed(m: map<string, string>, keys: seq<string>, kvs: seq<KeyValue>)
    requires forall k :: k in keys <==> k in m
    requires |kvs| == |keys|
    requires forall i | 0 <= i < |keys| :: keys[i] in m && kvs[i] == KeyValue(keys[i], m[keys[i]])
    ensures Describes(m, kvs)
  {
    forall k | k in m
      ensures k in KeysOf(kvs)
    {
      var i :| 0 <= i < |keys| && keys[i] == k;
      assert kvs[i].key == k;
    }
  }

  /** The pairs read from the entries written for a map whose keys hold no
      `=`: its keys in order, each with its value. */
  lemma CountedEntries(m: map<string, string>, bare: bool)
    requires forall k | k in m :: '=' !in k
    ensures var keys, kvs := SortedSeq(m.Keys), Counted(Entries(m), bare);
      |kvs| == |keys| && forall i | 0 <= i < |keys| :: keys[i] in m && kvs[i] == KeyValue(keys[i], m[keys[i]])
  {
    var r := Entries(m);
    var keys, kvs := SortedSeq(m.Keys), Counted(r, bare);
    EntriesParse(m);
    KeptAll(r, bare);
    CountedKept(r, bare);
    forall i | 0 <= i < |keys|
      ensures keys[i] in m && kvs[i] == KeyValue(keys[i], m[keys[i]])
    {
      assert kvs[i] == Parse(r[i]);
    }
  }

  /** When all entries are kept, each pair is its entry parsed. */
  lemma CountedKept(entries: seq<string>, bare: bool)
    requires Kept(entries, bare) == entries
    ensures |Counted(entries, bare)| == |entries|
    ensures forall i | 0 <= i < |entries| :: Counted(entries, bare)[i] == Parse(entries[i])
  {
  }

  /** Reading back the entries written for a map gives the map, whether or
      not bare entries count, as long as no key holds `=`. */
  lemma EntriesRoundTrip(m: map<string, string>, bare: bool)
    requires forall k | k in m :: '=' !in k
    ensures Assignments(Entries(m), bare) == m
  {
    CountedEntries(m, bare);
    DescribesListed(m, SortedSeq(m.Keys), Counted(Entries(m), bare));
    DescribesUnique(Assignments(Entries(m), bare), m, Counted(Entries(m), bare));
  }

  /** The entries written for a map whose keys hold no `=` carry one key
      each. */
  lemma EntriesDistinct(m: map<string, string>)
    requires forall k | k in m :: '=' !in k
    ensures forall i, j | 0 <= i < j < |Entries(m)| :: EntryKey(Entries(m)[i]) != EntryKey(Entries(m)[j])
  {
    EntriesParse(m);
  }

  /** Every entry written holds `=`, whatever the keys. */
  lemma EntriesHaveEquals(m: map<string, string>)
    ensures forall i | 0 <= i < |Entries(m)| :: '=' in Entries(m)[i]
  {
    var keys := SortedSeq(m.Keys);
    forall i | 0 <= i < |keys|
      ensures '=' in Entries(m)[i]
    {
      assert Entries(m)[i][|keys[i]|] == '=';
    }
  }

  /** Every key of the map is written, with its value. */
  lemma EntriesHold(m: map<string, string>, k: string)
    requires k in m
    ensures k + "=" + m[k] in Entries(m)
  {
    var keys := SortedSeq(m.Keys);
    var i :| 0 <= i < |keys| && keys[i] == k;
    assert Entries(m)[i] == k + "=" + m[k];
  }

  // ------------------------------------------------------------ merging

  /** The receivers' merge: the entries read into a map, the injected pairs
      written over it, the result written back one entry per key. */
  function Inject(entries: seq<string>, bare: bool, injected: map<string, string>): (r: seq<string>)
    ensures |r| == |Assignments(entries, bare) + injected|
  {
    Entries(Assignments(entries, bare) + injected)
  }

  /** Reading the merged entries back gives the entries' map with the
      injected pairs written over it: injected keys win, every other key
      keeps the value of its last entry. */
  lemma InjectReadBack(entries: seq<string>, bare: bool, injected: map<string, string>, reread: bool)
    requires forall k | k in injected :: '=' !in k
    ensures Assignments(Inject(entries, bare, injected), reread) == Assignments(entries, bare) + injected
    ensures forall i, j | 0 <= i < j < |Inject(entries, bare, injected)| ::
      EntryKey(Inject(entries, bare, injected)[i]) != EntryKey(Inject(entries, bare, injected)[j])
  {
    var m := Assignments(entries, bare) + injected;
    EntriesRoundTrip(m, reread);
    EntriesDistinct(m);
  }

  /** The keys written by the merge, read back either way, are the keys
      read plus the injected ones. */
  lemma InjectKeys(entries: seq<string>, bare: bool, injected: map<string, string>, reread: bool)
    requires forall k | k in injected :: '=' !in k
    ensures KeysIn(Inject(entries, bare, injected), reread) == KeysIn(entries, bare) + injected.Keys
  {
    var m := Assignments(entries, bare) + injected;
    EntriesRoundTrip(m, reread);
    AssignedKeys(Entries(m), reread);
    AssignedKeys(entries, bare);
  }

  /** A bare entry `k` that no later entry with key `k` follows reads as
      `k` with an empty value. */
  lemma BareEntryReads(entries: seq<string>, i: nat)
    requires i < |entries| && '=' !in entries[i]
    requires forall j | i < j < |entries| :: EntryKey(entries[j]) != entries[i]
    ensures entries[i] in Assignments(entries, true) && Assignments(entries, true)[entries[i]] == ""
  {
    KeptAll(entries, true);
    CountedKept(entries, true);
    var kvs := Counted(entries, true);
    assert kvs[i] == KeyValue(entries[i], "");
    assert LastFor(kvs, i);
  }

  /** A bare entry `k` that no later entry with key `k` follows, and that
      is not injected, is written back as `k=`. */
  lemma BareEntryWritten(entries: seq<string>, i: nat, injected: map<string, string>)
    requires i < |entries| && '=' !in entries[i]
    requires forall j | i < j < |entries| :: EntryKey(entries[j]) != entries[i]
    requires entries[i] !in injected
    ensures entries[i] + "=" in Inject(entries, true, injected)
  {
    var k := entries[i];
    BareEntryReads(entries, i);
    var m := Assignments(entries, true) + injected;
    InjectHolds(entries, true, injected, k);
    assert m[k] == "";
    assert k + "=" + m[k] == k + "=";
  }

  /** Every key of the merged map is written, with its merged value. */
  lemma InjectHolds(entries: seq<string>, bare: bool, injected: map<string, string>, k: string)
    requires k in Assignments(entries, bare) + injected
    ensures k + "=" + (Assignments(entries, bare) + injected)[k] in Inject(entries, bare, injected)
  {
    EntriesHold(Assignments(entries, bare) + injected, k);
  }
}

/** The etcd key/value store the receiver writes to, as a value. Every
    operation on a key in `failing` fails with the client's error text
    `cause`; that set is the oracle standing in for network and server
    errors. Directory listings are given, not derived from the keys. */
module KeyValueStore {
  import opened Wrappers

  datatype Store = Store(
    values: map<string, string>,
    dirs: set<string>,
    listings: map<string, seq<string>>,
    failing: set<string>,
    cause: string)

  /** `HasKey`: a `Get` that succeeds, on a value or on a directory. */
  predicate HasKey(st: Store, key: string)
  {
    key !in st.failing && (key in st.values || key in st.dirs)
  }

  /** `Get` of `receiver/store/etcd.go`: a directory reads as `""`. */
  function Get(st: Store, key: string): (r: Result<string>)
    ensures r.Ok? <==> HasKey(st, key)
    ensures r.Ok? && key in st.values ==> r.value == st.values[key]
    ensures r.Err? ==> r.msg == Wrap("Failed to get etcd value. key: " + key, st.cause)
  {
    if !HasKey(st, key) then Err(Wrap("Failed to get etcd value. key: " + key, st.cause))
    else if key in st.values then Ok(st.values[key])
    else Ok("")
  }

  /** `List(key, false)`: the keys directly under `key`. */
  function List(st: Store, key: string): (r: Result<seq<string>>)
    ensures r.Ok? <==> key !in st.failing && key in st.listings
    ensures r.Ok? ==> r.value == st.listings[key]
    ensures r.Err? ==> r.msg == Wrap("Failed to list up etcd keys. key: " + key + ", recursive: false", st.cause)
  {
    if key !in st.failing && key in st.listings then Ok(st.listings[key])
    else Err(Wrap("Failed to list up etcd keys. key: " + key + ", recursive: false", st.cause))
  }

  /** The store after a write of `value` under `key`, whether or not the write
      is allowed. */
  function Put(st: Store, key: string, value: string): Store
  {
    st.(values := st.values[key := value])
  }

  /** `Set` of `receiver/store/etcd.go`: the error names key and value. */
  function Set(st: Store, key: string, value: string): (r: (Store, Outcome))
    ensures r.1.Pass? <==> key !in st.failing
    ensures r.1.Pass? ==> Get(r.0, key) == Ok(value)
    ensures r.1.Pass? ==> r.0.values.Keys == st.values.Keys + {key}
    ensures r.1.Pass? ==> forall k | k in st.values && k != key :: r.0.values[k] == st.values[k]
    ensures r.1.Fail? ==> r.0 == st
    ensures r.1.Fail? ==> r.1.msg == Wrap("Failed to set etcd value. key: " + key + ", value: " + value, st.cause)
    ensures r.0.dirs == st.dirs && r.0.failing == st.failing && r.0.listings == st.listings
  {
    if key in st.failing then (st, Fail(Wrap("Failed to set etcd value. key: " + key + ", value: " + value, st.cause)))
    else (Put(st, key, value), Pass)
  }

  /** `Set` of the older client in `receiver/etcd.go`, which returns the
      client's error as it is. */
  function SetRaw(st: Store, key: string, value: string): (r: (Store, Outcome))
    ensures r.1.Pass? <==> key !in st.failing
    ensures r.0 == Set(st, key, value).0
    ensures r.1.Fail? ==> r.1.msg == st.cause
  {
    if key in st.failing then (st, Fail(st.cause)) else (Put(st, key, value), Pass)
  }

  /** `Mkdir`. */
  function Mkdir(st: Store, key: string): (r: (Store, Outcome))
    ensures r.1.Pass? <==> key !in st.failing
    ensures r.1.Pass? ==> r.0.dirs == st.dirs + {key} && HasKey(r.0, key)
    ensures r.1.Fail? ==> r.0 == st
    ensures r.1.Fail? ==> r.1.msg == Wrap("Failed to create etcd directory. key: " + key, st.cause)
    ensures r.0.values == st.values && r.0.failing == st.failing && r.0.listings == st.listings
  {
    if key in st.failing then (st, Fail(Wrap("Failed to create etcd directory. key: " + key, st.cause)))
    else (st.(dirs := st.dirs + {key}), Pass)
  }

  /** Writing the same value twice leaves the store as one write does. */
  lemma SetIdempotent(st: Store, key: string, value: string)
    ensures Set(Set(st, key, value).0, key, value) == Set(st, key, value)
  {
    assert st.values[key := value][key := value] == st.values[key := value];
  }

  /** A later write to the same key wins. */
  lemma SetOverwrites(st: Store, key: string, v1: string, v2: string)
    requires key !in st.failing
    ensures Set(Set(st, key, v1).0, key, v2).0 == Set(st, key, v2).0
  {
    assert st.values[key := v1][key := v2] == st.values[key := v2];
  }
}

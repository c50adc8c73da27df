/**
  The coordinator's own code (src/core/fs_coordination.rs): key derivation, the bounded
  registry, and the acquisition of a whole set. The other processes appear as the outcome
  of every attempt to create a lock file.
 */
module FsCoordinator {
  import opened FsLocks
  import opened Paths
  import opened Sorting
  import opened Text
  import opened Wrappers

  const MAX_REGISTRY_KEYS := 4096
  const MAX_LOCKS_PER_SET := 256
  /** The acquire timeout of ten seconds in retry intervals of 25 milliseconds. */
  const MAX_WAITS := 400

  datatype Error = InvalidResource | TimedOut(key: Key) | Infrastructure

  /** What creating a lock file meets: nothing, a file of another process, a transient
      refusal, or an unusable directory or lock file. */
  datatype Attempt = Free | Taken | Denied | Broken

  /** The key of one path; `digest` stands for SHA-256 of root and path. */
  function ResourceKey(root: Option<string>, relative: string, digest: string -> Key): Result<Key, Error> {
    if Blank(relative) then Err(InvalidResource)
    else if root.None? then Err(InvalidResource)
    else
      var normalized := NormalizedKey(relative);
      if normalized == "" then Err(InvalidResource)
      else Ok(digest(root.value + ['\0'] + normalized))
  }

  /** What it takes for a path to have a key: a root that resolves, and something that names
      a file, which is more than white space and has a component that is not a dot. */
  predicate HasKey(root: Option<string>, path: string) {
    root.Some? && !Blank(path) && KeyComponents(path) != []
  }

  lemma HasKeyIff(root: Option<string>, path: string, digest: string -> Key)
    ensures ResourceKey(root, path, digest).Ok? <==> HasKey(root, path)
    ensures ResourceKey(root, path, digest).Err? ==> ResourceKey(root, path, digest).error == InvalidResource
  {
    KeyComponentsProper(path);
    if KeyComponents(path) != [] { JoinIsProper(KeyComponents(path)); }
  }

  lemma JoinIsProper(pieces: seq<string>)
    requires pieces != [] && pieces[0] != ""
    ensures Join(pieces, '/') != ""
  {
  }

  predicate Keyable(root: Option<string>, paths: seq<string>) {
    forall i :: 0 <= i < |paths| ==> HasKey(root, paths[i])
  }

  /** The key of a path that has one. */
  function KeyOf(root: Option<string>, path: string, digest: string -> Key): Key
    requires HasKey(root, path)
  {
    HasKeyIff(root, path, digest);
    ResourceKey(root, path, digest).value
  }

  /** The keys a request names. */
  function RequestedKeys(root: Option<string>, paths: seq<string>, digest: string -> Key): set<Key>
    requires Keyable(root, paths)
  {
    set i | 0 <= i < |paths| :: KeyOf(root, paths[i], digest)
  }

  lemma FirstNul(p: string, a: string)
    requires '\0' !in p
    ensures IndexOf(p + ['\0'] + a, '\0') == |p|
  {
    var x := p + ['\0'] + a;
    assert x[|p|] == '\0';
    forall i | 0 <= i < |p| ensures x[i] != '\0' { assert x[i] == p[i]; }
  }

  lemma SplitAtNul(p: string, a: string, q: string, b: string)
    requires '\0' !in p && '\0' !in q && p + ['\0'] + a == q + ['\0'] + b
    ensures p == q && a == b
  {
    FirstNul(p, a);
    FirstNul(q, b);
    var x, y := p + ['\0'] + a, q + ['\0'] + b;
    assert x[..|p|] == p && y[..|q|] == q;
    assert x[|p| + 1..] == a && y[|q| + 1..] == b;
  }

  /** With an injective digest two paths under two roots, which cannot contain a NUL, share a
      key exactly when the roots are the same and so are the components they keep. */
  lemma SameKeyIffSameResource(root: string, a: string, other: string, b: string, digest: string -> Key)
    requires forall x, y :: digest(x) == digest(y) ==> x == y
    requires HasKey(Some(root), a) && HasKey(Some(other), b) && '\0' !in root && '\0' !in other
    ensures KeyOf(Some(root), a, digest) == KeyOf(Some(other), b, digest) <==>
            root == other && KeyComponents(a) == KeyComponents(b)
  {
    HasKeyIff(Some(root), a, digest);
    HasKeyIff(Some(other), b, digest);
    NormalizedKeyComponents(a, b);
    if KeyOf(Some(root), a, digest) == KeyOf(Some(other), b, digest) {
      SplitAtNul(root, NormalizedKey(a), other, NormalizedKey(b));
    }
  }

  /** Under one root, whatever it is, they share a key exactly when the components they keep
      are the same. */
  lemma SameKeyIffSameComponents(root: string, a: string, b: string, digest: string -> Key)
    requires forall x, y :: digest(x) == digest(y) ==> x == y
    requires ResourceKey(Some(root), a, digest).Ok? && ResourceKey(Some(root), b, digest).Ok?
    ensures ResourceKey(Some(root), a, digest) == ResourceKey(Some(root), b, digest) <==>
            KeyComponents(a) == KeyComponents(b)
  {
    NormalizedKeyComponents(a, b);
    var x, y := root + ['\0'] + NormalizedKey(a), root + ['\0'] + NormalizedKey(b);
    assert x == y ==> x[|root| + 1..] == y[|root| + 1..];
    assert x[|root| + 1..] == NormalizedKey(a) && y[|root| + 1..] == NormalizedKey(b);
  }

  lemma KeysAreRequested(root: Option<string>, paths: seq<string>, digest: string -> Key, keys: seq<Key>)
    requires Keyable(root, paths) && |keys| == |paths|
    requires forall i :: 0 <= i < |paths| ==> keys[i] == KeyOf(root, paths[i], digest)
    ensures forall k :: k in keys <==> k in RequestedKeys(root, paths, digest)
  {
    forall k | k in keys ensures k in RequestedKeys(root, paths, digest) {
      var i :| 0 <= i < |keys| && keys[i] == k;
    }
  }

  function KeyLe(): (Key, Key) -> bool { (a: Key, b: Key) => a <= b }

  /** `Vec::dedup`: drops repeated neighbours. */
  function DedupSorted(keys: seq<Key>): seq<Key> {
    if |keys| <= 1 then keys
    else if keys[0] == keys[1] then DedupSorted(keys[1..])
    else [keys[0]] + DedupSorted(keys[1..])
  }

  lemma {:induction false} DedupSortedAscends(keys: seq<Key>)
    requires Sorted(keys, KeyLe())
    ensures Ascending(DedupSorted(keys))
    ensures forall k :: k in DedupSorted(keys) <==> k in keys
    ensures keys != [] ==> DedupSorted(keys) != [] && DedupSorted(keys)[0] == keys[0]
    ensures |DedupSorted(keys)| <= |keys|
  {
    if |keys| > 1 {
      assert forall i, j :: 0 <= i < j < |keys| ==> KeyLe()(keys[i], keys[j]);
      DedupSortedAscends(keys[1..]);
      assert keys == [keys[0]] + keys[1..];
      assert keys[1..][0] == keys[1];
      var rest := DedupSorted(keys[1..]);
      if keys[0] != keys[1] {
        forall i | 0 <= i < |rest| ensures keys[0] < rest[i] {
          assert i > 0 ==> rest[0] < rest[i];
        }
      }
    }
  }

  /** The order in which the keys are locked. */
  function LockOrder(keys: seq<Key>): seq<Key> { DedupSorted(Sort(keys, KeyLe())) }

  lemma LockOrderAscends(keys: seq<Key>)
    ensures Ascending(LockOrder(keys))
    ensures forall k :: k in LockOrder(keys) <==> k in keys
    ensures |LockOrder(keys)| <= |keys|
  {
    SortIsSorted(keys, KeyLe());
    SortElements(keys, KeyLe());
    DedupSortedAscends(Sort(keys, KeyLe()));
    forall k ensures k in Sort(keys, KeyLe()) <==> k in keys {
      assert k in multiset(keys) <==> k in keys;
      assert k in multiset(Sort(keys, KeyLe())) <==> k in Sort(keys, KeyLe());
    }
  }

  class Coordinator {
    const root: Option<string>
    const digest: string -> Key
    /** The outcome of trying to create the file of a key at an instant, for this process. */
    const attempt: (nat, Key) -> Attempt
    var clock: nat
    var registry: set<Key>
    /** The lock files this process has created and not removed. */
    var files: set<Key>

    constructor (root: Option<string>, digest: string -> Key, attempt: (nat, Key) -> Attempt)
      ensures this.root == root && this.digest == digest && this.attempt == attempt
      ensures clock == 0 && registry == {} && files == {}
    {
      this.root, this.digest, this.attempt := root, digest, attempt;
      clock, registry, files := 0, {}, {};
    }

    ghost predicate Valid()
      reads this
    {
      |registry| <= MAX_REGISTRY_KEYS
    }

    /** Finds or inserts the in-process entry of a key; a full registry refuses new keys. */
    method RegistryEntry(key: Key) returns (ok: bool)
      requires Valid()
      modifies this`registry
      ensures Valid()
      ensures ok == (key in old(registry) || |old(registry)| < MAX_REGISTRY_KEYS)
      ensures registry == if ok then old(registry) + {key} else old(registry)
    {
      if key in registry {
        assert registry + {key} == registry;
        return true;
      }
      if |registry| >= MAX_REGISTRY_KEYS {
        return false;
      }
      registry := registry + {key};
      ok := true;
    }

    /** The file of the key can be created at this instant. */
    predicate Succeeds(t: nat, key: Key, held: bool) { attempt(t, key) == Free && !held }

    /** Trying from an instant on meets a chance before the deadline and before anything
        that ends the attempt. */
    predicate GetsTheChance(from: nat, key: Key, held: bool) {
      exists t :: from <= t <= from + MAX_WAITS && Succeeds(t, key, held)
                  && forall u :: from <= u < t ==> attempt(u, key) != Broken
    }

    /** Every file that is not already there can be created at once. */
    ghost predicate Uncontended() { forall t, k :: attempt(t, k) == Free }

    lemma ChanceAtOnce(from: nat, key: Key)
      requires Uncontended()
      ensures GetsTheChance(from, key, false)
    {
      assert Succeeds(from, key, false);
    }

    /** Takes one lock file, or fails within the deadline and takes nothing. */
    method AcquireOne(key: Key) returns (error: Option<Error>)
      requires Valid()
      modifies this`registry, this`files, this`clock
      ensures Valid() && clock >= old(clock)
      ensures error.None? ==> key !in old(files) && files == old(files) + {key}
      ensures error.None? ==> attempt(clock, key) == Free
      ensures error.None? <==>
              (key in old(registry) || |old(registry)| < MAX_REGISTRY_KEYS)
              && GetsTheChance(old(clock), key, key in old(files))
      ensures registry == old(registry) || registry == old(registry) + {key}
      ensures error.Some? ==> files == old(files)
      ensures error.Some? && error.value.TimedOut? ==> error.value.key == key && clock >= old(clock) + MAX_WAITS
    {
      var registered := RegistryEntry(key);
      if !registered {
        return Some(Infrastructure);
      }
      var deadline := clock + MAX_WAITS;
      while true
        invariant Valid() && files == old(files) && old(clock) <= clock <= deadline
        invariant registry == old(registry) + {key}
        invariant forall u :: old(clock) <= u < clock ==>
                                attempt(u, key) != Broken && !Succeeds(u, key, key in old(files))
        decreases deadline - clock
      {
        var outcome := attempt(clock, key);
        assert Succeeds(clock, key, key in old(files)) <==> outcome == Free && key !in files;
        if outcome == Free && key !in files {
          files := files + {key};
          return None;
        }
        if outcome == Broken {
          return Some(Infrastructure);
        }
        if clock >= deadline {
          return Some(TimedOut(key));
        }
        clock := clock + 1;
      }
    }

    /** Acquires every key a request names, or none: on success exactly the requested keys
        are added, in ascending order and once each; on failure the lock files are as before. */
    method Acquire(paths: seq<string>, directoryOk: bool) returns (r: Result<seq<Key>, Error>)
      requires Valid()
      modifies this`registry, this`files, this`clock
      ensures Valid()
      ensures r.Err? ==> files == old(files)
      ensures paths == [] ==> r == Ok([])
      ensures r.Ok? ==>
                && |paths| <= MAX_LOCKS_PER_SET && Keyable(root, paths)
                && Ascending(r.value)
                && KeySet(r.value) == RequestedKeys(root, paths, digest)
                && old(files) !! KeySet(r.value)
                && files == old(files) + KeySet(r.value)
      ensures |paths| > MAX_LOCKS_PER_SET || !Keyable(root, paths) ==> r == Err(InvalidResource)
      ensures paths != [] && |paths| <= MAX_LOCKS_PER_SET && Keyable(root, paths) && !directoryOk ==>
                r == Err(Infrastructure)
      ensures r.Err? && r.error.TimedOut? ==>
                Keyable(root, paths) && r.error.key in RequestedKeys(root, paths, digest)
      ensures (&& Uncontended() && directoryOk && |paths| <= MAX_LOCKS_PER_SET && Keyable(root, paths)
               && |old(registry)| + |paths| <= MAX_REGISTRY_KEYS
               && RequestedKeys(root, paths, digest) !! old(files)) ==> r.Ok?
    {
      if paths == [] {
        return Ok([]);
      }
      if |paths| > MAX_LOCKS_PER_SET {
        return Err(InvalidResource);
      }
      var keys: seq<Key> := [];
      for i := 0 to |paths|
        invariant |keys| == i && files == old(files) && registry == old(registry)
        invariant forall j :: 0 <= j < i ==> HasKey(root, paths[j]) && keys[j] == KeyOf(root, paths[j], digest)
      {
        HasKeyIff(root, paths[i], digest);
        var key := ResourceKey(root, paths[i], digest);
        if key.Err? {
          return Err(key.error);
        }
        keys := keys + [key.value];
      }
      KeysAreRequested(root, paths, digest, keys);
      LockOrderAscends(keys);
      keys := LockOrder(keys);
      if !directoryOk {
        return Err(Infrastructure);
      }
      r := AcquireAll(keys);
    }

    method AcquireAll(keys: seq<Key>) returns (r: Result<seq<Key>, Error>)
      requires Valid() && Ascending(keys)
      modifies this`registry, this`files, this`clock
      ensures Valid()
      ensures r.Err? ==> files == old(files)
      ensures r.Ok? ==> r.value == keys && old(files) !! KeySet(keys)
                        && files == old(files) + KeySet(keys)
      ensures r.Err? && r.error.TimedOut? ==> r.error.key in keys
      ensures (&& Uncontended() && |old(registry)| + |keys| <= MAX_REGISTRY_KEYS
               && (forall k :: k in keys ==> k !in old(files))) ==> r.Ok?
    {
      var guards: seq<Key> := [];
      for i := 0 to |keys|
        invariant Valid() && guards == keys[..i]
        invariant forall k :: k in guards ==> k !in old(files)
        invariant files == old(files) + KeySet(guards)
        invariant |registry| <= |old(registry)| + i
      {
        ghost var from, held := clock, keys[i] in files;
        assert held ==> keys[i] in old(files);
        var error := AcquireOne(keys[i]);
        if error.Some? {
          if Uncontended() && !held { ChanceAtOnce(from, keys[i]); }
          DropGuards(guards);
          return Err(error.value);
        }
        guards := guards + [keys[i]];
      }
      r := Ok(guards);
    }

    /** Dropping a set removes its lock files one by one, in acquisition order. */
    method DropGuards(guards: seq<Key>)
      modifies this`files
      ensures files == old(files) - KeySet(guards)
    {
      for i := 0 to |guards|
        invariant files == old(files) - KeySet(guards[..i])
      {
        files := files - {guards[i]};
      }
      assert guards[..|guards|] == guards;
    }
  }
}

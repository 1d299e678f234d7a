/** The write-behind cache: values are kept here and written to the back end later. */
module WriteBehind {
  import opened Common

  /** A cached key is as the back end has it, or marked as modified; what is marked is cached, and
      of all that is cached the time of the last use is known. */
  ghost predicate Coherent<K(!new), V>(storage: map<K, V>, modified: set<K>, access: map<K, int>, backend: map<K, V>) {
    && modified <= storage.Keys <= access.Keys
    && forall k {:trigger storage[k]} :: k in storage && k !in modified ==> k in backend && backend[k] == storage[k]
  }

  /** Writing modified keys back does not change what the cache shows. */
  lemma SavedShown<K, V>(storage: map<K, V>, backend: map<K, V>, k: K)
    ensures k in storage ==> backend[k := storage[k]] + storage == backend + storage
  {
  }

  /** Nor does caching a key as the back end has it. */
  lemma CachedShown<K(!new), V>(storage: map<K, V>, modified: set<K>, access: map<K, int>, backend: map<K, V>, k: K, now: int)
    requires Coherent(storage, modified, access, backend) && k in backend && k !in storage
    ensures backend + storage[k := backend[k]] == backend + storage
    ensures Coherent(storage[k := backend[k]], modified, access[k := now], backend)
  {
  }

  /** Nor does dropping a key that the back end has as it is. */
  lemma DroppedShown<K, V>(storage: map<K, V>, backend: map<K, V>, k: K)
    requires k in storage ==> k in backend && backend[k] == storage[k]
    ensures backend + (storage - {k}) == backend + storage
  {
  }

  predicate Seen<K(==), V(==)>(k: K, v: V, storage: map<K, V>, maxSize: nat) {
    |storage| < maxSize || k !in storage || storage[k] == v
  }

  /** A put is seen in what is shown afterwards, or changes nothing of it. */
  ghost predicate PutDone<K, V>(shown: map<K, V>, shown': map<K, V>, k: K, v: V, seen: bool) {
    (shown' == shown[k := v] <==> seen) && (!seen ==> shown' == shown)
  }

  lemma PutHere<K, V>(storage: map<K, V>, backend: map<K, V>, backend': map<K, V>, k: K, v: V)
    requires backend' == backend || backend' == backend[k := v]
    ensures PutDone(backend + storage, backend' + storage[k := v], k, v, true)
  {
    assert backend' + storage[k := v] == (backend + storage)[k := v];
  }

  /** A put that goes past the cache is hidden by another value that the cache holds. */
  lemma PutPast<K, V>(storage: map<K, V>, backend: map<K, V>, k: K, v: V)
    ensures PutDone(backend + storage, backend[k := v] + storage, k, v, k !in storage || storage[k] == v)
  {
    var was, now := backend + storage, backend[k := v] + storage;
    if k in storage { assert now == was && (storage[k] != v ==> was[k] != v); }
    if k !in storage || storage[k] == v { assert now == was[k := v]; }
  }

  class Cache<K(==, !new), V(==)> {
    var storage: map<K, V>
    var modified: set<K>
    var access: map<K, int>
    var backend: map<K, V>
    var saveTimer: int               // 0 or less: write at once
    var maxSize: nat
    var discardTime: nat

    ghost predicate Valid()
      reads this
    {
      Coherent(storage, modified, access, backend)
    }

    /** The map that the cache stands for. */
    ghost function Shown(): map<K, V>
      reads this
    {
      backend + storage
    }

    constructor (backend: map<K, V>, maxSize: nat, saveTimer: int, discardTime: nat)
      ensures Valid() && Shown() == backend && storage == map[] && this.maxSize == maxSize && this.saveTimer == saveTimer
    {
      this.backend, this.maxSize, this.saveTimer, this.discardTime := backend, maxSize, saveTimer, discardTime;
      storage, modified, access := map[], {}, map[];
    }

    /** A put that the back end takes, or that need not go there yet, is seen, unless the cache is
        full and holds another value for the key; any other changes nothing. */
    method Put(k: K, v: V, now: int, takes: bool) returns (ok: bool)
      requires Valid()
      modifies this`storage, this`modified, this`access, this`backend
      ensures ok == (takes || (|old(storage)| < maxSize && saveTimer > 0))
      ensures if ok then PutDone(old(Shown()), Shown(), k, v, Seen(k, v, old(storage), maxSize)) else Shown() == old(Shown())
      ensures !ok || Seen(k, v, old(storage), maxSize) || k in old(modified) ==> Valid()
      ensures |old(storage)| < maxSize && saveTimer > 0 ==> k in storage && k in modified
      ensures backend == if !ok || (|old(storage)| < maxSize && saveTimer > 0) then old(backend) else old(backend)[k := v]
      ensures access == if ok && |old(storage)| < maxSize then old(access)[k := now] else old(access)
    {
      if |storage| < maxSize {
        ok := PutInto(k, v, now, takes);
      } else {
        PutPast(storage, backend, k, v);
        ok := takes;
        if ok { backend := backend[k := v]; }
      }
    }

    method PutInto(k: K, v: V, now: int, takes: bool) returns (ok: bool)
      requires Valid()
      modifies this`storage, this`modified, this`access, this`backend
      ensures Valid() && ok == (takes || saveTimer > 0) && (saveTimer > 0 ==> k in storage && k in modified)
      ensures if ok then PutDone(old(Shown()), Shown(), k, v, true) else Shown() == old(Shown())
      ensures backend == if !ok || saveTimer > 0 then old(backend) else old(backend)[k := v]
      ensures access == if ok then old(access)[k := now] else old(access)
    {
      ok := takes || saveTimer > 0;
      if !ok { return; }
      ghost var back := backend;
      if saveTimer <= 0 { backend := backend[k := v]; } else { modified := modified + {k}; }
      PutHere(storage, back, backend, k, v);
      storage := storage[k := v];
      access := access[k := now];
    }

    method Get(k: K, now: int) returns (r: Option<V>)
      requires Valid()
      modifies this`storage, this`access
      ensures Valid() && Shown() == old(Shown())
      ensures r == if k in Shown() then Some(Shown()[k]) else None
      ensures access == if r.Some? then old(access)[k := now] else old(access)
      ensures storage == if r.Some? && |old(storage)| < maxSize then old(storage)[k := r.value] else old(storage)
    {
      if k in storage {
        r := Some(storage[k]);
      } else {
        if k !in backend { return None; }
        r := Some(backend[k]);
        if |storage| < maxSize {
          CachedShown(storage, modified, access, backend, k, now);
          storage := storage[k := backend[k]];
        }
      }
      access := access[k := now];
    }

    method Remove(k: K)
      requires Valid()
      modifies this
      ensures Valid() && Shown() == old(Shown()) - {k}
      ensures storage == old(storage) - {k} && access == old(access) - {k} && backend == old(backend) - {k}
    {
      storage := storage - {k};
      modified := modified - {k};
      access := access - {k};
      backend := backend - {k};
    }

    method DoSave(k: K)
      modifies this`backend
      ensures backend == if k in storage then old(backend)[k := storage[k]] else old(backend)
      ensures Shown() == old(Shown())
    {
      SavedShown(storage, backend, k);
      if k in storage { backend := backend[k := storage[k]]; }
    }

    /** Writes all that is modified; the back end then has everything. */
    method SaveModified()
      requires Valid()
      modifies this`modified, this`backend
      ensures Valid() && Shown() == old(Shown()) && modified == {} && backend == Shown()
    {
      var left := modified;
      while left != {}
        invariant left <= modified == old(modified) && Shown() == old(Shown()) && Coherent(storage, left, access, backend)
      {
        var k :| k in left;
        DoSave(k);
        left := left - {k};
      }
      modified := {};
      assert backend == Shown();
    }

    /** Drops a key, writing it first if need be. */
    method OnDiscard(k: K)
      requires Valid()
      modifies this`storage, this`modified, this`backend
      ensures Valid() && Shown() == old(Shown()) && storage == old(storage) - {k}
    {
      if k in modified { DoSave(k); }
      DroppedShown(storage, backend, k);
      storage := storage - {k};
      modified := modified - {k};
    }

    /** Drops what was last used at time `elapse` or before, and nothing else. */
    method Discard(elapse: int)
      requires Valid()
      modifies this`storage, this`modified, this`access, this`backend
      ensures Valid() && Shown() == old(Shown())
      ensures forall k :: k in access <==> k in old(access) && old(access)[k] > elapse
      ensures forall k {:trigger k in storage} :: k in storage <==> k in old(storage) && old(access)[k] > elapse
      ensures access == old(access) - (old(access).Keys - access.Keys) && storage == old(storage) - (old(access).Keys - access.Keys)
    {
      var left := access.Keys;
      ghost var gone: set<K> := {};
      while left != {}
        invariant Valid() && Shown() == old(Shown()) && left <= access.Keys && gone <= old(access).Keys
        invariant forall k :: k in gone <==> k in old(access) && k !in left && old(access)[k] <= elapse
        invariant storage == old(storage) - gone && access == old(access) - gone
      {
        var k :| k in left;
        if access[k] <= elapse {
          OnDiscard(k);
          access := access - {k};
          gone := gone + {k};
        }
        left := left - {k};
      }
    }

    /** The regular round: what was not used for `discardTime`, and for half of it when that still
        leaves too much. */
    method DiscardRound(now: int)
      requires Valid()
      modifies this`storage, this`modified, this`access, this`backend
      ensures Valid() && Shown() == old(Shown())
      ensures var some := set k | k in old(access) && old(access)[k] > now - discardTime;
        var cut := if |some| <= maxSize then now - discardTime else now - discardTime / 2;
        && (forall k :: k in access <==> k in old(access) && old(access)[k] > cut)
        && (forall k {:trigger k in storage} :: k in storage <==> k in old(storage) && old(access)[k] > cut)
    {
      Discard(now - discardTime);
      assert access.Keys == (set k | k in old(access) && old(access)[k] > now - discardTime);
      if |access| > maxSize { Discard(now - discardTime / 2); }
    }

    /** Writes and drops everything. */
    method Clear()
      requires Valid()
      modifies this
      ensures Valid() && Shown() == old(Shown()) && storage == map[] && backend == Shown()
    {
      SaveModified();
      storage, access := map[], map[];
      assert backend + map[] == backend;
    }

    method SetSaveTimer(t: int)
      requires Valid()
      modifies this`saveTimer
      ensures Valid() && Shown() == old(Shown()) && saveTimer == t
    {
      saveTimer := t;
    }
  }

  /** A cache with room for one key, full: what is put for that key is not what is read. */
  method PutNotSeen() returns (r: Option<int>)
    ensures r == Some(10)
  {
    var cache := new Cache<int, int>(map[], 1, 300, 300);
    var ok := cache.Put(1, 10, 0, true);
    assert cache.Shown()[1] == 10 && 1 in cache.storage.Keys;
    ok := cache.Put(1, 11, 1, true);
    r := cache.Get(1, 2);
  }
}

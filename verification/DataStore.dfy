/** The in-memory store: per key a slice over a backing array, appended to and sorted in place. */
module DataStores {
  import opened Types
  import opened Sorting
  import opened StoreLog

  /** A Go slice: the first `len` cells of a backing array whose spare cells an append may use. */
  datatype Slice = Slice(buf: array<StoreEntry>, len: nat)

  ghost predicate WellShaped(m: map<string, Slice>) {
    && (forall k :: k in m ==> m[k].len <= m[k].buf.Length)
    && (forall k, k' :: k in m && k' in m && k != k' ==> m[k].buf != m[k'].buf)
  }

  ghost function BuffersOf(m: map<string, Slice>): set<array<StoreEntry>> {
    set k | k in m :: m[k].buf
  }

  ghost predicate SameEntries(a: Slice, b: Slice)
    reads a.buf, b.buf
  {
    && a.len == b.len <= a.buf.Length
    && b.len <= b.buf.Length
    && a.buf[..a.len] == b.buf[..b.len]
  }

  /** The entries a map of slices spells out. */
  ghost function View(m: map<string, Slice>): Store
    requires WellShaped(m)
    reads BuffersOf(m)
  {
    map k | k in m :: m[k].buf[..m[k].len]
  }

  /** `append`: in place when there is room, otherwise into a larger array. */
  method Append(s: Slice, e: StoreEntry) returns (r: Slice)
    requires s.len <= s.buf.Length
    modifies s.buf
    ensures r.buf == s.buf || fresh(r.buf)
    ensures r.len == s.len + 1 <= r.buf.Length
    ensures r.buf[..r.len] == old(s.buf[..s.len]) + [e]
  {
    if s.len < s.buf.Length {
      s.buf[s.len] := e;
      r := Slice(s.buf, s.len + 1);
      assert s.buf[..r.len] == s.buf[..s.len] + [e];
    } else {
      var grown := new StoreEntry[2 * s.len + 1];
      for i := 0 to s.len
        invariant grown[..i] == s.buf[..i]
        invariant s.buf[..s.len] == old(s.buf[..s.len])
      {
        grown[i] := s.buf[i];
      }
      grown[s.len] := e;
      r := Slice(grown, s.len + 1);
      assert grown[..r.len] == grown[..s.len] + [e];
    }
  }

  method Singleton(e: StoreEntry) returns (r: Slice)
    ensures fresh(r.buf) && r.len == 1 <= r.buf.Length
    ensures Sorts([e], r.buf[..r.len], VersionOf)
  {
    var buf := new StoreEntry[1](_ => e);
    r := Slice(buf, 1);
    assert buf[..1] == [e];
  }

  method AppendSorted(s: Slice, e: StoreEntry) returns (r: Slice)
    requires s.len <= s.buf.Length
    modifies s.buf
    ensures r.buf == s.buf || fresh(r.buf)
    ensures r.len == s.len + 1 <= r.buf.Length
    ensures Sorts(old(s.buf[..s.len]) + [e], r.buf[..r.len], VersionOf)
  {
    r := Append(s, e);
    SortSlice(r.buf, r.len, VersionOf);
  }

  method CloneSlice(v: Slice) returns (r: Slice)
    requires v.len <= v.buf.Length
    ensures fresh(r.buf) && r.len == v.len == r.buf.Length
    ensures r.buf[..] == v.buf[..v.len]
  {
    var copied := new StoreEntry[v.len];
    for i := 0 to v.len
      invariant copied[..i] == v.buf[..i]
    {
      copied[i] := v.buf[i];
    }
    r := Slice(copied, v.len);
  }

  lemma ReplaceSlice(m: map<string, Slice>, key: string, entries: Slice, before: Store)
    requires WellShaped(m) && before.Keys == m.Keys && entries.len <= entries.buf.Length
    requires forall k :: k in m && k != key ==> m[k].buf != entries.buf && m[k].buf[..m[k].len] == before[k]
    ensures WellShaped(m[key := entries])
    ensures View(m[key := entries]) == before[key := entries.buf[..entries.len]]
  {
  }

  /** The slice of a key with one entry recorded, in the key's own array or a new one. */
  method RecordedSlice(m: map<string, Slice>, key: string, entry: StoreEntry) returns (entries: Slice)
    requires WellShaped(m)
    modifies if key in m then {m[key].buf} else {}
    ensures entries.len <= entries.buf.Length
    ensures fresh(entries.buf) || (key in m && entries.buf == m[key].buf)
    ensures forall k :: k in m && k != key ==>
      m[k].buf != entries.buf && m[k].buf[..m[k].len] == old(m[k].buf[..m[k].len])
    ensures Sorts(LogOf(old(View(m)), key) + [entry], entries.buf[..entries.len], VersionOf)
  {
    if key !in m {
      entries := Singleton(entry);
    } else {
      assert View(m)[key] == m[key].buf[..m[key].len];
      entries := AppendSorted(m[key], entry);
    }
  }

  /** The map with one entry recorded under `key`. */
  method Record(m: map<string, Slice>, key: string, entry: StoreEntry) returns (m': map<string, Slice>)
    requires WellShaped(m)
    modifies BuffersOf(m)
    ensures m'.Keys == m.Keys + {key} && WellShaped(m')
    ensures View(m') == old(View(m))[key := View(m')[key]]
    ensures Sorts(LogOf(old(View(m)), key) + [entry], View(m')[key], VersionOf)
    ensures fresh(BuffersOf(m') - BuffersOf(m))
  {
    ghost var before := View(m);
    var entries := RecordedSlice(m, key, entry);
    ReplaceSlice(m, key, entries, before);
    m' := m[key := entries];
  }

  lemma RecordCommits(before: Store, op: WriteOp, after: Store)
    requires WellFormed(before) && op.key in after && after == before[op.key := after[op.key]]
    requires Sorts(LogOf(before, op.key) + [Entry(before, op)], after[op.key], VersionOf)
    ensures Commits(before, op, after) && WellFormed(after)
  {
    CommitAdds(before, op, after);
  }

  /** The map with a fresh copy of one more slice. */
  method AddClone(m: map<string, Slice>, key: string, v: Slice) returns (m': map<string, Slice>)
    requires WellShaped(m) && key !in m && v.len <= v.buf.Length
    ensures m'.Keys == m.Keys + {key} && WellShaped(m')
    ensures forall k :: k in m ==> m'[k] == m[k]
    ensures fresh(m'[key].buf) && SameEntries(m'[key], v)
  {
    var newSlice := CloneSlice(v);
    m' := m[key := newSlice];
  }

  lemma CopiedView(m: map<string, Slice>, copied: map<string, Slice>, filter: string -> bool)
    requires WellShaped(m) && WellShaped(copied)
    requires forall k :: k in copied <==> k in m && filter(k)
    requires forall k :: k in copied ==> SameEntries(copied[k], m[k])
    ensures View(copied) == FilterStore(View(m), filter)
  {
  }

  /** A deep copy of the slices whose keys pass `filter`, one key after the other in any order. */
  method CopySlices(m: map<string, Slice>, filter: string -> bool) returns (deepCopy: map<string, Slice>)
    requires WellShaped(m)
    ensures WellShaped(deepCopy) && View(deepCopy) == FilterStore(View(m), filter)
    ensures forall k :: k in deepCopy ==> fresh(deepCopy[k].buf)
  {
    deepCopy := map[];
    var left := m.Keys;
    while left != {}
      invariant left <= m.Keys
      invariant WellShaped(deepCopy)
      invariant forall k :: k in deepCopy ==> fresh(deepCopy[k].buf)
      invariant forall k :: k in deepCopy <==> k in m && k !in left && filter(k)
      invariant forall k :: k in deepCopy ==> SameEntries(deepCopy[k], m[k])
      decreases left
    {
      var k :| k in left;
      left := left - {k};
      if filter(k) {
        deepCopy := AddClone(deepCopy, k, m[k]);
      }
    }
    CopiedView(m, deepCopy, filter);
  }

  /** A replication hook: writes that pass its filter go onto the live stream, in call order. */
  class Hook {
    const filter: string -> bool
    var sent: seq<Event>

    constructor (filter: string -> bool)
      ensures this.filter == filter && sent == []
    {
      this.filter := filter;
      sent := [];
    }

    method Call(key: string, value: Json, version: Uint64)
      modifies this
      ensures sent == old(sent) + if filter(key) then [LiveEvent(key, value, version)] else []
    {
      if filter(key) {
        sent := sent + [LiveEvent(key, value, version)];
      }
    }
  }

  class DataStore {
    var store: map<string, Slice>
    var postWriteHook: Hook?

    ghost function Buffers(): set<array<StoreEntry>>
      reads `store
    {
      BuffersOf(store)
    }

    ghost function Hooks(): set<Hook>
      reads `postWriteHook
    {
      if postWriteHook == null then {} else {postWriteHook}
    }

    ghost predicate Valid()
      reads `store, Buffers()
    {
      WellShaped(store) && WellFormed(View(store))
    }

    ghost function Contents(): Store
      requires Valid()
      reads `store, Buffers()
    {
      View(store)
    }

    constructor ()
      ensures Valid() && Contents() == map[] && postWriteHook == null
      ensures Buffers() == {}
    {
      store := map[];
      postWriteHook := null;
    }

    method Get(key: string) returns (value: Json)
      requires Valid()
      ensures value == Visible(Contents(), key).0
    {
      value := Null;
      if key in store {
        assert Contents()[key] == store[key].buf[..store[key].len];
        value := store[key].buf[store[key].len - 1].value;
      }
    }

    method GetValAndVersion(key: string) returns (value: Json, version: Uint64)
      requires Valid()
      ensures (value, version) == Visible(Contents(), key)
    {
      value, version := Null, 0;
      if key in store {
        assert Contents()[key] == store[key].buf[..store[key].len];
        var latest := store[key].buf[store[key].len - 1];
        value, version := latest.value, latest.version;
      }
    }

    method Put(key: string, value: Json) returns (newVersion: Uint64)
      requires Valid()
      modifies this, Buffers(), Hooks()
      ensures Valid() && postWriteHook == old(postWriteHook)
      ensures fresh(Buffers() - old(Buffers()))
      ensures Commits(old(Contents()), WriteOp(key, value, None, false), Contents())
      ensures newVersion == NextVersion(old(Contents()), WriteOp(key, value, None, false))
      ensures postWriteHook != null ==>
        postWriteHook.sent == old(postWriteHook.sent) +
        if postWriteHook.filter(key) then [LiveEvent(key, value, newVersion)] else []
    {
      newVersion := PutRaw(key, value, None, false);
    }

    method PutRaw(key: string, value: Json, version: Option<Uint64>, isReplica: bool) returns (newVersion: Uint64)
      requires Valid()
      modifies this, Buffers(), Hooks()
      ensures Valid() && postWriteHook == old(postWriteHook)
      ensures fresh(Buffers() - old(Buffers()))
      ensures Commits(old(Contents()), WriteOp(key, value, version, isReplica), Contents())
      ensures newVersion == NextVersion(old(Contents()), WriteOp(key, value, version, isReplica))
      ensures postWriteHook != null ==>
        postWriteHook.sent == old(postWriteHook.sent) +
        if postWriteHook.filter(key) then [LiveEvent(key, value, newVersion)] else []
    {
      newVersion := CommitLocked(WriteOp(key, value, version, isReplica));
      if postWriteHook != null {
        postWriteHook.Call(key, value, newVersion);
      }
    }

    method VersionFor(op: WriteOp) returns (newVersion: Uint64)
      requires Valid()
      ensures newVersion == NextVersion(Contents(), op)
    {
      newVersion := 1;
      if op.key in store {
        var entries := store[op.key];
        assert Contents()[op.key] == entries.buf[..entries.len];
        newVersion := (entries.buf[entries.len - 1].version + 1) % 0x1_0000_0000_0000_0000;
        if op.version.Some? {
          newVersion := op.version.value;
        }
      }
    }

    /** The part of `PutRaw` under the lock. */
    method CommitLocked(op: WriteOp) returns (newVersion: Uint64)
      requires Valid()
      modifies `store, Buffers()
      ensures Valid()
      ensures fresh(Buffers() - old(Buffers()))
      ensures Commits(old(Contents()), op, Contents())
      ensures newVersion == NextVersion(old(Contents()), op)
    {
      ghost var before := View(store);
      newVersion := VersionFor(op);
      store := Record(store, op.key, StoreEntry(op.value, newVersion, op.isReplica));
      RecordCommits(before, op, View(store));
    }

    /** First critical section of `Snapshot`: options run under the write lock. */
    method InstallHook(hook: Hook?)
      modifies this`postWriteHook
      ensures postWriteHook == if hook == null then old(postWriteHook) else hook
    {
      if hook != null {
        postWriteHook := hook;
      }
    }

    /** The cancel closure `Snapshot` returns. */
    method ResetPostWriteHook()
      modifies this`postWriteHook
      ensures postWriteHook == null
    {
      postWriteHook := null;
    }

    /** Point-in-time view of the keys that pass `filter`, in arrays nothing else refers to. */
    method Snapshot(filter: string -> bool, hook: Hook?) returns (deepCopy: map<string, Slice>)
      requires Valid()
      modifies this`postWriteHook
      ensures Valid() && Contents() == old(Contents())
      ensures postWriteHook == if hook == null then old(postWriteHook) else hook
      ensures WellShaped(deepCopy) && View(deepCopy) == FilterStore(Contents(), filter)
      ensures forall k :: k in deepCopy ==> fresh(deepCopy[k].buf)
    {
      InstallHook(hook);
      deepCopy := CopySlices(store, filter);
    }

    method Size() returns (n: nat)
      requires Valid()
      ensures n == |Contents()|
    {
      assert Contents().Keys == store.Keys;
      n := |store|;
    }
  }

  method WriteBesideSnapshot(d: DataStore, snapshot: map<string, Slice>, op: WriteOp)
    requires d.Valid() && WellShaped(snapshot) && BuffersOf(snapshot) !! d.Buffers()
    modifies d, d.Buffers(), d.Hooks()
    ensures d.Valid() && d.postWriteHook == old(d.postWriteHook)
    ensures fresh(d.Buffers() - old(d.Buffers())) && BuffersOf(snapshot) !! d.Buffers()
    ensures View(snapshot) == old(View(snapshot))
  {
    var _ := d.PutRaw(op.key, op.value, op.version, op.isReplica);
  }

  /** Writes made after a snapshot, appended and sorted in place, never show through it. */
  method WriteAfterSnapshot(d: DataStore, filter: string -> bool, ops: seq<WriteOp>) returns (snapshot: map<string, Slice>)
    requires d.Valid()
    modifies d, d.Buffers(), d.Hooks()
    ensures WellShaped(snapshot) && View(snapshot) == FilterStore(old(d.Contents()), filter)
  {
    snapshot := d.Snapshot(filter, null);
    for i := 0 to |ops|
      invariant d.Valid() && d.postWriteHook == old(d.postWriteHook)
      invariant fresh(d.Buffers() - old(d.Buffers()))
      invariant BuffersOf(snapshot) !! d.Buffers()
      invariant forall b :: b in BuffersOf(snapshot) ==> fresh(b)
      invariant View(snapshot) == FilterStore(old(d.Contents()), filter)
    {
      WriteBesideSnapshot(d, snapshot, ops[i]);
    }
  }
}

/**
  The stat memo itself (internal/verify/statcache.go): a session's entries, and the records
  they persist in, split by path hash across shards that are written one at a time.
 */
module StatMemo {
  import opened Options
  import opened FileTimes

  type Root = nat
  type Name = seq<bv8>

  datatype Key = Key(root: Root, name: Name)

  /** One persisted shard.  Shard 0 says how many there are when there is more than one. */
  datatype Record = Record(shards: nat, entries: map<Name, Entry>)

  type Disk = map<(Root, nat), Record>

  // ---- Sharding ----

  /** FNV-1a, 32 bits. */
  function Fnv(name: Name): bv32 {
    if name == [] then 2166136261
    else FnvStep(Fnv(name[..|name| - 1]), name[|name| - 1])
  }

  function FnvStep(hash: bv32, byte: bv8): bv32 {
    (hash ^ (byte as bv32)) * 16777619
  }

  function ShardOf(name: Name, count: nat): (i: nat)
    requires count > 0
    ensures i < count
  {
    Fnv(name) as nat % count
  }

  ghost predicate PowerOfTwo(n: nat) {
    n == 1 || (n > 1 && n % 2 == 0 && PowerOfTwo(n / 2))
  }

  /** shards: how many records keep the average under half the limit.  It ends for every size
      and every limit, and doubles no further than it must. */
  method Shards(size: nat, limit: nat) returns (count: nat)
    ensures PowerOfTwo(count) && size / count <= limit / 2
    ensures count > 1 ==> size / (count / 2) > limit / 2
  {
    count := 1;
    while size / count > limit / 2
      invariant PowerOfTwo(count) && count >= 1
      invariant count > 1 ==> size / (count / 2) > limit / 2
      decreases size - count
    {
      QuotientNeedsSize(size, count);
      assert count * 2 / 2 == count;
      count := count * 2;
    }
  }

  lemma QuotientNeedsSize(size: nat, count: nat)
    requires count > 0 && size / count > 0
    ensures size >= count
  {
    var quotient := size / count;
    assert size == count * quotient + size % count;
    assert count * quotient >= count * 1;
  }

  /** The entries shard i of count holds. */
  function Shard(entries: map<Name, Entry>, i: nat, count: nat): map<Name, Entry>
    requires count > 0
  {
    map name | name in entries && ShardOf(name, count) == i :: entries[name]
  }

  function ShardRecord(entries: map<Name, Entry>, i: nat, count: nat): Record
    requires count > 0
  {
    Record(if i == 0 && count > 1 then count else 0, Shard(entries, i, count))
  }

  /** The disk once shards count-1 down to `low` have been written, those in `fails` refused. */
  function WrittenDownTo(disk: Disk, root: Root, entries: map<Name, Entry>, count: nat, fails: set<nat>, low: nat): Disk
    requires count > 0
    decreases count - low
  {
    if low >= count then disk
    else
      var above := WrittenDownTo(disk, root, entries, count, fails, low + 1);
      if low in fails then above else above[(root, low) := ShardRecord(entries, low, count)]
  }

  /** Leftover shards of a larger memo, those that could be removed. */
  function Cleaned(disk: Disk, root: Root, count: nat, removed: set<nat>): Disk {
    map k | k in disk && !(k.0 == root && k.1 >= count && k.1 in removed) :: disk[k]
  }

  /** load: a record's settled entries. */
  function SettledOnly(entries: map<Name, Entry>): map<Name, Entry> {
    map name | name in entries && entries[name].Settled() :: entries[name]
  }

  /** What the first n shards of a root load, later shards taking precedence. */
  function LoadedUpTo(disk: Disk, root: Root, n: nat): map<Name, Entry> {
    if n == 0 then map[]
    else
      LoadedUpTo(disk, root, n - 1)
      + if (root, n - 1) in disk then SettledOnly(disk[(root, n - 1)].entries) else map[]
  }

  /** What prepare reads: shard 0, then the others shard 0 counts. */
  function Loaded(disk: Disk, root: Root): map<Name, Entry> {
    if (root, 0) !in disk then map[]
    else LoadedUpTo(disk, root, if disk[(root, 0)].shards > 1 then disk[(root, 0)].shards else 1)
  }

  // ---- A completed write loads back exactly ----

  lemma {:induction false} WrittenHolds(disk: Disk, root: Root, entries: map<Name, Entry>, count: nat, low: nat, i: nat)
    requires 0 < count && low <= i < count
    ensures var after := WrittenDownTo(disk, root, entries, count, {}, low);
            (root, i) in after && after[(root, i)] == ShardRecord(entries, i, count)
    decreases count - low
  {
    if low < i {
      WrittenHolds(disk, root, entries, count, low + 1, i);
    }
  }

  lemma {:induction false} ShardsLoadBack(disk: Disk, root: Root, entries: map<Name, Entry>, count: nat, n: nat)
    requires 0 < count && n <= count
    requires forall i :: 0 <= i < count ==> (root, i) in disk && disk[(root, i)].entries == Shard(entries, i, count)
    ensures LoadedUpTo(disk, root, n)
         == map name | name in entries && entries[name].Settled() && ShardOf(name, count) < n :: entries[name]
  {
    if n > 0 {
      ShardsLoadBack(disk, root, entries, count, n - 1);
    }
  }

  /** A completed flush, whatever was on disk before and whichever leftovers could be removed,
      loads back in the next session exactly the settled entries. */
  lemma WriteThenPrepare(disk: Disk, root: Root, entries: map<Name, Entry>, count: nat, removed: set<nat>)
    requires count > 0
    ensures Loaded(Cleaned(WrittenDownTo(disk, root, entries, count, {}, 0), root, count, removed), root) == SettledOnly(entries)
  {
    var after := Cleaned(WrittenDownTo(disk, root, entries, count, {}, 0), root, count, removed);
    forall i | 0 <= i < count ensures (root, i) in after && after[(root, i)] == ShardRecord(entries, i, count) {
      WrittenHolds(disk, root, entries, count, 0, i);
    }
    ShardsLoadBack(after, root, entries, count, count);
    assert Loaded(after, root) == LoadedUpTo(after, root, count);
  }

  /** Every entry is stored in exactly one shard. */
  lemma StoredOnce(entries: map<Name, Entry>, count: nat, name: Name, i: nat, j: nat)
    requires count > 0 && name in entries && i < count && j < count
    ensures name in Shard(entries, ShardOf(name, count), count)
    ensures name in Shard(entries, i, count) && name in Shard(entries, j, count) ==> i == j
  {
  }

  // ---- A crash anywhere loads only what some flush wrote ----

  /** Some shard of the root on disk holds the entry. */
  ghost predicate OnDisk(disk: Disk, root: Root, name: Name, e: Entry) {
    exists i :: (root, i) in disk && name in disk[(root, i)].entries && disk[(root, i)].entries[name] == e
  }

  lemma {:induction false} LoadedWasOnDisk(disk: Disk, root: Root, n: nat, name: Name)
    requires name in LoadedUpTo(disk, root, n)
    ensures OnDisk(disk, root, name, LoadedUpTo(disk, root, n)[name]) && LoadedUpTo(disk, root, n)[name].Settled()
  {
    if !((root, n - 1) in disk && name in SettledOnly(disk[(root, n - 1)].entries)) {
      LoadedWasOnDisk(disk, root, n - 1, name);
    }
  }

  lemma {:induction false} WrittenWasOldOrNew(disk: Disk, root: Root, entries: map<Name, Entry>, count: nat, fails: set<nat>,
                                              low: nat, other: Root, name: Name, e: Entry)
    requires count > 0 && OnDisk(WrittenDownTo(disk, root, entries, count, fails, low), other, name, e)
    ensures OnDisk(disk, other, name, e) || (other == root && name in entries && entries[name] == e)
    decreases count - low
  {
    if low < count {
      var above := WrittenDownTo(disk, root, entries, count, fails, low + 1);
      if OnDisk(above, other, name, e) {
        WrittenWasOldOrNew(disk, root, entries, count, fails, low + 1, other, name, e);
      }
    }
  }

  /** Killed after any number of shards, with any of them refused: what the next session loads
      was written by this flush or an earlier one, and is settled. */
  lemma CrashLoadsOnlyWritten(disk: Disk, root: Root, entries: map<Name, Entry>, count: nat, fails: set<nat>, low: nat, name: Name)
    requires count > 0
    requires name in Loaded(WrittenDownTo(disk, root, entries, count, fails, low), root)
    ensures var e := Loaded(WrittenDownTo(disk, root, entries, count, fails, low), root)[name];
            e.Settled() && (OnDisk(disk, root, name, e) || (name in entries && entries[name] == e))
  {
    var after := WrittenDownTo(disk, root, entries, count, fails, low);
    var n := if after[(root, 0)].shards > 1 then after[(root, 0)].shards else 1;
    LoadedWasOnDisk(after, root, n, name);
    WrittenWasOldOrNew(disk, root, entries, count, fails, low, root, name, Loaded(after, root)[name]);
  }

  /** Shard 0 is written last: until then the old count stands, so no reader follows the new one to
      a shard that is not there yet; and once it is written every shard it counts is. */
  lemma {:induction false} FirstShardIsLast(disk: Disk, root: Root, entries: map<Name, Entry>, count: nat, low: nat)
    requires low <= count && 0 < count
    ensures var after := WrittenDownTo(disk, root, entries, count, {}, low);
            && (low > 0 ==> ((root, 0) in after <==> (root, 0) in disk) && ((root, 0) in disk ==> after[(root, 0)] == disk[(root, 0)]))
            && (low == 0 ==> (count > 1 ==> after[(root, 0)].shards == count)
                             && forall i :: 0 <= i < count ==> (root, i) in after && after[(root, i)].entries == Shard(entries, i, count))
    decreases count - low
  {
    if low < count {
      FirstShardIsLast(disk, root, entries, count, low + 1);
    }
    if low == 0 {
      forall i | 0 <= i < count
        ensures (root, i) in WrittenDownTo(disk, root, entries, count, {}, 0)
             && WrittenDownTo(disk, root, entries, count, {}, 0)[(root, i)] == ShardRecord(entries, i, count)
      {
        WrittenHolds(disk, root, entries, count, 0, i);
      }
    }
  }

  // ---- The store ----

  /** A settled entry that matches the stat, and nothing else, answers a lookup. */
  function Answer(entries: map<Key, Entry>, key: Key, current: FileStat): Option<Value> {
    if key in entries && entries[key].stat == current && entries[key].Settled() then Some(entries[key].value) else None
  }

  function Keyed(root: Root, loaded: map<Name, Entry>): map<Key, Entry> {
    map key: Key | key in (set name | name in loaded :: Key(root, name)) :: loaded[key.name]
  }

  lemma KeyedOne(root: Root, loaded: map<Name, Entry>, name: Name, e: Entry)
    ensures Keyed(root, loaded[name := e]) == Keyed(root, loaded)[Key(root, name) := e]
  {
    var l, r := Keyed(root, loaded[name := e]), Keyed(root, loaded)[Key(root, name) := e];
    forall key ensures key in l <==> key in r {
      assert key in l <==> key == Key(root, key.name) && key.name in loaded[name := e];
    }
  }

  lemma Appended(first: map<Key, Entry>, second: map<Key, Entry>, key: Key, e: Entry)
    ensures (first + second)[key := e] == first + second[key := e]
  {
  }

  lemma PlusAssociates(first: map<Key, Entry>, second: map<Key, Entry>, third: map<Key, Entry>)
    ensures (first + second) + third == first + (second + third)
  {
  }

  /** Loading one more shard after the first i. */
  lemma LoadOneMore(disk: Disk, root: Root, i: nat, before: map<Key, Entry>)
    ensures before + Keyed(root, LoadedUpTo(disk, root, i + 1))
         == if (root, i) in disk
            then (before + Keyed(root, LoadedUpTo(disk, root, i))) + Keyed(root, SettledOnly(disk[(root, i)].entries))
            else before + Keyed(root, LoadedUpTo(disk, root, i))
  {
    var loaded := LoadedUpTo(disk, root, i);
    if (root, i) in disk {
      var more := SettledOnly(disk[(root, i)].entries);
      KeyedBoth(root, loaded, more);
      PlusAssociates(before, Keyed(root, loaded), Keyed(root, more));
    } else {
      assert loaded + map[] == loaded;
    }
  }

  lemma KeyedBoth(root: Root, first: map<Name, Entry>, second: map<Name, Entry>)
    ensures Keyed(root, first + second) == Keyed(root, first) + Keyed(root, second)
  {
    var l, r := Keyed(root, first + second), Keyed(root, first) + Keyed(root, second);
    forall key ensures key in l <==> key in r {
      assert key in l <==> key == Key(root, key.name) && key.name in first + second;
    }
  }

  /** What flush writes for a root: entries looked at or stored this run, and others whose
      file still has the recorded stat, those in `same`. */
  function ToFlush(entries: map<Key, Entry>, seen: set<Key>, same: set<Key>, root: Root): map<Name, Entry> {
    map name | name in (set key | key in entries && key.root == root && (key in seen || key in same) :: key.name)
      :: entries[Key(root, name)]
  }

  /** An entry this session looked at, or whose file is as recorded, is the next session's once it
      is settled, whatever shard it went to; and nothing else is. */
  lemma NextSessionRemembers(disk: Disk, root: Root, entries: map<Key, Entry>, seen: set<Key>, same: set<Key>, count: nat,
                             removed: set<nat>, name: Name, current: FileStat)
    requires count > 0
    ensures var after := Cleaned(WrittenDownTo(disk, root, ToFlush(entries, seen, same, root), count, {}, 0), root, count, removed);
            var key := Key(root, name);
            Answer(Keyed(root, Loaded(after, root)), key, current)
            == if key in seen || key in same then Answer(entries, key, current) else None
  {
    hide Cleaned;
    hide WrittenDownTo;
    hide Loaded;
    var kept := ToFlush(entries, seen, same, root);
    WriteThenPrepare(disk, root, kept, count, removed);
    var key := Key(root, name);
    assert name in kept <==> key in entries && (key in seen || key in same);
    assert key in Keyed(root, SettledOnly(kept)) <==> name in SettledOnly(kept);
  }

  /** FNV-1a's published values for "", "a" and "foobar". */
  lemma FnvVectors()
    ensures Fnv([]) == 0x811c9dc5
    ensures Fnv([0x61]) == 0xe40c292c
    ensures Fnv([0x66, 0x6f, 0x6f, 0x62, 0x61, 0x72]) == 0xbf9cf968
  {
    hide Fnv;
    var none: Name, a: Name := [], [0x61];
    FnvNone();
    FnvNext(none, 0x61, a, 0x811c9dc5, 0xe40c292c);
    var f: Name, fo: Name, foo: Name := [0x66], [0x66, 0x6f], [0x66, 0x6f, 0x6f];
    var foob: Name, fooba: Name := [0x66, 0x6f, 0x6f, 0x62], [0x66, 0x6f, 0x6f, 0x62, 0x61];
    var foobar: Name := [0x66, 0x6f, 0x6f, 0x62, 0x61, 0x72];
    FnvNext(none, 0x66, f, 0x811c9dc5, 0xe30c2799);
    FnvNext(f, 0x6f, fo, 0xe30c2799, 0x6222e842);
    FnvNext(fo, 0x6f, foo, 0x6222e842, 0xa9f37ed7);
    FnvNext(foo, 0x62, foob, 0xa9f37ed7, 0x3f5076ef);
    FnvNext(foob, 0x61, fooba, 0x3f5076ef, 0x39aaa18a);
    FnvNext(fooba, 0x72, foobar, 0x39aaa18a, 0xbf9cf968);
  }

  lemma FnvNone()
    ensures Fnv([]) == 0x811c9dc5
  {
  }

  lemma FnvNext(name: Name, last: bv8, all: Name, hash: bv32, next: bv32)
    requires all == name + [last] && Fnv(name) == hash && FnvStep(hash, last) == next
    ensures Fnv(all) == next
  {
    hide FnvStep;
    assert all[..|all| - 1] == name;
  }

  /** One session's memo over the cache directory's records. */
  class StatStore {
    var entries: map<Key, Entry>
    var seen: set<Key>
    var roots: set<Root>
    var disk: Disk

    constructor (disk: Disk)
      ensures entries == map[] && seen == {} && roots == {} && this.disk == disk
    {
      entries, seen, roots := map[], {}, {};
      this.disk := disk;
    }

    /** load: keeps a record's settled entries, in any order. */
    method Load(root: Root, record: Record)
      modifies `entries
      ensures entries == old(entries) + Keyed(root, SettledOnly(record.entries))
    {
      var todo := record.entries.Keys;
      ghost var loaded: map<Name, Entry> := map[];
      while todo != {}
        invariant todo <= record.entries.Keys
        invariant forall name :: name in loaded <==> name in record.entries && name !in todo && record.entries[name].Settled()
        invariant forall name :: name in loaded ==> loaded[name] == record.entries[name]
        invariant entries == old(entries) + Keyed(root, loaded)
      {
        var name :| name in todo;
        todo := todo - {name};
        if record.entries[name].Settled() {
          var e := record.entries[name];
          KeyedOne(root, loaded, name, e);
          Appended(old(entries), Keyed(root, loaded), Key(root, name), e);
          entries := entries[Key(root, name) := e];
          loaded := loaded[name := e];
        }
      }
      assert loaded == SettledOnly(record.entries);
    }

    /** The shards after the first, each missing one skipped. */
    method LoadRest(root: Root, count: nat, ghost base: map<Key, Entry>)
      requires count >= 1 && entries == base + Keyed(root, LoadedUpTo(disk, root, 1))
      modifies `entries
      ensures entries == base + Keyed(root, LoadedUpTo(disk, root, count))
    {
      for i := 1 to count
        invariant entries == base + Keyed(root, LoadedUpTo(disk, root, i))
      {
        LoadOneMore(disk, root, i, base);
        if (root, i) in disk {
          Load(root, disk[(root, i)]);
        }
      }
    }

    /** prepare: loads a root's persisted entries the first time it is snapshotted. */
    method Prepare(root: Root)
      modifies `entries, `roots
      ensures roots == old(roots) + {root}
      ensures entries == if root in old(roots) then old(entries) else old(entries) + Keyed(root, Loaded(disk, root))
    {
      if root in roots {
        return;
      }
      roots := roots + {root};
      if (root, 0) !in disk {
        assert entries + Keyed(root, map[]) == entries;
        return;
      }
      ghost var base := entries;
      LoadOneMore(disk, root, 0, base);
      assert base + Keyed(root, LoadedUpTo(disk, root, 0)) == base;
      Load(root, disk[(root, 0)]);
      LoadRest(root, if disk[(root, 0)].shards > 1 then disk[(root, 0)].shards else 1, base);
    }

    method Lookup(key: Key, current: FileStat) returns (value: Option<Value>)
      modifies `seen
      ensures value == Answer(entries, key, current)
      ensures seen == if value.Some? then old(seen) + {key} else old(seen)
    {
      if key !in entries || entries[key].stat != current || !entries[key].Settled() {
        return None;
      }
      seen := seen + {key};
      return Some(entries[key].value);
    }

    method Store(key: Key, current: FileStat, value: Value, hashedAt: int)
      modifies `entries, `seen
      ensures entries == old(entries)[key := Entry(current, value, hashedAt)]
      ensures seen == old(seen) + {key}
    {
      entries := entries[key := Entry(current, value, hashedAt)];
      seen := seen + {key};
    }

    /** write, cut short by a kill before shard `cut - 1` (0 for a completed write), with the
        records in `fails` refused.  Shard 0 is written last. */
    method Write(root: Root, kept: map<Name, Entry>, size: nat, limit: nat, fails: set<nat>, cut: nat, removed: set<nat>)
      returns (count: nat)
      modifies `disk
      ensures count > 0 && size / count <= limit / 2
      ensures disk == if cut == 0 then Cleaned(WrittenDownTo(old(disk), root, kept, count, fails, 0), root, count, removed)
                      else WrittenDownTo(old(disk), root, kept, count, fails, cut)
    {
      count := Shards(size, limit);
      var i := count;
      while i > cut
        invariant i <= count && (i >= cut || i == count)
        invariant disk == WrittenDownTo(old(disk), root, kept, count, fails, i)
      {
        i := i - 1;
        if i !in fails {
          disk := disk[(root, i) := ShardRecord(kept, i, count)];
        }
      }
      if cut == 0 {
        disk := Cleaned(disk, root, count, removed);
      }
    }
  }
}

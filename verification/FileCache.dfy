/** The sharded cache of open files: hash maps with usage stamps, refining the recency lists. */
module FileCaching {
  import opened Bytes
  import opened FileMetadata
  import opened HttpResponse
  import opened CacheSpec
  import opened CacheHistory

  const SHARDS: nat := 16

  datatype Entry = Entry(hit: Hit, used: nat, validatedAt: int)

  ghost predicate Holds(entries: map<string, Entry>, item: Item) {
    && item.key in entries
    && entries[item.key].hit == item.hit
    && entries[item.key].validatedAt == item.validated
  }

  /** The map holds exactly the items of the list, stamped in list order. */
  ghost predicate Mirrors(entries: map<string, Entry>, items: seq<Item>, clock: int) {
    && |entries| == |items|
    && (forall i :: 0 <= i < |items| ==> Holds(entries, items[i]) && entries[items[i].key].used <= clock)
    && (forall i, j :: 0 <= i < j < |items| ==> entries[items[i].key].used < entries[items[j].key].used)
  }

  /** Nothing but the items is in the map: they account for its size. */
  lemma InList(entries: map<string, Entry>, items: seq<Item>, clock: int, key: string)
    requires Mirrors(entries, items, clock) && Distinct(items)
    ensures key in entries <==> Position(items, key).Some?
  {
    var p := Position(items, key);
    if p.Some? {
      assert Holds(entries, items[p.value]);
    } else if key in entries {
      KeySetSize(items);
      var others := entries.Keys - {key};
      forall i | 0 <= i < |items| ensures items[i].key in others {
        assert Holds(entries, items[i]);
      }
      SubsetIsSmaller(KeySet(items), others);
    }
  }

  lemma SubsetIsSmaller<T>(a: set<T>, b: set<T>)
    requires a <= b
    ensures |a| <= |b|
  {
    assert b == a + (b - a);
  }

  /** Stamps are distinct, so the entry with the smallest one is the front of the list. */
  lemma SmallestIsFront(entries: map<string, Entry>, items: seq<Item>, clock: int, oldest: string)
    requires Mirrors(entries, items, clock) && Distinct(items)
    requires oldest in entries && forall k :: k in entries ==> entries[oldest].used <= entries[k].used
    ensures items != [] && items[0].key == oldest
  {
    InList(entries, items, clock, oldest);
    var p := Position(items, oldest).value;
    assert Holds(entries, items[0]) && items[p].key == oldest;
  }

  /** Dropping position `p` of the list and its key from the map. */
  lemma MirrorsDrop(entries: map<string, Entry>, items: seq<Item>, clock: int, p: nat)
    requires Mirrors(entries, items, clock)
    requires p < |items|
    ensures Mirrors(entries - {items[p].key}, items[..p] + items[p + 1..], clock)
  {
    var left, rest := entries - {items[p].key}, items[..p] + items[p + 1..];
    assert Holds(entries, items[p]);
    assert left.Keys == entries.Keys - {items[p].key};
    assert |left.Keys| == |entries.Keys| - 1;
    forall i | 0 <= i < |rest| ensures Holds(left, rest[i]) && left[rest[i].key] == entries[rest[i].key] {
      var q := if i < p then i else i + 1;
      assert rest[i] == items[q];
      assert Holds(entries, items[q]);
      assert entries[items[q].key].used != entries[items[p].key].used;
    }
  }

  lemma MirrorsDropFront(entries: map<string, Entry>, items: seq<Item>, clock: int)
    requires Mirrors(entries, items, clock) && items != []
    ensures Mirrors(entries - {items[0].key}, items[1..], clock)
  {
    MirrorsDrop(entries, items, clock, 0);
    assert items[..0] + items[1..] == items[1..];
  }

  lemma MirrorsRemove(entries: map<string, Entry>, items: seq<Item>, clock: int, key: string)
    requires Mirrors(entries, items, clock) && Distinct(items)
    ensures Mirrors(entries - {key}, Without(items, key), clock)
  {
    InList(entries, items, clock, key);
    var p := Position(items, key);
    if p.Some? {
      MirrorsDrop(entries, items, clock, p.value);
    } else {
      assert entries - {key} == entries;
    }
  }

  lemma MirrorsAdd(entries: map<string, Entry>, items: seq<Item>, clock: int, item: Item, used: nat)
    requires Mirrors(entries, items, clock) && item.key !in entries && clock < used
    ensures Mirrors(entries[item.key := Entry(item.hit, used, item.validated)], items + [item], used)
  {
    var entries', items' := entries[item.key := Entry(item.hit, used, item.validated)], items + [item];
    assert entries'.Keys == entries.Keys + {item.key};
    assert |entries'.Keys| == |entries.Keys| + 1;
    forall i | 0 <= i < |items| ensures Holds(entries', items'[i]) && entries'[items'[i].key] == entries[items[i].key] {
      assert Holds(entries, items[i]);
    }
  }

  /** Overwriting an entry moves its key to the recent end. */
  lemma MirrorsTouch(entries: map<string, Entry>, items: seq<Item>, clock: int, item: Item, used: nat)
    requires Mirrors(entries, items, clock) && Distinct(items) && clock < used
    ensures Mirrors(entries[item.key := Entry(item.hit, used, item.validated)], Without(items, item.key) + [item], used)
  {
    MirrorsRemove(entries, items, clock, item.key);
    var rest := Without(items, item.key);
    MirrorsAdd(entries - {item.key}, rest, clock, item, used);
    var e := Entry(item.hit, used, item.validated);
    assert (entries - {item.key})[item.key := e] == entries[item.key := e];
  }

  /** What a lookup of `key` finds in the list, read off the map. */
  lemma EntryIsItem(entries: map<string, Entry>, items: seq<Item>, clock: int, key: string)
    requires Mirrors(entries, items, clock) && Distinct(items)
    ensures key in entries <==> Position(items, key).Some?
    ensures Lookup(items, key) ==
      if key in entries then Some(Item(key, entries[key].hit, entries[key].validatedAt)) else None
  {
    InList(entries, items, clock, key);
    if key in entries {
      assert Holds(entries, items[Position(items, key).value]);
    }
  }

  class Shard {
    var entries: map<string, Entry>
    var clock: nat
    /** Every operation this shard served, in the order its lock was taken. */
    ghost var log: seq<Op>
    /** What each of them was told. */
    ghost var told: seq<Option<Hit>>

    ghost predicate Valid()
      reads this
    {
      Mirrors(entries, Replay(log), clock) && told == Answers(log)
    }

    constructor ()
      ensures Valid() && log == [] && entries == map[]
    {
      entries, clock, log, told := map[], 0, [], [];
    }

    ghost method Record(op: Op)
      modifies this`log, this`told
      ensures log == old(log) + [op] && Replay(log) == Apply(Replay(old(log)), op) && told == Answers(log)
    {
      log := log + [op];
      told := Answers(log);
      assert log[..|log| - 1] == old(log);
    }

    /** Refreshes the stamp of a usable entry and hands its contents out. */
    method Take(key: string, validatedAt: int, ghost op: Op) returns (hit: Hit)
      requires Mirrors(entries, Replay(log), clock - 1) && clock > 0 && key in entries
      requires op.key == key && (op.GetFresh? || op.Get?)
      requires Usable(Replay(log), op) == Some(Item(key, entries[key].hit, validatedAt))
      modifies this
      ensures Valid() && log == old(log) + [op] && clock == old(clock)
      ensures hit == old(entries)[key].hit
      ensures entries == old(entries)[key := Entry(hit, clock, validatedAt)]
    {
      hit := entries[key].hit;
      ReplayBounded(log);
      MirrorsTouch(entries, Replay(log), clock - 1, Item(key, hit, validatedAt), clock);
      entries := entries[key := Entry(hit, clock, validatedAt)];
      Record(op);
    }

    /** A miss still advances the clock. */
    ghost method Miss(op: Op)
      requires Mirrors(entries, Replay(log), clock - 1)
      requires (op.GetFresh? || op.Get?) && Usable(Replay(log), op).None?
      modifies this`log, this`told
      ensures Valid() && log == old(log) + [op]
    {
      assert Kept(Replay(log), op) + Added(Replay(log), op) == Replay(log);
      Record(op);
    }

    method GetFresh(key: string, now: int) returns (hit: Option<Hit>)
      requires Valid()
      modifies this
      ensures Valid() && log == old(log) + [Op.GetFresh(key, now)]
      ensures told == old(told) + [hit]
      ensures hit == Owed(old(log), old(told), Op.GetFresh(key, now))
    {
      AnswersSnoc(log, Op.GetFresh(key, now));
      AnswerIsOwed(log, Op.GetFresh(key, now));
      ReplayBounded(log);
      EntryIsItem(entries, Replay(log), clock, key);
      clock := clock + 1;
      if key !in entries || now - entries[key].validatedAt >= REVALIDATE_MILLIS {
        Miss(Op.GetFresh(key, now));
        return None;
      }
      var h := Take(key, entries[key].validatedAt, Op.GetFresh(key, now));
      return Some(h);
    }

    method Get(key: string, lstat: FileMeta, now: int) returns (hit: Option<Hit>)
      requires Valid()
      modifies this
      ensures Valid() && log == old(log) + [Op.Get(key, lstat, now)]
      ensures told == old(told) + [hit]
      ensures hit == Owed(old(log), old(told), Op.Get(key, lstat, now))
    {
      AnswersSnoc(log, Op.Get(key, lstat, now));
      AnswerIsOwed(log, Op.Get(key, lstat, now));
      ReplayBounded(log);
      EntryIsItem(entries, Replay(log), clock, key);
      clock := clock + 1;
      if key !in entries {
        Miss(Op.Get(key, lstat, now));
        return None;
      }
      var cached := entries[key].hit.metadata;
      if cached.ino != lstat.ino || cached.len != lstat.len
         || (cached.mtime, cached.mtimeNsec) != (lstat.mtime, lstat.mtimeNsec) {
        Miss(Op.Get(key, lstat, now));
        return None;
      }
      var h := Take(key, now, Op.Get(key, lstat, now));
      return Some(h);
    }

    /** The key with the smallest stamp, whatever order the map is walked in. */
    method Oldest() returns (oldest: string)
      requires entries != map[]
      ensures oldest in entries && forall k :: k in entries ==> entries[oldest].used <= entries[k].used
    {
      var todo := entries.Keys;
      oldest :| oldest in todo;
      todo := todo - {oldest};
      while todo != {}
        invariant todo <= entries.Keys && oldest in entries
        invariant forall k :: k in entries.Keys - todo ==> entries[oldest].used <= entries[k].used
        decreases todo
      {
        var k :| k in todo;
        if entries[k].used < entries[oldest].used {
          oldest := k;
        }
        todo := todo - {k};
      }
    }

    /** Makes room for a new key by dropping the oldest entry of a full shard. */
    method MakeRoom(ghost items: seq<Item>, key: string)
      requires Mirrors(entries, items, clock - 1) && Distinct(items) && key !in entries
      modifies this`entries
      ensures key !in entries
      ensures Mirrors(entries, if |items| >= CAPACITY_PER_SHARD then items[1..] else items, clock - 1)
    {
      if |entries| >= CAPACITY_PER_SHARD {
        var oldest := Oldest();
        SmallestIsFront(entries, items, clock - 1, oldest);
        MirrorsDropFront(entries, items, clock - 1);
        entries := entries - {oldest};
      }
    }

    /** A key the shard does not hold: make room, then add. */
    method InsertVacant(key: string, hit: Hit, now: int)
      requires Mirrors(entries, Replay(log), clock - 1) && clock > 0 && key !in entries
      modifies this
      ensures Valid() && log == old(log) + [Op.Insert(key, hit, now)]
    {
      ReplayBounded(log);
      InList(entries, Replay(log), clock - 1, key);
      MakeRoom(Replay(log), key);
      AddVacant(key, hit, now);
    }

    method AddVacant(key: string, hit: Hit, now: int)
      requires clock > 0 && key !in entries && Position(Replay(log), key).None?
      requires Mirrors(entries, Kept(Replay(log), Op.Insert(key, hit, now)), clock - 1)
      modifies this
      ensures Valid() && log == old(log) + [Op.Insert(key, hit, now)]
    {
      MirrorsAdd(entries, Kept(Replay(log), Op.Insert(key, hit, now)), clock - 1, Item(key, hit, now), clock);
      entries := entries[key := Entry(hit, clock, now)];
      Record(Op.Insert(key, hit, now));
    }

    /** A key the shard holds: replace its entry in place, evicting nothing. */
    method InsertOccupied(key: string, hit: Hit, now: int)
      requires Mirrors(entries, Replay(log), clock - 1) && clock > 0 && key in entries
      modifies this
      ensures Valid() && log == old(log) + [Op.Insert(key, hit, now)]
    {
      ghost var items := Replay(log);
      ReplayBounded(log);
      InList(entries, items, clock - 1, key);
      MirrorsTouch(entries, items, clock - 1, Item(key, hit, now), clock);
      entries := entries[key := Entry(hit, clock, now)];
      Record(Op.Insert(key, hit, now));
    }

    method Insert(key: string, hit: Hit, now: int)
      requires Valid()
      modifies this
      ensures Valid() && log == old(log) + [Op.Insert(key, hit, now)]
    {
      clock := clock + 1;
      if key in entries {
        InsertOccupied(key, hit, now);
      } else {
        InsertVacant(key, hit, now);
      }
    }

    method Remove(key: string)
      requires Valid()
      modifies this
      ensures Valid() && log == old(log) + [Op.Remove(key)]
    {
      ReplayBounded(log);
      MirrorsRemove(entries, Replay(log), clock, key);
      entries := entries - {key};
      assert Kept(Replay(log), Op.Remove(key)) + Added(Replay(log), Op.Remove(key)) == Without(Replay(log), key);
      Record(Op.Remove(key));
    }
  }

  /** Every call was about a key that hashes to this shard. */
  ghost predicate Belongs(log: seq<Op>, hash: string -> nat, i: nat) {
    forall n :: 0 <= n < |log| ==> hash(log[n].key) % SHARDS == i
  }

  lemma BelongsSnoc(log: seq<Op>, op: Op, hash: string -> nat, i: nat)
    requires Belongs(log, hash, i) && hash(op.key) % SHARDS == i
    ensures Belongs(log + [op], hash, i)
  {
  }

  class FileCache {
    const shards: seq<Shard>
    /** An arbitrary hash: nothing below depends on how it spreads keys. */
    const hash: string -> nat

    function ShardIndex(key: string): (i: nat)
      ensures i < SHARDS
    {
      hash(key) % SHARDS
    }

    /** Shard `i` is sound and only ever served keys that hash to it. */
    ghost predicate Sound(i: nat)
      requires i < |shards|
      reads this, shards[i]
    {
      shards[i].Valid() && Belongs(shards[i].log, hash, i)
    }

    /** What a call that serves `op` owes its caller now. */
    ghost function OwedNow(op: Op): Option<Hit>
      requires Valid()
      reads this, shards
    {
      assert Sound(ShardIndex(op.key));
      Owed(shards[ShardIndex(op.key)].log, shards[ShardIndex(op.key)].told, op)
    }

    ghost predicate Valid()
      reads this, shards
    {
      && |shards| == SHARDS
      && (forall i, j :: 0 <= i < SHARDS && 0 <= j < SHARDS && i != j ==> shards[i] != shards[j])
      && (forall i :: 0 <= i < SHARDS ==> Sound(i))
    }

    constructor (hash: string -> nat)
      ensures Valid() && forall i :: 0 <= i < SHARDS ==> fresh(shards[i]) && shards[i].log == []
    {
      this.hash := hash;
      var made: seq<Shard> := [];
      while |made| < SHARDS
        invariant |made| <= SHARDS
        invariant forall i :: 0 <= i < |made| ==> fresh(made[i]) && made[i].Valid() && made[i].log == []
        invariant forall i, j :: 0 <= i < j < |made| ==> made[i] != made[j]
      {
        var shard := new Shard();
        made := made + [shard];
      }
      shards := made;
      new;
      assert forall i :: 0 <= i < SHARDS ==> Sound(i);
    }

    method GetFresh(key: string, now: int) returns (hit: Option<Hit>)
      requires Valid()
      modifies shards[ShardIndex(key)]
      ensures Valid()
      ensures shards[ShardIndex(key)].log == old(shards[ShardIndex(key)].log) + [Op.GetFresh(key, now)]
      ensures shards[ShardIndex(key)].told == old(shards[ShardIndex(key)].told) + [hit]
      ensures hit == old(OwedNow(Op.GetFresh(key, now)))
    {
      var i := ShardIndex(key);
      assert Sound(i);
      BelongsSnoc(shards[i].log, Op.GetFresh(key, now), hash, i);
      hit := shards[i].GetFresh(key, now);
      assert Sound(i);
    }

    method Get(key: string, lstat: FileMeta, now: int) returns (hit: Option<Hit>)
      requires Valid()
      modifies shards[ShardIndex(key)]
      ensures Valid()
      ensures shards[ShardIndex(key)].log == old(shards[ShardIndex(key)].log) + [Op.Get(key, lstat, now)]
      ensures shards[ShardIndex(key)].told == old(shards[ShardIndex(key)].told) + [hit]
      ensures hit == old(OwedNow(Op.Get(key, lstat, now)))
    {
      var i := ShardIndex(key);
      assert Sound(i);
      BelongsSnoc(shards[i].log, Op.Get(key, lstat, now), hash, i);
      hit := shards[i].Get(key, lstat, now);
      assert Sound(i);
    }

    method Insert(key: string, hit: Hit, now: int)
      requires Valid()
      modifies shards[ShardIndex(key)]
      ensures Valid()
      ensures shards[ShardIndex(key)].log == old(shards[ShardIndex(key)].log) + [Op.Insert(key, hit, now)]
    {
      var i := ShardIndex(key);
      assert Sound(i);
      BelongsSnoc(shards[i].log, Op.Insert(key, hit, now), hash, i);
      shards[i].Insert(key, hit, now);
      assert Sound(i);
    }

    method Remove(key: string)
      requires Valid()
      modifies shards[ShardIndex(key)]
      ensures Valid()
      ensures shards[ShardIndex(key)].log == old(shards[ShardIndex(key)].log) + [Op.Remove(key)]
    {
      var i := ShardIndex(key);
      assert Sound(i);
      BelongsSnoc(shards[i].log, Op.Remove(key), hash, i);
      shards[i].Remove(key);
      assert Sound(i);
    }

    /** Other requests whose paths share a shard: any operations at all. */
    method OthersRequest(i: nat, ops: seq<Op>)
      requires Valid() && i < SHARDS && forall k :: 0 <= k < |ops| ==> ShardIndex(ops[k].key) == i
      modifies shards[i]
      ensures Valid() && shards[i].log == old(shards[i].log) + ops
    {
      ghost var log := shards[i].log;
      assert log + ops[..0] == log;
      for k := 0 to |ops|
        invariant Valid() && shards[i].log == log + ops[..k]
      {
        Perform(ops[k]);
        assert ops[..k + 1] == ops[..k] + [ops[k]];
        Associative(log, ops[..k], [ops[k]]);
      }
      assert ops[..|ops|] == ops;
    }

    method Perform(op: Op)
      requires Valid()
      modifies shards[ShardIndex(op.key)]
      ensures Valid() && shards[ShardIndex(op.key)].log == old(shards[ShardIndex(op.key)].log) + [op]
    {
      match op
      case GetFresh(key, now) => var hit := GetFresh(key, now);
      case Get(key, lstat, now) => var hit := Get(key, lstat, now);
      case Insert(key, hit, now) => Insert(key, hit, now);
      case Remove(key) => Remove(key);
    }

    /** The files held open by the first `n` shards, by their recency lists. */
    ghost function HeldOpen(n: nat): nat
      requires n <= |shards|
      reads shards
    {
      if n == 0 then 0 else HeldOpen(n - 1) + |Replay(shards[n - 1].log)|
    }

    /** The number of open files the cache holds is bounded whatever was requested. */
    method TotalLen() returns (total: nat)
      requires Valid()
      ensures total == HeldOpen(SHARDS) <= SHARDS * CAPACITY_PER_SHARD
    {
      total := 0;
      for i := 0 to SHARDS
        invariant total == HeldOpen(i) <= i * CAPACITY_PER_SHARD
      {
        assert Sound(i);
        ReplayBounded(shards[i].log);
        total := total + |shards[i].entries|;
      }
    }

    /** A key can only be found where its hash puts it. */
    lemma KeysLiveInTheirShard(i: nat, key: string)
      requires Valid() && i < SHARDS && key in shards[i].entries
      ensures ShardIndex(key) == i
    {
      assert Sound(i);
      var items := Replay(shards[i].log);
      ReplayBounded(shards[i].log);
      InList(shards[i].entries, items, shards[i].clock, key);
      var j, v := Provenance(shards[i].log, Position(items, key).value);
    }
  }
}

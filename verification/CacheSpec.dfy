/**
 One shard of the open-file cache as a plain recency list, and what every history of
 operations on it guarantees.
 */
module CacheSpec {
  import opened Bytes
  import opened FileMetadata
  import opened HttpResponse

  const CAPACITY_PER_SHARD: nat := 32
  const REVALIDATE_MILLIS: int := 1000

  /** Headers that depend on the path and the metadata only. */
  datatype CachedHeaders = CachedHeaders(
    contentType: Mime,
    lastModified: Option<int>,
    etag: Option<ETag>,
    disposition: Option<string>)

  /** What a hit hands out, in one piece. */
  datatype Hit = Hit(joined: string, file: nat, metadata: FileMeta, headers: CachedHeaders)

  datatype Item = Item(key: string, hit: Hit, validated: int)

  datatype Op =
    | GetFresh(key: string, now: int)
    | Get(key: string, lstat: FileMeta, now: int)
    | Insert(key: string, hit: Hit, now: int)
    | Remove(key: string)

  /** The four fields a hit compares. */
  predicate Matches(cached: FileMeta, lstat: FileMeta) {
    cached.ino == lstat.ino && cached.len == lstat.len
    && cached.mtime == lstat.mtime && cached.mtimeNsec == lstat.mtimeNsec
  }

  function Position(items: seq<Item>, key: string): (p: Option<nat>)
    ensures p.Some? ==> p.value < |items| && items[p.value].key == key
    ensures p.None? ==> forall i :: 0 <= i < |items| ==> items[i].key != key
  {
    if items == [] then None
    else if items[0].key == key then Some(0)
    else
      var rest := Position(items[1..], key);
      if rest.None? then
        assert forall i :: 1 <= i < |items| ==> items[i] == items[1..][i - 1];
        None
      else Some(rest.value + 1)
  }

  function Lookup(items: seq<Item>, key: string): Option<Item> {
    var p := Position(items, key);
    if p.None? then None else Some(items[p.value])
  }

  /** `items` with `key` taken out. */
  function Without(items: seq<Item>, key: string): seq<Item> {
    var p := Position(items, key);
    if p.None? then items else items[..p.value] + items[p.value + 1..]
  }

  ghost function KeySet(items: seq<Item>): set<string> {
    set i | 0 <= i < |items| :: items[i].key
  }

  lemma {:induction false} KeySetSize(items: seq<Item>)
    requires Distinct(items)
    ensures |KeySet(items)| == |items|
  {
    if items != [] {
      var front, last := items[..|items| - 1], items[|items| - 1].key;
      KeySetSize(front);
      forall k | k in KeySet(items) ensures k in KeySet(front) + {last} {
        var i :| 0 <= i < |items| && items[i].key == k;
        if i < |front| {
          assert front[i].key == k;
        }
      }
      forall i | 0 <= i < |front| ensures front[i].key in KeySet(items) && front[i].key != last {
        assert items[i] == front[i];
      }
      assert last in KeySet(items);
      assert KeySet(items) == KeySet(front) + {last};
      assert last !in KeySet(front);
    }
  }

  /** The entry a lookup may use, if any. */
  function Usable(items: seq<Item>, op: Op): Option<Item> {
    var found := Lookup(items, op.key);
    match op
    case GetFresh(_, now) =>
      if found.Some? && now - found.value.validated < REVALIDATE_MILLIS then found else None
    case Get(_, lstat, now) =>
      if found.Some? && Matches(found.value.hit.metadata, lstat) then Some(found.value.(validated := now)) else None
    case _ => None
  }

  /** The entries an operation leaves where they are. */
  function Kept(items: seq<Item>, op: Op): seq<Item> {
    match op
    case Insert(key, _, _) =>
      if Position(items, key).Some? then Without(items, key)
      else if |items| >= CAPACITY_PER_SHARD then items[1..]
      else items
    case Remove(key) => Without(items, key)
    case _ => if Usable(items, op).Some? then Without(items, op.key) else items
  }

  /** The entry an operation puts at the most recently used end, if any. */
  function Added(items: seq<Item>, op: Op): (a: seq<Item>)
    ensures |a| <= 1 && (a != [] ==> a[0].key == op.key)
  {
    match op
    case Insert(key, hit, now) => [Item(key, hit, now)]
    case Remove(_) => []
    case _ =>
      var used := Usable(items, op);
      if used.Some? then [used.value] else []
  }

  /** Least recently used first; a full shard makes room for a new key at the front. */
  function Apply(items: seq<Item>, op: Op): seq<Item> {
    Kept(items, op) + Added(items, op)
  }

  function Replay(log: seq<Op>): seq<Item> {
    if log == [] then [] else Apply(Replay(log[..|log| - 1]), log[|log| - 1])
  }

  predicate Distinct(items: seq<Item>) {
    forall i, j :: 0 <= i < j < |items| ==> items[i].key != items[j].key
  }

  lemma WithoutAt(items: seq<Item>, key: string)
    ensures
      var p, rest := Position(items, key), Without(items, key);
      if p.None? then rest == items else
        |rest| == |items| - 1 && forall i :: 0 <= i < |rest| ==> rest[i] == items[if i < p.value then i else i + 1]
  {
  }

  lemma WithoutIsGone(items: seq<Item>, key: string)
    requires Distinct(items)
    ensures Distinct(Without(items, key))
    ensures forall i :: 0 <= i < |Without(items, key)| ==> Without(items, key)[i].key != key
  {
    WithoutAt(items, key);
    var p, rest := Position(items, key), Without(items, key);
    if p.Some? {
      forall i | 0 <= i < |rest| ensures rest[i].key != key {
        assert rest[i] == items[if i < p.value then i else i + 1];
      }
    }
  }

  lemma KeptIsDistinct(items: seq<Item>, op: Op)
    requires Distinct(items)
    ensures Distinct(Kept(items, op))
    ensures Added(items, op) != [] ==> forall i :: 0 <= i < |Kept(items, op)| ==> Kept(items, op)[i].key != op.key
  {
    WithoutIsGone(items, op.key);
  }

  /** At most one entry a key, and never more than the capacity. */
  lemma {:induction false} ReplayBounded(log: seq<Op>)
    ensures Distinct(Replay(log)) && |Replay(log)| <= CAPACITY_PER_SHARD
  {
    if log != [] {
      var items, op := Replay(log[..|log| - 1]), log[|log| - 1];
      ReplayBounded(log[..|log| - 1]);
      KeptIsDistinct(items, op);
      WithoutAt(items, op.key);
    }
  }

  ghost predicate HasKey(items: seq<Item>, key: string) {
    Position(items, key).Some?
  }

  // ---------- bounded staleness ----------

  /**
   Where an entry comes from: the insert at `j` is the last insert or removal of its key, and
   the entry was last checked at `v`, by that insert or by a lookup whose `lstat` agreed with
   it in all four fields.
   */
  ghost predicate Backed(log: seq<Op>, item: Item, j: int, v: int) {
    && 0 <= j <= v < |log|
    && log[j].Insert? && log[j].key == item.key && log[j].hit == item.hit
    && (forall i :: j < i < |log| && log[i].key == item.key ==> !log[i].Insert? && !log[i].Remove?)
    && (v == j || (log[v].Get? && log[v].key == item.key && Matches(item.hit.metadata, log[v].lstat)))
    && !log[v].Remove? && log[v].now == item.validated
  }

  lemma {:induction false} Provenance(log: seq<Op>, i: nat) returns (j: int, v: int)
    requires i < |Replay(log)|
    ensures Backed(log, Replay(log)[i], j, v)
    decreases |log|
  {
    var front, op := log[..|log| - 1], log[|log| - 1];
    var items := Replay(front);
    assert log == front + [op];
    if i < |Kept(items, op)| {
      ReplayBounded(front);
      var from := CameFrom(items, op, i);
      j, v := Provenance(front, from);
      StillBacked(front, op, items[from], j, v, log);
    } else if op.Insert? {
      j, v := |front|, |front|;
      JustInserted(front, op, log);
    } else {
      var p := Position(items, op.key).value;
      j, v := Provenance(front, p);
      StillBacked(front, op, items[p], j, v, log);
      if op.Get? {
        Rechecked(front, op, items[p], j, v, log);
        v := |front|;
      }
    }
  }

  lemma JustInserted(front: seq<Op>, op: Op, log: seq<Op>)
    requires op.Insert? && log == front + [op]
    ensures Backed(log, Item(op.key, op.hit, op.now), |front|, |front|)
  {
  }

  lemma Rechecked(front: seq<Op>, op: Op, item: Item, j: int, v: int, log: seq<Op>)
    requires Backed(front, item, j, v) && log == front + [op]
    requires op.Get? && op.key == item.key && Matches(item.hit.metadata, op.lstat)
    ensures Backed(log, item.(validated := op.now), j, |front|)
  {
    assert forall i :: 0 <= i < |front| ==> log[i] == front[i];
  }

  lemma CameFrom(items: seq<Item>, op: Op, i: nat) returns (from: nat)
    requires Distinct(items) && i < |Kept(items, op)|
    ensures from < |items| && Kept(items, op)[i] == items[from]
    ensures op.Insert? || op.Remove? ==> items[from].key != op.key
  {
    WithoutAt(items, op.key);
    WithoutIsGone(items, op.key);
    var kept, p := Kept(items, op), Position(items, op.key);
    if kept == items {
      from := i;
    } else if p.Some? {
      from := if i < p.value then i else i + 1;
    } else {
      from := i + 1;
    }
  }

  lemma StillBacked(front: seq<Op>, op: Op, item: Item, j: int, v: int, log: seq<Op>)
    requires Backed(front, item, j, v) && log == front + [op]
    requires op.Insert? || op.Remove? ==> op.key != item.key
    ensures Backed(log, item, j, v)
  {
    assert forall i :: 0 <= i < |front| ==> log[i] == front[i];
  }

  /**
   Every hit without an `lstat` hands out, in one piece, what the last surviving insert of
   its key stored, and that insert or a four-field check of it is less than the window old.
   */
  lemma FreshHitIsBounded(log: seq<Op>, key: string, now: int) returns (j: int, v: int)
    requires Usable(Replay(log), GetFresh(key, now)).Some?
    ensures
      var item := Usable(Replay(log), GetFresh(key, now)).value;
      Backed(log, item, j, v) && item.key == key && now - log[v].now < REVALIDATE_MILLIS
  {
    j, v := Provenance(log, Position(Replay(log), key).value);
  }

  /** A hit after an `lstat` hands out what the last surviving insert stored, for this very file. */
  lemma CheckedHitIsCurrent(log: seq<Op>, key: string, lstat: FileMeta, now: int) returns (j: int, v: int)
    requires Usable(Replay(log), Get(key, lstat, now)).Some?
    ensures
      var hit := Usable(Replay(log), Get(key, lstat, now)).value.hit;
      && Matches(hit.metadata, lstat)
      && 0 <= j < |log| && log[j].Insert? && log[j].key == key && log[j].hit == hit
      && (forall i :: j < i < |log| && log[i].key == key ==> !log[i].Insert? && !log[i].Remove?)
  {
    j, v := Provenance(log, Position(Replay(log), key).value);
  }

  /**
   However often a hot file is requested, it is checked again: a run of hits without `lstat`
   after a check at `v` all fall inside that check's window.
   */
  lemma {:induction false} FreshHitsDoNotExtend(log: seq<Op>, more: seq<Op>, key: string)
    requires Lookup(Replay(log), key).Some?
    requires forall i :: 0 <= i < |more| ==> more[i].GetFresh?
    ensures Lookup(Replay(log + more), key) == Lookup(Replay(log), key)
    decreases |more|
  {
    if more == [] {
      assert log + more == log;
    } else {
      var front, op := more[..|more| - 1], more[|more| - 1];
      assert (log + more)[..|log + more| - 1] == log + front;
      FreshHitsDoNotExtend(log, front, key);
      ReplayBounded(log + front);
      FreshKeepsItem(Replay(log + front), op, key);
    }
  }

  lemma FreshKeepsItem(items: seq<Item>, op: Op, key: string)
    requires Distinct(items) && op.GetFresh? && Lookup(items, key).Some?
    ensures Lookup(Apply(items, op), key) == Lookup(items, key)
  {
    var items', p := Apply(items, op), Position(items, key).value;
    KeptIsDistinct(items, op);
    WithoutAt(items, op.key);
    var q := Position(items, op.key);
    var at := if Added(items, op) == [] then p
              else if op.key == key then |items'| - 1
              else if p < q.value then p else p - 1;
    assert items'[at] == items[p];
    FoundAt(items', at);
  }

  lemma FoundAt(items: seq<Item>, at: nat)
    requires at < |items| && Distinct(items)
    ensures Lookup(items, items[at].key) == Some(items[at])
  {
    var p := Position(items, items[at].key);
    assert items[p.value].key == items[at].key;
  }
}

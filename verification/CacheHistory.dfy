/**
 What a shard owes its callers, said without any list: everything here speaks of the calls
 made and of what each of them was told.
 */
module CacheHistory {
  import opened Bytes
  import opened FileMetadata
  import opened HttpResponse
  import opened CacheSpec

  function Answer(items: seq<Item>, op: Op): Option<Hit> {
    var used := Usable(items, op);
    if used.Some? then Some(used.value.hit) else None
  }

  /** What each call was told: a lookup its hit, if it had one; the others nothing. */
  function Answers(log: seq<Op>): (told: seq<Option<Hit>>)
    ensures |told| == |log|
  {
    if log == [] then []
    else
      var front, op := log[..|log| - 1], log[|log| - 1];
      Answers(front) + [Answer(Replay(front), op)]
  }

  lemma AnswersSnoc(front: seq<Op>, op: Op)
    ensures Answers(front + [op]) == Answers(front) + [Answer(Replay(front), op)]
    ensures Replay(front + [op]) == Apply(Replay(front), op)
  {
    assert (front + [op])[..|front|] == front;
  }

  /** The last call of a log and what it did. */
  lemma LastCall(log: seq<Op>) returns (front: seq<Op>, op: Op)
    requires log != []
    ensures |front| < |log| && log == front + [op]
    ensures Answers(log) == Answers(front) + [Answer(Replay(front), op)]
    ensures Replay(log) == Apply(Replay(front), op) && Distinct(Replay(front))
  {
    front, op := log[..|log| - 1], log[|log| - 1];
    ReplayBounded(front);
  }

  /** An insert uses its key, and so does a lookup that was told something. */
  predicate Uses(op: Op, told: Option<Hit>, key: string) {
    op.key == key && (op.Insert? || told.Some?)
  }

  function LastUse(log: seq<Op>, told: seq<Option<Hit>>, key: string): (t: int)
    requires |told| == |log|
    ensures -1 <= t < |log|
  {
    var n := |log|;
    if n == 0 then -1
    else if Uses(log[n - 1], told[n - 1], key) then n - 1
    else LastUse(log[..n - 1], told[..n - 1], key)
  }

  /** An insert checks its file, and so does a lookup with an `lstat` that was told something. */
  predicate Checks(op: Op, told: Option<Hit>, key: string) {
    op.key == key && (op.Insert? || (op.Get? && told.Some?))
  }

  function LastCheck(log: seq<Op>, told: seq<Option<Hit>>, key: string): (t: int)
    requires |told| == |log|
    ensures -1 <= t < |log|
    ensures t >= 0 ==> !log[t].Remove?
  {
    var n := |log|;
    if n == 0 then -1
    else if Checks(log[n - 1], told[n - 1], key) then n - 1
    else LastCheck(log[..n - 1], told[..n - 1], key)
  }

  predicate Stores(op: Op, key: string) {
    op.key == key && (op.Insert? || op.Remove?)
  }

  function LastStore(log: seq<Op>, key: string): (t: int)
    ensures -1 <= t < |log|
    ensures t >= 0 ==> log[t].key == key
  {
    var n := |log|;
    if n == 0 then -1
    else if Stores(log[n - 1], key) then n - 1
    else LastStore(log[..n - 1], key)
  }

  /** Inserted, and not removed since. */
  predicate Alive(log: seq<Op>, key: string) {
    LastStore(log, key) >= 0 && log[LastStore(log, key)].Insert?
  }

  function KeysOf(log: seq<Op>): set<string> {
    set i | 0 <= i < |log| :: log[i].key
  }

  predicate IsRival(log: seq<Op>, told: seq<Option<Hit>>, key: string, other: string)
    requires |told| == |log|
  {
    other != key && Alive(log, other) && LastUse(log, told, key) < LastUse(log, told, other)
  }

  /** The other keys alive that were used after `key`. */
  function Rivals(log: seq<Op>, told: seq<Option<Hit>>, key: string): set<string>
    requires |told| == |log|
  {
    set k | k in KeysOf(log) && IsRival(log, told, key, k)
  }

  /**
   The promise of a least-recently-used cache: using a key brings it in, and from then on it
   stays until it is removed or as many others as the shard holds are in use more recently.
   */
  predicate Present(log: seq<Op>, told: seq<Option<Hit>>, key: string)
    requires |told| == |log|
  {
    var n := |log|;
    if n == 0 then false
    else if Uses(log[n - 1], told[n - 1], key) then true
    else if log[n - 1] == Remove(key) then false
    else Present(log[..n - 1], told[..n - 1], key) && |Rivals(log, told, key)| < CAPACITY_PER_SHARD
  }

  /** These are the last such calls. */
  lemma {:induction false} LastIsLast(log: seq<Op>, told: seq<Option<Hit>>, key: string)
    requires |told| == |log|
    ensures
      var u, c, s := LastUse(log, told, key), LastCheck(log, told, key), LastStore(log, key);
      && (u >= 0 ==> Uses(log[u], told[u], key)) && (c >= 0 ==> Checks(log[c], told[c], key))
      && (s >= 0 ==> Stores(log[s], key))
      && (forall i :: u < i < |log| ==> !Uses(log[i], told[i], key))
      && (forall i :: c < i < |log| ==> !Checks(log[i], told[i], key))
      && (forall i :: s < i < |log| ==> !Stores(log[i], key))
  {
    if log != [] {
      LastIsLast(log[..|log| - 1], told[..|log| - 1], key);
    }
  }

  // ---------- one more call ----------

  lemma LastSnoc(log: seq<Op>, told: seq<Option<Hit>>, op: Op, t: Option<Hit>, key: string)
    requires |told| == |log|
    ensures LastUse(log + [op], told + [t], key) == if Uses(op, t, key) then |log| else LastUse(log, told, key)
    ensures LastCheck(log + [op], told + [t], key) == if Checks(op, t, key) then |log| else LastCheck(log, told, key)
    ensures LastStore(log + [op], key) == if Stores(op, key) then |log| else LastStore(log, key)
  {
    assert (log + [op])[..|log|] == log && (told + [t])[..|log|] == told;
  }

  lemma PresentSnoc(log: seq<Op>, told: seq<Option<Hit>>, op: Op, t: Option<Hit>, key: string)
    requires |told| == |log|
    ensures Present(log + [op], told + [t], key) <==>
      if Uses(op, t, key) then true
      else if op == Remove(key) then false
      else Present(log, told, key) && |Rivals(log + [op], told + [t], key)| < CAPACITY_PER_SHARD
  {
    assert (log + [op])[..|log|] == log && (told + [t])[..|log|] == told;
  }

  lemma AliveSnoc(log: seq<Op>, op: Op, key: string)
    ensures Alive(log + [op], key) <==> if Stores(op, key) then op.Insert? else Alive(log, key)
  {
    assert (log + [op])[..|log|] == log;
  }

  lemma RivalIsKnown(log: seq<Op>, told: seq<Option<Hit>>, key: string, other: string)
    requires |told| == |log|
    ensures other in Rivals(log, told, key) <==> IsRival(log, told, key, other)
  {
    if IsRival(log, told, key, other) {
      assert log[LastStore(log, other)].key == other;
    }
  }

  // ---------- the list keeps the promise ----------

  ghost predicate OrderedBy(items: seq<Item>, log: seq<Op>, told: seq<Option<Hit>>)
    requires |told| == |log|
  {
    forall i, j :: 0 <= i < j < |items| ==> LastUse(log, told, items[i].key) < LastUse(log, told, items[j].key)
  }

  /** What the list says of an item is what the calls say of its key. */
  ghost predicate IsExact(item: Item, log: seq<Op>, told: seq<Option<Hit>>)
    requires |told| == |log|
  {
    && Alive(log, item.key)
    && item.hit == log[LastStore(log, item.key)].hit
    && LastUse(log, told, item.key) >= LastStore(log, item.key)
    && LastCheck(log, told, item.key) >= 0
    && item.validated == log[LastCheck(log, told, item.key)].now
  }

  ghost predicate AllExact(items: seq<Item>, log: seq<Op>, told: seq<Option<Hit>>)
    requires |told| == |log|
  {
    forall i :: 0 <= i < |items| ==> IsExact(items[i], log, told)
  }

  /** Where an item that an operation leaves in place was before. */
  lemma KeptFrom(items: seq<Item>, op: Op, i: nat) returns (from: nat)
    requires Distinct(items) && i < |Kept(items, op)|
    ensures from < |items| && Kept(items, op)[i] == items[from]
    ensures Answer(items, op).Some? || op.Insert? || op.Remove? ==> items[from].key != op.key
  {
    from := CameFrom(items, op, i);
    WithoutIsGone(items, op.key);
  }

  lemma ExactStep(items: seq<Item>, log: seq<Op>, told: seq<Option<Hit>>, op: Op,
                  after: seq<Item>, log': seq<Op>, told': seq<Option<Hit>>)
    requires |told| == |log| && Distinct(items) && AllExact(items, log, told)
    requires after == Apply(items, op) && log' == log + [op] && told' == told + [Answer(items, op)]
    ensures AllExact(after, log', told')
  {
    var t := Answer(items, op);
    forall i | 0 <= i < |after| ensures IsExact(after[i], log', told') {
      LastSnoc(log, told, op, t, after[i].key);
      AliveSnoc(log, op, after[i].key);
      if i < |Kept(items, op)| {
        var from := KeptFrom(items, op, i);
        assert IsExact(items[from], log, told);
      } else if !op.Insert? {
        assert IsExact(items[Position(items, op.key).value], log, told);
      }
    }
  }

  /** Every entry is the last insert of its key, untouched, checked when a caller last was told so. */
  lemma {:induction false} ItemsAreExact(log: seq<Op>)
    ensures AllExact(Replay(log), log, Answers(log))
  {
    if log != [] {
      var front, op := LastCall(log);
      ItemsAreExact(front);
      ExactStep(Replay(front), front, Answers(front), op, Replay(log), log, Answers(log));
    }
  }

  // ---------- which keys stay ----------

  /** A new key in a full shard pushes the front out. */
  predicate Evicts(items: seq<Item>, op: Op) {
    op.Insert? && Position(items, op.key).None? && |items| >= CAPACITY_PER_SHARD
  }

  lemma HasKeyAt(items: seq<Item>, i: nat)
    requires i < |items|
    ensures HasKey(items, items[i].key)
  {
  }

  lemma KeysAfter(items: seq<Item>, op: Op, key: string)
    requires Distinct(items)
    ensures HasKey(Apply(items, op), key) <==>
      || Uses(op, Answer(items, op), key)
      || (HasKey(items, key) && op != Remove(key) && !(Evicts(items, op) && items[0].key == key))
  {
    var after, kept := Apply(items, op), Kept(items, op);
    if HasKey(after, key) {
      var at := Position(after, key).value;
      if at < |kept| {
        var from := KeptFrom(items, op, at);
        HasKeyAt(items, from);
        if Evicts(items, op) {
          assert kept[at] == items[at + 1];
        }
      }
    } else if Uses(op, Answer(items, op), key) {
      HasKeyAt(after, |kept|);
    } else if HasKey(items, key) && op != Remove(key) && !(Evicts(items, op) && items[0].key == key) {
      var at := StillAt(items, op, Position(items, key).value);
      HasKeyAt(after, at);
    }
  }

  /** Where an item that stays in place ends up. */
  lemma StillAt(items: seq<Item>, op: Op, from: nat) returns (at: nat)
    requires from < |items| && !(Evicts(items, op) && from == 0)
    requires Distinct(items) && !Uses(op, Answer(items, op), items[from].key) && op != Remove(items[from].key)
    ensures at < |Kept(items, op)| && Apply(items, op)[at] == items[from]
  {
    WithoutAt(items, op.key);
    var p := Position(items, op.key);
    at := if Evicts(items, op) then from - 1
          else if |Kept(items, op)| < |items| && p.Some? && p.value < from then from - 1
          else from;
  }

  lemma OrderedStep(items: seq<Item>, log: seq<Op>, told: seq<Option<Hit>>, op: Op,
                    after: seq<Item>, log': seq<Op>, told': seq<Option<Hit>>)
    requires |told| == |log| && Distinct(items) && OrderedBy(items, log, told)
    requires after == Apply(items, op) && log' == log + [op] && told' == told + [Answer(items, op)]
    ensures OrderedBy(after, log', told')
  {
    var t := Answer(items, op);
    forall i, j | 0 <= i < j < |after| ensures LastUse(log', told', after[i].key) < LastUse(log', told', after[j].key)
    {
      LastSnoc(log, told, op, t, after[i].key);
      LastSnoc(log, told, op, t, after[j].key);
      var a := KeptFrom(items, op, i);
      if j < |Kept(items, op)| {
        var b := KeptFrom(items, op, j);
        KeptInOrder(items, op, i, j, a, b);
      }
    }
  }

  lemma KeptInOrder(items: seq<Item>, op: Op, i: nat, j: nat, a: nat, b: nat)
    requires Distinct(items) && i < j < |Kept(items, op)| && a < |items| && b < |items|
    requires Kept(items, op)[i] == items[a] && Kept(items, op)[j] == items[b]
    ensures a < b
  {
    WithoutAt(items, op.key);
  }

  /** The list is ordered by last use, as callers saw it: least recently used first. */
  lemma {:induction false} OrderedByLastUse(log: seq<Op>)
    ensures OrderedBy(Replay(log), log, Answers(log))
  {
    if log != [] {
      var front, op := LastCall(log);
      OrderedByLastUse(front);
      OrderedStep(Replay(front), front, Answers(front), op, Replay(log), log, Answers(log));
    }
  }

  /** Whatever was used after a key that is held is held too. */
  ghost predicate RivalsHeld(items: seq<Item>, log: seq<Op>, told: seq<Option<Hit>>, key: string)
    requires |told| == |log|
  {
    HasKey(items, key) ==> forall k :: IsRival(log, told, key, k) ==> HasKey(items, k)
  }

  lemma RivalsStep(items: seq<Item>, log: seq<Op>, told: seq<Option<Hit>>, op: Op,
                   after: seq<Item>, log': seq<Op>, told': seq<Option<Hit>>, key: string)
    requires |told| == |log| && Distinct(items) && OrderedBy(items, log, told)
    requires after == Apply(items, op) && log' == log + [op] && told' == told + [Answer(items, op)]
    requires RivalsHeld(items, log, told, key)
    ensures RivalsHeld(after, log', told', key)
  {
    var t := Answer(items, op);
    forall k | HasKey(after, key) && IsRival(log', told', key, k) ensures HasKey(after, k) {
      LastSnoc(log, told, op, t, key);
      LastSnoc(log, told, op, t, k);
      AliveSnoc(log, op, k);
      KeysAfter(items, op, key);
      KeysAfter(items, op, k);
    }
  }

  lemma {:induction false} RivalsAreHeld(log: seq<Op>, key: string)
    ensures RivalsHeld(Replay(log), log, Answers(log), key)
  {
    if log != [] {
      var front, op := LastCall(log);
      RivalsAreHeld(front, key);
      OrderedByLastUse(front);
      RivalsStep(Replay(front), front, Answers(front), op, Replay(log), log, Answers(log), key);
    }
  }

  /** A key that is held has fewer rivals than the shard has places. */
  lemma HeldHasFewRivals(log: seq<Op>, key: string)
    requires HasKey(Replay(log), key)
    ensures |Rivals(log, Answers(log), key)| < CAPACITY_PER_SHARD
  {
    var items, told := Replay(log), Answers(log);
    ReplayBounded(log);
    KeySetSize(items);
    RivalsAreHeld(log, key);
    assert items[Position(items, key).value].key == key;
    assert key in KeySet(items);
    forall k | k in Rivals(log, told, key) ensures k in KeySet(items) - {key} {
      assert items[Position(items, k).value].key == k;
    }
    SmallerSet(Rivals(log, told, key), KeySet(items) - {key});
  }

  lemma SmallerSet<T>(a: set<T>, b: set<T>)
    requires a <= b
    ensures |a| <= |b|
  {
    assert b == a + (b - a);
  }

  /** Bringing in a new key makes a rival of every key behind the front, and of itself. */
  lemma RivalOfFront(items: seq<Item>, log: seq<Op>, told: seq<Option<Hit>>, op: Op, i: nat)
    requires |told| == |log| && OrderedBy(items, log, told) && AllExact(items, log, told)
    requires Distinct(items) && Evicts(items, op) && i < |items|
    ensures
      var k := if i == 0 then op.key else items[i].key;
      k in Rivals(log + [op], told + [None], items[0].key)
  {
    var k := if i == 0 then op.key else items[i].key;
    LastSnoc(log, told, op, None, items[0].key);
    LastSnoc(log, told, op, None, k);
    AliveSnoc(log, op, k);
    assert IsExact(items[i], log, told);
    RivalIsKnown(log + [op], told + [None], items[0].key, k);
  }

  /** A key that is pushed out has as many rivals as the shard has places. */
  lemma EvictedHasManyRivals(log: seq<Op>, op: Op)
    requires Evicts(Replay(log), op)
    ensures |Rivals(log + [op], Answers(log + [op]), Replay(log)[0].key)| >= CAPACITY_PER_SHARD
  {
    var items := Replay(log);
    AnswersSnoc(log, op);
    ReplayBounded(log);
    OrderedByLastUse(log);
    ItemsAreExact(log);
    RivalsOfFront(items, log, Answers(log), op);
  }

  lemma ManyOthers(items: seq<Item>, key: string, rivals: set<string>)
    requires Distinct(items) && items != [] && Position(items, key).None?
    requires forall i :: 0 <= i < |items| ==> (if i == 0 then key else items[i].key) in rivals
    ensures |rivals| >= |items|
  {
    var others := items[1..];
    KeySetSize(others);
    forall k | k in KeySet(others) ensures k in rivals - {key} {
      var i :| 0 <= i < |others| && others[i].key == k;
      assert items[i + 1] == others[i];
    }
    SmallerSet(KeySet(others), rivals - {key});
  }

  lemma RivalsOfFront(items: seq<Item>, log: seq<Op>, told: seq<Option<Hit>>, op: Op)
    requires |told| == |log| && OrderedBy(items, log, told) && AllExact(items, log, told)
    requires Distinct(items) && Evicts(items, op)
    ensures |Rivals(log + [op], told + [None], items[0].key)| >= |items|
  {
    var rivals := Rivals(log + [op], told + [None], items[0].key);
    forall i | 0 <= i < |items| ensures (if i == 0 then op.key else items[i].key) in rivals {
      RivalOfFront(items, log, told, op, i);
    }
    ManyOthers(items, op.key, rivals);
  }

  /** The list holds exactly the keys that the calls and their answers say are present. */
  lemma {:induction false} HoldsExactlyThePresent(log: seq<Op>, key: string)
    ensures HasKey(Replay(log), key) <==> Present(log, Answers(log), key)
  {
    if log != [] {
      var front, op := LastCall(log);
      var items, told := Replay(front), Answers(front);
      HoldsExactlyThePresent(front, key);
      PresentSnoc(front, told, op, Answer(items, op), key);
      KeysAfter(items, op, key);
      if Evicts(items, op) && items[0].key == key {
        EvictedHasManyRivals(front, op);
      }
      if HasKey(Replay(log), key) {
        HeldHasFewRivals(log, key);
      }
    }
  }

  // ---------- what callers can count on ----------

  /** The last check of `key` is less than the window old. */
  predicate Recent(log: seq<Op>, told: seq<Option<Hit>>, key: string, now: int)
    requires |told| == |log|
  {
    var c := LastCheck(log, told, key);
    c >= 0 && now - log[c].now < REVALIDATE_MILLIS
  }

  /** What a call must be told after `log`, given what the earlier ones were told. */
  function Owed(log: seq<Op>, told: seq<Option<Hit>>, op: Op): Option<Hit>
    requires |told| == |log|
  {
    if !Alive(log, op.key) || !Present(log, told, op.key) then None
    else
      var stored := log[LastStore(log, op.key)].hit;
      match op
      case GetFresh(key, now) => if Recent(log, told, key, now) then Some(stored) else None
      case Get(_, lstat, _) => if Matches(stored.metadata, lstat) then Some(stored) else None
      case _ => None
  }

  /** The list answers as it owes: the whole behaviour of a shard, without the list. */
  lemma AnswerIsOwed(log: seq<Op>, op: Op)
    ensures Answer(Replay(log), op) == Owed(log, Answers(log), op)
  {
    var items := Replay(log);
    HoldsExactlyThePresent(log, op.key);
    ItemsAreExact(log);
    var p := Position(items, op.key);
    if p.Some? {
      assert IsExact(items[p.value], log, Answers(log));
    }
  }

  /** The other keys used since `key` was. */
  function OthersSince(log: seq<Op>, told: seq<Option<Hit>>, key: string): set<string>
    requires |told| == |log|
  {
    set i | LastUse(log, told, key) < i < |log| && log[i].key != key && Uses(log[i], told[i], log[i].key) :: log[i].key
  }

  /** A key stays at least as long as fewer others than the shard has places are used after it. */
  lemma {:induction false} Remembered(log: seq<Op>, told: seq<Option<Hit>>, key: string)
    requires |told| == |log| && Alive(log, key)
    requires |OthersSince(log, told, key)| < CAPACITY_PER_SHARD
    ensures Present(log, told, key)
  {
    var n := |log| - 1;
    var others := OthersSince(log, told, key);
    if !Uses(log[n], told[n], key) {
      assert forall i :: 0 <= i < n ==> log[..n][i] == log[i] && told[..n][i] == told[i];
      SmallerSet(OthersSince(log[..n], told[..n], key), others);
      Remembered(log[..n], told[..n], key);
      forall k | k in Rivals(log, told, key) ensures k in others {
        LastIsLast(log, told, k);
      }
      SmallerSet(Rivals(log, told, key), others);
    }
  }

  /**
   An insert evicts only when it brings a new key to a full shard, and then exactly one key:
   the one whose last use is oldest. In every other case all keys stay.
   */
  lemma EvictedIsLeastRecent(log: seq<Op>, op: Op)
    requires op.Insert?
    ensures
      var before, after, told := Replay(log), Replay(log + [op]), Answers(log);
      && HasKey(after, op.key)
      && if HasKey(before, op.key) || |before| < CAPACITY_PER_SHARD then
           forall i :: 0 <= i < |before| ==> HasKey(after, before[i].key)
         else
           && !HasKey(after, before[0].key)
           && forall i :: 0 < i < |before| ==>
                && HasKey(after, before[i].key)
                && LastUse(log, told, before[0].key) < LastUse(log, told, before[i].key)
  {
    AnswersSnoc(log, op);
    ReplayBounded(log);
    OrderedByLastUse(log);
    InsertEvicts(Replay(log), log, Answers(log), op);
  }

  lemma InsertEvicts(before: seq<Item>, log: seq<Op>, told: seq<Option<Hit>>, op: Op)
    requires |told| == |log| && Distinct(before) && OrderedBy(before, log, told) && op.Insert?
    ensures
      var after := Apply(before, op);
      && HasKey(after, op.key)
      && if HasKey(before, op.key) || |before| < CAPACITY_PER_SHARD then
           forall i :: 0 <= i < |before| ==> HasKey(after, before[i].key)
         else
           && !HasKey(after, before[0].key)
           && forall i :: 0 < i < |before| ==>
                && HasKey(after, before[i].key)
                && LastUse(log, told, before[0].key) < LastUse(log, told, before[i].key)
  {
    var after := Apply(before, op);
    KeysAfter(before, op, op.key);
    forall i | 0 <= i < |before|
      ensures HasKey(after, before[i].key) <==> !(Evicts(before, op) && i == 0)
    {
      HasKeyAt(before, i);
      KeysAfter(before, op, before[i].key);
    }
  }
}

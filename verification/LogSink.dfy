/**
 The sharded log sink. Appenders lock one shard; a flusher holds the writing lock for its
 whole pass and each shard's lock only while it takes that shard's bytes. Every interleaving
 of threads is therefore a sequence of the atomic sections below.
 */
module LogSinks {
  import opened Bytes

  const LOG_BATCH: nat := 64 * 1024
  const LOG_PENDING_MAX: nat := 4 * 1024 * 1024
  const SHARDS: nat := 32
  const LOG_PENDING_MAX_PER_SHARD: nat := LOG_PENDING_MAX / SHARDS

  type Line = seq<byte>

  /** The thread inside `flush`: the shard it is at, and the batch it took but has not written. */
  datatype Flushing = Flushing(next: nat, batch: Option<seq<byte>>, wrote: bool)

  /** One atomic section of some thread; a write fails after `n` bytes unless it is `ok`. */
  datatype Section = Appending(shard: nat, line: Line) | Beginning | Taking | Writing(ok: bool, n: nat) | Ending

  // ---------- the sections as functions ----------

  /** What the sink consists of. */
  datatype View = View(pending: seq<seq<byte>>, flushing: Option<Flushing>, output: seq<byte>)

  /** A section whose lock is held, or whose turn it is not, does not happen. */
  function Exec(v: View, section: Section): View {
    match section
    case Appending(shard, line) =>
      if shard < |v.pending| && |v.pending[shard]| < LOG_PENDING_MAX_PER_SHARD
      then v.(pending := v.pending[shard := v.pending[shard] + line]) else v
    case Beginning =>
      if v.flushing.None? then v.(flushing := Some(Flushing(0, None, false))) else v
    case Taking =>
      if v.flushing.None? || v.flushing.value.batch.Some? || v.flushing.value.next >= |v.pending| then v
      else
        var f := v.flushing.value;
        var batch := v.pending[f.next];
        v.(pending := v.pending[f.next := []],
           flushing := Some(if batch == [] then f.(next := f.next + 1) else f.(batch := Some(batch))))
    case Writing(ok, n) =>
      if v.flushing.None? || v.flushing.value.batch.None? then v
      else
        var f := v.flushing.value;
        if ok then v.(output := v.output + f.batch.value, flushing := Some(Flushing(f.next + 1, None, true)))
        else v.(output := v.output + f.batch.value[..Min(n, |f.batch.value|)], flushing := None)
    case Ending =>
      if v.flushing.Some? && v.flushing.value.batch.None? && v.flushing.value.next == |v.pending|
      then v.(flushing := None) else v
  }

  // ---------- histories ----------

  /** One write to the output: whole lines of one shard, and how much of them was written. */
  datatype Batch = Batch(shard: nat, lines: seq<Line>, ok: bool, bytes: seq<byte>)

  predicate BatchOk(b: Batch) {
    b.bytes <= Flatten(b.lines) && (b.ok ==> b.bytes == Flatten(b.lines))
  }

  /** The lines of shard `i` that left it for the output, in order: written, or lost with a failed write. */
  function TakenBy(out: seq<Batch>, i: nat): seq<Line> {
    if out == [] then []
    else
      var last := out[|out| - 1];
      TakenBy(out[..|out| - 1], i) + (if last.shard == i then last.lines else [])
  }

  /** The bytes a sequence of batches puts on the output. */
  function BytesOf(out: seq<Batch>): seq<byte> {
    if out == [] then [] else BytesOf(out[..|out| - 1]) + out[|out| - 1].bytes
  }

  ghost predicate NoFailure(out: seq<Batch>) {
    forall k :: 0 <= k < |out| ==> out[k].ok
  }

  lemma OutSnoc(out: seq<Batch>, b: Batch)
    ensures BytesOf(out + [b]) == BytesOf(out) + b.bytes
    ensures TakenBy(out + [b], b.shard) == TakenBy(out, b.shard) + b.lines
  {
    assert (out + [b])[..|out|] == out;
  }

  lemma OutOther(out: seq<Batch>, b: Batch, i: nat)
    requires i != b.shard
    ensures TakenBy(out + [b], i) == TakenBy(out, i)
  {
    assert (out + [b])[..|out|] == out;
  }

  lemma PassSnoc(out: seq<Batch>, b: Batch, from: nat)
    requires from <= |out| && NoFailure(out[from..]) && BatchOk(b)
    requires forall k :: 0 <= k < |out| ==> BatchOk(out[k])
    ensures b.ok ==> NoFailure((out + [b])[from..])
    ensures forall k :: 0 <= k < |out + [b]| ==> BatchOk((out + [b])[k])
  {
    assert (out + [b])[from..] == out[from..] + [b];
  }

  /** Without write errors the output consists of the lines taken, whole and in order. */
  function LinesOf(out: seq<Batch>): seq<Line> {
    if out == [] then [] else LinesOf(out[..|out| - 1]) + out[|out| - 1].lines
  }

  lemma {:induction false} OutputIsWholeLines(out: seq<Batch>)
    requires NoFailure(out) && forall k :: 0 <= k < |out| ==> BatchOk(out[k])
    ensures BytesOf(out) == Flatten(LinesOf(out))
  {
    if out != [] {
      var front, last := out[..|out| - 1], out[|out| - 1];
      OutputIsWholeLines(front);
      FlattenAppend(LinesOf(front), last.lines);
    }
  }

  predicate NoEmptyLine(lines: seq<Line>) {
    forall k :: 0 <= k < |lines| ==> lines[k] != []
  }

  lemma NothingWaits(lines: seq<Line>)
    requires NoEmptyLine(lines)
    ensures Flatten(lines) == [] <==> lines == []
  {
    if lines != [] {
      assert Flatten(lines)[0] == lines[0][0];
    }
  }

  /**
   One shard: the bytes waiting are whole lines, no accepted line is dropped, repeated, reordered
   or torn, and the last line that got in found the shard below its limit.
   */
  ghost predicate ShardOk(bytes: seq<byte>, accepted: seq<Line>, taken: seq<Line>, held: seq<Line>,
                          waiting: seq<Line>) {
    && bytes == Flatten(waiting) && NoEmptyLine(waiting)
    && accepted == taken + (held + waiting)
    && (waiting != [] ==> |Flatten(waiting[..|waiting| - 1])| < LOG_PENDING_MAX_PER_SHARD)
  }

  lemma AppendKeepsShard(bytes: seq<byte>, accepted: seq<Line>, taken: seq<Line>, held: seq<Line>, waiting: seq<Line>,
                         line: Line)
    requires ShardOk(bytes, accepted, taken, held, waiting) && line != []
    requires |bytes| < LOG_PENDING_MAX_PER_SHARD
    ensures ShardOk(bytes + line, accepted + [line], taken, held, waiting + [line])
  {
    FlattenSnoc(waiting, line);
    Associative(held, waiting, [line]);
    Associative(taken, held + waiting, [line]);
    assert (waiting + [line])[..|waiting|] == waiting;
  }

  lemma TakeKeepsShard(bytes: seq<byte>, accepted: seq<Line>, taken: seq<Line>, waiting: seq<Line>)
    requires ShardOk(bytes, accepted, taken, [], waiting)
    ensures ShardOk([], accepted, taken, waiting, [])
    ensures bytes == [] ==> waiting == []
  {
    assert [] + waiting == waiting == waiting + [];
    if bytes == [] {
      NothingWaits(waiting);
    }
  }

  lemma WriteKeepsShard(bytes: seq<byte>, accepted: seq<Line>, taken: seq<Line>, held: seq<Line>, waiting: seq<Line>)
    requires ShardOk(bytes, accepted, taken, held, waiting)
    ensures ShardOk(bytes, accepted, taken + held, [], waiting)
  {
    assert [] + waiting == waiting;
    Associative(taken, held, waiting);
  }

  /** What happened so far, shard by shard, in whole lines. */
  datatype History = History(
    accepted: seq<seq<Line>>,
    inFlight: seq<Line>,
    waiting: seq<seq<Line>>,
    out: seq<Batch>,
    // `accepted` and `|out|` as they were when the current flush began
    before: seq<seq<Line>>,
    outBefore: nat)

  /** The history after a section. */
  function Follow(v: View, h: History, section: Section): History
    requires Shaped(v, h)
  {
    match section
    case Appending(shard, line) =>
      if shard < SHARDS && |v.pending[shard]| < LOG_PENDING_MAX_PER_SHARD && line != [] then
        h.(accepted := h.accepted[shard := h.accepted[shard] + [line]],
           waiting := h.waiting[shard := h.waiting[shard] + [line]])
      else h
    case Beginning => if v.flushing.None? then h.(before := h.accepted, outBefore := |h.out|) else h
    case Taking =>
      if v.flushing.None? || v.flushing.value.batch.Some? || v.flushing.value.next >= SHARDS then h
      else
        var at := v.flushing.value.next;
        if v.pending[at] == [] then h else h.(inFlight := h.waiting[at], waiting := h.waiting[at := []])
    case Writing(ok, n) =>
      if v.flushing.None? || v.flushing.value.batch.None? then h
      else h.(inFlight := [], out := h.out + [Given(v, h, ok, n)])
    case Ending => h
  }

  /** The batch in hand, given to an output that takes all of it or `n` bytes. */
  function Given(v: View, h: History, ok: bool, n: nat): Batch
    requires v.flushing.Some? && v.flushing.value.batch.Some?
  {
    var batch := v.flushing.value.batch.value;
    Batch(v.flushing.value.next, h.inFlight, ok, if ok then batch else batch[..Min(n, |batch|)])
  }

  predicate Shaped(v: View, h: History) {
    |v.pending| == |h.accepted| == |h.waiting| == |h.before| == SHARDS
  }

  /** The lines of shard `i` that are in the flusher's hand. */
  function Held(v: View, h: History, i: nat): seq<Line> {
    if v.flushing.Some? && v.flushing.value.batch.Some? && v.flushing.value.next == i then h.inFlight else []
  }

  ghost predicate Conserved(v: View, h: History, i: nat)
    requires Shaped(v, h) && i < SHARDS
  {
    ShardOk(v.pending[i], h.accepted[i], TakenBy(h.out, i), Held(v, h, i), h.waiting[i])
  }

  /** The current flush has taken shard `i` already. */
  predicate Passed(v: View, i: nat) {
    v.flushing.Some? &&
    (i < v.flushing.value.next || (i == v.flushing.value.next && v.flushing.value.batch.Some?))
  }

  /** What the current flush owes: all lines accepted before it began, in the shards it has taken. */
  ghost predicate OnTheWay(v: View, h: History, i: nat)
    requires Shaped(v, h) && i < SHARDS
  {
    v.flushing.Some? ==>
      h.before[i] <= h.accepted[i] && (Passed(v, i) ==> h.before[i] <= TakenBy(h.out, i) + Held(v, h, i))
  }

  /** The pass so far: every write of it succeeded. */
  ghost predicate InPass(v: View, h: History) {
    v.flushing.Some? ==>
      var f := v.flushing.value;
      && f.next <= SHARDS && h.outBefore <= |h.out| && NoFailure(h.out[h.outBefore..])
      && (f.wrote <==> |h.out| > h.outBefore)
      && (f.batch.Some? ==> f.next < SHARDS && f.batch.value == Flatten(h.inFlight))
  }

  ghost predicate Output(v: View, h: History) {
    v.output == BytesOf(h.out) && forall k :: 0 <= k < |h.out| ==> BatchOk(h.out[k])
  }

  ghost predicate Inv(v: View, h: History) {
    && Shaped(v, h) && Output(v, h) && InPass(v, h)
    && (forall i :: 0 <= i < SHARDS ==> Conserved(v, h, i) && OnTheWay(v, h, i))
  }

  lemma AppendKeeps(v: View, h: History, shard: nat, line: Line)
    requires Inv(v, h) && shard < SHARDS && |v.pending[shard]| < LOG_PENDING_MAX_PER_SHARD
    ensures Inv(Exec(v, Appending(shard, line)), Follow(v, h, Appending(shard, line)))
  {
    var v', h' := Exec(v, Appending(shard, line)), Follow(v, h, Appending(shard, line));
    assert Conserved(v, h, shard) && OnTheWay(v, h, shard);
    if line == [] {
      assert v.pending[shard] + line == v.pending[shard];
      assert v' == v;
    } else {
      var taken, held := TakenBy(h.out, shard), Held(v, h, shard);
      AppendKeepsShard(v.pending[shard], h.accepted[shard], taken, held, h.waiting[shard], line);
      forall i | 0 <= i < SHARDS ensures Conserved(v', h', i) && OnTheWay(v', h', i) {
        assert Conserved(v, h, i) && OnTheWay(v, h, i);
      }
    }
  }

  lemma BeginKeeps(v: View, h: History)
    requires Inv(v, h)
    ensures Inv(Exec(v, Beginning), Follow(v, h, Beginning))
  {
    var v', h' := Exec(v, Beginning), Follow(v, h, Beginning);
    forall i | 0 <= i < SHARDS ensures Conserved(v', h', i) && OnTheWay(v', h', i) {
      assert Conserved(v, h, i) && OnTheWay(v, h, i);
    }
  }

  lemma TakeKeeps(v: View, h: History)
    requires Inv(v, h) && v.flushing.Some? && v.flushing.value.batch.None? && v.flushing.value.next < SHARDS
    ensures Inv(Exec(v, Taking), Follow(v, h, Taking))
  {
    var v', h' := Exec(v, Taking), Follow(v, h, Taking);
    var at := v.flushing.value.next;
    forall i | 0 <= i < SHARDS ensures Conserved(v', h', i) && OnTheWay(v', h', i) {
      assert Conserved(v, h, i) && OnTheWay(v, h, i);
      if i == at {
        TakeKeepsTaken(v, h);
      }
    }
    assert Conserved(v, h, at);
  }

  lemma TakeKeepsTaken(v: View, h: History)
    requires Shaped(v, h) && v.flushing.Some? && v.flushing.value.batch.None? && v.flushing.value.next < SHARDS
    requires Conserved(v, h, v.flushing.value.next) && OnTheWay(v, h, v.flushing.value.next)
    ensures
      var v', h' := Exec(v, Taking), Follow(v, h, Taking);
      Conserved(v', h', v.flushing.value.next) && OnTheWay(v', h', v.flushing.value.next)
  {
    var at := v.flushing.value.next;
    TakeKeepsShard(v.pending[at], h.accepted[at], TakenBy(h.out, at), h.waiting[at]);
    assert TakenBy(h.out, at) + (h.waiting[at] + []) == TakenBy(h.out, at) + h.waiting[at];
  }

  lemma WriteLeads(v: View, ok: bool, n: nat)
    requires v.flushing.Some? && v.flushing.value.batch.Some?
    ensures
      var batch := v.flushing.value.batch.value;
      Exec(v, Writing(ok, n)) == View(
        v.pending,
        if ok then Some(Flushing(v.flushing.value.next + 1, None, true)) else None,
        v.output + (if ok then batch else batch[..Min(n, |batch|)]))
  {
  }

  /** `v'` and `h'` come from `v` and `h` by giving the batch in hand to the output as `b`. */
  ghost predicate Gave(v: View, h: History, v': View, h': History, b: Batch) {
    && v.flushing.Some? && v.flushing.value.batch.Some?
    && var at := v.flushing.value.next;
       && b.shard == at && b.lines == h.inFlight
       && v' == v.(output := v.output + b.bytes,
                   flushing := if b.ok then Some(Flushing(at + 1, None, true)) else None)
       && h' == h.(inFlight := [], out := h.out + [b])
  }

  lemma WriteKeeps(v: View, h: History, ok: bool, n: nat)
    requires Inv(v, h) && v.flushing.Some? && v.flushing.value.batch.Some?
    ensures Inv(Exec(v, Writing(ok, n)), Follow(v, h, Writing(ok, n)))
  {
    WriteLeads(v, ok, n);
    GivenIsOk(v, h, ok, n);
    GaveKeeps(v, h, Exec(v, Writing(ok, n)), Follow(v, h, Writing(ok, n)), Given(v, h, ok, n));
  }

  lemma GivenIsOk(v: View, h: History, ok: bool, n: nat)
    requires InPass(v, h) && v.flushing.Some? && v.flushing.value.batch.Some?
    ensures BatchOk(Given(v, h, ok, n))
  {
  }

  lemma GaveKeeps(v: View, h: History, v': View, h': History, b: Batch)
    requires Inv(v, h) && Gave(v, h, v', h', b) && BatchOk(b)
    ensures Inv(v', h')
  {
    OutSnoc(h.out, b);
    PassSnoc(h.out, b, h.outBefore);
    forall i | 0 <= i < SHARDS ensures Conserved(v', h', i) && OnTheWay(v', h', i) {
      assert Conserved(v, h, i) && OnTheWay(v, h, i);
      if i == b.shard {
        GaveKeepsTaken(v, h, v', h', b);
      } else {
        GaveKeepsOther(v, h, v', h', b, i);
      }
    }
  }

  lemma GaveKeepsTaken(v: View, h: History, v': View, h': History, b: Batch)
    requires Shaped(v, h) && Gave(v, h, v', h', b) && b.shard < SHARDS
    requires Conserved(v, h, b.shard) && OnTheWay(v, h, b.shard)
    ensures Conserved(v', h', b.shard) && OnTheWay(v', h', b.shard)
  {
    var at := b.shard;
    OutSnoc(h.out, b);
    WriteKeepsShard(v.pending[at], h.accepted[at], TakenBy(h.out, at), h.inFlight, h.waiting[at]);
    assert TakenBy(h'.out, at) + [] == TakenBy(h'.out, at);
  }

  lemma GaveKeepsOther(v: View, h: History, v': View, h': History, b: Batch, i: nat)
    requires Shaped(v, h) && Gave(v, h, v', h', b)
    requires i < SHARDS && i != b.shard && Conserved(v, h, i) && OnTheWay(v, h, i)
    ensures Conserved(v', h', i) && OnTheWay(v', h', i)
  {
    OutOther(h.out, b, i);
  }

  lemma EndKeeps(v: View, h: History)
    requires Inv(v, h) && v.flushing.Some? && v.flushing.value.batch.None? && v.flushing.value.next == SHARDS
    ensures Inv(Exec(v, Ending), h)
    ensures forall i :: 0 <= i < SHARDS ==> h.before[i] <= TakenBy(h.out, i)
  {
    var v' := Exec(v, Ending);
    forall i | 0 <= i < SHARDS
      ensures Conserved(v', h, i) && OnTheWay(v', h, i) && h.before[i] <= TakenBy(h.out, i)
    {
      assert Conserved(v, h, i) && OnTheWay(v, h, i);
      assert TakenBy(h.out, i) + [] == TakenBy(h.out, i);
    }
  }

  /** If what was accepted before is on an output that did not change, all that waits came since. */
  lemma NothingWritten(v0: View, h0: History, v: View, h: History)
    requires Inv(v0, h0) && Inv(v, h) && v0.flushing.None? && v.flushing.None? && h.out == h0.out
    requires forall i :: 0 <= i < SHARDS ==> h0.accepted[i] <= TakenBy(h.out, i)
    ensures (forall i :: 0 <= i < SHARDS ==> v.pending[i] == []) <==> h.accepted == h0.accepted
  {
    forall i | 0 <= i < SHARDS ensures v.pending[i] == [] <==> h.accepted[i] == h0.accepted[i] {
      assert Conserved(v0, h0, i) && Conserved(v, h, i);
      assert h0.accepted[i] == TakenBy(h.out, i);
      NothingWaits(h.waiting[i]);
      assert |h.accepted[i]| == |h0.accepted[i]| + |h.waiting[i]|;
      assert h.waiting[i] == [] ==> h.accepted[i] == h0.accepted[i];
    }
  }

  /** A shard never holds more than its limit and the line that crossed it. */
  lemma ShardIsBounded(v: View, h: History, i: nat)
    requires Inv(v, h) && i < SHARDS && h.waiting[i] != []
    ensures |v.pending[i]| < LOG_PENDING_MAX_PER_SHARD + |h.waiting[i][|h.waiting[i]| - 1]|
  {
    assert Conserved(v, h, i);
    var front, last := h.waiting[i][..|h.waiting[i]| - 1], h.waiting[i][|h.waiting[i]| - 1];
    assert h.waiting[i] == front + [last];
    FlattenSnoc(front, last);
  }

  class LogSink {
    const pending: array<seq<byte>>
    /** Who holds the writing lock. */
    var flushing: Option<Flushing>
    ghost var output: seq<byte>
    ghost var history: History

    ghost function Now(): View
      reads this, pending
    {
      View(pending[..], flushing, output)
    }

    ghost predicate Valid()
      reads this, pending
    {
      pending.Length == SHARDS && Inv(Now(), history)
    }

    constructor ()
      ensures Valid() && fresh(pending)
      ensures Now() == View(seq(SHARDS, _ => []), None, [])
      ensures history.out == [] && forall i :: 0 <= i < SHARDS ==> history.accepted[i] == []
    {
      pending := new seq<byte>[SHARDS](_ => []);
      flushing, output := None, [];
      var none := seq(SHARDS, _ => []);
      history := History(none, [], none, [], none, 0);
      new;
      assert pending[..] == seq(SHARDS, _ => []);
      forall i | 0 <= i < SHARDS ensures Conserved(Now(), history, i) && OnTheWay(Now(), history, i) {
      }
    }

    /** Whether the caller should wake the writer; a full shard drops the line. */
    method Append(shard: nat, line: Line) returns (wake: bool)
      requires Valid() && shard < SHARDS
      modifies pending, this`history
      ensures Valid() && Now() == Exec(old(Now()), Appending(shard, line))
      ensures history == Follow(old(Now()), old(history), Appending(shard, line))
      // Accepted as long as the shard is below its limit, whatever the line makes of it.
      ensures pending[..] ==
        if |old(pending[shard])| < LOG_PENDING_MAX_PER_SHARD
        then old(pending[..])[shard := old(pending[shard]) + line] else old(pending[..])
      ensures wake <==> |old(pending[shard])| < LOG_PENDING_MAX_PER_SHARD && |pending[shard]| >= LOG_BATCH
    {
      if |pending[shard]| >= LOG_PENDING_MAX_PER_SHARD {
        return false;
      }
      AppendKeeps(Now(), history, shard, line);
      history := Follow(Now(), history, Appending(shard, line));
      pending[shard] := pending[shard] + line;
      wake := |pending[shard]| >= LOG_BATCH;
    }

    /** Takes the writing lock; any other flusher waits until it is released. */
    method BeginFlush()
      requires Valid() && flushing == None
      modifies this`flushing, this`history
      ensures Valid() && Now() == Exec(old(Now()), Beginning)
      ensures history == Follow(old(Now()), old(history), Beginning)
    {
      BeginKeeps(Now(), history);
      history := Follow(Now(), history, Beginning);
      flushing := Some(Flushing(0, None, false));
    }

    /** `mem::take` of the next shard, under that shard's lock only. */
    method TakeShard()
      requires Valid() && flushing.Some? && flushing.value.batch.None? && flushing.value.next < SHARDS
      modifies pending, this`flushing, this`history
      ensures Valid() && Now() == Exec(old(Now()), Taking)
      ensures history == Follow(old(Now()), old(history), Taking)
    {
      TakeKeeps(Now(), history);
      history := Follow(Now(), history, Taking);
      var at := flushing.value.next;
      var batch := pending[at];
      pending[at] := [];
      if batch == [] {
        flushing := Some(flushing.value.(next := at + 1));
      } else {
        flushing := Some(flushing.value.(batch := Some(batch)));
      }
    }

    /**
     `write_all` of the batch in hand, outside every shard's lock. A failed write ends the pass:
     what it wrote of the batch stays on the output, and the rest of the batch is lost.
     */
    method WriteBatch(ok: bool, n: nat)
      requires Valid() && flushing.Some? && flushing.value.batch.Some?
      modifies this`flushing, this`output, this`history
      ensures Valid() && Now() == Exec(old(Now()), Writing(ok, n))
      ensures history == Follow(old(Now()), old(history), Writing(ok, n))
    {
      ghost var later := Follow(Now(), history, Writing(ok, n));
      WriteKeeps(Now(), history, ok, n);
      WriteLeads(Now(), ok, n);
      var batch := flushing.value.batch.value;
      output := output + (if ok then batch else batch[..Min(n, |batch|)]);
      flushing := if ok then Some(Flushing(flushing.value.next + 1, None, true)) else None;
      history := later;
    }

    /**
     Releases the writing lock after the last shard. Everything accepted before the pass began has
     left its shard, every write of the pass succeeded, and the result says whether there was one.
     */
    method EndFlush() returns (wrote: bool)
      requires Valid() && flushing.Some? && flushing.value.batch.None? && flushing.value.next == SHARDS
      modifies this`flushing
      ensures Valid() && Now() == Exec(old(Now()), Ending)
      ensures forall i :: 0 <= i < SHARDS ==> history.before[i] <= TakenBy(history.out, i)
      ensures history.outBefore <= |history.out| && NoFailure(history.out[history.outBefore..])
      ensures wrote <==> |history.out| > history.outBefore
    {
      EndKeeps(Now(), history);
      wrote := flushing.value.wrote;
      flushing := None;
    }

    /** Appenders that get their turn between two sections of a flush: any lines, any shards. */
    method OthersAppend()
      requires Valid()
      modifies pending, this`history
      ensures Valid() && Later(old(history), history)
    {
      var n: nat :| true;
      for k := 0 to n
        invariant Valid() && Later(old(history), history)
      {
        var shard: nat :| true;
        var line: Line :| true;
        if shard < SHARDS {
          var wake := Append(shard, line);
        }
      }
    }

    /** One round of the loop: a shard is taken and, unless it was empty, written. */
    method FlushShard() returns (ok: bool)
      requires Valid() && flushing.Some? && flushing.value.batch.None? && flushing.value.next < SHARDS
      modifies this, pending
      ensures Valid() && old(history.out) <= history.out
      ensures history.before == old(history.before) && history.outBefore == old(history.outBefore)
      ensures ok ==>
        && flushing.Some? && flushing.value.batch.None?
        && flushing.value.next == old(flushing.value.next) + 1
      ensures !ok ==> flushing == None && history.out != [] && !history.out[|history.out| - 1].ok
    {
      OthersAppend();
      TakeShard();
      OthersAppend();
      if flushing.value.batch.None? {
        return true;
      }
      var n: nat :| true;
      ok := *;
      WriteBatch(ok, n);
    }

    /**
     One pass over the shards, with appenders running all along; `None` after a failed write. When
     it succeeds, what was accepted before it began has left the shards and all it took is on the
     output; when it then wrote nothing, the shards are all empty if and only if no line was
     accepted meanwhile.
     */
    method Flush() returns (wrote: Option<bool>)
      requires Valid() && flushing == None
      modifies this, pending
      ensures Valid() && flushing == None && old(history.out) <= history.out
      ensures wrote.Some? ==>
        NoFailure(history.out[|old(history.out)|..]) && (wrote.value <==> history.out != old(history.out))
      ensures wrote.Some? ==>
        forall i :: 0 <= i < SHARDS ==> old(history.accepted)[i] <= TakenBy(history.out, i)
      ensures wrote == Some(false) ==> (AllEmpty() <==> history.accepted == old(history.accepted))
      ensures wrote.None? ==> history.out != [] && !history.out[|history.out| - 1].ok
    {
      ghost var v0, h0 := Now(), history;
      BeginFlush();
      while flushing.value.next < SHARDS
        invariant Valid() && flushing.Some? && flushing.value.batch.None?
        invariant history.before == h0.accepted && history.outBefore == |h0.out| && h0.out <= history.out
        decreases SHARDS - flushing.value.next
      {
        var ok := FlushShard();
        if !ok {
          return None;
        }
      }
      var any := EndFlush();
      if !any {
        NothingWritten(v0, h0, Now(), history);
      }
      return Some(any);
    }

    ghost predicate AllEmpty()
      requires Valid()
      reads this, pending
    {
      forall i :: 0 <= i < SHARDS ==> Now().pending[i] == []
    }
  }

  /** Appending changes nothing of a flush. */
  ghost predicate Later(h: History, h': History) {
    h'.out == h.out && h'.before == h.before && h'.outBefore == h.outBefore && h'.inFlight == h.inFlight
  }

  /**
   A pass that wrote nothing does not mean the shards are empty: a line that lands in a shard
   already passed by stays until the next one.
   */
  method StragglerSurvives() returns (sink: LogSink, wrote: bool)
    ensures fresh(sink) && sink.Valid() && !wrote && !sink.AllEmpty()
  {
    sink := new LogSink();
    sink.BeginFlush();
    while sink.flushing.value.next < SHARDS
      invariant sink.Valid() && fresh(sink) && fresh(sink.pending)
      invariant sink.flushing.Some? && sink.flushing.value.batch.None?
      invariant sink.history.out == [] && sink.history.outBefore == 0
      invariant forall i :: 0 <= i < SHARDS ==> sink.Now().pending[i] == []
      decreases SHARDS - sink.flushing.value.next
    {
      sink.TakeShard();
    }
    var wake := sink.Append(0, [65]);
    assert sink.Now().pending[0] == [65];
    wrote := sink.EndFlush();
  }

  /** One section, if its lock is free and it is its turn. */
  method Perform(sink: LogSink, section: Section)
    requires sink.Valid()
    modifies sink, sink.pending
    ensures sink.Valid() && sink.Now() == Exec(old(sink.Now()), section)
    ensures sink.history == Follow(old(sink.Now()), old(sink.history), section)
  {
    match section
    case Appending(shard, line) =>
      if shard < SHARDS {
        var wake := sink.Append(shard, line);
      }
    case Beginning =>
      if sink.flushing == None {
        sink.BeginFlush();
      }
    case Taking =>
      if sink.flushing.Some? && sink.flushing.value.batch.None? && sink.flushing.value.next < SHARDS {
        sink.TakeShard();
      }
    case Writing(ok, n) =>
      if sink.flushing.Some? && sink.flushing.value.batch.Some? {
        sink.WriteBatch(ok, n);
      }
    case Ending =>
      if sink.flushing.Some? && sink.flushing.value.batch.None? && sink.flushing.value.next == SHARDS {
        var wrote := sink.EndFlush();
      }
  }

  /** The sink at one moment. */
  datatype Moment = Moment(view: View, history: History)

  /**
   What a section may do to the lines: one that is offered is accepted if and only if the bytes then
   waiting in its shard are fewer than the limit; no other section accepts any; none takes back
   what the output got.
   */
  ghost predicate Accepts(h: History, h': History, section: Section)
    requires |h.accepted| == |h.waiting| == SHARDS
  {
    && h.out <= h'.out
    && match section
       case Appending(shard, line) =>
         h'.accepted ==
           if shard < SHARDS && line != [] && |Flatten(h.waiting[shard])| < LOG_PENDING_MAX_PER_SHARD
           then h.accepted[shard := h.accepted[shard] + [line]]
           else h.accepted
       case _ => h'.accepted == h.accepted
  }

  /** The moments of a run, one before each section and one after the last. */
  ghost predicate IsRun(moments: seq<Moment>, schedule: seq<Section>) {
    && |moments| == |schedule| + 1
    && (forall k :: 0 <= k < |moments| ==> Inv(moments[k].view, moments[k].history))
    && (forall k :: 0 <= k < |schedule| ==>
          && moments[k + 1].view == Exec(moments[k].view, schedule[k])
          && Accepts(moments[k].history, moments[k + 1].history, schedule[k]))
  }

  lemma FollowAccepts(v: View, h: History, section: Section)
    requires Inv(v, h)
    ensures Accepts(h, Follow(v, h, section), section)
  {
    if section.Appending? && section.shard < SHARDS {
      assert Conserved(v, h, section.shard);
    }
  }

  lemma RunSnoc(moments: seq<Moment>, schedule: seq<Section>, k: nat, m: Moment)
    requires k < |schedule| && IsRun(moments, schedule[..k]) && Inv(m.view, m.history)
    requires m.view == Exec(moments[k].view, schedule[k])
    requires Accepts(moments[k].history, m.history, schedule[k])
    ensures IsRun(moments + [m], schedule[..k + 1])
  {
    assert forall j :: 0 <= j < k ==> schedule[..k][j] == schedule[..k + 1][j] == schedule[j];
  }

  /**
   Any schedule of any number of appenders and flushers. At every moment, shard by shard, the lines
   accepted are those that left for the output, those in flight and those waiting, in order, whole;
   and a line is accepted exactly if its shard is below the limit at the moment it is offered.
   */
  method RunSchedule(sink: LogSink, schedule: seq<Section>) returns (ghost moments: seq<Moment>)
    requires sink.Valid()
    modifies sink, sink.pending
    ensures sink.Valid() && IsRun(moments, schedule)
    ensures moments[0] == Moment(old(sink.Now()), old(sink.history))
    ensures moments[|schedule|] == Moment(sink.Now(), sink.history)
    ensures forall i :: 0 <= i < SHARDS ==>
      var h := sink.history;
      && h.accepted[i] == TakenBy(h.out, i) + (Held(sink.Now(), h, i) + h.waiting[i])
      && sink.Now().pending[i] == Flatten(h.waiting[i])
    ensures NoFailure(sink.history.out) ==> sink.output == Flatten(LinesOf(sink.history.out))
  {
    moments := [Moment(sink.Now(), sink.history)];
    for k := 0 to |schedule|
      invariant sink.Valid() && IsRun(moments, schedule[..k])
      invariant moments[0] == Moment(old(sink.Now()), old(sink.history))
      invariant moments[k] == Moment(sink.Now(), sink.history)
    {
      FollowAccepts(sink.Now(), sink.history, schedule[k]);
      Perform(sink, schedule[k]);
      RunSnoc(moments, schedule, k, Moment(sink.Now(), sink.history));
      moments := moments + [Moment(sink.Now(), sink.history)];
    }
    assert schedule[..|schedule|] == schedule;
    AllConserved(sink.Now(), sink.history);
  }

  lemma AllConserved(v: View, h: History)
    requires Inv(v, h)
    ensures forall i :: 0 <= i < SHARDS ==>
      && h.accepted[i] == TakenBy(h.out, i) + (Held(v, h, i) + h.waiting[i])
      && v.pending[i] == Flatten(h.waiting[i])
    ensures NoFailure(h.out) ==> v.output == Flatten(LinesOf(h.out))
  {
    forall i | 0 <= i < SHARDS
      ensures h.accepted[i] == TakenBy(h.out, i) + (Held(v, h, i) + h.waiting[i])
      ensures v.pending[i] == Flatten(h.waiting[i])
    {
      assert Conserved(v, h, i);
    }
    if NoFailure(h.out) {
      OutputIsWholeLines(h.out);
    }
  }
}

/**
 What the peer must see, one accepted byte at a time.

 The transport works on whole buffers, holds head bytes back and hands file ranges to the
 kernel. The reference machine below does none of that: it consumes one event at a time and
 is the specification every buffer-level operation is proved against.
 */
module SendfileReference {
  import opened Bytes
  import opened HeadScan

  /** A file as `sendfile(2)` sees it: the byte it would deliver at each offset. */
  type FileImage = nat -> byte

  /** A file range promised to the peer. */
  datatype Plan = Plan(file: FileImage, offset: nat, remaining: nat)

  datatype Event =
    | Arm(plan: Plan)      // a handler armed the connection's slot
    | Accept(b: byte)      // the transport told its caller that it consumed `b`

  datatype Mode =
    | Idle
    | Head(seen: seq<byte>)
    | Sending(plan: Plan)

  datatype Ref = Ref(mode: Mode, armed: Option<Plan>, out: seq<byte>)

  const INITIAL := Ref(Idle, None, [])

  function FileBytes(file: FileImage, offset: nat, n: nat): (s: seq<byte>)
    ensures |s| == n
  {
    seq(n, i requires 0 <= i => file(offset + i))
  }

  /** An armed slot makes the next byte the first byte of a response head. */
  function Engage(r: Ref): Ref {
    if r.mode.Idle? && r.armed.Some? then r.(mode := Head([])) else r
  }

  function StepByte(r: Ref, b: byte): Ref {
    var e := Engage(r);
    match e.mode
    case Idle => e.(out := e.out + [b])
    case Head(seen) =>
      var seen' := seen + [b];
      if EndsAt(seen', |seen|) && e.armed.Some? then
        Ref(Sending(e.armed.value), None, e.out + [b])
      else
        e.(mode := Head(seen'), out := e.out + [b])
    case Sending(p) =>
      var rest := if p.remaining > 0 then p.remaining - 1 else 0;
      e.(mode := if rest == 0 then Idle else Sending(Plan(p.file, p.offset + 1, rest)),
         out := e.out + [p.file(p.offset)])
  }

  function Step(r: Ref, e: Event): Ref {
    match e
    case Accept(b) => StepByte(r, b)
    case Arm(p) => if r.armed.Some? then r else r.(armed := Some(p))
  }

  function Replay(log: seq<Event>): Ref {
    if log == [] then INITIAL else Step(Replay(log[..|log| - 1]), log[|log| - 1])
  }

  function Accepts(bytes: seq<byte>): (s: seq<Event>)
    ensures |s| == |bytes|
  {
    seq(|bytes|, i requires 0 <= i < |bytes| => Accept(bytes[i]))
  }

  /** The reference machine over a run of bytes. */
  function Feed(r: Ref, bytes: seq<byte>): Ref
    decreases |bytes|
  {
    if bytes == [] then r else Feed(StepByte(r, bytes[0]), bytes[1..])
  }

  lemma AcceptsAppend(a: seq<byte>, b: seq<byte>)
    ensures Accepts(a + b) == Accepts(a) + Accepts(b)
  {
  }

  lemma {:induction false} FeedAppend(r: Ref, a: seq<byte>, b: seq<byte>)
    ensures Feed(r, a + b) == Feed(Feed(r, a), b)
    decreases |a|
  {
    if a == [] {
      assert a + b == b;
    } else {
      assert (a + b)[1..] == a[1..] + b;
      FeedAppend(StepByte(r, a[0]), a[1..], b);
    }
  }

  lemma {:induction false} ReplayFeed(log: seq<Event>, bytes: seq<byte>)
    ensures Replay(log + Accepts(bytes)) == Feed(Replay(log), bytes)
    decreases |bytes|
  {
    if bytes == [] {
      assert log + Accepts(bytes) == log;
    } else {
      var first := log + [Accept(bytes[0])];
      assert log + Accepts(bytes) == first + Accepts(bytes[1..]);
      assert first[..|first| - 1] == log;
      ReplayFeed(first, bytes[1..]);
    }
  }

  lemma ReplayArm(log: seq<Event>, p: Plan)
    ensures Replay(log + [Arm(p)]) == Step(Replay(log), Arm(p))
  {
    assert (log + [Arm(p)])[..|log|] == log;
  }

  /** Output only grows. */
  lemma {:induction false} FeedGrows(r: Ref, bytes: seq<byte>)
    ensures r.out <= Feed(r, bytes).out
    ensures |Feed(r, bytes).out| == |r.out| + |bytes|
    decreases |bytes|
  {
    if bytes != [] {
      FeedGrows(StepByte(r, bytes[0]), bytes[1..]);
    }
  }

  /** With no plan waiting, bytes pass through unchanged. */
  lemma {:induction false} FeedIdle(r: Ref, bytes: seq<byte>)
    requires r.mode.Idle? && r.armed.None?
    ensures Feed(r, bytes) == r.(out := r.out + bytes)
    decreases |bytes|
  {
    if bytes == [] {
      assert r.out + bytes == r.out;
    } else {
      FeedIdle(StepByte(r, bytes[0]), bytes[1..]);
      assert r.out + [bytes[0]] + bytes[1..] == r.out + bytes;
    }
  }

  /** A head that does not end yet passes through and is remembered. */
  lemma {:induction false} FeedHead(r: Ref, bytes: seq<byte>)
    requires Engage(r).mode.Head?
    requires Unterminated(Engage(r).mode.seen + bytes)
    requires bytes != []
    ensures Feed(r, bytes) == Engage(r).(mode := Head(Engage(r).mode.seen + bytes), out := r.out + bytes)
    decreases |bytes|
  {
    var seen := Engage(r).mode.seen;
    var next := StepByte(r, bytes[0]);
    assert seen + bytes == (seen + [bytes[0]]) + bytes[1..];
    assert !EndsAt(seen + bytes, |seen|);
    assert next == Engage(r).(mode := Head(seen + [bytes[0]]), out := r.out + [bytes[0]]);
    if |bytes| == 1 {
      assert bytes == [bytes[0]];
    } else {
      FeedHead(next, bytes[1..]);
      assert r.out + [bytes[0]] + bytes[1..] == r.out + bytes;
    }
  }

  /** All bytes but the last of a head that ends here leave the machine scanning. */
  lemma FeedHeadButLast(r: Ref, seen: seq<byte>, init: seq<byte>, b: byte)
    requires Engage(r).mode == Head(seen)
    requires FirstEnd(seen + (init + [b]), Some(|seen| + |init|))
    ensures Engage(Feed(r, init)) == Engage(r).(mode := Head(seen + init), out := r.out + init)
    ensures EndsAt((seen + init) + [b], |seen + init|)
  {
    Associative(seen, init, [b]);
    if init == [] {
      assert seen + init == seen && r.out + init == r.out;
    } else {
      forall i ensures !EndsAt(seen + init, i) {
        if 0 <= i < |seen + init| {
          assert !EndsAt((seen + init) + [b], i);
        }
      }
      FeedHead(r, init);
    }
  }

  lemma FeedOne(r: Ref, b: byte)
    ensures Feed(r, [b]) == StepByte(r, b)
  {
    assert [b][1..] == [];
  }

  lemma StepEndsHead(r: Ref, seen: seq<byte>, b: byte)
    requires Engage(r).mode == Head(seen) && r.armed.Some?
    requires EndsAt(seen + [b], |seen|)
    ensures StepByte(r, b) == Ref(Sending(r.armed.value), None, r.out + [b])
  {
  }

  /** A head that ends with these bytes passes through and the armed plan takes over. */
  lemma FeedHeadEnd(r: Ref, bytes: seq<byte>)
    requires Engage(r).mode.Head? && r.armed.Some?
    requires bytes != []
    requires var seen := Engage(r).mode.seen; FirstEnd(seen + bytes, Some(|seen| + |bytes| - 1))
    ensures Feed(r, bytes) == Ref(Sending(r.armed.value), None, r.out + bytes)
  {
    var seen := Engage(r).mode.seen;
    var init, b := bytes[..|bytes| - 1], bytes[|bytes| - 1];
    assert bytes == init + [b];
    FeedHeadButLast(r, seen, init, b);
    FeedAppend(r, init, [b]);
    var mid := Feed(r, init);
    FeedOne(mid, b);
    StepEndsHead(mid, seen + init, b);
    Associative(r.out, init, [b]);
  }

  /** Placeholders become the next file bytes, whatever their values are. */
  lemma {:induction false} FeedSending(r: Ref, bytes: seq<byte>)
    requires r.mode.Sending? && 0 < |bytes| <= r.mode.plan.remaining
    ensures
      var p := r.mode.plan;
      Feed(r, bytes) == Ref(Advance(p, |bytes|), r.armed, r.out + FileBytes(p.file, p.offset, |bytes|))
    decreases |bytes|
  {
    var p := r.mode.plan;
    var next := StepByte(r, bytes[0]);
    assert FileBytes(p.file, p.offset, |bytes|) == [p.file(p.offset)] + FileBytes(p.file, p.offset + 1, |bytes| - 1);
    if |bytes| > 1 {
      FeedSending(next, bytes[1..]);
    }
  }

  /** Where a plan stands after `n` of its bytes. */
  function Advance(p: Plan, n: nat): Mode
    requires n <= p.remaining
  {
    if n == p.remaining then Idle else Sending(Plan(p.file, p.offset + n, p.remaining - n))
  }

  /** `bytes` holds more placeholders than the plan that would cover them has left. */
  ghost predicate OverRuns(r: Ref, bytes: seq<byte>) {
    match Engage(r).mode
    case Idle => false
    case Sending(p) => |bytes| > p.remaining
    case Head(seen) =>
      r.armed.Some? &&
      exists e :: FirstEnd(seen + bytes, Some(e)) && |seen + bytes| - 1 - e > r.armed.value.remaining
  }

  // ---------- arming behind bytes that are still to come ----------

  /** Past the first placeholder, a plan is never whole again. */
  lemma {:induction false} SendingShrinks(r: Ref, bytes: seq<byte>, bound: nat)
    requires r.armed.None? && bound > 0
    requires r.mode.Idle? || (r.mode.Sending? && r.mode.plan.remaining < bound)
    ensures
      var r' := Feed(r, bytes);
      r'.armed.None? && (r'.mode.Idle? || (r'.mode.Sending? && r'.mode.plan.remaining < bound))
    decreases |bytes|
  {
    if bytes != [] {
      SendingShrinks(StepByte(r, bytes[0]), bytes[1..], bound);
    }
  }

  lemma StartOfHead(r: Ref, head: seq<byte>, e: nat)
    requires r.mode.Idle? && r.armed.Some? && FirstEnd(head, Some(e))
    ensures e < |head| && Feed(r, head[..e + 1]) == Ref(Sending(r.armed.value), None, r.out + head[..e + 1])
  {
    var start := head[..e + 1];
    assert [] + start == start;
    forall j | j < e ensures !EndsAt(start, j) {
      assert !EndsAt(head, j);
    }
    FeedHeadEnd(r, start);
  }

  /**
   A handler that arms while `pending` bytes of an earlier response are still to be offered:
   the plan takes over exactly at the end of its own head if and only if those bytes bring no
   earlier head terminator with them. Otherwise bytes of the wrong response are replaced.
   */
  lemma ArmedBehindPendingBytes(r: Ref, plan: Plan, pending: seq<byte>, head: seq<byte>)
    requires r.mode.Idle? && r.armed.None? && plan.remaining > 0
    requires FirstEnd(head, Some(|head| - 1))
    ensures Feed(r.(armed := Some(plan)), pending + head).mode == Sending(plan)
       <==> FirstEnd(pending + head, Some(|pending + head| - 1))
  {
    var armed, all := r.(armed := Some(plan)), pending + head;
    var e := FirstEndExists(pending, head);
    StartOfHead(armed, all, e);
    var rest := all[e + 1..];
    assert all == all[..e + 1] + rest;
    FeedAppend(armed, all[..e + 1], rest);
    if rest == [] {
      assert e == |all| - 1;
    } else {
      var sending := Feed(armed, all[..e + 1]);
      SendingShrinks(StepByte(sending, rest[0]), rest[1..], plan.remaining);
      if FirstEnd(all, Some(|all| - 1)) {
        FirstEndIsUnique(all, Some(e), Some(|all| - 1));
      }
    }
  }

  lemma FirstEndExists(pending: seq<byte>, head: seq<byte>) returns (e: nat)
    requires FirstEnd(head, Some(|head| - 1))
    ensures FirstEnd(pending + head, Some(e))
  {
    var all := pending + head;
    assert EndsAt(head, |head| - 1);
    assert EndsAt(all, |all| - 1);
    e := 0;
    while !EndsAt(all, e)
      invariant e <= |all| - 1
      invariant forall j :: j < e ==> !EndsAt(all, j)
      decreases |all| - e
    {
      e := e + 1;
    }
  }

  /** Such pending bytes exist: a blank line in a text body that has not been offered yet. */
  lemma EarlyArmMisfires() returns (pending: seq<byte>, head: seq<byte>)
    ensures FirstEnd(head, Some(|head| - 1))
    ensures !FirstEnd(pending + head, Some(|pending + head| - 1))
  {
    pending, head := HEAD_END, [72] + HEAD_END;
    assert head == [72, 13, 10, 13, 10];
    assert EndsAt(pending + head, 3);
  }

  // ---------- whole responses ----------

  /** A response as its producer sees it. */
  datatype Exchange =
    | Ordinary(bytes: seq<byte>)
    | Upgraded(plan: Plan, head: seq<byte>, placeholders: seq<byte>)

  ghost predicate WellFormed(r: Exchange) {
    match r
    case Ordinary(_) => true
    case Upgraded(plan, head, placeholders) =>
      FirstEnd(head, Some(|head| - 1)) && 0 < plan.remaining == |placeholders|
  }

  function EventsOf(r: Exchange): seq<Event> {
    match r
    case Ordinary(bytes) => Accepts(bytes)
    case Upgraded(plan, head, placeholders) => [Arm(plan)] + Accepts(head + placeholders)
  }

  /** What the peer should receive for `r`. */
  function OnTheWire(r: Exchange): seq<byte> {
    match r
    case Ordinary(bytes) => bytes
    case Upgraded(plan, head, _) => head + FileBytes(plan.file, plan.offset, plan.remaining)
  }

  function AllEvents(rs: seq<Exchange>): seq<Event> {
    if rs == [] then [] else AllEvents(rs[..|rs| - 1]) + EventsOf(rs[|rs| - 1])
  }

  function AllOnTheWire(rs: seq<Exchange>): seq<byte> {
    if rs == [] then [] else AllOnTheWire(rs[..|rs| - 1]) + OnTheWire(rs[|rs| - 1])
  }

  /** From a quiet connection, an armed plan governs the head and then exactly its own bytes. */
  lemma OneUpgrade(r: Ref, plan: Plan, head: seq<byte>, placeholders: seq<byte>)
    requires WellFormed(Upgraded(plan, head, placeholders))
    requires r.mode.Idle? && r.armed.None?
    ensures Feed(r.(armed := Some(plan)), head + placeholders)
         == Ref(Idle, None, r.out + (head + FileBytes(plan.file, plan.offset, plan.remaining)))
  {
    var armed := r.(armed := Some(plan));
    FeedAppend(armed, head, placeholders);
    assert EndsAt(head, |head| - 1);
    StartOfHead(armed, head, |head| - 1);
    assert head[..|head| - 1 + 1] == head;
    UpgradedBody(Feed(armed, head), plan, placeholders);
    Associative(r.out, head, FileBytes(plan.file, plan.offset, plan.remaining));
  }

  lemma UpgradedBody(r: Ref, plan: Plan, placeholders: seq<byte>)
    requires r.mode == Sending(plan) && r.armed == None
    requires 0 < plan.remaining == |placeholders|
    ensures Feed(r, placeholders) == Ref(Idle, None, r.out + FileBytes(plan.file, plan.offset, plan.remaining))
  {
    FeedSending(r, placeholders);
  }

  /** From a quiet connection, one response leaves the connection quiet again. */
  lemma OneResponse(log: seq<Event>, r: Exchange)
    requires WellFormed(r)
    requires Replay(log).mode.Idle? && Replay(log).armed.None?
    ensures Replay(log + EventsOf(r)) == Ref(Idle, None, Replay(log).out + OnTheWire(r))
  {
    match r
    case Ordinary(bytes) =>
      ReplayFeed(log, bytes);
      FeedIdle(Replay(log), bytes);
    case Upgraded(plan, head, placeholders) =>
      Associative(log, [Arm(plan)], Accepts(head + placeholders));
      ReplayArm(log, plan);
      ReplayFeed(log + [Arm(plan)], head + placeholders);
      OneUpgrade(Replay(log), plan, head, placeholders);
  }

  /**
   Any keep-alive sequence of ordinary and upgraded responses reaches the peer as exactly
   those responses with each upgraded body replaced by its file range, and the connection
   is back in pass-through with nothing armed after each of them.
   */
  lemma {:induction false} ResponsesArriveIntact(rs: seq<Exchange>)
    requires forall r <- rs :: WellFormed(r)
    ensures Replay(AllEvents(rs)) == Ref(Idle, None, AllOnTheWire(rs))
  {
    if rs != [] {
      ResponsesArriveIntact(rs[..|rs| - 1]);
      OneResponse(AllEvents(rs[..|rs| - 1]), rs[|rs| - 1]);
    }
  }
}

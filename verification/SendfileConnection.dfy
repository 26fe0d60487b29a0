/** One keep-alive connection: a handler, the HTTP engine above the stream, and the stream. */
module SendfileConnection {
  import opened Bytes
  import opened HeadScan
  import opened Numerals
  import opened HttpResponse
  import opened SendfileReference
  import opened SendfileHandoff
  import opened SendfileTransport

  function OffsetOf(contentRange: Option<string>): nat {
    var start := if contentRange.None? then None else RangeStart(contentRange.value);
    if start.None? then 0 else start.value
  }

  /** What the response promises, when it promises something `sendfile(2)` could deliver. */
  function Promise(status: Option<nat>, h: Headers): Option<(nat, nat)> {
    if status != Some(200) && status != Some(206) then None
    else if h.contentLength.None? then None
    else
      var len := ParseU64(h.contentLength.value);
      if len.None? then None else Some((OffsetOf(h.contentRange), len.value))
  }

  /** Replaces a file response body with a zero-copy body; the response is untouched otherwise. */
  method UpgradeResponse(slot: SendfileSlot, res: Response, file: FileImage) returns (upgraded: bool)
    requires slot.Valid()
    modifies slot, res`body
    ensures slot.Valid()
    ensures
      var promise := Promise(res.status, res.headers);
      upgraded <==> promise.Some? && promise.value.1 > 0 && slot.hasSendfile && old(slot.plan).None?
    ensures !upgraded ==> unchanged(slot) && res.body == old(res.body)
    ensures upgraded ==>
      var (offset, len) := Promise(res.status, res.headers).value;
      && slot.plan == Some(Plan(file, offset, len))
      && slot.log == old(slot.log) + [Event.Arm(Plan(file, offset, len))]
      && res.body.ZeroCopy? && fresh(res.body.placeholders) && res.body.placeholders.remaining == len
  {
    if res.status != Some(200) && res.status != Some(206) {
      return false;
    }
    if res.headers.contentLength.None? {
      return false;
    }
    var len := ParseU64(res.headers.contentLength.value);
    if len.None? {
      return false;
    }
    var offset := 0;
    if res.headers.contentRange.Some? {
      var start := RangeStart(res.headers.contentRange.value);
      if start.Some? {
        offset := start.value;
      }
    }
    var body := slot.Arm(file, offset, len.value);
    if body == null {
      return false;
    }
    res.body := ZeroCopy(body);
    return true;
  }

  // ---------- any run at all ----------

  /** Everything a connection can be asked to do, in any order and with any buffers. */
  datatype Op =
    | HandlerArms(file: FileImage, offset: nat, len: nat)
    | Write(buf: seq<byte>)
    | WriteVectored(bufs: seq<seq<byte>>)
    | Flush

  /** What the caller of an operation was told. */
  datatype Answer =
    | Armed(got: bool)
    | Took(r: Poll<nat>)
    | FlushSaid(f: Poll<()>)

  predicate Waits(a: Answer) {
    (a.Took? && a.r.Pending?) || (a.FlushSaid? && a.f.Pending?)
  }

  predicate Breaks(a: Answer) {
    (a.Took? && a.r.Failed?) || (a.FlushSaid? && a.f.Failed?)
  }

  function ErrorOf(a: Answer): IoError
    requires Breaks(a)
  {
    if a.Took? then a.r.error else a.f.error
  }

  /** The bytes an operation offers. */
  function Offered(op: Op): seq<byte> {
    match op
    case Write(buf) => buf
    case WriteVectored(bufs) => Flatten(bufs)
    case _ => []
  }

  /** What the connection has been told once the caller has its answer: a plan armed, or bytes consumed. */
  function Told(op: Op, a: Answer): seq<Event> {
    match (op, a)
    case (HandlerArms(file, offset, len), Armed(true)) => [Event.Arm(Plan(file, offset, len))]
    case (_, Took(Ready(n))) => if n <= |Offered(op)| then Accepts(Offered(op)[..n]) else []
    case _ => []
  }

  function AllTold(ops: seq<Op>, answers: seq<Answer>): seq<Event>
    requires |answers| <= |ops|
  {
    if answers == [] then [] else
      var k := |answers| - 1;
      AllTold(ops, answers[..k]) + Told(ops[k], answers[k])
  }

  function Waiting(answers: seq<Answer>): nat {
    if answers == [] then 0
    else Waiting(answers[..|answers| - 1]) + if Waits(answers[|answers| - 1]) then 1 else 0
  }

  /** An answer that fits its operation and where the reference machine stood when it was asked. */
  ghost predicate Honest(op: Op, a: Answer, r: Ref, hasSendfile: bool) {
    match op
    case HandlerArms(_, _, len) => a == Armed(hasSendfile && len > 0 && r.armed.None?)
    case Flush => a.FlushSaid? && (Breaks(a) ==> a.f.error in {SocketError, WriteZero})
    case Write(buf) =>
      && HonestWrite(buf, a, r)
      && (r.mode.Sending? && OverRuns(r, buf) ==> !a.r.Ready?)
      && (a.r == Failed(ExceedsContentLength) ==> OverRuns(r, buf))
    case WriteVectored(bufs) =>
      && HonestWrite(Flatten(bufs), a, r)
      && (a.r == Failed(ExceedsContentLength) ==> SliceOverRuns(r, bufs))
  }

  ghost predicate HonestWrite(bytes: seq<byte>, a: Answer, r: Ref) {
    && a.Took?
    && (a.r.Ready? ==> a.r.value <= |bytes|)
    && (a.r == Ready(0) && bytes != [] ==> Engage(r).mode.Idle?)
    && (a.r.Failed? ==> a.r.error != PlanDisappeared && a.r.error != StateLost)
  }

  predicate Broken(answers: seq<Answer>) {
    answers != [] && Breaks(answers[|answers| - 1])
  }

  /** The error is what the socket last said, and the wire holds a prefix of what was consumed and offered. */
  ghost predicate BrokeHonestly(log: seq<Event>, ops: seq<Op>, answers: seq<Answer>, wire: seq<byte>, said: Said)
    requires |answers| <= |ops| && Broken(answers)
  {
    var k := |answers| - 1;
    && Blames(ErrorOf(answers[k]), said)
    && wire <= Replay(log + AllTold(ops, answers[..k]) + Accepts(Offered(ops[k]))).out
  }

  /** One operation. */
  method Do(s: SendfileStream, op: Op) returns (a: Answer)
    requires s.Valid()
    modifies s`state, s`owed, s`plan, s`polls, s.inner, s.slot
    ensures Honest(op, a, old(s.Reference()), s.slot.hasSendfile)
    ensures !Breaks(a) ==> s.Valid() && s.slot.log == old(s.slot.log) + Told(op, a)
    ensures Breaks(a) ==> s.inner.out <= Replay(old(s.slot.log) + Accepts(Offered(op))).out
    ensures Breaks(a) ==> Blames(ErrorOf(a), s.inner.said)
    ensures old(s.inner.out) <= s.inner.out
    ensures s.inner.parks >= old(s.inner.parks) + if Waits(a) then 1 else 0
  {
    match op
    case HandlerArms(file, offset, len) =>
      ReplayArm(s.slot.log, Plan(file, offset, len));
      var body := s.slot.Arm(file, offset, len);
      a := Armed(body != null);
    case Write(buf) =>
      var r := s.PollWrite(buf);
      a := Took(r);
    case WriteVectored(bufs) =>
      var r := s.PollWriteVectored(bufs);
      a := Took(r);
    case Flush =>
      assert s.slot.log + Accepts([]) == s.slot.log;
      var r := s.PollFlush();
      a := FlushSaid(r);
  }

  /** Every answer was honest, asked where the answers before it had brought the reference machine. */
  ghost predicate AllHonest(log: seq<Event>, ops: seq<Op>, answers: seq<Answer>, hasSendfile: bool)
    requires |answers| <= |ops|
  {
    forall k :: 0 <= k < |answers| ==>
      Honest(ops[k], answers[k], Replay(log + AllTold(ops, answers[..k])), hasSendfile)
  }

  /**
   Drives a connection through arbitrary operations, whatever the socket answers, up to the first
   error. The log is exactly what the answers say was consumed; as long as nothing breaks, the
   wire plus the held-back bytes are the reference output of that, and after an error the wire
   holds a prefix of it. A wait is reported only as often as the socket registered a waker.
   */
  method Run(s: SendfileStream, ops: seq<Op>) returns (answers: seq<Answer>)
    requires s.Valid()
    modifies s`state, s`owed, s`plan, s`polls, s.inner, s.slot
    ensures |answers| <= |ops| && AllHonest(old(s.slot.log), ops, answers, s.slot.hasSendfile)
    ensures |answers| < |ops| ==> Broken(answers)
    ensures forall k :: 0 <= k < |answers| - 1 ==> !Breaks(answers[k])
    ensures !Broken(answers) ==>
      && s.Valid() && s.slot.log == old(s.slot.log) + AllTold(ops, answers)
      && s.inner.out + s.owed == Replay(s.slot.log).out
      && (s.state.Idle? ==> s.owed == [] && s.plan == None)
    ensures Broken(answers) ==> BrokeHonestly(old(s.slot.log), ops, answers, s.inner.out, s.inner.said)
    ensures old(s.inner.out) <= s.inner.out
    ensures s.inner.parks >= old(s.inner.parks) + Waiting(answers)
  {
    ghost var log := s.slot.log;
    answers := [];
    assert log + AllTold(ops, []) == log;
    while |answers| < |ops|
      invariant |answers| <= |ops| && s.Valid() && s.slot.log == log + AllTold(ops, answers)
      invariant AllHonest(log, ops, answers, s.slot.hasSendfile)
      invariant forall k :: 0 <= k < |answers| ==> !Breaks(answers[k])
      invariant old(s.inner.out) <= s.inner.out
      invariant s.inner.parks >= old(s.inner.parks) + Waiting(answers)
      decreases |ops| - |answers|
    {
      ghost var was := answers;
      var op := ops[|answers|];
      var a := Do(s, op);
      answers := answers + [a];
      ToldSnoc(log, ops, was, a, s.slot.hasSendfile);
      if Breaks(a) {
        return;
      }
    }
  }

  lemma ToldSnoc(log: seq<Event>, ops: seq<Op>, was: seq<Answer>, a: Answer, hasSendfile: bool)
    requires |was| < |ops| && AllHonest(log, ops, was, hasSendfile)
    requires Honest(ops[|was|], a, Replay(log + AllTold(ops, was)), hasSendfile)
    ensures AllHonest(log, ops, was + [a], hasSendfile)
    ensures log + AllTold(ops, was + [a]) == log + AllTold(ops, was) + Told(ops[|was|], a)
    ensures Waiting(was + [a]) == Waiting(was) + if Waits(a) then 1 else 0
  {
    HonestSnoc(log, ops, was, a, hasSendfile);
    assert (was + [a])[..|was|] == was;
    Associative(log, AllTold(ops, was), Told(ops[|was|], a));
  }

  lemma HonestSnoc(log: seq<Event>, ops: seq<Op>, was: seq<Answer>, a: Answer, hasSendfile: bool)
    requires |was| < |ops| && AllHonest(log, ops, was, hasSendfile)
    requires Honest(ops[|was|], a, Replay(log + AllTold(ops, was)), hasSendfile)
    ensures AllHonest(log, ops, was + [a], hasSendfile)
  {
    var now := was + [a];
    forall k | 0 <= k < |now| ensures Honest(ops[k], now[k], Replay(log + AllTold(ops, now[..k])), hasSendfile) {
      assert now[..k] == was[..k];
      if k < |was| {
        assert now[k] == was[k];
      } else {
        assert was[..k] == was;
      }
    }
  }

  /**
   On a connection that was told exactly a keep-alive sequence of responses, in whatever
   pieces, the peer has those responses with every upgraded body replaced by its file range,
   nothing is held back, and the next response passes through.
   */
  lemma ConnectionCarriesResponses(s: SendfileStream, responses: seq<Exchange>)
    requires s.Valid() && s.slot.log == AllEvents(responses)
    requires forall r <- responses :: WellFormed(r)
    ensures s.inner.out == AllOnTheWire(responses)
    ensures s.state.Idle? && s.owed == [] && s.plan == None && !s.slot.armed
  {
    ResponsesArriveIntact(responses);
  }

  // ---------- one upgraded response, end to end ----------

  /** `Stalled` when the socket stayed full for the whole budget of calls. */
  datatype Delivery = Completed | Stalled | Broke(error: IoError)

  /** What is left when no byte was invented: a full socket's error, or a file that got shorter. */
  predicate OutsideFault(e: IoError) {
    e == SocketError || e == WriteZero || e == ShortFile
  }

  /** Some of `bytes` was consumed, but not all. */
  ghost predicate Partly(now: seq<Event>, before: seq<Event>, bytes: seq<byte>) {
    exists n :: 0 <= n < |bytes| && now == before + Accepts(bytes[..n])
  }

  /** No piece of `bytes`, offered when it is its turn, holds more placeholders than the plan has left. */
  ghost predicate Fits(log: seq<Event>, bytes: seq<byte>) {
    forall a, b :: 0 <= a <= b <= |bytes| ==> !OverRuns(Replay(log + Accepts(bytes[..a])), bytes[a..b])
  }

  /** `queue` is what comes in `all` after its first `pos` bytes, as far as it is known yet. */
  ghost predicate QueuedAt(queue: seq<byte>, all: seq<byte>, pos: nat) {
    pos <= |all| && queue == all[pos..]
  }

  lemma QueueGrows(queue: seq<byte>, all: seq<byte>, pos: nat, frame: seq<byte>)
    requires QueuedAt(queue, all, pos)
    ensures QueuedAt(queue + frame, all + frame, pos) && (all + frame)[..pos] == all[..pos]
  {
  }

  /** However a queue that fits is sliced, no slice over-runs. */
  lemma SlicesFit(log: seq<Event>, all: seq<byte>, pos: nat, bufs: seq<seq<byte>>)
    requires Fits(log, all) && pos <= |all| && Flatten(bufs) <= all[pos..]
    ensures !SliceOverRuns(Replay(log + Accepts(all[..pos])), bufs)
  {
    var r := Replay(log + Accepts(all[..pos]));
    forall k | 0 <= k < |bufs| ensures !OverRuns(Feed(r, Flatten(bufs[..k])), bufs[k]) {
      SliceAt(bufs, k);
      PieceFits(log, all, pos, |Flatten(bufs[..k])|, |bufs[k]|);
      var n := |Flatten(bufs[..k])|;
      assert all[pos..][..n] == Flatten(bufs)[..n] == Flatten(bufs[..k]);
      assert all[pos..][n..][..|bufs[k]|] == Flatten(bufs)[n..][..|bufs[k]|] == bufs[k];
    }
  }

  lemma PieceFits(log: seq<Event>, all: seq<byte>, pos: nat, n: nat, m: nat)
    requires Fits(log, all) && pos + n + m <= |all|
    ensures !OverRuns(Feed(Replay(log + Accepts(all[..pos])), all[pos..][..n]), all[pos..][n..][..m])
  {
    AcceptsJoin(log, all, pos, n);
    ReplayFeed(log + Accepts(all[..pos]), all[pos..][..n]);
    assert all[pos..][n..][..m] == all[pos + n..pos + n + m];
  }

  /** One call of the engine: some of its queue, in one buffer or in any slices. */
  method Offer(s: SendfileStream, ghost log: seq<Event>, ghost all: seq<byte>, ghost pos: nat, queue: seq<byte>)
    returns (r: Poll<nat>)
    requires s.Valid() && queue != [] && QueuedAt(queue, all, pos)
    requires s.slot.log == log + Accepts(all[..pos]) && Fits(log, all)
    modifies s`state, s`owed, s`plan, s`polls, s.inner, s.slot
    ensures s.polls > old(s.polls)
    ensures r.Ready? ==>
      s.Valid() && r.value <= |queue| && s.slot.log == log + Accepts(all[..pos + r.value])
    ensures r.Pending? ==> s.Valid() && s.slot.log == old(s.slot.log) && s.inner.said.Parked?
    ensures r.Failed? ==> OutsideFault(r.error) && Blames(r.error, s.inner.said)
    ensures r.Failed? ==> s.inner.out <= Replay(log + Accepts(all)).out
  {
    assert queue[..|queue|] == queue;
    var n: nat :| 0 < n <= |queue|;
    var vectored := *;
    if vectored {
      var bufs := AnySlices(queue[..n]);
      r := OfferSlices(s, log, all, pos, bufs);
    } else {
      r := OfferOne(s, log, all, pos, queue[..n]);
    }
  }

  method OfferOne(s: SendfileStream, ghost log: seq<Event>, ghost all: seq<byte>, ghost pos: nat, buf: seq<byte>)
    returns (r: Poll<nat>)
    requires s.Valid() && pos <= |all| && buf <= all[pos..]
    requires s.slot.log == log + Accepts(all[..pos]) && Fits(log, all)
    modifies s`state, s`owed, s`plan, s`polls, s.inner, s.slot
    ensures s.polls > old(s.polls)
    ensures r.Ready? ==> s.Valid() && r.value <= |buf| && s.slot.log == log + Accepts(all[..pos + r.value])
    ensures r.Pending? ==> s.Valid() && s.slot.log == old(s.slot.log) && s.inner.said.Parked?
    ensures r.Failed? ==> OutsideFault(r.error) && Blames(r.error, s.inner.said)
    ensures r.Failed? ==> s.inner.out <= Replay(log + Accepts(all)).out
  {
    PrefixFits(log, all, pos, buf);
    r := s.PollWrite(buf);
    if r.Ready? {
      PrefixJoins(log, all, pos, buf, r.value);
    }
  }

  lemma PrefixFits(log: seq<Event>, all: seq<byte>, pos: nat, buf: seq<byte>)
    requires Fits(log, all) && pos <= |all| && buf <= all[pos..]
    ensures !OverRuns(Replay(log + Accepts(all[..pos])), buf)
    ensures Replay(log + Accepts(all[..pos]) + Accepts(buf)).out <= Replay(log + Accepts(all)).out
  {
    assert buf == all[pos..][..|buf|] == all[pos..pos + |buf|];
    OnlyAdds(log, all, pos, |buf|);
  }

  lemma PrefixJoins(log: seq<Event>, all: seq<byte>, pos: nat, buf: seq<byte>, n: nat)
    requires pos <= |all| && buf <= all[pos..] && n <= |buf|
    ensures log + Accepts(all[..pos]) + Accepts(buf[..n]) == log + Accepts(all[..pos + n])
  {
    assert buf[..n] == all[pos..][..n];
    AcceptsJoin(log, all, pos, n);
  }

  /** Any way of cutting `bytes` into slices. */
  method AnySlices(bytes: seq<byte>) returns (bufs: seq<seq<byte>>)
    ensures Flatten(bufs) == bytes
  {
    assert [bytes][1..] == [] && Flatten([bytes]) == bytes + Flatten([]) == bytes;
    bufs :| Flatten(bufs) == bytes;
  }

  method OfferSlices(s: SendfileStream, ghost log: seq<Event>, ghost all: seq<byte>, ghost pos: nat,
                     bufs: seq<seq<byte>>) returns (r: Poll<nat>)
    requires s.Valid() && pos <= |all| && Flatten(bufs) != [] && Flatten(bufs) <= all[pos..]
    requires s.slot.log == log + Accepts(all[..pos]) && Fits(log, all)
    modifies s`state, s`owed, s`plan, s`polls, s.inner, s.slot
    ensures s.polls > old(s.polls)
    ensures r.Ready? ==>
      s.Valid() && r.value <= |Flatten(bufs)| && s.slot.log == log + Accepts(all[..pos + r.value])
    ensures r.Pending? ==> s.Valid() && s.slot.log == old(s.slot.log) && s.inner.said.Parked?
    ensures r.Failed? ==> OutsideFault(r.error) && Blames(r.error, s.inner.said)
    ensures r.Failed? ==> s.inner.out <= Replay(log + Accepts(all)).out
  {
    SlicesFit(log, all, pos, bufs);
    PrefixFits(log, all, pos, Flatten(bufs));
    r := s.PollWriteVectored(bufs);
    if r.Ready? {
      PrefixJoins(log, all, pos, Flatten(bufs), r.value);
    }
  }

  /** What an accepted piece puts on the wire is a prefix of what all of `all` does. */
  lemma OnlyAdds(log: seq<Event>, all: seq<byte>, pos: nat, n: nat)
    requires pos + n <= |all|
    ensures Replay(log + Accepts(all[..pos]) + Accepts(all[pos..][..n])).out <= Replay(log + Accepts(all)).out
  {
    AcceptsJoin(log, all, pos, n);
    PrefixFirst(log, all, pos + n);
  }

  /** The engine writes all of `bytes`, retrying what the stream did not take. */
  method SendAll(s: SendfileStream, bytes: seq<byte>, fuel: nat) returns (o: Delivery)
    requires s.Valid() && Fits(s.slot.log, bytes)
    modifies s`state, s`owed, s`plan, s`polls, s.inner, s.slot
    ensures o.Completed? ==> s.Valid() && s.slot.log == old(s.slot.log) + Accepts(bytes)
    ensures o.Stalled? ==> s.Valid() && s.polls >= old(s.polls) + fuel && Partly(s.slot.log, old(s.slot.log), bytes)
    ensures o.Broke? ==> s.polls > old(s.polls) && OutsideFault(o.error) && Blames(o.error, s.inner.said)
    ensures s.polls >= old(s.polls)
    ensures s.inner.out <= Replay(old(s.slot.log) + Accepts(bytes)).out
  {
    ghost var log := s.slot.log;
    var pos, left := 0, fuel;
    assert log == log + Accepts(bytes[..pos]);
    while pos < |bytes|
      invariant 0 <= pos <= |bytes|
      invariant s.Valid() && s.slot.log == log + Accepts(bytes[..pos])
      invariant s.polls + left >= old(s.polls) + fuel && s.polls >= old(s.polls)
      decreases left
    {
      if left == 0 {
        PrefixFirst(log, bytes, pos);
        return Stalled;
      }
      left := left - 1;
      var r := Offer(s, log, bytes, pos, bytes[pos..]);
      match r
      case Pending =>
      case Failed(e) => return Broke(e);
      case Ready(n) => pos := pos + n;
    }
    assert bytes[..pos] == bytes;
    return Completed;
  }

  // ---------- where an upgraded response has got to ----------

  /** The reference machine when the head and `done` body bytes of an upgraded response are out. */
  ghost function AfterBody(p: Plan, start: seq<byte>, head: seq<byte>, done: nat): Ref
    requires done <= p.remaining
  {
    Ref(Advance(p, done), None, start + (head + FileBytes(p.file, p.offset, done)))
  }

  ghost predicate ReadyToUpgrade(r: Ref, p: Plan, head: seq<byte>) {
    r.mode.Idle? && r.armed == Some(p) && p.remaining > 0 && FirstEnd(head, Some(|head| - 1))
  }

  lemma HeadSends(log: seq<Event>, head: seq<byte>)
    requires Replay(log).mode.Idle? && Replay(log).armed.Some? && FirstEnd(head, Some(|head| - 1))
    ensures Replay(log + Accepts(head)) == Ref(Mode.Sending(Replay(log).armed.value), None, Replay(log).out + head)
  {
    assert EndsAt(head, |head| - 1);
    assert [] + head == head;
    FeedHeadEnd(Replay(log), head);
    ReplayFeed(log, head);
  }

  /** After the head and some placeholders, the machine has sent as many file bytes. */
  lemma PartlyUpgraded(log: seq<Event>, p: Plan, head: seq<byte>, placeholders: seq<byte>)
    requires ReadyToUpgrade(Replay(log), p, head) && |placeholders| <= p.remaining
    ensures Replay(log + Accepts(head + placeholders)) == AfterBody(p, Replay(log).out, head, |placeholders|)
  {
    var start := Replay(log).out;
    HeadSends(log, head);
    AcceptsAppend(head, placeholders);
    Associative(log, Accepts(head), Accepts(placeholders));
    PlaceholdersSent(log + Accepts(head), placeholders);
    Associative(start, head, FileBytes(p.file, p.offset, |placeholders|));
  }

  /** What is on the wire on the way is a prefix of what was promised. */
  lemma BodyGrows(p: Plan, start: seq<byte>, head: seq<byte>, done: nat)
    requires done <= p.remaining
    ensures AfterBody(p, start, head, done).out <= start + (head + FileBytes(p.file, p.offset, p.remaining))
  {
    var x, y := FileBytes(p.file, p.offset, done), FileBytes(p.file, p.offset + done, p.remaining - done);
    FileBytesAppend(p.file, p.offset, done, p.remaining - done);
    Associative(head, x, y);
    Associative(start, head + x, y);
  }

  /** Inside the head, the machine is scanning and the plan is still waiting. */
  lemma InsideHead(log: seq<Event>, p: Plan, head: seq<byte>, a: nat)
    requires ReadyToUpgrade(Replay(log), p, head) && a < |head|
    ensures
      var r := Replay(log + Accepts(head[..a]));
      Engage(r).mode == Mode.Head(head[..a]) && r.armed == Some(p)
  {
    ReplayFeed(log, head[..a]);
    if a > 0 {
      assert [] + head[..a] == head[..a];
      forall i ensures !EndsAt(head[..a], i) {
        if 0 <= i < a {
          assert !EndsAt(head, i);
        }
      }
      FeedHead(Replay(log), head[..a]);
    }
  }

  /** A piece that starts inside the head brings no more placeholders than were promised. */
  lemma HeadPieceFits(r: Ref, p: Plan, head: seq<byte>, all: seq<byte>, a: nat, b: nat)
    requires head <= all && a < |head| && a <= b <= |all| <= |head| + p.remaining
    requires Engage(r).mode == Mode.Head(head[..a]) && r.armed == Some(p) && FirstEnd(head, Some(|head| - 1))
    ensures !OverRuns(r, all[a..b])
  {
    assert head[..a] + all[a..b] == all[..b];
    forall e | FirstEnd(all[..b], Some(e)) ensures b - 1 - e <= p.remaining {
      if b >= |head| {
        EndSurvivesMore(head, all[..b], |head| - 1);
        FirstEndIsUnique(all[..b], Some(e), Some(|head| - 1));
      } else {
        EndSurvivesMore(all[..b], head, e);
        FirstEndIsUnique(head, Some(e), Some(|head| - 1));
      }
    }
  }

  /** However head and placeholders are cut, no piece over-runs the plan. */
  lemma UpgradedFits(log: seq<Event>, p: Plan, head: seq<byte>, placeholders: seq<byte>)
    requires ReadyToUpgrade(Replay(log), p, head) && |placeholders| <= p.remaining
    ensures Fits(log, head + placeholders)
  {
    var all := head + placeholders;
    forall a, b | 0 <= a <= b <= |all| ensures !OverRuns(Replay(log + Accepts(all[..a])), all[a..b]) {
      if a < |head| {
        assert all[..a] == head[..a];
        InsideHead(log, p, head, a);
        HeadPieceFits(Replay(log + Accepts(all[..a])), p, head, all, a, b);
      } else {
        var done := a - |head|;
        assert all[..a] == head + placeholders[..done];
        PartlyUpgraded(log, p, head, placeholders[..done]);
      }
    }
  }

  /** However much is queued and consumed, it fits and the wire holds a prefix of what was promised. */
  lemma UpgradeStands(log: seq<Event>, p: Plan, head: seq<byte>, placeholders: seq<byte>, pos: nat)
    requires ReadyToUpgrade(Replay(log), p, head) && |placeholders| <= p.remaining && pos <= |head + placeholders|
    ensures Fits(log, head + placeholders)
    ensures
      var all, promised := head + placeholders, Replay(log).out + (head + FileBytes(p.file, p.offset, p.remaining));
      Replay(log + Accepts(all)).out <= promised && Replay(log + Accepts(all[..pos])).out <= promised
  {
    PartlyUpgraded(log, p, head, placeholders);
    BodyGrows(p, Replay(log).out, head, |placeholders|);
    PrefixFirst(log, head + placeholders, pos);
    UpgradedFits(log, p, head, placeholders);
  }

  /**
   A response upgraded to `sendfile(2)`, from its first head byte to its last body byte, written by
   an engine that queues head and frames as it likes and offers any slices of its queue.

   Whatever the socket does, the peer never sees anything but a prefix of the head followed by
   the promised file range; the only way to fail is a socket error, a refused write or a file that
   got shorter, each reported by the socket; and on success exactly that range was sent and the
   connection passes bytes through again.
   */
  method SendUpgraded(s: SendfileStream, body: SendfileBody, head: seq<byte>, fuel: nat)
    returns (o: Delivery, ghost placeholders: seq<byte>)
    requires s.Valid() && s.state.Idle? && s.slot.plan.Some?
    requires body.remaining == s.slot.plan.value.remaining
    requires FirstEnd(head, Some(|head| - 1))
    modifies s`state, s`owed, s`plan, s`polls, s.inner, s.slot, body
    ensures
      var p := old(s.slot.plan).value;
      var promised := old(s.inner.out) + (head + FileBytes(p.file, p.offset, p.remaining));
      && s.inner.out <= promised
      && (o.Completed? ==> s.inner.out == promised)
    ensures o.Completed? ==> s.Valid() && s.state.Idle? && s.owed == [] && !s.slot.armed
    ensures o.Completed? ==>
      |placeholders| == old(s.slot.plan).value.remaining
      && s.slot.log == old(s.slot.log) + Accepts(head + placeholders)
    ensures o.Stalled? ==> s.Valid() && s.polls >= old(s.polls) + fuel
    ensures o.Broke? ==> s.polls > old(s.polls) && OutsideFault(o.error) && Blames(o.error, s.inner.said)
    ensures s.polls >= old(s.polls)
  {
    ghost var log, p := s.slot.log, s.slot.plan.value;
    assert ReadyToUpgrade(Replay(log), p, head) && Replay(log).out == s.inner.out;
    o, placeholders := SendQueued(s, body, log, p, head, fuel);
  }

  /** The loop, in terms of what the connection had been told when it began. */
  method SendQueued(s: SendfileStream, body: SendfileBody, ghost log: seq<Event>, ghost p: Plan, head: seq<byte>,
                    fuel: nat) returns (o: Delivery, ghost placeholders: seq<byte>)
    requires s.Valid() && s.slot.log == log && ReadyToUpgrade(Replay(log), p, head) && body.remaining == p.remaining
    modifies s`state, s`owed, s`plan, s`polls, s.inner, s.slot, body
    ensures s.inner.out <= Replay(log).out + (head + FileBytes(p.file, p.offset, p.remaining))
    ensures o.Completed? ==> s.inner.out == Replay(log).out + (head + FileBytes(p.file, p.offset, p.remaining))
    ensures o.Completed? ==> s.Valid() && s.state.Idle? && s.owed == [] && !s.slot.armed
    ensures o.Completed? ==> |placeholders| == p.remaining && s.slot.log == log + Accepts(head + placeholders)
    ensures o.Stalled? ==> s.Valid() && s.polls >= old(s.polls) + fuel
    ensures o.Broke? ==> s.polls > old(s.polls) && OutsideFault(o.error) && Blames(o.error, s.inner.said)
    ensures s.polls >= old(s.polls)
  {
    placeholders := [];
    ghost var pos: nat := 0;
    var queue, left := head, fuel;
    assert head + [] == head && log + Accepts(head[..0]) == log;
    assert Underway(s, log, head + placeholders, pos, queue);
    while queue != [] || body.remaining > 0
      invariant Underway(s, log, head + placeholders, pos, queue) && |placeholders| + body.remaining == p.remaining
      invariant s.polls + left >= old(s.polls) + fuel && s.polls >= old(s.polls)
      decreases left, body.remaining
    {
      var more := *;
      if body.remaining > 0 && (queue == [] || more) {
        var frame := body.PollFrame();
        QueueGrows(queue, head + placeholders, pos, frame.value);
        Associative(head, placeholders, frame.value);
        placeholders := placeholders + frame.value;
        queue := queue + frame.value;
      } else if left == 0 {
        UpgradeStands(log, p, head, placeholders, pos);
        return Stalled, placeholders;
      } else {
        left := left - 1;
        var r := OfferUpgraded(s, log, p, head, placeholders, pos, queue);
        if r.Failed? {
          return Broke(r.error), placeholders;
        }
        if r.Ready? {
          pos := pos + r.value;
          queue := queue[r.value..];
        }
      }
    }
    AllConsumed(s, log, p, head, placeholders, pos);
    o := Completed;
  }

  /** One call with some of the head and the placeholders queued so far. */
  method OfferUpgraded(s: SendfileStream, ghost log: seq<Event>, ghost p: Plan, ghost head: seq<byte>,
                       ghost placeholders: seq<byte>, ghost pos: nat, queue: seq<byte>) returns (r: Poll<nat>)
    requires ReadyToUpgrade(Replay(log), p, head) && |placeholders| <= p.remaining
    requires queue != [] && Underway(s, log, head + placeholders, pos, queue)
    modifies s`state, s`owed, s`plan, s`polls, s.inner, s.slot
    ensures s.polls > old(s.polls)
    ensures r.Ready? ==>
      r.value <= |queue| && Underway(s, log, head + placeholders, pos + r.value, queue[r.value..])
    ensures r.Pending? ==> Underway(s, log, head + placeholders, pos, queue)
    ensures r.Failed? ==> OutsideFault(r.error) && Blames(r.error, s.inner.said)
    ensures r.Failed? ==> s.inner.out <= Replay(log).out + (head + FileBytes(p.file, p.offset, p.remaining))
  {
    UpgradeStands(log, p, head, placeholders, pos);
    r := Offer(s, log, head + placeholders, pos, queue);
  }

  /** The first `pos` bytes of `all` have been consumed since `log`, and `queue` holds the rest. */
  ghost predicate Underway(s: SendfileStream, log: seq<Event>, all: seq<byte>, pos: nat, queue: seq<byte>)
    reads s, s.inner, s.slot
  {
    s.Valid() && QueuedAt(queue, all, pos) && s.slot.log == log + Accepts(all[..pos])
  }

  lemma AllConsumed(s: SendfileStream, log: seq<Event>, p: Plan, head: seq<byte>, placeholders: seq<byte>, pos: nat)
    requires ReadyToUpgrade(Replay(log), p, head) && |placeholders| == p.remaining
    requires Underway(s, log, head + placeholders, pos, [])
    ensures s.slot.log == log + Accepts(head + placeholders)
    ensures s.inner.out == Replay(log).out + (head + FileBytes(p.file, p.offset, p.remaining))
    ensures s.state.Idle? && s.owed == [] && !s.slot.armed
  {
    assert (head + placeholders)[..pos] == head + placeholders;
    PartlyUpgraded(log, p, head, placeholders);
  }

  // ---------- a whole keep-alive connection ----------

  /** The same response, with placeholders of its own. */
  ghost predicate Renders(told: Exchange, r: Exchange) {
    match r
    case Ordinary(_) => told == r
    case Upgraded(plan, head, _) =>
      told.Upgraded? && told.plan == plan && told.head == head && |told.placeholders| == plan.remaining
  }

  ghost predicate AllRender(told: seq<Exchange>, responses: seq<Exchange>) {
    |told| == |responses| && forall k :: 0 <= k < |told| ==> Renders(told[k], responses[k])
  }

  /** A response nobody upgraded passes through. */
  method SendOrdinary(s: SendfileStream, bytes: seq<byte>, fuel: nat) returns (o: Delivery)
    requires s.Valid() && s.state.Idle? && s.slot.plan == None
    modifies s`state, s`owed, s`plan, s`polls, s.inner, s.slot
    ensures s.inner.out <= old(s.inner.out) + bytes
    ensures o.Completed? ==> s.inner.out == old(s.inner.out) + bytes
    ensures o.Completed? ==> s.Valid() && s.state.Idle? && s.owed == [] && s.slot.plan == None
    ensures o.Completed? ==> s.slot.log == old(s.slot.log) + Accepts(bytes)
    ensures o.Stalled? ==> s.Valid() && s.polls >= old(s.polls) + fuel
    ensures o.Broke? ==> s.polls > old(s.polls) && OutsideFault(o.error) && Blames(o.error, s.inner.said)
    ensures s.polls >= old(s.polls)
  {
    ghost var log, ref := s.slot.log, s.Reference();
    assert ref.mode.Idle? && ref.armed.None? && ref.out == s.inner.out;
    QuietFits(log, bytes);
    QuietBytes(log, bytes);
    o := SendAll(s, bytes, fuel);
    if o.Completed? {
      assert s.Reference() == ref.(out := ref.out + bytes);
    }
  }

  lemma QuietFits(log: seq<Event>, bytes: seq<byte>)
    requires Replay(log).mode.Idle? && Replay(log).armed.None?
    ensures Fits(log, bytes)
  {
    forall a, b | 0 <= a <= b <= |bytes| ensures !OverRuns(Replay(log + Accepts(bytes[..a])), bytes[a..b]) {
      QuietBytes(log, bytes[..a]);
    }
  }

  /** An armed or ordinary response leaves through a quiet connection. */
  method SendResponse(s: SendfileStream, r: Exchange, fuel: nat) returns (o: Delivery, ghost told: Exchange)
    requires s.Valid() && s.state.Idle? && s.slot.plan == None && s.slot.hasSendfile && WellFormed(r)
    modifies s`state, s`owed, s`plan, s`polls, s.inner, s.slot
    ensures s.inner.out <= old(s.inner.out) + OnTheWire(r)
    ensures o.Completed? ==> s.inner.out == old(s.inner.out) + OnTheWire(r)
    ensures o.Completed? ==> s.Valid() && s.state.Idle? && s.owed == [] && s.slot.plan == None
    ensures o.Completed? ==> Renders(told, r) && s.slot.log == old(s.slot.log) + EventsOf(told)
    ensures o.Stalled? ==> s.Valid() && s.polls >= old(s.polls) + fuel
    ensures o.Broke? ==> s.polls > old(s.polls) && OutsideFault(o.error) && Blames(o.error, s.inner.said)
    ensures s.polls >= old(s.polls)
  {
    told := r;
    ghost var log := s.slot.log;
    match r
    case Ordinary(bytes) =>
      o := SendOrdinary(s, bytes, fuel);
    case Upgraded(plan, head, _) =>
      ReplayArm(log, plan);
      var body := s.slot.Arm(plan.file, plan.offset, plan.remaining);
      ghost var placeholders;
      o, placeholders := SendUpgraded(s, body, head, fuel);
      told := Upgraded(plan, head, placeholders);
      Associative(log, [Event.Arm(plan)], Accepts(head + placeholders));
  }

  /**
   A keep-alive connection serving one response after the other. Whatever the socket does, the
   peer has a prefix of those responses with every upgraded body replaced by its file range; on
   completion it has all of them, and the connection is ready for the next.
   */
  method ServeAll(s: SendfileStream, responses: seq<Exchange>, fuel: nat)
    returns (o: Delivery, ghost told: seq<Exchange>)
    requires s.Valid() && s.state.Idle? && s.slot.plan == None && s.slot.hasSendfile
    requires forall r <- responses :: WellFormed(r)
    modifies s`state, s`owed, s`plan, s`polls, s.inner, s.slot
    ensures s.inner.out <= old(s.inner.out) + AllOnTheWire(responses)
    ensures o.Completed? ==> s.inner.out == old(s.inner.out) + AllOnTheWire(responses)
    ensures o.Completed? ==> s.Valid() && s.state.Idle? && s.owed == [] && s.slot.plan == None
    ensures o.Completed? ==> AllRender(told, responses) && s.slot.log == old(s.slot.log) + AllEvents(told)
    ensures o.Stalled? ==> s.Valid() && s.polls >= old(s.polls) + fuel
    ensures o.Broke? ==> s.polls > old(s.polls) && OutsideFault(o.error) && Blames(o.error, s.inner.said)
  {
    ghost var log, start := s.slot.log, s.inner.out;
    told := [];
    assert responses[..0] == [] && start + AllOnTheWire([]) == start && log + AllEvents([]) == log;
    for k := 0 to |responses|
      invariant s.Valid() && s.state.Idle? && s.slot.plan == None && s.owed == []
      invariant s.inner.out == start + AllOnTheWire(responses[..k])
      invariant |told| == k && AllRender(told, responses[..k]) && s.slot.log == log + AllEvents(told)
      invariant s.polls >= old(s.polls)
    {
      ghost var one;
      WireSnoc(start, responses, k);
      o, one := SendResponse(s, responses[k], fuel);
      if !o.Completed? {
        PrefixTransitive(s.inner.out, start + AllOnTheWire(responses[..k + 1]), start + AllOnTheWire(responses));
        return;
      }
      EventsSnoc(log, told, one);
      RenderSnoc(told, one, responses, k);
      told := told + [one];
    }
    assert responses[..|responses|] == responses;
    o := Completed;
  }

  lemma RenderSnoc(told: seq<Exchange>, one: Exchange, responses: seq<Exchange>, k: nat)
    requires k < |responses| && AllRender(told, responses[..k]) && Renders(one, responses[k])
    ensures AllRender(told + [one], responses[..k + 1])
  {
  }

  lemma EventsSnoc(log: seq<Event>, told: seq<Exchange>, one: Exchange)
    ensures log + AllEvents(told + [one]) == log + AllEvents(told) + EventsOf(one)
  {
    assert (told + [one])[..|told|] == told;
    Associative(log, AllEvents(told), EventsOf(one));
  }

  lemma WireSnoc(start: seq<byte>, responses: seq<Exchange>, k: nat)
    requires k < |responses|
    ensures start + AllOnTheWire(responses[..k + 1]) == start + AllOnTheWire(responses[..k]) + OnTheWire(responses[k])
    ensures start + AllOnTheWire(responses[..k + 1]) <= start + AllOnTheWire(responses)
  {
    assert responses[..k + 1][..k] == responses[..k];
    Associative(start, AllOnTheWire(responses[..k]), OnTheWire(responses[k]));
    WireGrows(responses, k + 1);
    PrefixAfter(start, AllOnTheWire(responses[..k + 1]), AllOnTheWire(responses));
  }

  lemma PrefixAfter(start: seq<byte>, a: seq<byte>, b: seq<byte>)
    requires a <= b
    ensures start + a <= start + b
  {
  }

  lemma {:induction false} WireGrows(responses: seq<Exchange>, k: nat)
    requires k <= |responses|
    ensures AllOnTheWire(responses[..k]) <= AllOnTheWire(responses)
  {
    if k == |responses| {
      assert responses[..k] == responses;
    } else {
      var front := responses[..|responses| - 1];
      WireGrows(front, k);
      assert front[..k] == responses[..k];
    }
  }
}

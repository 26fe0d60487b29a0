/** The transport stream that turns placeholder body bytes into `sendfile(2)`. */
module SendfileTransport {
  import opened Bytes
  import opened HeadScan
  import opened SendfileReference
  import opened SendfileHandoff

  datatype IoError =
    | SocketError             // reported by the transport underneath
    | WriteZero
    | ShortFile               // "file ended before its content length"
    | ExceedsContentLength    // "sendfile body exceeds its content length"
    | PlanDisappeared
    | StateLost

  datatype Poll<+T> = Pending | Ready(value: T) | Failed(error: IoError)

  datatype Transfer = Sent(count: nat) | WouldBlock | Broken

  /** What the socket's last call said; `Parked` when it left a waker behind. */
  datatype Said = Moved(n: nat) | NoRoom | Parked | Writable | Flushed | Errored

  /** The socket's last word is what `e` reports; the two errors of the stream itself are never blamed on it. */
  predicate Blames(e: IoError, said: Said) {
    match e
    case SocketError => said.Errored?
    case WriteZero => said == Moved(0)
    case ShortFile => said == Moved(0)
    case ExceedsContentLength => true
    case PlanDisappeared => false
    case StateLost => false
  }

  /**
   The socket. Results are arbitrary within the contracts; `out` is everything the peer will
   see and `said` is the last result.
   */
  class Socket {
    ghost var out: seq<byte>
    ghost var said: Said
    /** How often the socket registered a waker. */
    ghost var parks: nat
    /** How many more times in a row the socket reports writability without room for a byte. */
    var patience: nat

    constructor ()
      ensures out == [] && parks == 0
    {
      out, said, parks := [], Writable, 0;
    }

    method PollWrite(buf: seq<byte>) returns (r: Poll<nat>)
      modifies this
      ensures r.Ready? ==> r.value <= |buf| && out == old(out) + buf[..r.value]
      ensures !r.Ready? ==> out == old(out)
      ensures r.Failed? ==> r.error == SocketError
      ensures said == (match r case Pending => Parked case Failed(_) => Errored case Ready(n) => Moved(n))
      ensures parks == old(parks) + if r.Pending? then 1 else 0
    {
      var n: nat :| n <= |buf|;
      if * {
        out, said := out + buf[..n], Moved(n);
        Calm();
        return Ready(n);
      } else if * {
        said := Errored;
        return Failed(SocketError);
      }
      said, parks := Parked, parks + 1;
      Calm();
      return Pending;
    }

    method TrySendfile(file: FileImage, offset: nat, count: nat) returns (r: Transfer)
      modifies this
      ensures r.Sent? ==> r.count <= count && out == old(out) + FileBytes(file, offset, r.count)
      ensures !r.Sent? ==> out == old(out)
      ensures said == (match r case Sent(n) => Moved(n) case WouldBlock => NoRoom case Broken => Errored)
      ensures parks == old(parks) && (r.WouldBlock? ==> patience == old(patience))
    {
      var n: nat :| n <= count;
      if * {
        out, said := out + FileBytes(file, offset, n), Moved(n);
        Calm();
        return Sent(n);
      } else if * {
        said := NoRoom;
        return WouldBlock;
      }
      said := Errored;
      return Broken;
    }

    method PollWritable() returns (r: Poll<()>)
      modifies this
      ensures out == old(out)
      ensures r.Failed? ==> r.error == SocketError
      ensures said == (match r case Pending => Parked case Failed(_) => Errored case Ready(_) => Writable)
      ensures r.Ready? ==> patience < old(patience)
      ensures parks == old(parks) + if r.Pending? then 1 else 0
    {
      if patience > 0 {
        patience, said := patience - 1, Writable;
        return Ready(());
      } else if * {
        said := Errored;
        return Failed(SocketError);
      }
      said, parks := Parked, parks + 1;
      Calm();
      return Pending;
    }

    /** After progress or a wait, spurious readiness may begin again. */
    method Calm()
      modifies this`patience
    {
      var any: nat :| true;
      patience := any;
    }

    method PollFlush() returns (r: Poll<()>)
      modifies this
      ensures out == old(out)
      ensures r.Failed? ==> r.error == SocketError
      ensures said == (match r case Pending => Parked case Failed(_) => Errored case Ready(_) => Flushed)
      ensures parks == old(parks) + if r.Pending? then 1 else 0
    {
      if * {
        said := Flushed;
        return Ready(());
      } else if * {
        said := Errored;
        return Failed(SocketError);
      }
      said, parks := Parked, parks + 1;
      return Pending;
    }
  }

  /**
   Moves up to `len` placeholder bytes to the socket as file content, stopping early when the
   transport is momentarily full. Even a failing call sends a prefix of the promised bytes.
   */
  method TransferBytes(target: Socket, plan: Plan, len: nat) returns (r: Poll<nat>, left: Plan)
    modifies target
    ensures !r.Pending?
    ensures target.parks == old(target.parks) && (r == Ready(0) && len > 0 ==> target.patience == old(target.patience))
    ensures left.file == plan.file && left.offset + left.remaining == plan.offset + plan.remaining
    ensures left.offset >= plan.offset
    ensures
      var done := left.offset - plan.offset;
      done <= len && (done > 0 ==> len <= plan.remaining) &&
      target.out == old(target.out) + FileBytes(plan.file, plan.offset, done)
    ensures r.Ready? ==> r.value == left.offset - plan.offset
    ensures r.Ready? ==> len <= plan.remaining
    ensures r.Failed? ==> r.error in {SocketError, ShortFile, ExceedsContentLength} && Blames(r.error, target.said)
    ensures r == Failed(ExceedsContentLength) <==> len > plan.remaining
  {
    left := plan;
    if len > plan.remaining {
      assert target.out == old(target.out) + FileBytes(plan.file, plan.offset, 0);
      return Failed(ExceedsContentLength), left;
    }
    var done := 0;
    assert target.out == old(target.out) + FileBytes(plan.file, plan.offset, 0);
    while done < len
      invariant 0 <= done <= len
      invariant target.parks == old(target.parks) && (done == 0 ==> target.patience == old(target.patience))
      invariant left == Plan(plan.file, plan.offset + done, plan.remaining - done)
      invariant target.out == old(target.out) + FileBytes(plan.file, plan.offset, done)
    {
      var sent := target.TrySendfile(left.file, left.offset, len - done);
      match sent
      case Sent(count) =>
        if count == 0 {
          assert target.out == old(target.out) + FileBytes(plan.file, plan.offset, done);
          return Failed(ShortFile), left;
        }
        FileBytesAppend(plan.file, plan.offset, done, count);
        left := Plan(left.file, left.offset + count, left.remaining - count);
        done := done + count;
      case WouldBlock => break;
      case Broken => return Failed(SocketError), left;
    }
    return Ready(done), left;
  }

  lemma FileBytesAppend(file: FileImage, offset: nat, a: nat, b: nat)
    ensures FileBytes(file, offset, a + b) == FileBytes(file, offset, a) + FileBytes(file, offset + a, b)
  {
  }

  /** However far a transfer got, the wire holds a prefix of what the whole of `bytes` stands for. */
  lemma PartialTransferIsPrefix(r: Ref, bytes: seq<byte>, done: nat)
    requires r.mode.Sending? && done <= |bytes|
    requires done > 0 ==> |bytes| <= r.mode.plan.remaining
    ensures var p := r.mode.plan; r.out + FileBytes(p.file, p.offset, done) <= Feed(r, bytes).out
  {
    var p := r.mode.plan;
    if done == 0 {
      FeedGrows(r, bytes);
    } else {
      FeedSending(r, bytes);
      FileBytesAppend(p.file, p.offset, done, |bytes| - done);
      AppendKeepsPrefix(r.out, FileBytes(p.file, p.offset, done), FileBytes(p.file, p.offset + done, |bytes| - done));
    }
  }

  lemma QuietBytes(log: seq<Event>, bytes: seq<byte>)
    requires Replay(log).mode.Idle? && Replay(log).armed.None?
    ensures Replay(log + Accepts(bytes)) == Replay(log).(out := Replay(log).out + bytes)
  {
    ReplayFeed(log, bytes);
    FeedIdle(Replay(log), bytes);
  }

  lemma PlaceholdersSent(log: seq<Event>, bytes: seq<byte>)
    requires Replay(log).mode.Sending? && |bytes| <= Replay(log).mode.plan.remaining
    requires 0 < Replay(log).mode.plan.remaining
    ensures
      var r, p := Replay(log), Replay(log).mode.plan;
      Replay(log + Accepts(bytes)) == Ref(Advance(p, |bytes|), r.armed, r.out + FileBytes(p.file, p.offset, |bytes|))
  {
    ReplayFeed(log, bytes);
    if bytes != [] {
      FeedSending(Replay(log), bytes);
    } else {
      var r, p := Replay(log), Replay(log).mode.plan;
      assert r.out + FileBytes(p.file, p.offset, 0) == r.out;
    }
  }

  lemma AppendKeepsPrefix(a: seq<byte>, b: seq<byte>, c: seq<byte>)
    ensures a + b <= a + (b + c)
  {
    assert a + (b + c) == (a + b) + c;
  }

  /** Bytes after a head only add to what the wire will hold. */
  lemma PartialHeadIsPrefix(r: Ref, head: seq<byte>, rest: seq<byte>)
    requires Feed(r, head).out == r.out + head
    ensures r.out + head <= Feed(r, head + rest).out
  {
    FeedAppend(r, head, rest);
    FeedGrows(Feed(r, head), rest);
  }

  /** What the socket took and what is held back make up the head. */
  lemma HeldBack(out: seq<byte>, head: seq<byte>, w: nat)
    requires w <= |head|
    ensures out + head[..w] <= out + head
    ensures out + head[..w] + ([] + head[w..]) == out + head
    ensures w == |head| ==> out + head[..w] + [] == out + head
  {
    assert head[..w] + head[w..] == head;
    Associative(out, head[..w], head[w..]);
  }

  lemma AcceptsJoin(log: seq<Event>, buf: seq<byte>, a: nat, b: nat)
    requires a + b <= |buf|
    ensures log + Accepts(buf[..a]) + Accepts(buf[a..][..b]) == log + Accepts(buf[..a + b])
  {
    assert buf[..a + b] == buf[..a] + buf[a..][..b];
    AcceptsAppend(buf[..a], buf[a..][..b]);
    Associative(log, Accepts(buf[..a]), Accepts(buf[a..][..b]));
  }

  /** What the bytes handed to the stream are taken to mean. */
  datatype State = Idle | Head(carry: seq<byte>, len: nat) | Sending

  class SendfileStream {
    const inner: Socket
    const slot: SendfileSlot
    var state: State
    /** Head bytes taken from the caller but not yet accepted by the socket. */
    var owed: seq<byte>
    var plan: Option<Plan>
    /** How often the caller has offered bytes. */
    ghost var polls: nat

    /** What the reference machine makes of everything this connection was told. */
    ghost function Reference(): Ref
      reads slot
    {
      Replay(slot.log)
    }

    /** The concrete head state remembers the end of a terminator-free head prefix. */
    ghost predicate Scanning(mode: Mode)
      reads this
    {
      && mode.Head? && state.Head?
      && Unterminated(mode.seen)
      && |state.carry| == 3 && state.len <= 3
      && state.carry[..state.len] == Tail3(mode.seen)
    }

    ghost predicate StateAgrees(r: Ref)
      reads this
    {
      match state
      case Idle => r.mode.Idle? && plan == None && owed == []
      case Head(_, _) => Scanning(Engage(r).mode) && plan == None && r.armed.Some?
      case Sending => plan.Some? && plan.value.remaining > 0 && r.mode == Mode.Sending(plan.value)
    }

    /** What every call keeps: the wire plus the held-back bytes are the reference output. */
    ghost predicate Valid()
      reads this, inner, slot
    {
      && slot.Valid()
      && slot.plan == Reference().armed
      && inner.out + owed == Reference().out
      && StateAgrees(Reference())
    }

    constructor (inner: Socket, slot: SendfileSlot)
      requires slot.Valid() && slot.log == [] && slot.plan == None && inner.out == []
      ensures Valid() && this.inner == inner && this.slot == slot
      ensures state == State.Idle && owed == []
    {
      this.inner, this.slot := inner, slot;
      state, owed, plan, polls := State.Idle, [], None, 0;
    }

    /** Pushes head bytes already taken from the caller to the socket. */
    method DrainOwed() returns (r: Poll<()>)
      modifies this`owed, inner
      ensures inner.out + owed == old(inner.out + owed)
      ensures old(inner.out) <= inner.out
      ensures r.Ready? ==> owed == []
      ensures r.Ready? && old(owed) == [] ==> inner.said == old(inner.said)
      ensures r.Pending? ==> inner.said.Parked? && old(owed) != [] && inner.parks > old(inner.parks)
      ensures r.Failed? ==> r.error in {SocketError, WriteZero} && Blames(r.error, inner.said)
      ensures inner.parks >= old(inner.parks)
    {
      while owed != []
        invariant inner.out + owed == old(inner.out + owed)
        invariant old(inner.out) <= inner.out
        invariant inner.parks >= old(inner.parks)
        invariant old(owed) == [] ==> owed == [] && inner.said == old(inner.said)
        decreases |owed|
      {
        var w := inner.PollWrite(owed);
        match w
        case Pending => return Pending;
        case Failed(e) => return Failed(e);
        case Ready(n) =>
          if n == 0 {
            return Failed(WriteZero);
          }
          assert owed == owed[..n] + owed[n..];
          owed := owed[n..];
      }
      return Ready(());
    }

    /** Returns to pass-through once the plan's last byte has reached the socket. */
    method Retire()
      modifies this`plan, this`state
      ensures old(plan).Some? && old(plan).value.remaining == 0 ==> plan == None && state == State.Idle
      ensures !(old(plan).Some? && old(plan).value.remaining == 0) ==> plan == old(plan) && state == old(state)
    {
      if plan.Some? && plan.value.remaining == 0 {
        plan := None;
        state := State.Idle;
      }
    }

    /** Hands `head` to the socket as far as it goes. */
    method PushHead(head: seq<byte>) returns (r: Poll<nat>)
      modifies inner
      ensures !r.Pending?
      ensures r.Ready? ==> r.value <= |head| && inner.out == old(inner.out) + head[..r.value]
      ensures r.Failed? ==> exists w: nat :: w <= |head| && inner.out == old(inner.out) + head[..w]
      ensures r.Failed? ==> r.error in {SocketError, WriteZero} && Blames(r.error, inner.said)
      ensures inner.parks >= old(inner.parks)
    {
      var written := 0;
      assert inner.out == old(inner.out) + head[..0];
      while written < |head|
        invariant 0 <= written <= |head|
        invariant inner.out == old(inner.out) + head[..written]
        invariant inner.parks >= old(inner.parks)
      {
        var w := inner.PollWrite(head[written..]);
        match w
        case Pending => break;
        case Failed(e) => return Failed(e);
        case Ready(n) =>
          if n == 0 {
            return Failed(WriteZero);
          }
          assert head[..written] + head[written..][..n] == head[..written + n];
          written := written + n;
      }
      return Ready(written);
    }

    /**
     Moves the state machine past `head`, which the socket or `owed` now holds: to the plan
     when the head ends here, to a longer remembered head when it does not.
     */
    method AdvanceHead(head: seq<byte>, found: bool) returns (r: Poll<()>)
      requires slot.Valid() && slot.plan == Reference().armed
      requires StateAgrees(Reference()) && state.Head?
      requires inner.out + owed == Reference().out + head
      requires InHead(Reference(), head, found)
      modifies this`state, this`plan, slot
      ensures r == Ready(())
      ensures Valid() && slot.log == old(slot.log) + Accepts(head)
      ensures Reference() == Feed(old(Reference()), head)
      ensures found <==> state.Sending?
      ensures !found <==> state.Head?
      ensures found ==> Reference() == Ref(Mode.Sending(old(slot.plan).value), None, old(Reference()).out + head)
    {
      ghost var ref := Reference();
      ReplayFeed(slot.log, head);
      if found {
        FeedHeadEnd(ref, head);
        var taken := slot.TakePlan();
        if taken.None? {
          return Failed(PlanDisappeared);
        }
        plan := taken;
        state := State.Sending;
        slot.log := slot.log + Accepts(head);
      } else {
        FeedHead(ref, head);
        var carry := state.carry[..state.len];
        TailOfTail(Engage(ref).mode.seen, head);
        var next, len := Trailing(carry, head);
        state := State.Head(next, len);
        slot.log := slot.log + Accepts(head);
      }
      return Ready(());
    }

    /** Outcome of one write, in terms of the reference machine. */
    twostate predicate WriteOutcome(buf: seq<byte>, new r: Poll<nat>)
      reads this, inner, slot
    {
      && old(inner.out) <= inner.out && inner.parks >= old(inner.parks)
      && match r
         case Ready(n) =>
           n <= |buf| && Valid() && slot.log == old(slot.log) + Accepts(buf[..n])
         case Pending =>
           Valid() && slot.log == old(slot.log) && inner.said.Parked? && inner.parks > old(inner.parks)
         case Failed(e) =>
           && inner.out <= Replay(old(slot.log) + Accepts(buf)).out
           && Blames(e, inner.said)
           && (e == ExceedsContentLength ==> OverRuns(old(Reference()), buf))
    }

    /** Gets `head` on its way, holding back what the socket refuses, and moves the state past it. */
    method PassHead(head: seq<byte>, found: bool) returns (r: Poll<nat>)
      requires slot.Valid() && slot.plan == Reference().armed
      requires inner.out == Reference().out && owed == []
      requires StateAgrees(Reference()) && state.Head? && InHead(Reference(), head, found)
      modifies this`state, this`owed, this`plan, inner, slot
      ensures old(inner.out) <= inner.out && inner.parks >= old(inner.parks)
      ensures !r.Pending?
      ensures r.Failed? ==> inner.out <= old(Reference()).out + head
      ensures r.Failed? ==> r.error in {SocketError, WriteZero} && Blames(r.error, inner.said)
      ensures r.Ready? ==> Valid() && slot.log == old(slot.log) + Accepts(head)
      ensures r.Ready? ==> Reference() == Feed(old(Reference()), head)
      ensures r.Ready? ==> (if found then state.Sending? && plan == old(slot.plan) else state.Head?)
      ensures r.Ready? ==> r.value <= |head| && (r.value == |head| ==> owed == [])
    {
      var pushed := PushHead(head);
      if pushed.Failed? {
        ghost var w: nat :| w <= |head| && inner.out == old(inner.out) + head[..w];
        HeldBack(old(inner.out), head, w);
        return Failed(pushed.error);
      }
      var written := pushed.value;
      if written < |head| {
        owed := owed + head[written..];
      }
      HeldBack(old(inner.out), head, written);
      var advanced := AdvanceHead(head, found);
      return Ready(written);
    }

    /** Writes the response head and, when it ends here, the placeholders after it. */
    method WriteHead(buf: seq<byte>) returns (r: Poll<nat>)
      requires slot.Valid() && slot.plan == Reference().armed
      requires inner.out == Reference().out && owed == []
      requires StateAgrees(Reference()) && state.Head? && buf != []
      modifies this`state, this`owed, this`plan, inner, slot
      ensures WriteOutcome(buf, r) && !r.Pending?
      ensures r.Ready? ==> r.value > 0
      ensures inner.parks >= old(inner.parks)
    {
      if !state.Head? {
        return Failed(StateLost);
      }
      var carry := state.carry[..state.len];
      var end := FindHeadEnd(carry, buf);
      var headLen := if end.Some? then end.value + 1 else |buf|;
      HeadSplits(Reference(), slot.log, carry, buf, end, headLen);
      r := WriteScanned(buf, headLen, end.Some?);
    }

    /** The rest of `WriteHead`, once it is known how much of `buf` belongs to the head. */
    method WriteScanned(buf: seq<byte>, headLen: nat, found: bool) returns (r: Poll<nat>)
      requires slot.Valid() && slot.plan == Reference().armed
      requires inner.out == Reference().out && owed == []
      requires StateAgrees(Reference()) && state.Head?
      requires HeadEndsWithin(Reference(), slot.log, buf, headLen, found)
      modifies this`state, this`owed, this`plan, inner, slot
      ensures WriteOutcome(buf, r) && !r.Pending?
      ensures r.Ready? ==> r.value > 0
      ensures inner.parks >= old(inner.parks)
    {
      ghost var ref := Reference();
      ghost var log := slot.log;
      var head := buf[..headLen];
      HeadPart(ref, log, buf, headLen, found);
      var passed := PassHead(head, found);
      if passed.Failed? {
        PrefixTransitive(inner.out, ref.out + head, Replay(log + Accepts(buf)).out);
        return Failed(passed.error);
      }
      if passed.value < headLen || headLen == |buf| {
        return Ready(headLen);
      }
      assert found;
      r := WriteBehindHead(ref, log, buf, headLen);
    }

    /** The placeholders that share a buffer with the end of their head. */
    method WriteBehindHead(ghost ref: Ref, ghost log: seq<Event>, buf: seq<byte>, headLen: nat) returns (r: Poll<nat>)
      requires Valid() && state.Sending? && owed == [] && 0 < headLen < |buf|
      requires ref == Replay(log) && slot.log == log + Accepts(buf[..headLen])
      requires HeadEndsWithin(ref, log, buf, headLen, true) && ref.armed == plan
      modifies this`state, this`plan, inner, slot
      ensures old(inner.out) <= inner.out && inner.parks >= old(inner.parks)
      ensures !r.Pending? && (r.Ready? ==> 0 < r.value <= |buf|)
      ensures r.Ready? ==> Valid() && slot.log == log + Accepts(buf[..r.value])
      ensures r.Failed? ==> inner.out <= Replay(log + Accepts(buf)).out
      ensures r.Failed? ==> r.error in {SocketError, ShortFile, ExceedsContentLength} && Blames(r.error, inner.said)
      ensures r == Failed(ExceedsContentLength) ==> OverRuns(ref, buf)
    {
      var rest := buf[headLen..];
      RestFollows(log, buf, headLen);
      r := SendPlaceholders(rest);
      if r.Ready? {
        AcceptsJoin(log, buf, headLen, r.value);
        r := Ready(headLen + r.value);
      }
    }

    /** One round of `transfer`, with the plan's progress recorded. */
    method SendPlaceholders(buf: seq<byte>) returns (r: Poll<nat>)
      requires Valid() && state.Sending? && buf != [] && owed == []
      modifies this`state, this`plan, inner, slot
      ensures old(inner.out) <= inner.out && inner.parks >= old(inner.parks)
      ensures !r.Pending?
      ensures r.Ready? ==> r.value <= |buf| && Valid() && slot.log == old(slot.log) + Accepts(buf[..r.value])
      ensures r == Ready(0) ==> state == old(state) && plan == old(plan) && inner.patience == old(inner.patience)
      ensures r.Failed? ==> inner.out <= Feed(old(Reference()), buf).out
      ensures r.Failed? ==> r.error in {SocketError, ShortFile, ExceedsContentLength} && Blames(r.error, inner.said)
      ensures r == Failed(ExceedsContentLength) <==> |buf| > old(plan).value.remaining
    {
      ghost var ref := Reference();
      var sent, left := TransferBytes(inner, plan.value, |buf|);
      match sent
      case Failed(e) =>
        PartialTransferIsPrefix(ref, buf, left.offset - plan.value.offset);
        plan := Some(left);
        return Failed(e);
      case Ready(n) =>
        RecordProgress(buf[..n], left);
        return Ready(n);
    }

    /** The file bytes that stand for `sent` are on the wire: the plan and the log follow. */
    method RecordProgress(ghost sent: seq<byte>, left: Plan)
      requires slot.Valid() && slot.plan == Reference().armed && owed == []
      requires StateAgrees(Reference()) && state.Sending? && |sent| <= plan.value.remaining
      requires left == Plan(plan.value.file, plan.value.offset + |sent|, plan.value.remaining - |sent|)
      requires inner.out == Reference().out + FileBytes(plan.value.file, plan.value.offset, |sent|)
      modifies this`state, this`plan, slot
      ensures Valid() && slot.log == old(slot.log) + Accepts(sent)
      ensures sent == [] ==> state == old(state) && plan == old(plan)
    {
      PlaceholdersSent(slot.log, sent);
      slot.log := slot.log + Accepts(sent);
      plan := Some(left);
      Retire();
    }

    /** Replaces `buf` with file content of the same length. */
    method WritePlaceholders(buf: seq<byte>) returns (r: Poll<nat>)
      requires Valid() && state.Sending? && buf != [] && owed == []
      modifies this`state, this`plan, inner, slot
      ensures WriteOutcome(buf, r)
      ensures r.Ready? ==> r.value > 0
      ensures OverRuns(old(Reference()), buf) ==> !r.Ready?
    {
      ReplayFeed(slot.log, buf);
      while true
        invariant Valid() && state.Sending? && plan == old(plan) && owed == []
        invariant slot.log == old(slot.log) && old(inner.out) <= inner.out
        invariant inner.parks >= old(inner.parks)
        decreases inner.patience
      {
        r := SendPlaceholders(buf);
        if r.Failed? || r.value > 0 {
          return r;
        }
        assert Accepts(buf[..0]) == [];
        assert slot.log == old(slot.log);
        var writable := inner.PollWritable();
        match writable
        case Ready(_) =>
        case Failed(e) =>
          FeedGrows(old(Reference()), buf);
          return Failed(e);
        case Pending => return Pending;
      }
    }

    /** Consumes a prefix of `buf` (`Ready`), none of it (`Pending`), or breaks the connection. */
    method PollWrite(buf: seq<byte>) returns (r: Poll<nat>)
      requires Valid()
      modifies this`state, this`owed, this`plan, this`polls, inner, slot
      ensures WriteOutcome(buf, r) && polls == old(polls) + 1
      // Once armed, a non-empty write never reports that nothing was written.
      ensures r == Ready(0) && buf != [] ==> old(Engage(Reference())).mode.Idle? && inner.said == Moved(0)
      ensures old(Reference()).mode.Sending? && OverRuns(old(Reference()), buf) ==> !r.Ready?
    {
      polls := polls + 1;
      if buf == [] {
        assert slot.log == slot.log + Accepts(buf[..0]);
        return Ready(0);
      }
      var drained := DrainOwed();
      match drained
      case Pending => return Pending;
      case Failed(e) =>
        ReplayFeed(slot.log, buf);
        FeedGrows(Reference(), buf);
        return Failed(e);
      case Ready(_) => r := WriteOn(buf);
    }

    /** The write itself, once nothing is held back any more. */
    method WriteOn(buf: seq<byte>) returns (r: Poll<nat>)
      requires Valid() && owed == [] && buf != []
      modifies this`state, this`owed, this`plan, inner, slot
      ensures WriteOutcome(buf, r)
      ensures r == Ready(0) ==> old(Engage(Reference())).mode.Idle? && inner.said == Moved(0)
      ensures old(Reference()).mode.Sending? && OverRuns(old(Reference()), buf) ==> !r.Ready?
    {
      if state.Idle? {
        if !slot.armed {
          r := PassThrough(buf);
          return;
        }
        state := State.Head([0, 0, 0], 0);
      }
      if state.Sending? {
        r := WritePlaceholders(buf);
      } else {
        r := WriteHead(buf);
      }
    }

    /** Ordinary bytes go straight to the socket. */
    method PassThrough(buf: seq<byte>) returns (r: Poll<nat>)
      requires Valid() && state.Idle? && slot.plan == None
      modifies inner, slot
      ensures WriteOutcome(buf, r)
      ensures r.Ready? ==> inner.said == Moved(r.value)
      ensures inner.parks >= old(inner.parks)
    {
      r := inner.PollWrite(buf);
      match r
      case Ready(n) => Pass(buf[..n]);
      case Failed(_) => QuietBytes(slot.log, buf);
      case Pending =>
    }

    /** The socket took `sent` as it is: the log follows. */
    ghost method Pass(sent: seq<byte>)
      requires slot.Valid() && slot.plan == None == Reference().armed
      requires StateAgrees(Reference()) && state.Idle? && inner.out == Reference().out + sent
      modifies slot`log
      ensures Valid() && slot.log == old(slot.log) + Accepts(sent)
    {
      QuietBytes(slot.log, sent);
      slot.log := slot.log + Accepts(sent);
    }

    /** Since `log`, exactly the first `n` bytes of `all` were consumed. */
    ghost predicate Took(log: seq<Event>, all: seq<byte>, n: nat)
      reads this, inner, slot
    {
      Valid() && n <= |all| && slot.log == log + Accepts(all[..n])
    }

    /** One pass over the slices, stopping at the first one that is not consumed in full. */
    method PollWriteVectored(bufs: seq<seq<byte>>) returns (r: Poll<nat>)
      requires Valid()
      modifies this`state, this`owed, this`plan, this`polls, inner, slot
      ensures old(inner.out) <= inner.out && inner.parks >= old(inner.parks)
      ensures r.Ready? ==> Took(old(slot.log), Flatten(bufs), r.value)
      ensures r.Pending? ==> Valid() && slot.log == old(slot.log)
      ensures r.Pending? ==> inner.said.Parked? && inner.parks > old(inner.parks)
      ensures r.Failed? ==> inner.out <= Replay(old(slot.log) + Accepts(Flatten(bufs))).out
      ensures r.Failed? ==> Blames(r.error, inner.said)
      ensures r == Failed(ExceedsContentLength) ==> SliceOverRuns(old(Reference()), bufs)
      ensures r == Ready(0) && Flatten(bufs) != [] ==> old(Engage(Reference())).mode.Idle?
      ensures polls >= old(polls) && (Flatten(bufs) != [] ==> polls > old(polls))
    {
      r := PollSlices(slot.log, bufs);
    }

    /** The loop over the slices. */
    method PollSlices(ghost log: seq<Event>, bufs: seq<seq<byte>>) returns (r: Poll<nat>)
      requires Valid() && slot.log == log
      modifies this`state, this`owed, this`plan, this`polls, inner, slot
      ensures old(inner.out) <= inner.out && inner.parks >= old(inner.parks)
      ensures r.Ready? ==> Took(log, Flatten(bufs), r.value)
      ensures r.Pending? ==> Valid() && slot.log == log
      ensures r.Pending? ==> inner.said.Parked? && inner.parks > old(inner.parks)
      ensures r.Failed? ==> inner.out <= Replay(log + Accepts(Flatten(bufs))).out
      ensures r.Failed? ==> Blames(r.error, inner.said)
      ensures r == Failed(ExceedsContentLength) ==> SliceOverRuns(Replay(log), bufs)
      ensures r == Ready(0) && Flatten(bufs) != [] ==> Engage(Replay(log)).mode.Idle?
      ensures polls >= old(polls) && (Flatten(bufs) != [] ==> polls > old(polls))
    {
      var written: nat := 0;
      NothingYet(log, bufs);
      for k := 0 to |bufs|
        invariant TookSlices(log, bufs, k, written) && (written == 0 ==> slot.log == log)
        invariant old(inner.out) <= inner.out && inner.parks >= old(inner.parks)
        invariant polls >= old(polls) && (written > 0 ==> polls > old(polls))
      {
        if bufs[k] == [] {
          SkipEmpty(bufs, k);
        } else {
          var more;
          r, more := PollSlice(log, bufs, k, written);
          if !more {
            return;
          }
          written := r.value;
        }
      }
      assert bufs[..|bufs|] == bufs;
      return Ready(written);
    }

    /** Since `log`, exactly the first `k` slices were consumed, `n` bytes in all. */
    ghost predicate TookSlices(log: seq<Event>, bufs: seq<seq<byte>>, k: nat, n: nat)
      requires k <= |bufs|
      reads this, inner, slot
    {
      n == |Flatten(bufs[..k])| && Took(log, Flatten(bufs), n)
    }

    /**
     One slice of a vectored write, in terms of all the slices' bytes: `more` after a slice that was
     consumed in full, else the answer to the whole call.
     */
    method PollSlice(ghost log: seq<Event>, bufs: seq<seq<byte>>, k: nat, written: nat)
      returns (r: Poll<nat>, more: bool)
      requires k < |bufs| && bufs[k] != [] && TookSlices(log, bufs, k, written) && (written == 0 ==> slot.log == log)
      modifies this`state, this`owed, this`plan, this`polls, inner, slot
      ensures old(inner.out) <= inner.out && inner.parks >= old(inner.parks)
      ensures more ==> r.Ready? && r.value > 0 && TookSlices(log, bufs, k + 1, r.value)
      ensures r.Ready? ==> Took(log, Flatten(bufs), r.value)
      ensures r.Pending? ==> Valid() && slot.log == log
      ensures r.Pending? ==> inner.said.Parked? && inner.parks > old(inner.parks)
      ensures r.Failed? ==> inner.out <= Replay(log + Accepts(Flatten(bufs))).out && Blames(r.error, inner.said)
      ensures r == Failed(ExceedsContentLength) ==> SliceOverRuns(Replay(log), bufs)
      ensures r == Ready(0) ==> Engage(Replay(log)).mode.Idle?
      ensures polls == old(polls) + 1
    {
      SliceAt(bufs, k);
      ReachesSlice(log, bufs, k);
      r := PollWrite(bufs[k]);
      match r
      case Ready(n) =>
        AcceptsSlice(log, Flatten(bufs), written, bufs[k], n);
        return Ready(written + n), n == |bufs[k]|;
      case Failed(_) =>
        LaterSlicesOnlyAdd(log, Flatten(bufs), written, |bufs[k]|);
        return r, false;
      case Pending =>
        return if written == 0 then Pending else Ready(written), false;
    }

    method PollFlush() returns (r: Poll<()>)
      requires Valid()
      modifies this`owed, inner
      ensures slot.log == old(slot.log) && state == old(state)
      ensures !r.Failed? ==> Valid()
      ensures r.Ready? ==> owed == [] && inner.out == Reference().out && inner.said.Flushed?
      ensures inner.parks >= old(inner.parks) && (r.Pending? ==> inner.said.Parked? && inner.parks > old(inner.parks))
      ensures r.Failed? ==> inner.out <= Reference().out
      ensures r.Failed? ==> r.error in {SocketError, WriteZero} && Blames(r.error, inner.said)
      ensures old(inner.out) <= inner.out
    {
      var drained := DrainOwed();
      match drained
      case Pending => return Pending;
      case Failed(e) => return Failed(e);
      case Ready(_) => r := inner.PollFlush();
    }
  }

  lemma NothingYet(log: seq<Event>, bufs: seq<seq<byte>>)
    ensures Flatten(bufs[..0]) == [] && log + Accepts(Flatten(bufs)[..0]) == log
  {
  }

  /** The `k`-th slice sits where the slices before it end. */
  lemma SliceAt(bufs: seq<seq<byte>>, k: nat)
    requires k < |bufs|
    ensures
      var before, all := |Flatten(bufs[..k])|, Flatten(bufs);
      before + |bufs[k]| <= |all| && all[before..][..|bufs[k]|] == bufs[k]
      && |Flatten(bufs[..k + 1])| == before + |bufs[k]| && Flatten(bufs[..k + 1]) <= all
      && Flatten(bufs[..k]) <= all
  {
    assert bufs[..k + 1] == bufs[..k] + [bufs[k]];
    FlattenSnoc(bufs[..k], bufs[k]);
    FlattenAppend(bufs[..k + 1], bufs[k + 1..]);
    assert bufs[..k + 1] + bufs[k + 1..] == bufs;
  }

  /** Some slice holds more placeholders than the plan has left when it is its turn. */
  ghost predicate SliceOverRuns(r: Ref, bufs: seq<seq<byte>>) {
    exists k :: 0 <= k < |bufs| && OverRuns(Feed(r, Flatten(bufs[..k])), bufs[k])
  }

  /** Where the reference machine stands when the slices before the `k`-th have been consumed. */
  lemma ReachesSlice(log: seq<Event>, bufs: seq<seq<byte>>, k: nat)
    requires k <= |bufs| && Flatten(bufs[..k]) <= Flatten(bufs)
    ensures
      var n := |Flatten(bufs[..k])|;
      Replay(log + Accepts(Flatten(bufs)[..n])) == Feed(Replay(log), Flatten(bufs[..k]))
  {
    assert Flatten(bufs)[..|Flatten(bufs[..k])|] == Flatten(bufs[..k]);
    ReplayFeed(log, Flatten(bufs[..k]));
  }

  lemma SkipEmpty(bufs: seq<seq<byte>>, k: nat)
    requires k < |bufs| && bufs[k] == []
    ensures |Flatten(bufs[..k + 1])| == |Flatten(bufs[..k])|
  {
    SliceAt(bufs, k);
  }

  lemma AcceptsSlice(log: seq<Event>, all: seq<byte>, a: nat, buf: seq<byte>, n: nat)
    requires a + |buf| <= |all| && all[a..][..|buf|] == buf && n <= |buf|
    ensures log + Accepts(all[..a]) + Accepts(buf[..n]) == log + Accepts(all[..a + n])
  {
    assert all[a..][..n] == buf[..n];
    AcceptsJoin(log, all, a, n);
  }

  lemma LaterSlicesOnlyAdd(log: seq<Event>, bytes: seq<byte>, a: nat, b: nat)
    requires a + b <= |bytes|
    ensures Replay(log + Accepts(bytes[..a]) + Accepts(bytes[a..][..b])).out <= Replay(log + Accepts(bytes)).out
  {
    AcceptsJoin(log, bytes, a, b);
    PrefixFirst(log, bytes, a + b);
  }

  lemma PrefixTransitive(a: seq<byte>, b: seq<byte>, c: seq<byte>)
    requires a <= b && b <= c
    ensures a <= c
  {
  }

  lemma RestFollows(log: seq<Event>, buf: seq<byte>, n: nat)
    requires n <= |buf|
    ensures Replay(log + Accepts(buf)) == Feed(Replay(log + Accepts(buf[..n])), buf[n..])
  {
    PrefixFirst(log, buf, n);
    ReplayFeed(log + Accepts(buf[..n]), buf[n..]);
  }

  /** Accepting only the first `n` bytes yields a prefix of the output for all of them. */
  lemma PrefixFirst(log: seq<Event>, bytes: seq<byte>, n: nat)
    requires n <= |bytes|
    ensures Replay(log + Accepts(bytes[..n])).out <= Replay(log + Accepts(bytes)).out
    ensures log + Accepts(bytes[..n]) + Accepts(bytes[n..]) == log + Accepts(bytes)
  {
    var some, rest := log + Accepts(bytes[..n]), bytes[n..];
    assert bytes == bytes[..n] + rest;
    AcceptsAppend(bytes[..n], rest);
    Associative(log, Accepts(bytes[..n]), Accepts(rest));
    ReplayFeed(some, rest);
    FeedGrows(Replay(some), rest);
  }

  /** The first `headLen` bytes of `buf` belong to the head; `found` when the head ends there. */
  ghost predicate HeadEndsWithin(r: Ref, log: seq<Event>, buf: seq<byte>, headLen: nat, found: bool) {
    && r == Replay(log) && r.armed.Some? && Engage(r).mode.Head?
    && 0 < headLen <= |buf| && (!found ==> headLen == |buf|)
    && r.out + buf[..headLen] <= Replay(log + Accepts(buf)).out
    && EndsAfter(Engage(r).mode.seen, buf, headLen, found)
  }

  /** `head` continues the head the machine is in, up to its end when `found`. */
  ghost predicate InHead(r: Ref, head: seq<byte>, found: bool) {
    && Engage(r).mode.Head? && head != []
    && var seen := Engage(r).mode.seen;
       if found then FirstEnd(seen + head, Some(|seen| + |head| - 1)) else Unterminated(seen + head)
  }

  lemma HeadPart(r: Ref, log: seq<Event>, buf: seq<byte>, headLen: nat, found: bool)
    requires HeadEndsWithin(r, log, buf, headLen, found)
    ensures |buf[..headLen]| == headLen && InHead(r, buf[..headLen], found)
    ensures r.out + buf[..headLen] <= Replay(log + Accepts(buf)).out
  {
  }

  ghost predicate EndsAfter(seen: seq<byte>, buf: seq<byte>, headLen: nat, found: bool)
    requires headLen <= |buf|
  {
    if found then
      FirstEnd(seen + buf[..headLen], Some(|seen| + headLen - 1)) &&
      FirstEnd(seen + buf, Some(|seen| + headLen - 1))
    else Unterminated(seen + buf[..headLen])
  }

  /** What the scan of `buf` after the three remembered bytes says about the head as a whole. */
  lemma HeadSplits(r: Ref, log: seq<Event>, carry: seq<byte>, buf: seq<byte>, end: Option<nat>, headLen: nat)
    requires r == Replay(log) && r.armed.Some? && buf != []
    requires Engage(r).mode.Head? && Unterminated(Engage(r).mode.seen) && carry == Tail3(Engage(r).mode.seen)
    requires end.Some? ==> end.value < |buf|
    requires headLen == if end.Some? then end.value + 1 else |buf|
    requires FirstEnd(carry + buf, if end.Some? then Some(|carry| + end.value) else None)
    ensures HeadEndsWithin(r, log, buf, headLen, end.Some?)
  {
    HeadEndAfter(Engage(r).mode.seen, buf, end, headLen);
    HeadReachesWire(r, log, buf, headLen, end.Some?);
  }

  lemma HeadReachesWire(r: Ref, log: seq<Event>, buf: seq<byte>, headLen: nat, found: bool)
    requires r == Replay(log) && Engage(r).mode.Head? && r.armed.Some? && 0 < headLen <= |buf|
    requires EndsAfter(Engage(r).mode.seen, buf, headLen, found)
    ensures r.out + buf[..headLen] <= Replay(log + Accepts(buf)).out
  {
    var head, rest := buf[..headLen], buf[headLen..];
    HeadPasses(r, head, found);
    ReplayFeed(log, buf);
    PartialHeadIsPrefix(r, head, rest);
    assert head + rest == buf;
  }

  lemma HeadEndAfter(seen: seq<byte>, buf: seq<byte>, end: Option<nat>, headLen: nat)
    requires Unterminated(seen)
    requires end.Some? ==> end.value < |buf|
    requires headLen == if end.Some? then end.value + 1 else |buf|
    requires FirstEnd(Tail3(seen) + buf, if end.Some? then Some(|Tail3(seen)| + end.value) else None)
    ensures EndsAfter(seen, buf, headLen, end.Some?)
  {
    TailSuffices(seen, buf, if end.Some? then Some(|Tail3(seen)| + end.value) else None);
    var some := seen + buf[..headLen];
    if end.Some? {
      assert some == (seen + buf)[..|seen| + headLen];
      forall i | 0 <= i < |seen| + headLen ensures EndsAt(some, i) <==> EndsAt(seen + buf, i) {
      }
    } else {
      assert buf[..headLen] == buf;
    }
  }

  lemma HeadPasses(r: Ref, head: seq<byte>, found: bool)
    requires Engage(r).mode.Head? && r.armed.Some? && head != []
    requires var seen := Engage(r).mode.seen;
      if found then FirstEnd(seen + head, Some(|seen| + |head| - 1)) else Unterminated(seen + head)
    ensures Feed(r, head).out == r.out + head
  {
    if found {
      FeedHeadEnd(r, head);
    } else {
      FeedHead(r, head);
    }
  }
}

/** The three ways a body reaches the client, and the bytes each of them carries. */
module BodyForms {
  import opened Bytes
  import opened Numerals
  import opened HttpResponse
  import opened SendfileReference
  import opened HeadScan
  import opened SendfileHandoff
  import opened SendfileTransport
  import opened SendfileConnection
  import opened NamedFiles

  datatype Next = End | Chunk(bytes: seq<byte>) | Error

  datatype LastRead = DiskFailed | Gave(at: nat, n: nat)

  /** The bytes a read of `n` finds at `at`. */
  function ChunkAt(content: seq<byte>, at: nat, n: nat): seq<byte>
    requires at + n <= |content|
  {
    content[at..at + n]
  }

  /**
   The open file behind a response: what it holds now, which may be less than was promised, and
   the one offset that all handles duplicated from it share.
   */
  class OpenFile {
    var content: seq<byte>
    var position: nat
    /** How often it was read, and what the last read said. */
    ghost var asked: nat
    ghost var last: LastRead

    constructor (content: seq<byte>)
      ensures this.content == content
    {
      this.content, position := content, 0;
      asked, last := 0, Gave(0, 0);
    }

    /** The last read failed, or found nothing because the file ends before where it looked. */
    ghost predicate AtFault()
      reads this
    {
      last.DiskFailed? || (last.n == 0 && last.at >= |content|)
    }

    method Seek(to: nat)
      modifies this`position
      ensures position == to
    {
      position := to;
    }

    /** Reads at least one byte where the offset stands, unless nothing is left or the disk fails. */
    method Read(max: nat) returns (r: Option<seq<byte>>)
      modifies this`position, this`asked, this`last
      ensures asked == old(asked) + 1
      ensures last == if r.None? then DiskFailed else Gave(old(position), |r.value|)
      ensures r.Some? ==> |r.value| <= max
      ensures r.Some? && r.value != [] ==>
        && old(position) + |r.value| <= |content| && r.value == content[old(position)..old(position) + |r.value|]
        && position == old(position) + |r.value|
      ensures r == Some([]) && max > 0 ==> old(position) >= |content|
    {
      asked := asked + 1;
      if * {
        last := DiskFailed;
        return None;
      }
      if position >= |content| || max == 0 {
        last := Gave(position, 0);
        return Some([]);
      }
      var n: nat :| 1 <= n <= max && n <= |content| - position by {
        assert 1 <= 1 <= max && 1 <= |content| - position;
      }
      r := Some(content[position..position + n]);
      last := Gave(position, n);
      position := position + n;
    }
  }

  /** A streamed body: `total` bytes from `offset`, one bounded read at a time. */
  class ChunkedFile {
    const file: OpenFile
    const total: nat
    const bufferSize: nat
    var readSize: nat
    var offset: nat
    /** Whether the handle came back from the last read; an error loses it. */
    var holding: bool

    ghost predicate Valid(start: nat)
      reads this
    {
      && bufferSize > 0 && holding
      && readSize <= total && offset == start + readSize
    }

    constructor (file: OpenFile, offset: nat, total: nat, bufferSize: nat)
      requires bufferSize > 0
      ensures Valid(offset) && readSize == 0
      ensures this.file == file && this.total == total && this.bufferSize == bufferSize
    {
      this.file, this.total, this.bufferSize := file, total, bufferSize;
      this.offset, readSize, holding := offset, 0, true;
    }

    /**
     The next chunk, `End` after the last one, or an error. The read happens where the shared offset
     stands: where this response put it, unless another response moved it to `moved` in between.
     */
    method PollNext(ghost start: nat, moved: Option<nat>) returns (next: Next)
      requires Valid(start)
      modifies this, file`position, file`asked, file`last
      ensures next.End? <==> old(readSize) == total
      ensures !next.Error? ==> Valid(start)
      ensures next.Error? ==> file.asked > old(file.asked) && file.AtFault()
      ensures next.Error? && file.last.Gave? ==> file.last.at == if moved.Some? then moved.value else old(offset)
      ensures file.asked >= old(file.asked)
      ensures next.Chunk? ==>
        var at := if moved.Some? then moved.value else old(offset);
        && 0 < |next.bytes| <= bufferSize && readSize == old(readSize) + |next.bytes|
        && at + |next.bytes| <= |file.content| && next.bytes == ChunkAt(file.content, at, |next.bytes|)
      ensures next.End? ==> readSize == old(readSize)
      ensures old(readSize) < total && (if moved.Some? then moved.value else old(offset)) >= |file.content| ==>
        next.Error?
    {
      if total == readSize {
        return End;
      }
      holding := false;
      var maxBytes := Min(total - readSize, bufferSize);
      file.Seek(offset);
      if moved.Some? {
        file.Seek(moved.value);
      }
      var bytes := file.Read(maxBytes);
      if bytes.None? || bytes.value == [] {
        return Error;
      }
      holding := true;
      offset := offset + |bytes.value|;
      readSize := readSize + |bytes.value|;
      return Chunk(bytes.value);
    }

    /**
     Reads the body to its end: as many bytes as were promised, or an error, never a short end; and
     exactly the promised ones if no other response shares the file's offset.
     */
    method Collect(shared: bool) returns (body: Option<seq<byte>>)
      requires Valid(offset) && readSize == 0
      modifies this, file`position, file`asked, file`last
      ensures body.Some? ==> |body.value| == total
      ensures body.None? ==> total > 0 && file.asked > old(file.asked) && file.AtFault()
      ensures body.None? && !shared && file.last.Gave? ==> old(offset) + total > |file.content|
      ensures body.Some? && !shared ==> old(offset) + total <= |file.content| || total == 0
      ensures body.Some? && !shared && total > 0 ==> body.value == file.content[old(offset)..old(offset) + total]
    {
      ghost var start := offset;
      var collected: seq<byte> := [];
      while true
        invariant Valid(start) && |collected| == readSize && file.asked >= old(file.asked)
        invariant !shared && readSize > 0 ==> offset <= |file.content| && collected == file.content[start..offset]
        decreases total - readSize
      {
        var moved: Option<nat> := None;
        if shared {
          moved :| true;
        }
        var next := PollNext(start, moved);
        match next
        case End => return Some(collected);
        case Error => return None;
        case Chunk(bytes) => collected := collected + bytes;
      }
    }
  }

  /** Whatever the file holds, a chunk has the promised bytes if and only if nobody moved the offset elsewhere. */
  lemma OffsetDecides(promised: nat, at: nat, n: nat)
    requires n > 0
    ensures at == promised <==>
      forall content: seq<byte> :: at + n <= |content| && promised + n <= |content| ==>
        ChunkAt(content, at, n) == ChunkAt(content, promised, n)
  {
    if at != promised {
      var content: seq<byte> := seq(Max(at, promised) + n, i => if i == at then 1 else 0);
      assert ChunkAt(content, at, n)[0] == 1 && ChunkAt(content, promised, n)[0] == 0;
      assert at + n <= |content| && promised + n <= |content|;
    }
  }

  /** Another response that moves the offset between seek and read makes a body wrong, not short. */
  method SharedOffsetMisreads() returns (file: OpenFile, promised: seq<byte>, next: Next)
    ensures fresh(file) && 1 < |file.content| && promised == file.content[..1]
    ensures if next.Chunk? then |next.bytes| == 1 && next.bytes != promised else next.Error? && file.last.DiskFailed?
  {
    file := new OpenFile([1, 2]);
    promised := file.content[..1];
    var reader := new ChunkedFile(file, 0, 1, 1024);
    next := reader.PollNext(0, Some(1));
    assert file.content == [1, 2] && promised[0] == 1;
    assert next.Chunk? ==> |next.bytes| == 1 && next.bytes[0] == 2;
  }

  predicate Within(i: nat, start: nat, n: nat) {
    start <= i < start + n
  }

  /** Exactly the bytes at the indices asked for, as far as the content has them. */
  ghost predicate IsPart(body: seq<byte>, content: seq<byte>, start: nat, length: nat) {
    && (forall i :: 0 <= i < |content| ==> (Within(i, start, length) <==> Within(i, start, |body|)))
    && (body != [] ==> start + |body| <= |content| && body == content[start..start + |body|])
  }

  /** The bytes a request is about: one range is that part; no range, or several, the whole. */
  ghost predicate IsAsked(body: seq<byte>, content: seq<byte>, range: RangeHeader) {
    match range
    case NoRange => body == content
    case Ranges(ranges) =>
      if |ranges| == 1 then IsPart(body, content, ranges[0].0, ranges[0].1)
      else body == if |ranges| > 1 then content else []
    case _ => body == []
  }

  /** This leaves no choice. */
  lemma OnlyOneAsked(a: seq<byte>, b: seq<byte>, content: seq<byte>, range: RangeHeader)
    requires IsAsked(a, content, range) && IsAsked(b, content, range)
    ensures a == b
  {
    if range.Ranges? && |range.ranges| == 1 {
      var (start, length) := range.ranges[0];
      OnlyOnePart(a, b, content, start, length);
    }
  }

  lemma OnlyOnePart(a: seq<byte>, b: seq<byte>, content: seq<byte>, start: nat, length: nat)
    requires IsPart(a, content, start, length) && IsPart(b, content, start, length)
    ensures a == b
  {
    NotLonger(a, b, content, start, length);
    NotLonger(b, a, content, start, length);
  }

  lemma NotLonger(a: seq<byte>, b: seq<byte>, content: seq<byte>, start: nat, length: nat)
    requires IsPart(a, content, start, length) && IsPart(b, content, start, length)
    ensures |b| <= |a|
  {
    if b != [] {
      var k := |b| - 1;
      assert Within(start + k, start, |b|) && Within(start + k, start, length) && Within(start + k, start, |a|);
    }
  }

  /** The bytes a (start, length) pair selects, clamped to the file. */
  function Selected(content: seq<byte>, start: nat, length: nat): (body: seq<byte>)
    ensures IsPart(body, content, start, length)
  {
    var n := PartSize(start, length, |content|);
    if n == 0 then [] else content[start..start + n]
  }

  /** The preloaded form of a part is exactly the selected bytes, for any parsed pair. */
  lemma PreloadedPart(f: NamedFile, content: seq<byte>, start: nat, length: nat, r: Reply)
    requires f.metadata.len == |content| && f.preread == Some(content)
    ensures
      var body := Content(f, Ranges([(start, length)]), r, true).body;
      body.Once? && IsPart(body.bytes, content, start, length)
  {
    assert [(start, length)][0] == (start, length);
    assert PrereadSlice(content, start, PartSize(start, length, |content|)) == Selected(content, start, length);
  }

  /** The image `sendfile(2)` reads from for a file with this content. */
  function ImageOf(content: seq<byte>): FileImage {
    (i: nat) => if i < |content| then content[i] else 0
  }

  /** What `upgrade_response` reads back out of the headers of a part is that part. */
  lemma PartPromise(f: NamedFile, start: nat, length: nat, r: Reply)
    requires f.metadata.len < U64_LIMIT && start < f.metadata.len && length > 0
    ensures
      var sent := Content(f, Ranges([(start, length)]), r, false);
      var promise := Promise(sent.status, sent.headers);
      && sent.status == Some(206) && sent.body == r.body
      && promise.Some? && promise.value.0 == start
      && promise.value.1 > 0 && IsPartSize(promise.value.1, start, length, f.metadata.len)
  {
    var n := PartSize(start, length, f.metadata.len);
    assert [(start, length)][0] == (start, length);
    PromiseReadsBack(Content(f, Ranges([(start, length)]), r, false), start, start + n - 1, f.metadata.len, n);
  }

  /** An empty range at offset zero is answered with a last byte that no length matches. */
  lemma EmptyRangeWraps(f: NamedFile, length: nat, r: Reply, sendBody: bool)
    requires length == 0 || f.metadata.len == 0
    ensures
      var sent := Content(f, Ranges([(0, length)]), r, sendBody).headers;
      && sent.contentLength == Some(Numeral(0, 10))
      && sent.contentRange == Some(ContentRangeText(0, U64_LIMIT - 1, f.metadata.len))
  {
    assert [(0, length)][0] == (0, length);
  }

  lemma PromiseReadsBack(sent: Reply, start: nat, last: nat, size: nat, n: nat)
    requires start < U64_LIMIT && n < U64_LIMIT && sent.status == Some(206)
    requires sent.headers.contentRange == Some(ContentRangeText(start, last, size))
    requires sent.headers.contentLength == Some(Numeral(n, 10))
    ensures Promise(sent.status, sent.headers) == Some((start, n))
  {
    ParseU64RoundTrip(n);
    RangeStartReadsBack(start, last, size);
  }

  /** The zero-copy form of a part carries the selected bytes, and as many as were declared. */
  lemma ImageCarriesPart(content: seq<byte>, start: nat, length: nat, n: nat)
    requires IsPartSize(n, start, length, |content|)
    ensures IsPart(FileBytes(ImageOf(content), start, n), content, start, length)
  {
  }

  /** The same for a whole file, and nothing is promised when there is nothing to send. */
  lemma UpgradedWhole(f: NamedFile, content: seq<byte>, range: RangeHeader, r: Reply)
    requires f.metadata.len == |content| < U64_LIMIT
    requires Select(range).Whole? && r.headers.contentRange.None?
    ensures
      var sent := Content(f, range, r, false);
      && sent.status == Some(200)
      && Promise(sent.status, sent.headers) == Some((0, |content|))
      && FileBytes(ImageOf(content), 0, |content|) == content
  {
    ParseU64RoundTrip(|content|);
  }

  /** No other status promises a body to the zero-copy path. */
  lemma NothingElseIsUpgraded(f: NamedFile, req: Request, r: Reply)
    requires f.metadata.Normal()
    requires Outcome(f, req, r, false).status !in {Some(200), Some(206)}
    ensures Promise(Outcome(f, req, r, false).status, Outcome(f, req, r, false).headers).None?
  {
  }

  /** The bytes a reply with a body is about, as far as the range decides. */
  function Asked(content: seq<byte>, range: RangeHeader): (body: seq<byte>)
    ensures IsAsked(body, content, range)
  {
    match Select(range)
    case Whole => content
    case Part(start, length) => Selected(content, start, length)
    case _ => []
  }

  /** Whether a reply is one that can be upgraded: it has a body, and the body is not empty. */
  ghost predicate Upgradable(f: NamedFile, req: Request, content: seq<byte>)
    requires f.metadata.Normal()
  {
    Decide(SentEtag(f), SentModified(f), req) == Proceed && Asked(content, req.range) != []
  }

  /** What the upgrade reads out of any reply: the range it is about, if there is anything to send. */
  lemma PromiseOfReply(f: NamedFile, content: seq<byte>, req: Request, r: Reply)
    requires f.metadata.Normal() && f.metadata.len == |content| < U64_LIMIT && r.headers.contentRange.None?
    ensures
      var sent := Outcome(f, req, r, false);
      var promise := Promise(sent.status, sent.headers);
      && sent.body == r.body
      && (promise.Some? && promise.value.1 > 0 <==> Upgradable(f, req, content))
      && (Upgradable(f, req, content) ==>
            FileBytes(ImageOf(content), promise.value.0, promise.value.1) == Asked(content, req.range))
  {
    var r1 := r.(headers := EntityHeaders(f, r.headers));
    if Decide(SentEtag(f), SentModified(f), req) == Proceed {
      PromiseOfContent(f, content, req.range, r1);
    } else {
      NothingElseIsUpgraded(f, req, r);
    }
  }

  lemma PromiseOfContent(f: NamedFile, content: seq<byte>, range: RangeHeader, r: Reply)
    requires f.metadata.len == |content| < U64_LIMIT && r.headers.contentRange.None?
    ensures
      var sent := Content(f, range, r, false);
      var promise := Promise(sent.status, sent.headers);
      && sent.body == r.body
      && (promise.Some? && promise.value.1 > 0 <==> Asked(content, range) != [])
      && (Asked(content, range) != [] ==>
            FileBytes(ImageOf(content), promise.value.0, promise.value.1) == Asked(content, range))
  {
    match Select(range)
    case Whole => UpgradedWhole(f, content, range, r);
    case Part(start, length) =>
      assert range.ranges == [(start, length)];
      var n := PartSize(start, length, |content|);
      if n > 0 {
        PartPromise(f, start, length, r);
        ImageCarriesPart(content, start, length, n);
        OnlyOnePart(FileBytes(ImageOf(content), start, n), Asked(content, range), content, start, length);
      } else {
        ParseU64RoundTrip(0);
      }
    case _ =>
  }

  /**
   Any request, all the way: preconditions, range, headers, upgrade, and the connection. The reply is
   upgraded exactly if it has a body to send and the connection is free for it. Whatever the socket
   then does, the peer sees at most the head and the bytes asked for, and all of them on completion.
   */
  method Deliver(s: SendfileStream, f: NamedFile, content: seq<byte>, req: Request, res: Response,
                 head: seq<byte>, fuel: nat) returns (upgraded: bool, d: Delivery, ghost body: seq<byte>)
    requires f.metadata.Normal() && f.metadata.len == |content| < U64_LIMIT
    requires View(res).headers.contentRange.None?
    requires s.Valid() && s.state.Idle? && FirstEnd(head, Some(|head| - 1))
    modifies res, s`state, s`owed, s`plan, s`polls, s.inner, s.slot
    ensures IsAsked(body, content, req.range)
    ensures upgraded <==>
      && Decide(SentEtag(f), SentModified(f), req) == Proceed && body != []
      && s.slot.hasSendfile && old(s.slot.plan).None?
    ensures
      var reply := Outcome(f, req, old(View(res)), false);
      res.status == reply.status && res.headers == reply.headers
    ensures !upgraded ==> View(res) == Outcome(f, req, old(View(res)), false) && unchanged(s, s.inner, s.slot)
    ensures upgraded ==>
      var promised := old(s.inner.out) + (head + body);
      && s.inner.out <= promised && (d.Completed? ==> s.inner.out == promised)
      && (d.Completed? ==> s.Valid() && s.state.Idle? && s.slot.plan == None)
      && (d.Stalled? ==> s.Valid() && s.polls >= old(s.polls) + fuel)
      && (d.Broke? ==> OutsideFault(d.error) && Blames(d.error, s.inner.said))
  {
    ghost var r := View(res);
    d, body := Completed, Asked(content, req.range);
    SendInner(f, req, res, false);
    PromiseOfReply(f, content, req, r);
    upgraded := UpgradeResponse(s.slot, res, ImageOf(content));
    if upgraded {
      ghost var sent;
      ReplayArm(old(s.slot.log), s.slot.plan.value);
      d, sent := SendUpgraded(s, res.body.placeholders, head, fuel);
    }
  }

  /** Something asked for and promised is not in the file any more. */
  ghost predicate AsksBeyond(held: nat, start: nat, length: nat, size: nat) {
    exists i: nat :: Within(i, start, length) && held <= i < size
  }

  lemma BeyondIsPastEnd(held: nat, start: nat, length: nat, size: nat, n: nat)
    requires IsPartSize(n, start, length, size)
    ensures AsksBeyond(held, start, length, size) <==> n > 0 && start + n > held
  {
    if n > 0 && start + n > held {
      assert Within(start + n - 1, start, length);
    }
  }

  /**
   The streamed form carries the same bytes, whatever sizes the reads come in, if no other response
   shares the file's offset; it carries as many of them in any case, or ends in an error.
   */
  method StreamPart(f: NamedFile, file: OpenFile, start: nat, length: nat, shared: bool)
    returns (body: Option<seq<byte>>)
    requires f.bufferSize > 0
    modifies file`position, file`asked, file`last
    ensures body.Some? ==> IsPartSize(|body.value|, start, length, f.metadata.len)
    ensures body.Some? && !shared && f.metadata.len == |file.content| ==>
      IsPart(body.value, file.content, start, length)
    ensures body.None? ==> file.asked > old(file.asked) && file.AtFault()
    ensures body.None? && !shared && file.last.Gave? ==> AsksBeyond(|file.content|, start, length, f.metadata.len)
    ensures !shared && AsksBeyond(|file.content|, start, length, f.metadata.len) ==> body.None?
  {
    ghost var n := PartSize(start, length, f.metadata.len);
    BeyondIsPastEnd(|file.content|, start, length, f.metadata.len, n);
    var reader := new ChunkedFile(file, start, PartSize(start, length, f.metadata.len), f.bufferSize);
    body := reader.Collect(shared);
    assert body.Some? && !shared && f.metadata.len == |file.content| ==>
      body.value == Selected(file.content, start, length);
  }
}

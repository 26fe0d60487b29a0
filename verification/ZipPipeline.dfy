/**
 The zip pipeline: a producer thread that walks and reads, a consumer task that writes the
 archive, a bounded queue of items between them, and a bounded queue of empty buffers back.
 Every interleaving of the two is a sequence of the actions below.
 */
module ZipPipeline {
  import opened Bytes
  import opened Walk

  const ZIP_CHUNK: nat := 262144
  const ZIP_QUEUE: nat := 8

  type Buffer = seq<byte>

  datatype Item =
    | DirItem(name: string)
    | WholeItem(name: string, data: Buffer, len: nat)
    | StartItem(name: string)
    | ChunkItem(data: Buffer, len: nat)
    | EndItem

  /** What follows the start message of a file. */
  datatype Follow = Nothing | Stream | First(data: Buffer, len: nat)

  datatype Producer =
    | NextEntry
    | TakingFirst(name: string)
    | Filling(name: string, data: Buffer, len: nat)
    | SendingDir(name: string)
    | SendingWhole(name: string, data: Buffer, len: nat)
    | SendingStart(name: string, follow: Follow)
    | Taking(name: string)
    | Reading(name: string, data: Buffer)
    | SendingChunk(name: string, data: Buffer, len: nat)
    | SendingEnd(name: string)
    | Done
    | Refused             // a send failed: nobody is receiving any more

  datatype Consumer =
    | Waiting
    | WritingDir(name: string)
    | WritingWhole(name: string, data: Buffer, len: nat)
    | Opening(name: string)
    | InFile
    | WritingChunk(data: Buffer, len: nat)
    | Closing
    | Finished
    | Stopped             // writing the response failed

  /** An archive entry with its contents. */
  datatype Archived = Folder(name: string) | FileOf(name: string, bytes: seq<byte>)

  /** A message with the bytes it carries, whatever buffer they travelled in. */
  datatype Msg =
    | MDir(name: string)
    | MWhole(name: string, bytes: seq<byte>)
    | MStart(name: string)
    | MChunk(bytes: seq<byte>)
    | MEnd

  datatype State = State(
    todo: seq<Entry>,            // entries the walk has still to hand over
    producer: Producer,
    items: seq<Item>,
    free: seq<Buffer>,
    consumer: Consumer,
    closed: seq<Archived>,       // entries written to the archive
    partial: Archived,           // the entry being streamed
    // history
    made: seq<Archived>,         // entries handed over in full, files with the bytes read
    reading: seq<byte>,          // what was read from the current file so far
    sent: seq<Msg>,
    received: seq<Msg>)

  datatype Action =
    | NextStep                                   // the walk hands over its next entry
    | Open(found: bool, small: bool)             // the file opens; its size at that moment
    | TakeBuffer
    | Read(bytes: seq<byte>)                     // any short read; empty for the end or an error
    | Send
    | Receive
    | Write(ok: bool)

  function Initial(entries: seq<Entry>): State {
    State(entries, NextEntry, [], [], Waiting, [], Folder(""), [], [], [], [])
  }

  predicate Receiving(s: State) {
    !s.consumer.Finished? && !s.consumer.Stopped?
  }

  predicate Producing(s: State) {
    !s.producer.Done? && !s.producer.Refused?
  }

  function Carried(item: Item): Msg
    requires ItemOk(item)
  {
    match item
    case DirItem(name) => MDir(name)
    case WholeItem(name, data, len) => MWhole(name, data[..len])
    case StartItem(name) => MStart(name)
    case ChunkItem(data, len) => MChunk(data[..len])
    case EndItem => MEnd
  }

  predicate BufferOk(data: Buffer, len: nat) {
    |data| == ZIP_CHUNK && len <= ZIP_CHUNK
  }

  predicate ItemOk(item: Item) {
    match item
    case WholeItem(_, data, len) => BufferOk(data, len)
    case ChunkItem(data, len) => BufferOk(data, len)
    case _ => true
  }

  /** `data[len..]` overwritten from its start: a read into the middle of a buffer. */
  function Overwrite(data: Buffer, len: nat, bytes: seq<byte>): (r: Buffer)
    requires len + |bytes| <= |data|
    ensures |r| == |data| && r[..len + |bytes|] == data[..len] + bytes
  {
    data[..len] + bytes + data[len + |bytes|..]
  }

  // ---------- producer ----------

  /** The item a sending producer offers. */
  function Offer(p: Producer): Option<Item> {
    match p
    case SendingDir(name) => Some(DirItem(name))
    case SendingWhole(name, data, len) => Some(WholeItem(name, data, len))
    case SendingStart(name, _) => Some(StartItem(name))
    case SendingChunk(_, data, len) => Some(ChunkItem(data, len))
    case SendingEnd(_) => Some(EndItem)
    case _ => None
  }

  /** Where the producer goes once its item is in the queue. */
  function Sent(p: Producer): Producer {
    match p
    case SendingStart(name, Nothing) => SendingEnd(name)
    case SendingStart(name, Stream) => Taking(name)
    case SendingStart(name, First(data, len)) => SendingChunk(name, data, len)
    case SendingChunk(name, _, _) => Taking(name)
    case _ => NextEntry
  }

  /** The entry that is complete once the producer's item is in the queue. */
  function Completed(p: Producer, reading: seq<byte>): seq<Archived> {
    match p
    case SendingDir(name) => [Folder(name)]
    case SendingWhole(name, _, _) => [FileOf(name, reading)]
    case SendingEnd(name) => [FileOf(name, reading)]
    case _ => []
  }

  /** `free_rx.try_recv().unwrap_or_else(new)`: a returned buffer, or a new one. */
  function Taken(free: seq<Buffer>): (r: (Buffer, seq<Buffer>)) {
    if free != [] then (free[0], free[1..]) else (seq(ZIP_CHUNK, _ => 0), [])
  }

  function Produce(s: State, a: Action): Option<State> {
    match (a, s.producer)
    case (NextStep, NextEntry) =>
      if s.todo == [] then Some(s.(producer := Done))
      else if s.todo[0].FileEntry? then None
      else Some(s.(todo := s.todo[1..], producer := SendingDir(s.todo[0].name), reading := []))
    case (Open(found, small), NextEntry) =>
      if s.todo == [] || s.todo[0].DirEntry? then None
      else
        var name := s.todo[0].name;
        Some(s.(todo := s.todo[1..], reading := [],
                producer := if !found then SendingStart(name, Nothing)
                            else if small then TakingFirst(name)
                            else SendingStart(name, Stream)))
    case (TakeBuffer, TakingFirst(name)) =>
      var (data, free) := Taken(s.free);
      Some(s.(free := free, producer := Filling(name, data, 0)))
    case (TakeBuffer, Taking(name)) =>
      var (data, free) := Taken(s.free);
      Some(s.(free := free, producer := Reading(name, data)))
    case (Read(bytes), Filling(name, data, len)) =>
      if len + |bytes| > |data| then None
      else
        var data' := Overwrite(data, len, bytes);
        Some(s.(reading := s.reading + bytes,
                producer :=
                  if bytes == [] then SendingWhole(name, data, len)
                  else if len + |bytes| < ZIP_CHUNK then Filling(name, data', len + |bytes|)
                  else SendingStart(name, First(data', len + |bytes|))))
    case (Read(bytes), Reading(name, data)) =>
      if |bytes| > |data| then None
      else
        Some(s.(reading := s.reading + bytes,
                producer :=
                  if bytes == [] then SendingEnd(name)
                  else SendingChunk(name, Overwrite(data, 0, bytes), |bytes|)))
    case (Send, p) =>
      var offer := Offer(p);
      if offer.None? || !ItemOk(offer.value) then None
      else if !Receiving(s) then Some(s.(producer := Refused))
      else if |s.items| >= ZIP_QUEUE then None
      else Some(s.(items := s.items + [offer.value], sent := s.sent + [Carried(offer.value)],
                   made := s.made + Completed(p, s.reading), producer := Sent(p)))
    case _ => None
  }

  // ---------- consumer ----------

  /** `free_tx.try_send(data)`: dropped when the queue is full or nobody takes buffers any more. */
  function Returned(s: State, data: Buffer): seq<Buffer> {
    if |s.free| < ZIP_QUEUE && Producing(s) then s.free + [data] else s.free
  }

  function OnItem(c: Consumer, item: Item): Consumer {
    if c.InFile? then
      match item
      case ChunkItem(data, len) => WritingChunk(data, len)
      case _ => Closing
    else
      match item
      case DirItem(name) => WritingDir(name)
      case WholeItem(name, data, len) => WritingWhole(name, data, len)
      case StartItem(name) => Opening(name)
      case ChunkItem(_, _) => Waiting
      case EndItem => Waiting
  }

  function Consume(s: State, a: Action): Option<State> {
    match (a, s.consumer)
    case (Receive, c) =>
      if !c.Waiting? && !c.InFile? then None
      else if s.items != [] then
        if !ItemOk(s.items[0]) then None
        else Some(s.(items := s.items[1..], received := s.received + [Carried(s.items[0])],
                     consumer := OnItem(c, s.items[0])))
      else if Producing(s) then None
      else Some(s.(consumer := if c.InFile? then Closing else Finished))
    case (Write(false), c) =>
      if c.Waiting? || c.InFile? || !Receiving(s) then None else Some(s.(consumer := Stopped, items := []))
    case (Write(true), WritingDir(name)) =>
      Some(s.(closed := s.closed + [Folder(name)], consumer := Waiting))
    case (Write(true), WritingWhole(name, data, len)) =>
      if len > |data| then None
      else Some(s.(closed := s.closed + [FileOf(name, data[..len])], free := Returned(s, data), consumer := Waiting))
    case (Write(true), Opening(name)) =>
      Some(s.(partial := FileOf(name, []), consumer := InFile))
    case (Write(true), WritingChunk(data, len)) =>
      if len > |data| || s.partial.Folder? then None
      else
        var grown := FileOf(s.partial.name, s.partial.bytes + data[..len]);
        Some(s.(partial := grown, free := Returned(s, data), consumer := InFile))
    case (Write(true), Closing) =>
      Some(s.(closed := s.closed + [s.partial], consumer := Waiting))
    case _ => None
  }

  function Apply(s: State, a: Action): Option<State> {
    if a.Receive? || a.Write? then Consume(s, a) else Produce(s, a)
  }

  /** The state after a run, if every action of it was possible when it came. */
  function After(entries: seq<Entry>, run: seq<Action>): Option<State> {
    if run == [] then Some(Initial(entries))
    else
      var before := After(entries, run[..|run| - 1]);
      if before.None? then None else Apply(before.value, run[|run| - 1])
  }

  // ---------- the message grammar ----------

  /** What a message sequence amounts to, and whether it is a prefix of a well-formed one. */
  datatype Archive = Archive(closed: seq<Archived>, open: Option<Archived>, wellFormed: bool)

  /** One message more: (Dir | Whole | Start Chunk* End)*. */
  function Take(ar: Archive, m: Msg): Archive {
    match m
    case MDir(name) => ar.(closed := ar.closed + [Folder(name)], wellFormed := ar.wellFormed && ar.open.None?)
    case MWhole(name, bytes) =>
      ar.(closed := ar.closed + [FileOf(name, bytes)], wellFormed := ar.wellFormed && ar.open.None?)
    case MStart(name) => ar.(open := Some(FileOf(name, [])), wellFormed := ar.wellFormed && ar.open.None?)
    case MChunk(bytes) =>
      if ar.open.Some? && ar.open.value.FileOf? then
        ar.(open := Some(FileOf(ar.open.value.name, ar.open.value.bytes + bytes)))
      else ar.(wellFormed := false)
    case MEnd =>
      if ar.open.Some? then ar.(closed := ar.closed + [ar.open.value], open := None)
      else ar.(wellFormed := false)
  }

  function Assemble(msgs: seq<Msg>): Archive {
    if msgs == [] then Archive([], None, true) else Take(Assemble(msgs[..|msgs| - 1]), msgs[|msgs| - 1])
  }

  lemma AssembleSnoc(msgs: seq<Msg>, m: Msg)
    ensures Assemble(msgs + [m]) == Take(Assemble(msgs), m)
  {
    assert (msgs + [m])[..|msgs|] == msgs;
  }

  /** A prefix of a well-formed sequence is well formed and archives a prefix. */
  lemma {:induction false} AssemblePrefix(a: seq<Msg>, b: seq<Msg>)
    requires Assemble(a + b).wellFormed
    ensures Assemble(a).wellFormed && Assemble(a).closed <= Assemble(a + b).closed
    decreases |b|
  {
    if b == [] {
      assert a + b == a;
    } else {
      var front, m := b[..|b| - 1], b[|b| - 1];
      assert (a + b)[..|a + b| - 1] == a + front;
      AssemblePrefix(a, front);
    }
  }

  // ---------- invariants ----------

  function CarriedAll(items: seq<Item>): seq<Msg>
    requires forall i :: 0 <= i < |items| ==> ItemOk(items[i])
  {
    seq(|items|, i requires 0 <= i < |items| => Carried(items[i]))
  }

  function HandBuffers(p: Producer): seq<Buffer> {
    match p
    case Filling(_, data, _) => [data]
    case SendingWhole(_, data, _) => [data]
    case SendingStart(_, First(data, _)) => [data]
    case Reading(_, data) => [data]
    case SendingChunk(_, data, _) => [data]
    case _ => []
  }

  function ConsumerBuffers(c: Consumer): seq<Buffer> {
    match c
    case WritingWhole(_, data, _) => [data]
    case WritingChunk(data, _) => [data]
    case _ => []
  }

  function ItemBuffers(item: Item): seq<Buffer> {
    match item
    case WholeItem(_, data, _) => [data]
    case ChunkItem(data, _) => [data]
    case _ => []
  }

  function QueuedBuffers(items: seq<Item>): (r: seq<Buffer>)
    ensures |r| <= |items|
  {
    if items == [] then [] else QueuedBuffers(items[..|items| - 1]) + ItemBuffers(items[|items| - 1])
  }

  /** Every buffer that exists: queued, free, or in one of the two hands. */
  function AllBuffers(s: State): seq<Buffer> {
    QueuedBuffers(s.items) + s.free + HandBuffers(s.producer) + ConsumerBuffers(s.consumer)
  }

  predicate Full(buffers: seq<Buffer>) {
    forall i :: 0 <= i < |buffers| ==> |buffers[i]| == ZIP_CHUNK
  }

  ghost predicate MemoryOk(s: State) {
    && |s.items| <= ZIP_QUEUE && |s.free| <= ZIP_QUEUE
    && |QueuedBuffers(s.items)| + |s.free| + |HandBuffers(s.producer)| + |ConsumerBuffers(s.consumer)| <= ZIP_QUEUE + 2
    && (forall i :: 0 <= i < |s.items| ==> ItemOk(s.items[i]))
    && Full(s.free) && Full(HandBuffers(s.producer)) && Full(ConsumerBuffers(s.consumer))
  }

  /** The messages sent so far are exactly the entries made and the part of the current one. */
  ghost predicate ProducerOk(s: State) {
    var ar := Assemble(s.sent);
    && ar.wellFormed && ar.closed == s.made
    && match s.producer
       case NextEntry => ar.open.None?
       case Done => ar.open.None? && s.todo == []
       case Refused => true
       case TakingFirst(_) => ar.open.None? && s.reading == []
       case Filling(_, data, len) => ar.open.None? && len < ZIP_CHUNK && BufferOk(data, len) && s.reading == data[..len]
       case SendingDir(_) => ar.open.None?
       case SendingWhole(_, data, len) =>
         ar.open.None? && len < ZIP_CHUNK && BufferOk(data, len) && s.reading == data[..len]
       case SendingStart(_, First(data, len)) =>
         ar.open.None? && BufferOk(data, len) && 0 < len && s.reading == data[..len]
       case SendingStart(_, _) => ar.open.None? && s.reading == []
       case Taking(name) => ar.open == Some(FileOf(name, s.reading))
       case Reading(name, _) => ar.open == Some(FileOf(name, s.reading))
       case SendingChunk(name, data, len) =>
         BufferOk(data, len) && 0 < len <= |s.reading| &&
         var earlier := s.reading[..|s.reading| - len];
         ar.open == Some(FileOf(name, earlier)) && s.reading == earlier + data[..len]
       case SendingEnd(name) => ar.open == Some(FileOf(name, s.reading))
  }

  /** What was received is what was written, plus the message in hand. */
  ghost predicate InHandIs(c: Consumer, ar: Archive, closed: seq<Archived>, partial: Archived) {
    match c
    case Waiting => ar.open.None? && ar.closed == closed
    case WritingDir(name) => ar.open.None? && ar.closed == closed + [Folder(name)]
    case WritingWhole(name, data, len) =>
      BufferOk(data, len) && ar.open.None? && ar.closed == closed + [FileOf(name, data[..len])]
    case Opening(name) => ar.open == Some(FileOf(name, [])) && ar.closed == closed
    case InFile => ar.open == Some(partial) && partial.FileOf? && ar.closed == closed
    case WritingChunk(data, len) =>
      BufferOk(data, len) && partial.FileOf? && ar.closed == closed
      && ar.open == Some(FileOf(partial.name, partial.bytes + data[..len]))
    case Closing => ar.open.None? && ar.closed == closed + [partial]
    case Finished => ar.open.None? && ar.closed == closed
    case Stopped => closed <= ar.closed
  }

  ghost predicate ConsumerOk(s: State) {
    && InHandIs(s.consumer, Assemble(s.received), s.closed, s.partial)
    && (s.consumer.Finished? ==> s.received == s.sent && s.producer.Done?)
  }

  /** First in, first out; and nobody gives up sending while somebody receives. */
  ghost predicate QueueOk(s: State) {
    && (forall i :: 0 <= i < |s.items| ==> ItemOk(s.items[i]))
    && (Receiving(s) ==> s.sent == s.received + CarriedAll(s.items))
    && s.received <= s.sent
    && (s.producer.Refused? ==> !Receiving(s))
    && (s.consumer.Finished? ==> s.items == [])
  }

  /** Entries come out in the order of the walk, none left out. */
  function NameOf(a: Archived): Entry {
    match a
    case Folder(name) => DirEntry(name)
    case FileOf(name, _) => FileEntry(name)
  }

  function NamesOf(made: seq<Archived>): (r: seq<Entry>)
    ensures |r| == |made|
  {
    seq(|made|, i requires 0 <= i < |made| => NameOf(made[i]))
  }

  function InHand(p: Producer): seq<Entry> {
    match p
    case TakingFirst(name) => [FileEntry(name)]
    case Filling(name, _, _) => [FileEntry(name)]
    case SendingDir(name) => [DirEntry(name)]
    case SendingWhole(name, _, _) => [FileEntry(name)]
    case SendingStart(name, _) => [FileEntry(name)]
    case Taking(name) => [FileEntry(name)]
    case Reading(name, _) => [FileEntry(name)]
    case SendingChunk(name, _, _) => [FileEntry(name)]
    case SendingEnd(name) => [FileEntry(name)]
    case _ => []
  }

  ghost predicate OrderOk(entries: seq<Entry>, s: State) {
    if s.producer.Refused? then NamesOf(s.made) <= entries
    else entries == NamesOf(s.made) + InHand(s.producer) + s.todo
  }

  ghost predicate Inv(entries: seq<Entry>, s: State) {
    MemoryOk(s) && ProducerOk(s) && ConsumerOk(s) && QueueOk(s) && OrderOk(entries, s)
  }

  // ---------- preservation ----------

  lemma QueuedAppend(items: seq<Item>, item: Item)
    ensures QueuedBuffers(items + [item]) == QueuedBuffers(items) + ItemBuffers(item)
  {
    assert (items + [item])[..|items|] == items;
  }

  lemma {:induction false} QueuedPop(items: seq<Item>)
    requires items != []
    ensures QueuedBuffers(items) == ItemBuffers(items[0]) + QueuedBuffers(items[1..])
  {
    if |items| == 1 {
      assert items[..0] == [] && items[1..] == [];
    } else {
      var front, last := items[..|items| - 1], items[|items| - 1];
      QueuedPop(front);
      assert items[1..] == front[1..] + [last];
      QueuedAppend(front[1..], last);
      Associative(ItemBuffers(items[0]), QueuedBuffers(front[1..]), ItemBuffers(last));
    }
  }

  lemma ProduceKeepsMemory(s: State, a: Action, s': State)
    requires MemoryOk(s) && Produce(s, a) == Some(s')
    ensures MemoryOk(s')
  {
    match a
    case Send => SendKeepsMemory(s, s');
    case TakeBuffer => TakeKeepsMemory(s, s');
    case Read(bytes) => ReadKeepsMemory(s, bytes, s');
    case _ =>
  }

  lemma SendKeepsMemory(s: State, s': State)
    requires MemoryOk(s) && Produce(s, Send) == Some(s')
    ensures MemoryOk(s')
  {
    if Receiving(s) {
      QueuedAppend(s.items, Offer(s.producer).value);
      SendMovesBuffer(s.producer);
    }
    assert forall i :: 0 <= i < |s'.items| ==> ItemOk(s'.items[i]);
  }

  /** A buffer is only made when none is free, so the queue and the other hand hold them all. */
  lemma TakeKeepsMemory(s: State, s': State)
    requires MemoryOk(s) && Produce(s, TakeBuffer) == Some(s')
    ensures MemoryOk(s')
  {
    assert HandBuffers(s.producer) == [] && |HandBuffers(s'.producer)| == 1;
    assert s.free != [] ==> |s.free[0]| == ZIP_CHUNK;
    assert |QueuedBuffers(s.items)| <= ZIP_QUEUE;
  }

  lemma ReadKeepsMemory(s: State, bytes: seq<byte>, s': State)
    requires MemoryOk(s) && Produce(s, Read(bytes)) == Some(s')
    ensures MemoryOk(s')
  {
    assert |HandBuffers(s.producer)| == 1 && |HandBuffers(s.producer)[0]| == ZIP_CHUNK;
    assert |HandBuffers(s'.producer)| <= 1;
  }

  /** A buffer that goes into the queue leaves the producer's hand. */
  lemma SendMovesBuffer(p: Producer)
    requires Offer(p).Some?
    ensures |HandBuffers(Sent(p))| + |ItemBuffers(Offer(p).value)| == |HandBuffers(p)|
    ensures Full(HandBuffers(p)) ==> Full(HandBuffers(Sent(p)))
  {
  }

  lemma ReceiveKeepsMemory(s: State, s': State)
    requires MemoryOk(s) && Consume(s, Receive) == Some(s')
    ensures MemoryOk(s')
  {
    if s.items != [] {
      QueuedPop(s.items);
      assert ItemOk(s.items[0]);
      assert |ConsumerBuffers(s.consumer)| == 0;
      assert |ConsumerBuffers(s'.consumer)| <= |ItemBuffers(s.items[0])|;
    }
  }

  lemma ConsumeKeepsMemory(s: State, a: Action, s': State)
    requires MemoryOk(s) && Consume(s, a) == Some(s')
    ensures MemoryOk(s')
  {
    if a.Receive? {
      ReceiveKeepsMemory(s, s');
    } else {
      WriteKeepsMemory(s, a.ok, s');
    }
  }

  lemma WriteKeepsMemory(s: State, ok: bool, s': State)
    requires MemoryOk(s) && Consume(s, Write(ok)) == Some(s')
    ensures MemoryOk(s')
  {
    if ok {
      WrittenFrees(s, s');
    }
  }

  /** A write in full leaves the rest alone and gives the buffer in hand back, if there is room for it. */
  lemma WrittenFrees(s: State, s': State)
    requires MemoryOk(s) && Consume(s, Write(true)) == Some(s')
    ensures MemoryOk(s')
  {
    var hand := ConsumerBuffers(s.consumer);
    assert s'.items == s.items && s'.producer == s.producer && ConsumerBuffers(s'.consumer) == [];
    assert hand != [] ==> |hand[0]| == ZIP_CHUNK;
    assert |s'.free| <= |s.free| + |hand|;
    assert Full(s'.free);
  }

  /** A buffer is only made when none is free, and none that could be used again is let go after a write. */
  lemma BuffersAreReused(s: State, a: Action, s': State)
    requires MemoryOk(s) && Apply(s, a) == Some(s')
    ensures a.TakeBuffer? ==> |AllBuffers(s')| == |AllBuffers(s)| + (if s.free == [] then 1 else 0)
    ensures |AllBuffers(s')| > |AllBuffers(s)| ==> a.TakeBuffer? && s.free == []
    ensures a == Write(true) && Producing(s) && |s.free| < ZIP_QUEUE ==> |AllBuffers(s')| == |AllBuffers(s)|
  {
    match a
    case Send => SendMakesNone(s, s');
    case Receive => ReceiveMakesNone(s, s');
    case TakeBuffer => assert |HandBuffers(s.producer)| == 0 && |HandBuffers(s'.producer)| == 1;
    case Write(ok) => WriteMakesNone(s, ok, s');
    case _ => assert |HandBuffers(s'.producer)| <= |HandBuffers(s.producer)|;
  }

  lemma SendMakesNone(s: State, s': State)
    requires MemoryOk(s) && Produce(s, Send) == Some(s')
    ensures |AllBuffers(s')| <= |AllBuffers(s)|
  {
    if Receiving(s) {
      QueuedAppend(s.items, Offer(s.producer).value);
      SendMovesBuffer(s.producer);
    }
  }

  lemma ReceiveMakesNone(s: State, s': State)
    requires MemoryOk(s) && Consume(s, Receive) == Some(s')
    ensures |AllBuffers(s')| <= |AllBuffers(s)|
  {
    if s.items != [] {
      QueuedPop(s.items);
      assert |ConsumerBuffers(s.consumer)| == 0;
      assert |ConsumerBuffers(s'.consumer)| <= |ItemBuffers(s.items[0])|;
    }
  }

  lemma WriteMakesNone(s: State, ok: bool, s': State)
    requires MemoryOk(s) && Consume(s, Write(ok)) == Some(s')
    ensures |AllBuffers(s')| <= |AllBuffers(s)|
    ensures ok && Producing(s) && |s.free| < ZIP_QUEUE ==> |AllBuffers(s')| == |AllBuffers(s)|
  {
    if ok {
      assert s'.items == s.items && s'.producer == s.producer && ConsumerBuffers(s'.consumer) == [];
      assert |s'.free| <= |s.free| + |ConsumerBuffers(s.consumer)|;
    } else {
      assert s'.items == [] && ConsumerBuffers(s'.consumer) == [];
    }
  }

  lemma ProduceKeepsProducer(s: State, a: Action, s': State)
    requires ProducerOk(s) && MemoryOk(s) && Produce(s, a) == Some(s')
    ensures ProducerOk(s')
  {
    match a
    case Send =>
      if Receiving(s) {
        AssembleSnoc(s.sent, Carried(Offer(s.producer).value));
        SendKeepsProducer(s, s');
      }
    case Read(bytes) => ReadKeepsProducer(s, bytes, s');
    case _ =>
  }

  lemma SendKeepsProducer(s: State, s': State)
    requires ProducerOk(s) && Produce(s, Send) == Some(s') && Receiving(s)
    requires Assemble(s'.sent) == Take(Assemble(s.sent), Carried(Offer(s.producer).value))
    ensures ProducerOk(s')
  {
    if s.producer.SendingStart? {
      StartKeepsProducer(s, s');
    } else if s.producer.SendingChunk? {
      ChunkKeepsProducer(s, s');
    } else {
      EntryKeepsProducer(s, s');
    }
  }

  lemma StartKeepsProducer(s: State, s': State)
    requires ProducerOk(s) && Produce(s, Send) == Some(s') && Receiving(s)
    requires Assemble(s'.sent) == Take(Assemble(s.sent), Carried(Offer(s.producer).value))
    requires s.producer.SendingStart?
    ensures ProducerOk(s')
  {
    assert s.made + [] == s.made;
    match s.producer.follow
    case First(data, len) =>
      assert s.reading[..|s.reading| - len] == [] && [] + data[..len] == s.reading;
    case _ =>
  }

  lemma ChunkKeepsProducer(s: State, s': State)
    requires ProducerOk(s) && Produce(s, Send) == Some(s') && Receiving(s)
    requires Assemble(s'.sent) == Take(Assemble(s.sent), Carried(Offer(s.producer).value))
    requires s.producer.SendingChunk?
    ensures ProducerOk(s')
  {
    assert s.made + [] == s.made;
    var earlier := s.reading[..|s.reading| - s.producer.len];
    assert Assemble(s'.sent).open == Some(FileOf(s.producer.name, earlier + s.producer.data[..s.producer.len]));
  }

  lemma EntryKeepsProducer(s: State, s': State)
    requires ProducerOk(s) && Produce(s, Send) == Some(s') && Receiving(s)
    requires Assemble(s'.sent) == Take(Assemble(s.sent), Carried(Offer(s.producer).value))
    requires !s.producer.SendingStart? && !s.producer.SendingChunk?
    ensures ProducerOk(s')
  {
    assert s'.producer.NextEntry? && s'.made == s.made + Completed(s.producer, s.reading);
  }

  lemma ReadKeepsProducer(s: State, bytes: seq<byte>, s': State)
    requires ProducerOk(s) && MemoryOk(s) && Produce(s, Read(bytes)) == Some(s')
    ensures ProducerOk(s')
  {
    assert bytes == [] ==> s.reading + bytes == s.reading;
    match s.producer
    case Filling(name, data, len) =>
    case Reading(name, data) =>
      if bytes != [] {
        assert HandBuffers(s.producer)[0] == data;
        assert Overwrite(data, 0, bytes)[..|bytes|] == data[..0] + bytes == bytes;
      }
    case _ =>
  }

  lemma ProduceKeepsQueue(s: State, a: Action, s': State)
    requires QueueOk(s) && Produce(s, a) == Some(s')
    ensures QueueOk(s')
  {
    if a.Send? && Receiving(s) {
      var item := Offer(s.producer).value;
      assert CarriedAll(s.items + [item]) == CarriedAll(s.items) + [Carried(item)];
      Associative(s.received, CarriedAll(s.items), [Carried(item)]);
    }
  }

  lemma ConsumeKeepsQueue(s: State, a: Action, s': State)
    requires QueueOk(s) && ConsumerOk(s) && Consume(s, a) == Some(s')
    ensures QueueOk(s')
  {
    if a.Receive? && s.items != [] {
      var item := s.items[0];
      assert CarriedAll(s.items) == [Carried(item)] + CarriedAll(s.items[1..]);
      Associative(s.received, [Carried(item)], CarriedAll(s.items[1..]));
    }
  }

  lemma ReceiveKeepsConsumer(s: State, s': State)
    requires ConsumerOk(s) && QueueOk(s) && ProducerOk(s) && QueueOk(s') && Consume(s, Receive) == Some(s')
    ensures ConsumerOk(s')
  {
    if s.items != [] {
      MessageKeepsConsumer(s, s');
    } else {
      assert s.sent == s.received + [] == s.received;
    }
  }

  lemma MessageKeepsConsumer(s: State, s': State)
    requires ConsumerOk(s) && Assemble(s.sent).wellFormed && s.items != [] && ItemOk(s.items[0])
    requires Receiving(s') && QueueOk(s') && s'.sent == s.sent && s'.received == s.received + [Carried(s.items[0])]
    requires s.consumer.Waiting? || s.consumer.InFile?
    requires s'.consumer == OnItem(s.consumer, s.items[0]) && s'.closed == s.closed && s'.partial == s.partial
    ensures ConsumerOk(s')
  {
    AssembleSnoc(s.received, Carried(s.items[0]));
    AssemblePrefix(s'.received, CarriedAll(s'.items));
    AssemblePrefix(s.received, [Carried(s.items[0])]);
    TakeIsOnItem(s.consumer, s.items[0], s.partial, Assemble(s.received), s.closed);
  }

  /** The message in hand is what the assembled archive gained. */
  lemma TakeIsOnItem(c: Consumer, item: Item, partial: Archived, ar: Archive, closed: seq<Archived>)
    requires ItemOk(item) && Take(ar, Carried(item)).wellFormed && ar.wellFormed && ar.closed == closed
    requires if c.InFile? then ar.open == Some(partial) && partial.FileOf? else c.Waiting? && ar.open.None?
    ensures InHandIs(OnItem(c, item), Take(ar, Carried(item)), closed, partial)
  {
  }

  lemma ConsumeKeepsConsumer(s: State, a: Action, s': State)
    requires ConsumerOk(s) && QueueOk(s) && ProducerOk(s) && QueueOk(s') && Consume(s, a) == Some(s')
    ensures ConsumerOk(s')
  {
    if a.Receive? {
      ReceiveKeepsConsumer(s, s');
    } else {
      WriteKeepsConsumer(s, a.ok, s');
    }
  }

  lemma WriteKeepsConsumer(s: State, ok: bool, s': State)
    requires ConsumerOk(s) && Consume(s, Write(ok)) == Some(s')
    ensures ConsumerOk(s')
  {
    assert s'.received == s.received;
    ClosedIsPrefix(s.consumer, Assemble(s.received), s.closed, s.partial);
  }

  lemma NamesAppend(a: seq<Archived>, b: seq<Archived>)
    ensures NamesOf(a + b) == NamesOf(a) + NamesOf(b)
  {
  }

  lemma ProduceKeepsOrder(entries: seq<Entry>, s: State, a: Action, s': State)
    requires OrderOk(entries, s) && Produce(s, a) == Some(s')
    ensures OrderOk(entries, s')
  {
    match a
    case Send =>
      NamesAppend(s.made, Completed(s.producer, s.reading));
      if Receiving(s) {
        assert NamesOf(Completed(s.producer, s.reading)) + InHand(s'.producer) == InHand(s.producer);
        Associative(NamesOf(s.made), NamesOf(Completed(s.producer, s.reading)), InHand(s'.producer));
      } else {
        Associative(NamesOf(s.made), InHand(s.producer), s.todo);
      }
    case NextStep => TodoMoves(NamesOf(s.made), s.todo);
    case Open(_, _) => TodoMoves(NamesOf(s.made), s.todo);
    case _ =>
  }

  lemma TodoMoves(names: seq<Entry>, todo: seq<Entry>)
    ensures names + [] + todo == names + todo
    ensures todo != [] ==> names + [todo[0]] + todo[1..] == names + todo
  {
    if todo != [] {
      assert [todo[0]] + todo[1..] == todo;
      Associative(names, [todo[0]], todo[1..]);
    }
    assert names + [] == names;
  }

  // ---------- what was read ----------

  /** The bytes read from each file, in the order the files were opened, straight from the run. */
  function Reads(run: seq<Action>): seq<seq<byte>> {
    if run == [] then [] else
      var before := Reads(run[..|run| - 1]);
      match run[|run| - 1]
      case Open(_, _) => before + [[]]
      case Read(bytes) => if before == [] then [] else before[|before| - 1 := before[|before| - 1] + bytes]
      case _ => before
  }

  /** The contents of the files among `made`. */
  function Contents(made: seq<Archived>): seq<seq<byte>> {
    if made == [] then [] else
      match made[|made| - 1]
      case Folder(_) => Contents(made[..|made| - 1])
      case FileOf(_, bytes) => Contents(made[..|made| - 1]) + [bytes]
  }

  lemma ContentsSnoc(made: seq<Archived>, a: Archived)
    ensures Contents(made + [a]) == Contents(made) + (match a case Folder(_) => [] case FileOf(_, bytes) => [bytes])
  {
    assert (made + [a])[..|made|] == made;
  }

  /** What is in hand and not yet handed over, for the file being read. */
  function Underway(s: State): seq<seq<byte>> {
    var hand := InHand(s.producer);
    if hand != [] && hand[0].FileEntry? then [s.reading] else []
  }

  ghost predicate ReadsOk(run: seq<Action>, s: State) {
    if s.producer.Refused? then Contents(s.made) <= Reads(run)
    else Reads(run) == Contents(s.made) + Underway(s)
  }

  lemma StepKeepsReads(run: seq<Action>, s: State, a: Action, s': State)
    requires ReadsOk(run, s) && Apply(s, a) == Some(s')
    ensures ReadsOk(run + [a], s')
  {
    assert (run + [a])[..|run|] == run;
    match a
    case Send => SendKeepsReads(run, s, s');
    case Read(bytes) => ReadKeepsReads(run, s, bytes, s');
    case Open(_, _) =>
      assert Underway(s) == [] && Underway(s') == [[]];
      assert Contents(s.made) + [] == Contents(s.made);
    case NextStep =>
      assert Underway(s) == [] && Underway(s') == [];
    case TakeBuffer =>
      assert Underway(s') == Underway(s);
    case Receive => assert s'.producer == s.producer && s'.made == s.made && s'.reading == s.reading;
    case Write(_) => assert s'.producer == s.producer && s'.made == s.made && s'.reading == s.reading;
  }

  lemma SendKeepsReads(run: seq<Action>, s: State, s': State)
    requires ReadsOk(run, s) && Produce(s, Send) == Some(s')
    ensures ReadsOk(run + [Send], s')
  {
    assert (run + [Send])[..|run|] == run;
    if Receiving(s) {
      CompletedContents(s.made, s.producer, s.reading, s, s');
    }
  }

  /** Handing a file over moves its bytes from what is under way to what is made. */
  lemma CompletedContents(made: seq<Archived>, p: Producer, reading: seq<byte>, s: State, s': State)
    requires s.made == made && s.producer == p && s.reading == reading
    requires s'.made == made + Completed(p, reading) && s'.producer == Sent(p) && s'.reading == reading
    requires Offer(p).Some?
    ensures Contents(s'.made) + Underway(s') == Contents(made) + Underway(s)
  {
    match p
    case SendingDir(name) =>
      ContentsSnoc(made, Folder(name));
      assert Contents(made) + [] == Contents(made);
    case SendingWhole(name, _, _) => FileIsMade(made, FileOf(name, reading));
    case SendingEnd(name) => FileIsMade(made, FileOf(name, reading));
    case SendingStart(_, _) => assert made + [] == made;
    case SendingChunk(_, _, _) => assert made + [] == made;
  }

  lemma FileIsMade(made: seq<Archived>, file: Archived)
    requires file.FileOf?
    ensures Contents(made + [file]) + [] == Contents(made) + [file.bytes]
  {
    ContentsSnoc(made, file);
  }

  lemma ReadKeepsReads(run: seq<Action>, s: State, bytes: seq<byte>, s': State)
    requires ReadsOk(run, s) && Produce(s, Read(bytes)) == Some(s')
    ensures ReadsOk(run + [Read(bytes)], s')
  {
    assert (run + [Read(bytes)])[..|run|] == run;
    var before := Contents(s.made);
    assert Underway(s) == [s.reading] && Underway(s') == [s.reading + bytes];
    assert (before + [s.reading])[|before| := s.reading + bytes] == before + [s.reading + bytes];
  }

  /** For each file, in the order they were opened, whether the last thing read from it was its end. */
  function Ended(run: seq<Action>): seq<bool> {
    if run == [] then [] else
      var before := Ended(run[..|run| - 1]);
      match run[|run| - 1]
      case Open(found, _) => before + [!found]
      case Read(bytes) => if before == [] then [] else before[|before| - 1 := bytes == []]
      case _ => before
  }

  /** Whether the file in hand has been read to its end. */
  predicate AtEnd(p: Producer) {
    p.SendingWhole? || p.SendingEnd? || (p.SendingStart? && p.follow.Nothing?)
  }

  /** Files are only handed over once they were read to their end, or could not be opened. */
  ghost predicate EndsOk(run: seq<Action>, s: State) {
    var n := |Contents(s.made)|;
    && n <= |Ended(run)| && (forall k :: 0 <= k < n ==> Ended(run)[k])
    && (!s.producer.Refused? ==>
          && |Ended(run)| == n + |Underway(s)|
          && (Underway(s) != [] ==> Ended(run)[n] == AtEnd(s.producer)))
  }

  lemma StepKeepsEnds(run: seq<Action>, s: State, a: Action, s': State)
    requires EndsOk(run, s) && Apply(s, a) == Some(s')
    ensures EndsOk(run + [a], s')
  {
    assert (run + [a])[..|run|] == run;
    match a
    case Send => SentKeepsEnds(run, s, s');
    case Read(bytes) => ReadKeepsEnds(run, s, bytes, s');
    case Open(_, _) => assert Underway(s) == [] && Underway(s') == [[]];
    case NextStep => assert Underway(s) == [] && Underway(s') == [];
    case TakeBuffer => assert Underway(s') == Underway(s);
    case Receive => assert s'.producer == s.producer && s'.made == s.made && s'.reading == s.reading;
    case Write(_) => assert s'.producer == s.producer && s'.made == s.made && s'.reading == s.reading;
  }

  lemma SentKeepsEnds(run: seq<Action>, s: State, s': State)
    requires EndsOk(run, s) && Produce(s, Send) == Some(s')
    ensures EndsOk(run + [Send], s')
  {
    assert (run + [Send])[..|run|] == run;
    if Receiving(s) {
      SendKeepsEnds(s.made, s.producer, s.reading, s, s');
    }
  }

  lemma ReadKeepsEnds(run: seq<Action>, s: State, bytes: seq<byte>, s': State)
    requires EndsOk(run, s) && Produce(s, Read(bytes)) == Some(s')
    ensures EndsOk(run + [Read(bytes)], s')
  {
    assert (run + [Read(bytes)])[..|run|] == run;
    assert Underway(s) == [s.reading] && Underway(s') == [s.reading + bytes];
  }

  lemma SendKeepsEnds(made: seq<Archived>, p: Producer, reading: seq<byte>, s: State, s': State)
    requires s.made == made && s.producer == p && s.reading == reading
    requires s'.made == made + Completed(p, reading) && s'.producer == Sent(p) && s'.reading == reading
    requires Offer(p).Some?
    ensures |Contents(s'.made)| + |Underway(s')| == |Contents(made)| + |Underway(s)|
    ensures |Contents(s'.made)| > |Contents(made)| ==> |Contents(s'.made)| == |Contents(made)| + 1 && AtEnd(p)
    ensures Underway(s') != [] ==> AtEnd(s'.producer) == AtEnd(p)
  {
    match p
    case SendingDir(name) => ContentsSnoc(made, Folder(name));
    case SendingWhole(name, _, _) => ContentsSnoc(made, FileOf(name, reading));
    case SendingEnd(name) => ContentsSnoc(made, FileOf(name, reading));
    case SendingStart(_, _) => assert made + [] == made;
    case SendingChunk(_, _, _) => assert made + [] == made;
  }

  lemma {:induction false} ReachableEnds(entries: seq<Entry>, run: seq<Action>)
    requires After(entries, run).Some?
    ensures EndsOk(run, After(entries, run).value)
  {
    if run != [] {
      var front, a := run[..|run| - 1], run[|run| - 1];
      ReachableEnds(entries, front);
      StepKeepsEnds(front, After(entries, front).value, a, After(entries, run).value);
      assert front + [a] == run;
    }
  }

  // ---------- every reachable state ----------

  lemma ProduceKeepsConsumer(s: State, a: Action, s': State)
    requires ConsumerOk(s) && Produce(s, a) == Some(s')
    ensures ConsumerOk(s')
  {
    assert s'.consumer == s.consumer && s'.received == s.received && s'.closed == s.closed && s'.partial == s.partial;
  }

  lemma ConsumeKeepsProducer(entries: seq<Entry>, s: State, a: Action, s': State)
    requires ProducerOk(s) && OrderOk(entries, s) && Consume(s, a) == Some(s')
    ensures ProducerOk(s') && OrderOk(entries, s')
  {
    assert s'.producer == s.producer && s'.sent == s.sent && s'.made == s.made;
    assert s'.reading == s.reading && s'.todo == s.todo;
  }

  lemma StepKeepsInv(entries: seq<Entry>, s: State, a: Action, s': State)
    requires Inv(entries, s) && Apply(s, a) == Some(s')
    ensures Inv(entries, s')
  {
    if a.Receive? || a.Write? {
      ConsumeKeepsMemory(s, a, s');
      ConsumeKeepsProducer(entries, s, a, s');
      ConsumeKeepsQueue(s, a, s');
      ConsumeKeepsConsumer(s, a, s');
    } else {
      ProduceKeepsMemory(s, a, s');
      ProduceKeepsQueue(s, a, s');
      ProduceKeepsProducer(s, a, s');
      ProduceKeepsConsumer(s, a, s');
      ProduceKeepsOrder(entries, s, a, s');
    }
  }

  /** Every reachable state keeps the invariants, and hands over what was read. */
  lemma Reachable(entries: seq<Entry>, run: seq<Action>)
    requires After(entries, run).Some?
    ensures Inv(entries, After(entries, run).value) && ReadsOk(run, After(entries, run).value)
  {
    ReachableInv(entries, run);
    ReachableReads(entries, run);
  }

  lemma {:induction false} ReachableInv(entries: seq<Entry>, run: seq<Action>)
    requires After(entries, run).Some?
    ensures Inv(entries, After(entries, run).value)
  {
    if run != [] {
      var front, a := run[..|run| - 1], run[|run| - 1];
      ReachableInv(entries, front);
      StepKeepsInv(entries, After(entries, front).value, a, After(entries, run).value);
    }
  }

  lemma {:induction false} ReachableReads(entries: seq<Entry>, run: seq<Action>)
    requires After(entries, run).Some?
    ensures ReadsOk(run, After(entries, run).value)
  {
    if run != [] {
      var front, a := run[..|run| - 1], run[|run| - 1];
      ReachableReads(entries, front);
      StepKeepsReads(front, After(entries, front).value, a, After(entries, run).value);
      assert front + [a] == run;
    }
  }

  /** A write of the response failed. */
  ghost predicate Broke(run: seq<Action>) {
    Write(false) in run
  }

  /** Each side only ever gives up because the response broke; the consumer finishes behind the producer. */
  ghost predicate BrokenOnly(run: seq<Action>, s: State) {
    && (s.producer.Refused? ==> s.consumer.Stopped?)
    && (s.consumer.Finished? ==> s.producer.Done?)
    && (s.consumer.Stopped? ==> Broke(run))
  }

  lemma StepKeepsBroken(run: seq<Action>, s: State, a: Action, s': State, run': seq<Action>)
    requires BrokenOnly(run, s) && Apply(s, a) == Some(s') && run' == run + [a]
    ensures BrokenOnly(run', s')
  {
    assert a in run' && forall b :: b in run ==> b in run';
  }

  lemma {:induction false} GivingUpIsBroken(entries: seq<Entry>, run: seq<Action>)
    requires After(entries, run).Some?
    ensures BrokenOnly(run, After(entries, run).value)
  {
    if run != [] {
      var front, a := run[..|run| - 1], run[|run| - 1];
      var before, now := After(entries, front), After(entries, run);
      assert before.Some? && Apply(before.value, a) == now;
      GivingUpIsBroken(entries, front);
      assert run == front + [a];
      StepKeepsBroken(front, before.value, a, now.value, run);
    }
  }

  /**
   The archive, in every run: its entries are a prefix of the walk, each file holds exactly
   the bytes read from it up to its end, and once the consumer finishes nothing is missing.
   */
  lemma ArchiveIsFaithful(entries: seq<Entry>, run: seq<Action>)
    requires After(entries, run).Some?
    ensures
      var s := After(entries, run).value;
      && s.closed <= s.made
      && NamesOf(s.closed) <= entries
      && Contents(s.closed) <= Reads(run)
      && |Contents(s.closed)| <= |Ended(run)| && (forall k :: 0 <= k < |Contents(s.closed)| ==> Ended(run)[k])
      && (s.consumer.Finished? ==> NamesOf(s.closed) == entries && Contents(s.closed) == Reads(run))
  {
    Reachable(entries, run);
    ReachableEnds(entries, run);
    FaithfulState(entries, run, After(entries, run).value);
    ClosedWereEnded(run, After(entries, run).value);
  }

  lemma ClosedWereEnded(run: seq<Action>, s: State)
    requires EndsOk(run, s) && s.closed <= s.made
    ensures |Contents(s.closed)| <= |Ended(run)| && forall k :: 0 <= k < |Contents(s.closed)| ==> Ended(run)[k]
  {
    ContentsPrefix(s.closed, s.made[|s.closed|..]);
    assert s.closed + s.made[|s.closed|..] == s.made;
  }

  lemma FaithfulState(entries: seq<Entry>, run: seq<Action>, s: State)
    requires Inv(entries, s) && ReadsOk(run, s)
    ensures s.closed <= s.made && NamesOf(s.closed) <= entries && Contents(s.closed) <= Reads(run)
    ensures s.consumer.Finished? ==> NamesOf(s.closed) == entries && Contents(s.closed) == Reads(run)
  {
    ClosedIsMade(s);
    MadeInOrder(entries, s);
    MadeAsRead(run, s);
    NamesPrefix(s.closed, s.made);
    ContentsPrefix(s.closed, s.made[|s.closed|..]);
    assert s.closed + s.made[|s.closed|..] == s.made;
  }

  lemma ClosedIsMade(s: State)
    requires ConsumerOk(s) && QueueOk(s) && ProducerOk(s)
    ensures s.closed <= s.made
    ensures s.consumer.Finished? ==> s.closed == s.made && s.producer.Done? && s.todo == []
  {
    assert s.received + s.sent[|s.received|..] == s.sent;
    AssemblePrefix(s.received, s.sent[|s.received|..]);
    ClosedIsPrefix(s.consumer, Assemble(s.received), s.closed, s.partial);
    assert s.received == s.sent ==> Assemble(s.received).closed == s.made;
  }

  lemma ClosedIsPrefix(c: Consumer, ar: Archive, closed: seq<Archived>, partial: Archived)
    requires InHandIs(c, ar, closed, partial)
    ensures closed <= ar.closed && (c.Finished? ==> closed == ar.closed)
  {
  }

  lemma MadeInOrder(entries: seq<Entry>, s: State)
    requires OrderOk(entries, s)
    ensures NamesOf(s.made) <= entries
    ensures s.producer.Done? && s.todo == [] ==> NamesOf(s.made) == entries
  {
    if !s.producer.Refused? {
      Associative(NamesOf(s.made), InHand(s.producer), s.todo);
    }
  }

  lemma MadeAsRead(run: seq<Action>, s: State)
    requires ReadsOk(run, s)
    ensures Contents(s.made) <= Reads(run)
    ensures s.producer.Done? ==> Contents(s.made) == Reads(run)
  {
  }

  lemma NamesPrefix(a: seq<Archived>, b: seq<Archived>)
    requires a <= b
    ensures NamesOf(a) <= NamesOf(b)
  {
    forall i | 0 <= i < |a| ensures NamesOf(a)[i] == NamesOf(b)[i] {
      assert a[i] == b[i];
    }
  }

  lemma {:induction false} ContentsPrefix(a: seq<Archived>, b: seq<Archived>)
    ensures Contents(a) <= Contents(a + b)
    decreases |b|
  {
    if b == [] {
      assert a + b == a;
    } else {
      ContentsPrefix(a, b[..|b| - 1]);
      assert (a + b)[..|a + b| - 1] == a + b[..|b| - 1];
    }
  }

  /** The messages always follow the protocol, and the last file is ended before the walk is over. */
  lemma MessagesFollowProtocol(entries: seq<Entry>, run: seq<Action>)
    requires After(entries, run).Some?
    ensures
      var s := After(entries, run).value;
      Assemble(s.sent).wellFormed && (s.producer.Done? ==> Assemble(s.sent).open.None?)
  {
    Reachable(entries, run);
  }

  lemma {:induction false} QueuedAreFull(items: seq<Item>)
    requires forall i :: 0 <= i < |items| ==> ItemOk(items[i])
    ensures forall i :: 0 <= i < |QueuedBuffers(items)| ==> |QueuedBuffers(items)[i]| == ZIP_CHUNK
  {
    if items != [] {
      QueuedAreFull(items[..|items| - 1]);
      assert ItemOk(items[|items| - 1]);
    }
  }

  /** At most `ZIP_QUEUE + 2` buffers exist, counting those on their way back, all of full length. */
  lemma MemoryIsBounded(entries: seq<Entry>, run: seq<Action>)
    requires After(entries, run).Some?
    ensures
      var all := AllBuffers(After(entries, run).value);
      |all| <= ZIP_QUEUE + 2 && forall i :: 0 <= i < |all| ==> |all[i]| == ZIP_CHUNK
  {
    Reachable(entries, run);
    BuffersAreBounded(After(entries, run).value);
  }

  lemma BuffersAreBounded(s: State)
    requires MemoryOk(s)
    ensures |AllBuffers(s)| <= ZIP_QUEUE + 2 && Full(AllBuffers(s))
  {
    QueuedAreFull(s.items);
    assert Full(QueuedBuffers(s.items));
  }

  /** What the producer does next when the disk reports the end of every file at once. */
  function ProducerMove(s: State): Action {
    match s.producer
    case NextEntry => if s.todo != [] && s.todo[0].FileEntry? then Open(false, false) else NextStep
    case TakingFirst(_) => TakeBuffer
    case Taking(_) => TakeBuffer
    case Filling(_, _, _) => Read([])
    case Reading(_, _) => Read([])
    case _ => Send
  }

  /** Neither process ever waits for the other in a circle: some action is always possible. */
  lemma NeverStuck(entries: seq<Entry>, run: seq<Action>) returns (a: Action)
    requires After(entries, run).Some?
    requires var s := After(entries, run).value; Receiving(s) || Producing(s)
    ensures Apply(After(entries, run).value, a).Some?
  {
    Reachable(entries, run);
    var s := After(entries, run).value;
    if Receiving(s) && !s.consumer.Waiting? && !s.consumer.InFile? {
      WritingIsPossible(s);
      a := Write(true);
    } else if Receiving(s) && (s.items != [] || !Producing(s)) {
      ReceivingIsPossible(s);
      a := Receive;
    } else {
      ProducingIsPossible(s);
      a := ProducerMove(s);
    }
  }

  lemma WritingIsPossible(s: State)
    requires ConsumerOk(s) && Receiving(s) && !s.consumer.Waiting? && !s.consumer.InFile?
    ensures Consume(s, Write(true)).Some?
  {
  }

  lemma ReceivingIsPossible(s: State)
    requires QueueOk(s) && (s.consumer.Waiting? || s.consumer.InFile?) && (s.items != [] || !Producing(s))
    ensures Consume(s, Receive).Some?
  {
  }

  lemma ProducingIsPossible(s: State)
    requires ProducerOk(s) && MemoryOk(s) && Producing(s) && (Receiving(s) ==> s.items == [])
    ensures Produce(s, ProducerMove(s)).Some?
  {
    if s.producer.Filling? || s.producer.Reading? {
      assert |HandBuffers(s.producer)[0]| == ZIP_CHUNK;
    }
  }

  /** Handing a buffer back never waits: with data in hand, writing it is always possible. */
  lemma ReturningNeverBlocks(entries: seq<Entry>, run: seq<Action>)
    requires After(entries, run).Some?
    requires ConsumerBuffers(After(entries, run).value.consumer) != []
    ensures Apply(After(entries, run).value, Write(true)).Some?
  {
    Reachable(entries, run);
    WritingIsPossible(After(entries, run).value);
  }
}

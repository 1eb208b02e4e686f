/** jane.c and thor.c as one system: both programs, the segment they share and the connection. */
module Protocol {
  import opened CTypes
  import opened Util
  import opened Descriptors
  import opened Substring
  import opened SlotPools
  import SlotRuns

  /** What both programs are configured with. MD5 stays a parameter. */
  datatype Config = Config(
    file: seq<byte>, buffers: nat, useBuffers: nat, pattern: seq<byte>, doSearch: bool,
    md5: seq<byte> -> Digest)

  ghost predicate Valid(c: Config) {
    && 2 <= c.buffers <= 102399
    && 1 <= c.useBuffers <= c.buffers
    && c.pattern != []
  }

  const LOKI_MESSAGE: string := "--------->loki has changed message.<------"

  /** One fread asks for this many bytes: the last byte of the block is kept for a terminator. */
  function ChunkSize(c: Config): int {
    c.useBuffers * 1024 - 1
  }

  function SegmentSize(c: Config): int {
    c.buffers * 1024 + 1024
  }

  /** Where the program stands: (re)connecting, at the head of the inner loop, about to send,
      waiting for a reply, past the loop, returned; or stopped by an assertion or a wild access. */
  datatype Place = Connecting | Filling | Sending | Waiting | Closing | Done | Crashed

  /** Jane's variables; `readCount` counts the chunks read, `conn` the connections made. */
  datatype Jane = Jane(
    place: Place, failed: bool, block: Option<int>, pools: Pools, pos: nat,
    md5: string, llen: nat, readCount: nat, conn: nat)

  /** A descriptor on its way to Thor, with the chunk it was made for. */
  datatype Packet = Packet(conn: nat, payload: string, chunk: nat)

  datatype Reply = Reply(conn: nat, payload: string)

  /** One write to Thor's output file. */
  datatype Append = Append(chunk: nat, data: seq<byte>)

  /** `since` is how much of the log was there when Thor's program last started, and `broken` how
      many connections had been made then: those lead nowhere. */
  datatype World = World(
    jane: Jane, memory: seq<byte>, toThor: seq<Packet>, toJane: seq<Reply>,
    log: seq<Append>, scanner: Context, since: nat, broken: nat, thorStopped: bool)

  /** What can happen next. Send and reply failures are dropped connections as Jane sees them,
      the losses what they do to bytes on the way. Thor may die and come back: his file stays, his
      scanner, his connections and what he had not read yet do not. Tamper is Loki writing to the segment. */
  datatype Action =
    | Connect
    | Fill
    | Send
    | SendFails(sent: bool)
    | GetReply
    | ReplyFails
    | Close
    | ThorServes
    | ThorRestarts
    | LosePacket(i: nat)
    | LoseReply(i: nat)
    | Tamper(memory: seq<byte>)

  /** The connection holds and Thor lives. */
  predicate Connected(a: Action) {
    !a.SendFails? && !a.ReplyFails? && !a.ThorRestarts? && !a.LosePacket? && !a.LoseReply?
  }

  predicate FaultFree(a: Action) {
    Connected(a) && !a.Tamper?
  }

  predicate Enabled(w: World, a: Action) {
    match a
    case Connect => w.jane.place.Connecting?
    case Fill => w.jane.place.Filling?
    case Send => w.jane.place.Sending?
    case SendFails(_) => w.jane.place.Sending?
    case GetReply => w.jane.place.Waiting? && w.toJane != [] && w.toJane[0].conn == w.jane.conn
    case ReplyFails => w.jane.place.Waiting?
    case Close => w.jane.place.Closing?
    case ThorServes => w.toThor != [] && !w.thorStopped
    case ThorRestarts => true
    case LosePacket(i) => i < |w.toThor|
    case LoseReply(i) => i < |w.toJane|
    case Tamper(mem) => |mem| == |w.memory|
  }

  function Min(a: int, b: int): int {
    if a <= b then a else b
  }

  function Crash(w: World): World {
    w.(jane := w.jane.(place := Crashed))
  }

  /** shm_dealloc of the old block, if any, then shm_alloc; None when an assertion fails. */
  function Reallocate(c: Config, j: Jane): (a: Option<Allocation>)
    requires 1 <= c.useBuffers <= |j.pools.free| == |j.pools.busy|
    ensures a.Some? ==> a.value.offset.Some?
  {
    var freed :=
      if j.block.None? then Some(j.pools)
      else Dealloc(j.pools, c.useBuffers, j.block.value);
    if freed.None? then None
    else
      var a := Alloc(freed.value, c.useBuffers);
      if a.offset.None? then None else Some(a)
  }

  /** The inner loop of client_loop down to the send: free and allocate the block; unless
      failed, read the next chunk into it and hash it, or leave the loop at end of file. */
  function FillBlock(c: Config, w: World): World {
    if !(1 <= c.useBuffers <= |w.jane.pools.free| == |w.jane.pools.busy|) then Crash(w)
    else
      match Reallocate(c, w.jane)
      case None => Crash(w)
      case Some(a) => ReadInto(c, w, a.offset.value, a.pools)
  }

  /** A segment after a read: the chunk at `off`, then a terminator. */
  function Stored(memory: seq<byte>, off: int, chunk: seq<byte>): (mem: seq<byte>)
    requires 0 <= off && off + |chunk| + 1 <= |memory|
    ensures |mem| == |memory| && mem[off..off + |chunk|] == chunk && mem[off + |chunk|] == 0
    ensures forall k :: 0 <= k < off || off + |chunk| < k < |mem| ==> mem[k] == memory[k]
  {
    memory[..off] + chunk + [0] + memory[off + |chunk| + 1..]
  }

  function ReadInto(c: Config, w: World, off: int, pools: Pools): World {
    var j := w.jane.(block := Some(off), pools := pools);
    var n := Min(ChunkSize(c), |c.file| - j.pos);
    if j.failed then w.(jane := j.(place := Sending))
    else if n <= 0 then w.(jane := j.(place := Closing))
    else if !(0 <= off && off + n + 1 <= |w.memory|) then Crash(w)
    else
      var mem := Stored(w.memory, off, c.file[j.pos..j.pos + n]);
      w.(jane := j.(place := Sending, pos := j.pos + n, llen := n, readCount := j.readCount + 1,
                    md5 := Hex(c.md5(mem[off..off + n]))),
         memory := mem)
  }

  /** client_socket_send(1, get_offset(shm_buffer), md5, llen, false) */
  function Descriptor(j: Jane): Packet {
    var off := if j.block.Some? then j.block.value else 0;
    Packet(j.conn, Payload(1, off, j.llen, j.md5), if j.readCount > 0 then j.readCount - 1 else 0)
  }

  /** What is under way to Thor after a send. */
  function Sent(w: World): seq<Packet> {
    if w.jane.conn > w.broken then w.toThor + [Descriptor(w.jane)] else w.toThor
  }

  function SendPacket(w: World): World {
    w.(toThor := Sent(w), jane := w.jane.(place := Waiting))
  }

  function Drop(w: World, sent: bool): World {
    w.(toThor := if sent then Sent(w) else w.toThor,
       jane := w.jane.(place := Connecting, failed := true))
  }

  /** After a reply that equals the digest `failed` is cleared; either way the loop goes on. */
  function TakeReply(w: World): World
    requires w.toJane != []
  {
    var matched := w.toJane[0].payload == w.jane.md5;
    w.(toJane := w.toJane[1..],
       jane := w.jane.(place := Filling, failed := if matched then false else w.jane.failed))
  }

  /** server_socket_send */
  function Serve(c: Config, w: World): World
    requires w.toThor != []
  {
    match Parse(w.toThor[0].payload)
    case Stopped => w.(thorStopped := true)
    case Parsed(_, off, len, md5) => ServeBlock(c, w, off, len, md5)
  }

  /** Check, append, search, and reply with the payload itself, or with the refusal. */
  function ServeBlock(c: Config, w: World, off: int, len: int, md5: string): World
    requires w.toThor != []
  {
    var p := w.toThor[0];
    if !(0 <= off && 0 <= len && off + len <= |w.memory| && w.scanner.state < |c.pattern|) then
      w.(thorStopped := true)
    else
      var data := w.memory[off..off + len];
      if Hex(c.md5(data)) == md5 then
        w.(toThor := w.toThor[1..],
           log := w.log + [Append(p.chunk, data)],
           scanner := if c.doSearch then Scan(c.pattern, w.scanner, data) else w.scanner,
           toJane := w.toJane + [Reply(p.conn, p.payload)])
      else
        w.(toThor := w.toThor[1..],
           toJane := w.toJane + [Reply(p.conn, LOKI_MESSAGE)])
  }

  /** Thor dies and comes back. */
  function Restart(w: World): World {
    w.(toThor := [], scanner := START, since := |w.log|, broken := w.jane.conn, thorStopped := false)
  }

  /** The state after an action; an action that is not enabled changes nothing. */
  function Do(c: Config, w: World, a: Action): World {
    if !Enabled(w, a) then w
    else
      match a
      case Connect => w.(jane := w.jane.(place := Filling, conn := w.jane.conn + 1))
      case Fill => FillBlock(c, w)
      case Send => SendPacket(w)
      case SendFails(sent) => Drop(w, sent)
      case GetReply => TakeReply(w)
      case ReplyFails => Drop(w, false)
      case Close => w.(jane := w.jane.(place := Done))
      case ThorServes => Serve(c, w)
      case ThorRestarts => Restart(w)
      case LosePacket(i) => w.(toThor := w.toThor[..i] + w.toThor[i + 1..])
      case LoseReply(i) => w.(toJane := w.toJane[..i] + w.toJane[i + 1..])
      case Tamper(mem) => w.(memory := mem)
  }

  /** Both programs have started, over a segment with any contents. */
  ghost predicate Init(c: Config, w: World) {
    && w.jane == Jane(Connecting, false, None, SlotRuns.Fresh(c.buffers), 0, "", 0, 0, 0)
    && |w.memory| == SegmentSize(c)
    && w.toThor == [] && w.toJane == [] && w.log == []
    && w.scanner == START && w.since == 0 && w.broken == 0 && !w.thorStopped
  }

  function Run(c: Config, w: World, actions: seq<Action>): World
    decreases |actions|
  {
    if actions == [] then w
    else Do(c, Run(c, w, actions[..|actions| - 1]), actions[|actions| - 1])
  }

  // ---------------------------------------------------------------- the file in chunks

  /** What successive reads from pos on return, up to the end of the file. */
  function CutFrom(c: Config, pos: nat): (chunks: seq<seq<byte>>)
    requires pos <= |c.file|
    decreases |c.file| - pos
  {
    var n := Min(ChunkSize(c), |c.file| - pos);
    if n <= 0 then [] else [c.file[pos..pos + n]] + CutFrom(c, pos + n)
  }

  function Chunks(c: Config): seq<seq<byte>> {
    CutFrom(c, 0)
  }

  /** What one more full chunk does to the number of chunks. */
  lemma OneChunkMore(r: nat, n: nat)
    requires n > 0 && r >= n
    ensures (r + n - 1) / n == (r - n + n - 1) / n + 1
  {
    var q, t := (r - 1) / n, (r - 1) % n;
    assert r + n - 1 == (q + 1) * n + t;
    QuotientIs(r + n - 1, n, q + 1, t);
  }

  lemma QuotientIs(v: nat, n: nat, q: nat, t: nat)
    requires n > 0 && v == q * n + t && t < n
    ensures v / n == q
  {
    var d := v / n - q;
    assert d * n == t - v % n;
    AtLeastOnce(d, n);
  }

  lemma AtLeastOnce(d: int, n: int)
    requires n > 0
    ensures (d >= 1 ==> d * n >= n) && (d <= -1 ==> d * n <= -n)
  {
    if d >= 1 {
      assert (d - 1) * n >= 0;
    } else if d <= -1 {
      assert (-1 - d) * n >= 0;
    }
  }

  lemma LastChunk(c: Config, pos: nat)
    requires pos <= |c.file| && |c.file| - pos < ChunkSize(c)
    ensures |CutFrom(c, pos)| <= 1
  {
    if pos < |c.file| {
      assert CutFrom(c, |c.file|) == [];
    }
  }

  lemma {:induction false} CutCount(c: Config, pos: nat, n: nat)
    requires pos <= |c.file| && n == ChunkSize(c) > 0
    ensures |CutFrom(c, pos)| == (|c.file| - pos + n - 1) / n
    decreases |c.file| - pos
  {
    var r := |c.file| - pos;
    if r >= n {
      CutCount(c, pos + n, n);
      OneChunkMore(r, n);
    } else if r > 0 {
      assert CutFrom(c, pos + r) == [];
      QuotientIs(r + n - 1, n, 1, r - 1);
    } else {
      QuotientIs(n - 1, n, 0, n - 1);
    }
  }

  lemma {:induction false} CutAt(c: Config, pos: nat, n: nat, i: nat)
    requires pos <= |c.file| && n == ChunkSize(c) > 0 && i < |CutFrom(c, pos)|
    ensures 0 <= pos + i * n < |c.file|
    ensures CutFrom(c, pos)[i] == c.file[pos + i * n..Min(pos + i * n + n, |c.file|)]
    decreases i
  {
    if |c.file| - pos < n {
      LastChunk(c, pos);
    } else if i > 0 {
      CutAt(c, pos + n, n, i - 1);
      assert pos + n + (i - 1) * n == pos + i * n;
    }
  }

  /** How a file is read, with the size of a read written out: it asks for all but one byte of
      useBuffers buffers of 1024. There are as many chunks as that takes; chunk i begins where i
      full reads end, and only the last can be shorter. */
  lemma ChunksAre(c: Config, n: nat)
    requires c.useBuffers >= 1 && n == c.useBuffers * 1024 - 1
    ensures |Chunks(c)| == (|c.file| + n - 1) / n
    ensures forall i :: 0 <= i < |Chunks(c)| ==>
              0 <= i * n < |c.file| && Chunks(c)[i] == c.file[i * n..Min(i * n + n, |c.file|)]
  {
    CutCount(c, 0, n);
    forall i | 0 <= i < |Chunks(c)|
      ensures 0 <= i * n < |c.file| && Chunks(c)[i] == c.file[i * n..Min(i * n + n, |c.file|)]
    {
      CutAt(c, 0, n, i);
    }
  }

  /** Everything Thor has written, in order. */
  function Output(log: seq<Append>): seq<byte> {
    if log == [] then [] else Output(log[..|log| - 1]) + log[|log| - 1].data
  }

  // ---------------------------------------------------------------- runs put together

  lemma RunSnoc(c: Config, w: World, a: seq<Action>, x: Action)
    ensures Run(c, w, a + [x]) == Do(c, Run(c, w, a), x)
  {
    assert (a + [x])[..|a|] == a;
  }

  lemma {:induction false} RunCons(c: Config, w: World, a: Action, more: seq<Action>)
    ensures Run(c, w, [a] + more) == Run(c, Do(c, w, a), more)
    decreases |more|
  {
    if more == [] {
      assert [a] + more == [] + [a];
      RunSnoc(c, w, [], a);
    } else {
      var n := |more| - 1;
      RunCons(c, w, a, more[..n]);
      assert [a] + more == ([a] + more[..n]) + [more[n]];
      RunSnoc(c, w, [a] + more[..n], more[n]);
    }
  }

  lemma OutputSnoc(log: seq<Append>, a: Append)
    ensures Output(log + [a]) == Output(log) + a.data
  {
    assert (log + [a])[..|log|] == log;
  }
}

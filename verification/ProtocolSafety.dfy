/** What holds in every state of every run: connections may drop, bytes may be lost, and Loki
    may write to the segment, at any point. */
module ProtocolSafety {
  import opened CTypes
  import opened Util
  import opened Descriptors
  import opened Frames
  import opened Substring
  import opened SlotPools
  import SlotRuns
  import opened Protocol

  // ---------------------------------------------------------------- descriptors, replies, frames

  lemma CommaInPayload(n: int, o: int, l: int, d: string)
    ensures ',' in Payload(n, o, l, d)
  {
    var t := PrintInt(o) + "," + (PrintInt(l) + "," + d);
    assert (PrintInt(n) + "," + t)[|PrintInt(n)|] == ',';
  }

  predicate NotDigest(s: string) {
    exists k :: 0 <= k < |s| && !HexDigit(s[k])
  }

  /** Thor answers with the whole payload or with the refusal, and Jane compares the answer with
      the digest alone: it never matches. */
  lemma AnswersAreNotDigests(n: int, o: int, l: int, d: string)
    ensures NotDigest(Payload(n, o, l, d)) && NotDigest(LOKI_MESSAGE)
  {
    CommaInPayload(n, o, l, d);
    var s := Payload(n, o, l, d);
    var k :| 0 <= k < |s| && s[k] == ',';
    assert !HexDigit(s[k]);
    assert !HexDigit(LOKI_MESSAGE[0]);
  }

  lemma NeverMatches(s: string, b: seq<byte>)
    requires NotDigest(s)
    ensures s != Hex(b)
  {
  }

  // ---------------------------------------------------------------- the plan of a run

  /** A chunk as both programs handle it: its bytes, their digest in binary and in text, and
      the payload that announces them at an offset. */
  datatype Info = Info(start: nat, data: seq<byte>, digest: Digest, text: string, offset: nat, payload: string)

  /** The pools while no block is live and while Jane's one block is, and the file's chunks. */
  datatype Plan = Plan(idle: Pools, held: Pools, chunks: seq<Info>)

  /** Where the read after i chunks starts. */
  function StartOf(p: Plan, i: nat): nat
    requires i <= |p.chunks|
  {
    if i == 0 then 0 else p.chunks[i - 1].start + |p.chunks[i - 1].data|
  }

  /** The one live block is at offset 1024, or none is live and nothing has been read. */
  ghost predicate BlockOk(p: Plan, j: Jane) {
    if j.block.None? then
      j.pools == p.idle && j.readCount == 0 && (j.place.Connecting? || j.place.Filling?)
    else
      j.block == Some(1024) && j.pools == p.held
  }

  /** From either state of the pools, freeing and allocating gives the block at 1024 again. */
  ghost predicate PoolsOk(c: Config, p: Plan) {
    && 1 <= c.useBuffers <= |p.idle.free| == |p.idle.busy| == |p.held.free| == |p.held.busy|
    && forall j: Jane {:trigger Reallocate(c, j)} ::
         BlockOk(p, j) ==> Reallocate(c, j) == Some(Allocation(Some(1024), p.held))
  }

  /** A non-empty stretch of the file that fits the block. */
  ghost predicate DataOk(c: Config, i: Info) {
    && i.data != [] && |i.data| == Min(ChunkSize(c), |c.file| - i.start)
    && c.file[i.start..i.start + |i.data|] == i.data
    && i.digest == c.md5(i.data) && i.offset == 1024
  }

  /** What announces it. */
  ghost predicate Printed(i: Info) {
    i.text == Hex(i.digest) && i.payload == Payload(1, i.offset, |i.data|, i.text)
  }

  /** Announced by a payload that reads back and cannot be taken for a digest. */
  ghost predicate TextOk(i: Info) {
    && Printed(i)
    && Parse(i.payload) == Parsed(1, i.offset, |i.data|, i.text)
    && NotDigest(i.payload)
  }

  ghost predicate PlanOk(c: Config, p: Plan) {
    && (forall i {:trigger DataOk(c, p.chunks[i])} :: 0 <= i < |p.chunks| ==> DataOk(c, p.chunks[i]))
    && (forall i {:trigger TextOk(p.chunks[i])} :: 0 <= i < |p.chunks| ==> TextOk(p.chunks[i]))
    && (forall i {:trigger StartOf(p, i)} :: 0 <= i < |p.chunks| ==> p.chunks[i].start == StartOf(p, i))
    && StartOf(p, |p.chunks|) == |c.file|
  }

  lemma DigestText(c: Config, p: Plan, k: nat)
    requires PlanOk(c, p) && k < |p.chunks|
    ensures p.chunks[k].text == Hex(p.chunks[k].digest)
  {
    assert TextOk(p.chunks[k]);
  }

  lemma InfoPrinted(c: Config, p: Plan, k: nat)
    requires PlanOk(c, p) && k < |p.chunks|
    ensures p.chunks[k].offset == 1024 && Printed(p.chunks[k])
  {
    assert DataOk(c, p.chunks[k]) && TextOk(p.chunks[k]);
  }

  lemma SizesFit(c: Config)
    requires Valid(c)
    ensures ChunkSize(c) == c.useBuffers * 1024 - 1 >= 1023 && 1024 + ChunkSize(c) + 1 <= SegmentSize(c) <= INT_MAX
    ensures SegmentSize(c) % 1024 == 0 && SegmentSize(c) / 1024 - 1 == c.buffers
  {
  }

  lemma MakeText(i: Info)
    requires 0 < i.offset <= INT_MAX && |i.data| <= INT_MAX
    requires Printed(i)
    ensures TextOk(i)
  {
    ParseRoundTrip(1, i.offset, |i.data|, i.text);
    AnswersAreNotDigests(1, i.offset, |i.data|, i.text);
  }

  lemma MakeData(c: Config, i: Info)
    requires 0 <= i.start < |c.file| && ChunkSize(c) > 0
    requires |i.data| == Min(ChunkSize(c), |c.file| - i.start)
    requires i.data == c.file[i.start..i.start + |i.data|]
    requires i.digest == c.md5(i.data) && i.offset == 1024
    ensures DataOk(c, i)
  {
  }

  /** The line for the chunk read at `start`. */
  lemma MakeInfo(c: Config, start: nat, n: nat) returns (i: Info)
    requires Valid(c) && start < |c.file| && n == Min(ChunkSize(c), |c.file| - start)
    ensures DataOk(c, i) && Printed(i) && i.start == start
    ensures i.data == c.file[start..start + n] && |i.data| == n > 0
  {
    SizesFit(c);
    var data, offset := c.file[start..start + n], 1024;
    var d := c.md5(data);
    i := Info(start, data, d, Hex(d), offset, Payload(1, offset, |data|, Hex(d)));
    MakeData(c, i);
  }

  /** Each line starts where the one before ends, from `start` to `end`. */
  ghost predicate Linked(infos: seq<Info>, start: nat, end: nat) {
    if infos == [] then start == end
    else infos[0].start == start && infos[0].data != [] && Linked(infos[1..], start + |infos[0].data|, end)
  }

  lemma LinkedCons(first: Info, rest: seq<Info>, start: nat, n: nat, end: nat)
    requires first.start == start && |first.data| == n > 0 && Linked(rest, start + n, end)
    ensures Linked([first] + rest, start, end)
  {
    assert ([first] + rest)[1..] == rest;
  }

  lemma HoldingCons(c: Config, first: Info, rest: seq<Info>, start: nat, n: nat)
    requires start + n <= |c.file| && 0 < n == Min(ChunkSize(c), |c.file| - start)
    requires first.data == c.file[start..start + n] && Holding(rest, CutFrom(c, start + n))
    ensures Holding([first] + rest, CutFrom(c, start))
  {
  }

  /** The chunks the lines hold. */
  ghost predicate Holding(infos: seq<Info>, chunks: seq<seq<byte>>) {
    |infos| == |chunks| && forall i :: 0 <= i < |infos| ==> infos[i].data == chunks[i]
  }

  /** The lines from `start` on: they hold exactly what the reads return. */
  lemma {:induction false} MakeInfos(c: Config, start: nat) returns (infos: seq<Info>)
    requires Valid(c) && start <= |c.file|
    ensures forall i {:trigger DataOk(c, infos[i])} :: 0 <= i < |infos| ==> DataOk(c, infos[i])
    ensures forall i {:trigger Printed(infos[i])} :: 0 <= i < |infos| ==> Printed(infos[i])
    ensures Linked(infos, start, |c.file|)
    ensures Holding(infos, CutFrom(c, start))
    decreases |c.file| - start
  {
    SizesFit(c);
    infos := [];
    var n := Min(ChunkSize(c), |c.file| - start);
    if n > 0 {
      var first := MakeInfo(c, start, n);
      var rest := MakeInfos(c, start + n);
      infos := [first] + rest;
      LinkedCons(first, rest, start, n, |c.file|);
      HoldingCons(c, first, rest, start, n);
    }
  }

  lemma {:induction false} LinkedStarts(p: Plan, k: nat, end: nat)
    requires k <= |p.chunks| && Linked(p.chunks[k..], StartOf(p, k), end)
    ensures forall i {:trigger StartOf(p, i)} :: k <= i < |p.chunks| ==> p.chunks[i].start == StartOf(p, i)
    ensures StartOf(p, |p.chunks|) == end
    decreases |p.chunks| - k
  {
    if k < |p.chunks| {
      assert p.chunks[k..][1..] == p.chunks[k + 1..] && p.chunks[k..][0] == p.chunks[k];
      LinkedStarts(p, k + 1, end);
    }
  }

  lemma MakeTexts(c: Config, infos: seq<Info>)
    requires Valid(c)
    requires forall i {:trigger DataOk(c, infos[i])} :: 0 <= i < |infos| ==> DataOk(c, infos[i])
    requires forall i {:trigger Printed(infos[i])} :: 0 <= i < |infos| ==> Printed(infos[i])
    ensures forall i {:trigger TextOk(infos[i])} :: 0 <= i < |infos| ==> TextOk(infos[i])
  {
    SizesFit(c);
    forall i | 0 <= i < |infos| ensures TextOk(infos[i]) {
      assert DataOk(c, infos[i]) && Printed(infos[i]);
      MakeText(infos[i]);
    }
  }

  lemma MakePools(c: Config, p: Plan)
    requires Valid(c)
    requires p.idle == SlotRuns.Fresh(c.buffers) && p.held == SlotRuns.Held(c.buffers, c.useBuffers)
    ensures PoolsOk(c, p)
  {
    SlotRuns.OneBlockCycle(c.buffers, c.useBuffers);
  }

  lemma MakePlan(c: Config) returns (p: Plan)
    requires Valid(c)
    ensures PoolsOk(c, p) && PlanOk(c, p) && p.idle == SlotRuns.Fresh(c.buffers)
    ensures Holding(p.chunks, Chunks(c))
  {
    var infos := MakeInfos(c, 0);
    p := Plan(SlotRuns.Fresh(c.buffers), SlotRuns.Held(c.buffers, c.useBuffers), infos);
    MakePools(c, p);
    MakeTexts(c, infos);
    assert p.chunks[0..] == infos;
    LinkedStarts(p, 0, |c.file|);
  }

  // ---------------------------------------------------------------- the invariant

  ghost predicate ReadOk(p: Plan, j: Jane) {
    && j.readCount <= |p.chunks| && j.pos == StartOf(p, j.readCount)
    && (j.readCount >= 1 ==>
          && j.md5 == p.chunks[j.readCount - 1].text
          && j.llen == |p.chunks[j.readCount - 1].data|)
  }

  ghost predicate PlaceOk(p: Plan, j: Jane) {
    && !j.place.Crashed?
    && (j.place.Sending? || j.place.Waiting? || j.failed ==> j.readCount >= 1)
    && (j.place.Closing? || j.place.Done? ==> !j.failed && j.readCount == |p.chunks|)
    && (j.place.Connecting? && !j.failed ==> j.readCount == 0)
  }

  /** Every descriptor on its way is for the chunk last read. */
  ghost predicate PacketsOk(p: Plan, readCount: nat, toThor: seq<Packet>) {
    forall i :: 0 <= i < |toThor| ==>
      && 1 <= readCount <= |p.chunks| && toThor[i].chunk == readCount - 1
      && toThor[i].payload == p.chunks[readCount - 1].payload
  }

  ghost predicate RepliesOk(toJane: seq<Reply>) {
    forall i :: 0 <= i < |toJane| ==> NotDigest(toJane[i].payload)
  }

  /** Until a connection drops, at most one message is under way, and only while Jane waits. */
  ghost predicate OneUnderWay(w: World) {
    !w.jane.failed ==> |w.toThor| + |w.toJane| <= if w.jane.place.Waiting? then 1 else 0
  }

  /** Each append has the digest Jane computed for its chunk; chunk numbers never decrease. */
  ghost predicate LogOk(c: Config, p: Plan, readCount: nat, log: seq<Append>) {
    && readCount <= |p.chunks|
    && (forall i :: 0 <= i < |log| ==> log[i].chunk < readCount)
    && (forall i :: 0 <= i < |log| ==> c.md5(log[i].data) == p.chunks[log[i].chunk].digest)
    && (forall i, k :: 0 <= i < k < |log| ==> log[i].chunk <= log[k].chunk)
  }

  /** Until a connection drops, no chunk is appended twice. */
  ghost predicate NoRepeats(w: World) {
    !w.jane.failed ==>
      && (forall i, k :: 0 <= i < k < |w.log| ==> w.log[i].chunk < w.log[k].chunk)
      && (w.jane.place.Sending? || w.toThor != [] ==>
            forall i :: 0 <= i < |w.log| ==> w.log[i].chunk < w.jane.readCount - 1)
  }

  ghost predicate ScannerOk(c: Config, scanner: Context, log: seq<Append>, since: nat)
    requires c.pattern != []
  {
    since <= |log| && scanner == if c.doSearch then ScanAll(c.pattern, Output(log[since..])) else START
  }

  ghost predicate Parts(c: Config, p: Plan, w: World)
    requires c.pattern != []
  {
    && BlockOk(p, w.jane) && ReadOk(p, w.jane) && PlaceOk(p, w.jane)
    && |w.memory| == SegmentSize(c) && !w.thorStopped
    && PacketsOk(p, w.jane.readCount, w.toThor) && RepliesOk(w.toJane)
    && OneUnderWay(w) && LogOk(c, p, w.jane.readCount, w.log) && NoRepeats(w)
    && ScannerOk(c, w.scanner, w.log, w.since) && w.broken <= w.jane.conn
  }

  ghost predicate Inv(c: Config, p: Plan, w: World)
    requires c.pattern != []
  {
    match w case World(_, _, _, _, _, _, _, _, _) => Parts(c, p, w)
  }

  // ---------------------------------------------------------------- Jane's steps keep it

  lemma NextBlock(c: Config, p: Plan, j: Jane)
    requires PoolsOk(c, p) && BlockOk(p, j)
    ensures 1 <= c.useBuffers <= |j.pools.free| == |j.pools.busy|
    ensures Reallocate(c, j) == Some(Allocation(Some(1024), p.held))
  {
  }

  /** Fill without a read: resend after a drop, or leave the loop at the end of the file. */
  function NotRead(held: Pools, w: World): World {
    var j := w.jane.(block := Some(1024), pools := held);
    w.(jane := j.(place := if j.failed then Sending else Closing))
  }

  /** Fill with a read of the next chunk to offset 1024. */
  function ReadNext(held: Pools, w: World, i: Info): World
    requires 1024 + |i.data| + 1 <= |w.memory|
  {
    var j := w.jane.(block := Some(1024), pools := held);
    w.(jane := j.(place := Sending, pos := j.pos + |i.data|, llen := |i.data|,
                  readCount := j.readCount + 1, md5 := i.text),
       memory := Stored(w.memory, 1024, i.data))
  }

  lemma ReadIntoIs(c: Config, held: Pools, w: World, i: Info)
    requires DataOk(c, i) && i.text == Hex(i.digest) && w.jane.pos == i.start && !w.jane.failed
    requires 1024 + |i.data| + 1 <= |w.memory|
    ensures ReadInto(c, w, 1024, held) == ReadNext(held, w, i)
  {
  }

  lemma InfoFits(c: Config, i: Info)
    requires Valid(c) && DataOk(c, i)
    ensures 1024 + |i.data| + 1 <= SegmentSize(c) && |i.data| < c.useBuffers * 1024
  {
  }

  /** What Fill does from any state the invariant allows. */
  lemma FillIs(c: Config, p: Plan, w: World)
    requires Valid(c) && PoolsOk(c, p) && PlanOk(c, p) && BlockOk(p, w.jane) && ReadOk(p, w.jane)
    requires |w.memory| == SegmentSize(c)
    ensures var n := w.jane.readCount;
            if w.jane.failed || n == |p.chunks| then FillBlock(c, w) == NotRead(p.held, w)
            else 1024 + |p.chunks[n].data| + 1 <= |w.memory| && FillBlock(c, w) == ReadNext(p.held, w, p.chunks[n])
  {
    NextBlock(c, p, w.jane);
    var n := w.jane.readCount;
    if !w.jane.failed && n < |p.chunks| {
      assert DataOk(c, p.chunks[n]) && TextOk(p.chunks[n]);
      InfoFits(c, p.chunks[n]);
      ReadIntoIs(c, p.held, w, p.chunks[n]);
    }
  }

  lemma NotReadKeeps(c: Config, p: Plan, w: World)
    requires c.pattern != [] && PlanOk(c, p) && Parts(c, p, w) && w.jane.place.Filling?
    requires w.jane.failed || w.jane.readCount == |p.chunks|
    ensures Parts(c, p, NotRead(p.held, w))
  {
  }

  lemma ReadNextKeeps(c: Config, p: Plan, w: World)
    requires c.pattern != [] && PlanOk(c, p) && Parts(c, p, w) && w.jane.place.Filling?
    requires !w.jane.failed && w.jane.readCount < |p.chunks|
    requires 1024 + |p.chunks[w.jane.readCount].data| + 1 <= |w.memory|
    ensures Parts(c, p, ReadNext(p.held, w, p.chunks[w.jane.readCount]))
  {
    assert w.toThor == [] && w.toJane == [];
  }

  lemma FillKeeps(c: Config, p: Plan, w: World)
    requires Valid(c) && PoolsOk(c, p) && PlanOk(c, p) && Parts(c, p, w) && w.jane.place.Filling?
    ensures Parts(c, p, FillBlock(c, w))
  {
    FillIs(c, p, w);
    if w.jane.failed || w.jane.readCount == |p.chunks| {
      NotReadKeeps(c, p, w);
    } else {
      ReadNextKeeps(c, p, w);
    }
  }

  lemma DescriptorIs(c: Config, p: Plan, j: Jane)
    requires PlanOk(c, p) && BlockOk(p, j) && ReadOk(p, j) && PlaceOk(p, j) && j.place.Sending?
    ensures j.readCount >= 1
    ensures Descriptor(j) == Packet(j.conn, p.chunks[j.readCount - 1].payload, j.readCount - 1)
  {
    InfoPrinted(c, p, j.readCount - 1);
  }

  /** A descriptor of the chunk last read is under way, and Jane waits or has lost the connection. */
  lemma PacketAdded(c: Config, p: Plan, w: World, x: Packet, j: Jane)
    requires PlanOk(c, p) && c.pattern != [] && Parts(c, p, w) && w.jane.place.Sending?
    requires x.chunk == w.jane.readCount - 1 && x.payload == p.chunks[w.jane.readCount - 1].payload
    requires j == w.jane.(place := Waiting) || j == w.jane.(place := Connecting, failed := true)
    ensures Inv(c, p, w.(toThor := w.toThor + [x], jane := j))
  {
  }

  /** The same, when the connection leads nowhere. */
  lemma PacketVanished(c: Config, p: Plan, w: World, j: Jane)
    requires PlanOk(c, p) && c.pattern != [] && Parts(c, p, w) && w.jane.place.Sending?
    requires j == w.jane.(place := Waiting) || j == w.jane.(place := Connecting, failed := true)
    ensures Inv(c, p, w.(toThor := w.toThor, jane := j))
  {
  }

  lemma SentIs(w: World, x: Packet)
    requires Descriptor(w.jane) == x
    ensures var toThor := if w.jane.conn > w.broken then w.toThor + [x] else w.toThor;
            && SendPacket(w) == w.(toThor := toThor, jane := w.jane.(place := Waiting))
            && Drop(w, true) == w.(toThor := toThor, jane := w.jane.(place := Connecting, failed := true))
  {
  }

  lemma SendKeeps(c: Config, p: Plan, w: World)
    requires PlanOk(c, p) && c.pattern != [] && Parts(c, p, w) && w.jane.place.Sending?
    ensures Inv(c, p, SendPacket(w)) && Inv(c, p, Drop(w, true))
  {
    DescriptorIs(c, p, w.jane);
    var k := w.jane.readCount - 1;
    var x := Packet(w.jane.conn, p.chunks[k].payload, k);
    SentIs(w, x);
    if w.jane.conn > w.broken {
      PacketAdded(c, p, w, x, w.jane.(place := Waiting));
      PacketAdded(c, p, w, x, w.jane.(place := Connecting, failed := true));
    } else {
      PacketVanished(c, p, w, w.jane.(place := Waiting));
      PacketVanished(c, p, w, w.jane.(place := Connecting, failed := true));
    }
  }

  lemma UnsentDropKeeps(c: Config, p: Plan, w: World)
    requires PlanOk(c, p) && c.pattern != [] && Parts(c, p, w)
    requires w.jane.place.Sending? || w.jane.place.Waiting?
    ensures Parts(c, p, Drop(w, false))
  {
  }

  lemma NoMatch(w: World, digest: Digest)
    requires w.toJane != [] && NotDigest(w.toJane[0].payload) && w.jane.md5 == Hex(digest)
    ensures TakeReply(w) == w.(toJane := w.toJane[1..], jane := w.jane.(place := Filling))
  {
    NeverMatches(w.toJane[0].payload, digest);
  }

  lemma ReplyIs(c: Config, p: Plan, w: World)
    requires PlanOk(c, p) && c.pattern != [] && Parts(c, p, w) && w.toJane != [] && w.jane.place.Waiting?
    ensures TakeReply(w) == w.(toJane := w.toJane[1..], jane := w.jane.(place := Filling))
  {
    DigestText(c, p, w.jane.readCount - 1);
    NoMatch(w, p.chunks[w.jane.readCount - 1].digest);
  }

  lemma ReplyKeeps(c: Config, p: Plan, w: World)
    requires PlanOk(c, p) && c.pattern != [] && Parts(c, p, w) && w.toJane != [] && w.jane.place.Waiting?
    ensures Parts(c, p, TakeReply(w))
  {
    ReplyIs(c, p, w);
  }

  lemma LossKeeps(c: Config, p: Plan, w: World, i: nat)
    requires c.pattern != [] && Parts(c, p, w)
    ensures i < |w.toThor| ==> Parts(c, p, w.(toThor := w.toThor[..i] + w.toThor[i + 1..]))
    ensures i < |w.toJane| ==> Parts(c, p, w.(toJane := w.toJane[..i] + w.toJane[i + 1..]))
  {
  }

  lemma ConnectKeeps(c: Config, p: Plan, w: World)
    requires c.pattern != [] && Parts(c, p, w) && w.jane.place.Connecting?
    ensures Parts(c, p, w.(jane := w.jane.(place := Filling, conn := w.jane.conn + 1)))
  {
  }

  lemma CloseKeeps(c: Config, p: Plan, w: World)
    requires c.pattern != [] && Parts(c, p, w) && w.jane.place.Closing?
    ensures Parts(c, p, w.(jane := w.jane.(place := Done)))
  {
  }

  lemma RestartKeeps(c: Config, p: Plan, w: World)
    requires c.pattern != [] && Parts(c, p, w)
    ensures Parts(c, p, Restart(w))
  {
    assert w.log[|w.log|..] == [] && Output([]) == [];
  }

  lemma TamperKeeps(c: Config, p: Plan, w: World, mem: seq<byte>)
    requires c.pattern != [] && Parts(c, p, w) && |mem| == |w.memory|
    ensures Parts(c, p, w.(memory := mem))
  {
  }

  // ---------------------------------------------------------------- Thor's step keeps it

  /** The check and what follows it, for a block inside the segment. */
  function Served(c: Config, w: World, data: seq<byte>, good: bool): World
    requires w.toThor != [] && w.scanner.state < |c.pattern|
  {
    var packet := w.toThor[0];
    if good then
      w.(toThor := w.toThor[1..], log := w.log + [Append(packet.chunk, data)],
         scanner := if c.doSearch then Scan(c.pattern, w.scanner, data) else w.scanner,
         toJane := w.toJane + [Reply(packet.conn, packet.payload)])
    else
      w.(toThor := w.toThor[1..], toJane := w.toJane + [Reply(packet.conn, LOKI_MESSAGE)])
  }

  /** What Thor finds: the block he is told of lies in the segment, and its digest decides. */
  lemma ServeIs(c: Config, w: World, i: Info)
    requires w.toThor != [] && w.scanner.state < |c.pattern| && 1024 + |i.data| <= |w.memory|
    requires Parse(w.toThor[0].payload) == Parsed(1, 1024, |i.data|, Hex(i.digest))
    ensures var data := w.memory[1024..1024 + |i.data|];
            Serve(c, w) == Served(c, w, data, c.md5(data) == i.digest)
  {
    HexInjective(c.md5(w.memory[1024..1024 + |i.data|]), i.digest);
  }

  lemma ScannerFollows(c: Config, log: seq<Append>, a: Append)
    requires c.pattern != []
    ensures ScanAll(c.pattern, Output(log + [a])) == Scan(c.pattern, ScanAll(c.pattern, Output(log)), a.data)
  {
    OutputSnoc(log, a);
    ScanConcat(c.pattern, START, Output(log), a.data);
  }

  lemma LogGrows(c: Config, p: Plan, readCount: nat, log: seq<Append>, a: Append)
    requires LogOk(c, p, readCount, log) && a.chunk + 1 == readCount
    requires c.md5(a.data) == p.chunks[a.chunk].digest
    ensures LogOk(c, p, readCount, log + [a])
  {
  }

  lemma ScannerGrows(c: Config, scanner: Context, log: seq<Append>, since: nat, a: Append)
    requires c.pattern != [] && ScannerOk(c, scanner, log, since) && scanner.state < |c.pattern|
    ensures ScannerOk(c, if c.doSearch then Scan(c.pattern, scanner, a.data) else scanner, log + [a], since)
  {
    ScannerFollows(c, log[since..], a);
    assert (log + [a])[since..] == log[since..] + [a];
  }

  lemma AcceptedKeeps(c: Config, p: Plan, w: World, data: seq<byte>)
    requires c.pattern != [] && Parts(c, p, w) && w.toThor != [] && w.scanner.state < |c.pattern|
    requires c.md5(data) == p.chunks[w.jane.readCount - 1].digest
    requires NotDigest(w.toThor[0].payload)
    ensures Parts(c, p, Served(c, w, data, true))
  {
    var a := Append(w.toThor[0].chunk, data);
    ScannerGrows(c, w.scanner, w.log, w.since, a);
    LogGrows(c, p, w.jane.readCount, w.log, a);
  }

  lemma RefusedKeeps(c: Config, p: Plan, w: World, data: seq<byte>)
    requires c.pattern != [] && Parts(c, p, w) && w.toThor != [] && w.scanner.state < |c.pattern|
    requires NotDigest(LOKI_MESSAGE)
    ensures Parts(c, p, Served(c, w, data, false))
  {
  }

  /** Every descriptor Thor acts on is that of the chunk last read; it names a positive offset
      and bytes inside both Jane's live block and the segment. */
  lemma ServeFinds(c: Config, p: Plan, w: World)
    requires Valid(c) && PlanOk(c, p) && Parts(c, p, w) && w.toThor != []
    ensures 1 <= w.jane.readCount <= |p.chunks|
    ensures var i := p.chunks[w.jane.readCount - 1];
            && w.toThor[0].chunk == w.jane.readCount - 1
            && Parse(w.toThor[0].payload) == Parsed(1, 1024, |i.data|, Hex(i.digest))
            && NotDigest(w.toThor[0].payload)
            && 1024 + |i.data| + 1 <= |w.memory| && |i.data| < c.useBuffers * 1024
            && w.jane.block == Some(1024) && w.scanner.state < |c.pattern|
  {
    var i := p.chunks[w.jane.readCount - 1];
    assert DataOk(c, i) && TextOk(i);
    InfoFits(c, i);
    assert w.toThor[0].payload == i.payload;
  }

  lemma ChunkDigest(c: Config, p: Plan, k: nat)
    requires PlanOk(c, p) && k < |p.chunks|
    ensures p.chunks[k].digest == c.md5(p.chunks[k].data)
  {
    assert DataOk(c, p.chunks[k]);
  }

  /** What the step from w to r did if Thor served a block with these bytes, good or bad. */
  ghost predicate Outcome(w: World, data: seq<byte>, good: bool, r: World) {
    && w.toThor != [] && r.jane == w.jane && r.memory == w.memory && r.toThor == w.toThor[1..]
    && r.log == (if good then w.log + [Append(w.toThor[0].chunk, data)] else w.log)
    && |r.toJane| == |w.toJane| + 1 && r.toJane[..|w.toJane|] == w.toJane
    && r.toJane[|w.toJane|] == Reply(w.toThor[0].conn, if good then w.toThor[0].payload else LOKI_MESSAGE)
    && r.since == w.since && r.broken == w.broken
  }

  lemma ServedOutcome(c: Config, w: World, data: seq<byte>, good: bool)
    requires w.toThor != [] && w.scanner.state < |c.pattern|
    ensures Outcome(w, data, good, Served(c, w, data, good))
  {
  }

  /** Thor's step, from every state the invariant allows. */
  lemma ServeOutcome(c: Config, p: Plan, w: World, r: World) returns (data: seq<byte>)
    requires Valid(c) && PlanOk(c, p) && Inv(c, p, w) && w.toThor != [] && r == Serve(c, w)
    ensures 1 <= w.jane.readCount <= |p.chunks| && w.toThor[0].chunk == w.jane.readCount - 1
    ensures var chunk := p.chunks[w.jane.readCount - 1].data;
            && 1024 + |chunk| < |w.memory| && data == w.memory[1024..1024 + |chunk|]
            && Outcome(w, data, c.md5(data) == c.md5(chunk), r)
  {
    ServeFinds(c, p, w);
    var k := w.jane.readCount - 1;
    data := w.memory[1024..1024 + |p.chunks[k].data|];
    ServeIs(c, w, p.chunks[k]);
    ChunkDigest(c, p, k);
    ServedOutcome(c, w, data, c.md5(data) == p.chunks[k].digest);
  }

  lemma DoServes(c: Config, w: World)
    requires w.toThor != [] && !w.thorStopped
    ensures Do(c, w, ThorServes) == Serve(c, w)
  {
    var a := ThorServes;
    assert Enabled(w, a);
    match a
    case ThorServes =>
  }

  lemma ServeKeeps(c: Config, p: Plan, w: World)
    requires Valid(c) && PlanOk(c, p) && Parts(c, p, w) && w.toThor != []
    ensures Parts(c, p, Serve(c, w))
  {
    ServeFinds(c, p, w);
    var i := p.chunks[w.jane.readCount - 1];
    ServeIs(c, w, i);
    var data := w.memory[1024..1024 + |i.data|];
    if c.md5(data) == i.digest {
      AcceptedKeeps(c, p, w, data);
    } else {
      assert NotDigest(LOKI_MESSAGE) by { AnswersAreNotDigests(0, 0, 0, ""); }
      RefusedKeeps(c, p, w, data);
    }
  }

  // ---------------------------------------------------------------- every step, every run

  lemma DoJane(c: Config, p: Plan, w: World, a: Action)
    requires Valid(c) && PoolsOk(c, p) && PlanOk(c, p) && Inv(c, p, w) && Enabled(w, a)
    requires a.Connect? || a.Fill? || a.GetReply? || a.Close?
    ensures Inv(c, p, Do(c, w, a))
  {
    match a
    case Connect => ConnectKeeps(c, p, w);
    case Fill => FillKeeps(c, p, w);
    case GetReply => ReplyKeeps(c, p, w);
    case Close => CloseKeeps(c, p, w);
  }

  lemma DoSend(c: Config, p: Plan, w: World, a: Action)
    requires Valid(c) && PlanOk(c, p) && Inv(c, p, w) && Enabled(w, a)
    requires a.Send? || a.SendFails? || a.ReplyFails?
    ensures Inv(c, p, Do(c, w, a))
  {
    match a
    case Send => SendKeeps(c, p, w);
    case SendFails(sent) =>
      if sent { SendKeeps(c, p, w); } else { UnsentDropKeeps(c, p, w); }
    case ReplyFails => UnsentDropKeeps(c, p, w);
  }

  lemma DoOther(c: Config, p: Plan, w: World, a: Action)
    requires Valid(c) && PlanOk(c, p) && Inv(c, p, w) && Enabled(w, a)
    requires a.ThorServes? || a.ThorRestarts? || a.LosePacket? || a.LoseReply? || a.Tamper?
    ensures Inv(c, p, Do(c, w, a))
  {
    match a
    case ThorServes => ServeKeeps(c, p, w);
    case ThorRestarts => RestartKeeps(c, p, w);
    case LosePacket(i) => LossKeeps(c, p, w, i);
    case LoseReply(i) => LossKeeps(c, p, w, i);
    case Tamper(mem) => TamperKeeps(c, p, w, mem);
  }

  lemma StepKeepsInv(c: Config, p: Plan, w: World, a: Action)
    requires Valid(c) && PoolsOk(c, p) && PlanOk(c, p) && Inv(c, p, w)
    ensures Inv(c, p, Do(c, w, a))
  {
    if Enabled(w, a) {
      if a.Connect? || a.Fill? || a.GetReply? || a.Close? {
        DoJane(c, p, w, a);
      } else if a.Send? || a.SendFails? || a.ReplyFails? {
        DoSend(c, p, w, a);
      } else {
        DoOther(c, p, w, a);
      }
    }
  }

  lemma InitInv(c: Config, p: Plan, w: World)
    requires Valid(c) && Init(c, w) && p.idle == SlotRuns.Fresh(c.buffers)
    ensures Inv(c, p, w)
  {
    assert Output([]) == [];
  }

  lemma {:induction false} RunKeepsInv(c: Config, p: Plan, w: World, actions: seq<Action>)
    requires Valid(c) && PoolsOk(c, p) && PlanOk(c, p) && Inv(c, p, w)
    ensures Inv(c, p, Run(c, w, actions))
    decreases |actions|
  {
    if actions != [] {
      var n := |actions| - 1;
      RunKeepsInv(c, p, w, actions[..n]);
      StepKeepsInv(c, p, Run(c, w, actions[..n]), actions[n]);
    }
  }

  // ---------------------------------------------------------------- what follows for every run

  /** What Thor appends, in any run whatever: the chunk numbers never decrease, and each block
      has the digest of its chunk. Until a connection drops, no chunk is appended twice. */
  lemma AppendsAreGenuine(c: Config, w: World, actions: seq<Action>, r: World)
    requires Valid(c) && Init(c, w) && r == Run(c, w, actions)
    ensures forall i :: 0 <= i < |r.log| ==>
              r.log[i].chunk < |Chunks(c)| && c.md5(r.log[i].data) == c.md5(Chunks(c)[r.log[i].chunk])
    ensures forall i, k :: 0 <= i < k < |r.log| ==> r.log[i].chunk <= r.log[k].chunk
    ensures !r.jane.failed ==> forall i, k :: 0 <= i < k < |r.log| ==> r.log[i].chunk < r.log[k].chunk
  {
    var p := MakePlan(c);
    InitInv(c, p, w);
    RunKeepsInv(c, p, w, actions);
    forall i | 0 <= i < |r.log|
      ensures r.log[i].chunk < |Chunks(c)| && c.md5(r.log[i].data) == c.md5(Chunks(c)[r.log[i].chunk])
    {
      assert DataOk(c, p.chunks[r.log[i].chunk]);
    }
  }

  /** No run trips an assertion or leaves the segment, in either program, and what the search
      reports is the scan of what Thor has written since his program started. */
  lemma NothingStops(c: Config, w: World, actions: seq<Action>, r: World)
    requires Valid(c) && Init(c, w) && r == Run(c, w, actions)
    ensures !r.jane.place.Crashed? && !r.thorStopped && |r.memory| == SegmentSize(c)
    ensures r.since <= |r.log| && (c.doSearch ==> r.scanner == ScanAll(c.pattern, Output(r.log[r.since..])))
  {
    var p := MakePlan(c);
    InitInv(c, p, w);
    RunKeepsInv(c, p, w, actions);
  }

  /** Whenever Thor holds an unread descriptor it names Jane's live block, at a positive offset
      and inside the segment, with the length and digest of her last read, and Jane does not
      write to the segment. */
  lemma DescriptorsAreSafe(c: Config, w: World, actions: seq<Action>, r: World)
    requires Valid(c) && Init(c, w) && r == Run(c, w, actions)
    ensures r.toThor != [] ==>
              && Parse(r.toThor[0].payload) == Parsed(1, 1024, r.jane.llen, r.jane.md5)
              && r.jane.block == Some(1024)
              && r.jane.llen < c.useBuffers * 1024 && 1024 + r.jane.llen < |r.memory|
              && Do(c, r, Fill).memory == r.memory
  {
    var p := MakePlan(c);
    InitInv(c, p, w);
    RunKeepsInv(c, p, w, actions);
    if r.toThor != [] {
      ServeFinds(c, p, r);
      LastRead(c, p, r.jane);
      UnreadStays(c, p, r);
    }
  }

  lemma LastRead(c: Config, p: Plan, j: Jane)
    requires PlanOk(c, p) && ReadOk(p, j) && 1 <= j.readCount
    ensures j.llen == |p.chunks[j.readCount - 1].data| && j.md5 == Hex(p.chunks[j.readCount - 1].digest)
  {
    DigestText(c, p, j.readCount - 1);
  }

  lemma UnreadStays(c: Config, p: Plan, w: World)
    requires Valid(c) && PoolsOk(c, p) && PlanOk(c, p) && Parts(c, p, w) && w.toThor != []
    ensures Do(c, w, Fill).memory == w.memory
  {
    if w.jane.place.Filling? {
      assert w.jane.failed;
      FillIs(c, p, w);
    }
  }

  /** `failed` is never cleared. */
  lemma StepKeepsFailed(c: Config, p: Plan, w: World, a: Action)
    requires Valid(c) && PoolsOk(c, p) && PlanOk(c, p) && Inv(c, p, w) && w.jane.failed
    ensures Do(c, w, a).jane.failed && Do(c, w, a).jane.readCount == w.jane.readCount
  {
    if Enabled(w, a) && a.Fill? {
      FillIs(c, p, w);
    } else if Enabled(w, a) && a.GetReply? {
      ReplyIs(c, p, w);
    }
  }

  lemma {:induction false} FailedFrom(c: Config, p: Plan, w: World, more: seq<Action>)
    requires Valid(c) && PoolsOk(c, p) && PlanOk(c, p) && Inv(c, p, w) && w.jane.failed
    ensures Run(c, w, more).jane.failed && Run(c, w, more).jane.readCount == w.jane.readCount
    decreases |more|
  {
    if more != [] {
      var n := |more| - 1;
      FailedFrom(c, p, w, more[..n]);
      RunKeepsInv(c, p, w, more[..n]);
      StepKeepsFailed(c, p, Run(c, w, more[..n]), more[n]);
    }
  }

  /** After a dropped connection Jane never reads on and never finishes: a run ends in Done only
      if no connection was dropped in it. */
  lemma DropIsFinal(c: Config, w: World, actions: seq<Action>, more: seq<Action>)
    requires Valid(c) && Init(c, w) && Run(c, w, actions).jane.failed
    ensures var r := Run(c, Run(c, w, actions), more);
            r.jane.failed && !r.jane.place.Done? && r.jane.readCount == Run(c, w, actions).jane.readCount
  {
    var p := MakePlan(c);
    InitInv(c, p, w);
    RunKeepsInv(c, p, w, actions);
    FailedFrom(c, p, Run(c, w, actions), more);
    RunKeepsInv(c, p, Run(c, w, actions), more);
  }

  /** What is appended from a state on belongs to the chunk last read there, or to a later one. */
  ghost predicate AppendedSince(w: World, r: World) {
    && w.log <= r.log && w.jane.readCount <= r.jane.readCount
    && forall i :: |w.log| <= i < |r.log| ==> r.log[i].chunk >= w.jane.readCount - 1
  }

  lemma StepAppends(c: Config, p: Plan, w: World, a: Action)
    requires Valid(c) && PoolsOk(c, p) && PlanOk(c, p) && Inv(c, p, w)
    ensures AppendedSince(w, Do(c, w, a))
  {
    if Enabled(w, a) && a.Fill? {
      FillIs(c, p, w);
    } else if Enabled(w, a) && a.ThorServes? {
      DoServes(c, w);
      var data := ServeOutcome(c, p, w, Serve(c, w));
    }
  }

  lemma {:induction false} RunAppends(c: Config, p: Plan, w: World, more: seq<Action>)
    requires Valid(c) && PoolsOk(c, p) && PlanOk(c, p) && Inv(c, p, w)
    ensures AppendedSince(w, Run(c, w, more))
    decreases |more|
  {
    if more != [] {
      var n := |more| - 1;
      RunAppends(c, p, w, more[..n]);
      RunKeepsInv(c, p, w, more[..n]);
      StepAppends(c, p, Run(c, w, more[..n]), more[n]);
    }
  }

  // ---------------------------------------------------------------- the texts as frames

  /** The frames both programs send fit the 1024-byte buffers and come through however they are
      cut: the descriptor to Thor, his echo of it and his refusal to Jane. */
  lemma MessagesComeThrough(len: nat, b: seq<byte>, pieces: seq<string>, k: nat)
    requires |b| == 16 && len <= INT_MAX && 0 < k <= |pieces|
    requires forall i :: 0 <= i < k ==> pieces[i] != ""
    ensures var p := Payload(1, 1024, len, Hex(b));
            && |Frame(p)| < BIG_ENOUGH
            && (Flatten(pieces[..k]) == Frame(p) ==>
                  Receive("", pieces, 0, true) == (Message(p), k) && Receive("", pieces, 0, false) == (Message(p), k))
    ensures |Frame(LOKI_MESSAGE)| < BIG_ENOUGH
    ensures Flatten(pieces[..k]) == Frame(LOKI_MESSAGE) ==>
              Receive("", pieces, 0, false) == (Message(LOKI_MESSAGE), k)
  {
    DescriptorClean(len, b);
    LokiClean();
    assert pieces[0..k] == pieces[..k];
    if Flatten(pieces[..k]) == Frame(Payload(1, 1024, len, Hex(b))) {
      FrameReceived(Payload(1, 1024, len, Hex(b)), "", pieces, 0, k, true);
      FrameReceived(Payload(1, 1024, len, Hex(b)), "", pieces, 0, k, false);
    }
    if Flatten(pieces[..k]) == Frame(LOKI_MESSAGE) {
      FrameReceived(LOKI_MESSAGE, "", pieces, 0, k, false);
    }
  }

  predicate PlainText(s: string) {
    forall i :: 0 <= i < |s| ==> s[i] == ',' || HexDigit(s[i])
  }

  lemma DescriptorPlain(len: nat, b: seq<byte>)
    ensures PlainText(Payload(1, 1024, len, Hex(b)))
  {
  }

  lemma PlainIsClean(s: string, server: bool)
    requires PlainText(s)
    ensures Clean(s, server)
  {
    forall k: nat ensures !At(s, END_MARKER, k) && !At(s, DONE_TRANS, k) {
      if At(s, END_MARKER, k) {
        AtChars(s, END_MARKER, k, 0);
      }
      if At(s, DONE_TRANS, k) {
        AtChars(s, DONE_TRANS, k, 0);
      }
    }
  }

  lemma DescriptorClean(len: nat, b: seq<byte>)
    requires |b| == 16 && len <= INT_MAX
    ensures var p := Payload(1, 1024, len, Hex(b));
            Clean(p, true) && Clean(p, false) && |Frame(p)| < BIG_ENOUGH
  {
    var p := Payload(1, 1024, len, Hex(b));
    DescriptorPlain(len, b);
    PlainIsClean(p, true);
    PlainIsClean(p, false);
    FrameChars(p);
    IntShort(1);
    IntShort(1024);
    IntShort(len);
  }

  lemma LokiClean()
    ensures Clean(LOKI_MESSAGE, false) && |Frame(LOKI_MESSAGE)| < BIG_ENOUGH
  {
    var s := LOKI_MESSAGE;
    assert forall i :: 0 <= i < |s| ==> s[i] != 'D';
    forall k: nat ensures !At(s, END_MARKER, k) {
      if At(s, END_MARKER, k) {
        AtChars(s, END_MARKER, k, 1);
      }
    }
  }
}

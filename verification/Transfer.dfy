/** jane.c's client_loop and thor.c's server_loop working together over an unbroken connection:
    the programs' own objects, buffers and shared segment, one file from start to end. */
module TransferProgram {
  import opened CTypes
  import opened CStrings
  import opened Util
  import opened Descriptors
  import opened Frames
  import opened Substring
  import SlotRuns
  import opened Protocol
  import opened ProtocolSafety
  import opened ProtocolDelivery
  import opened JaneProgram
  import opened ThorProgram

  /** How the connection cuts up the n-th text that is sent. */
  type Cutting = (nat, string) -> seq<string>

  /** Into any non-empty pieces. */
  ghost predicate Cuts(cut: Cutting) {
    forall n: nat, s: string {:trigger cut(n, s)} :: Flatten(cut(n, s)) == s && "" !in cut(n, s)
  }

  /** A frame sent, and received by the other side's loop. */
  method Deliver(ghost payload: string, frame: string, cut: Cutting, n: nat, server: bool) returns (got: string)
    requires Cuts(cut) && frame == Frame(payload) && Clean(payload, server) && |frame| < BIG_ENOUGH
    ensures got == payload
  {
    var pieces := cut(n, frame);
    FrameChars(payload);
    assert |Flatten(pieces)| > 0;
    assert pieces[0..|pieces|] == pieces && "" + Flatten(pieces) == frame;
    FrameReceived(payload, "", pieces, 0, |pieces|, server);
    var r, _ := ReceiveLoop(pieces, server);
    got := r.payload;
  }

  /** Jane's fields, and the segment, are as w says. */
  ghost predicate JaneHas(client: Client, memory: array<byte>, c: Config, w: World)
    reads client, client.allocator, client.allocator.freePool, client.allocator.busyPool, memory
  {
    match w
    case World(j, mem, _, _, _, _, _, _, _) =>
      && client.allocator.Valid() && client.allocator.members == c.buffers
      && client.Reflects(j) && client.pos <= |c.file| && memory[..] == mem
  }

  /** What one program writes the other does not hold, but for the segment. */
  ghost predicate Separate(client: Client, server: Server, memory: array<byte>)
    reads client.allocator
  {
    var pools: set<object> := {client.allocator.freePool, client.allocator.busyPool};
    var arrays: set<object> := {server.scanner.locations, server.scanner.pattern};
    memory !in pools && memory !in arrays && pools !! arrays
  }

  /** What holds whenever no fault has happened. */
  ghost predicate Undisturbed(c: Config, p: Plan, w: World)
    requires c.pattern != []
  {
    Inv(c, p, w) && Untouched(p, w) && Smooth(p, w) && w.since == 0
  }

  lemma StepUndisturbed(c: Config, p: Plan, w: World, a: Action)
    requires Valid(c) && PoolsOk(c, p) && PlanOk(c, p) && Undisturbed(c, p, w) && FaultFree(a) && Enabled(w, a)
    ensures Undisturbed(c, p, Do(c, w, a)) && Left(p, Do(c, w, a)) < Left(p, w)
  {
    StepKeepsInv(c, p, w, a);
    StepUntouched(c, p, w, a);
    SmoothStep(c, p, w, a);
  }

  lemma ChunkFits(c: Config, p: Plan, k: nat)
    requires Valid(c) && PlanOk(c, p) && k < |p.chunks|
    ensures |p.chunks[k].data| <= INT_MAX
  {
    SizesFit(c);
    assert DataOk(c, p.chunks[k]);
  }

  /** What the descriptor that is about to be sent names. */
  lemma SentNames(c: Config, p: Plan, j: Jane) returns (d: Digest)
    requires Valid(c) && PlanOk(c, p) && BlockOk(p, j) && ReadOk(p, j) && PlaceOk(p, j) && j.place.Sending?
    ensures j.block == Some(1024) && j.llen <= INT_MAX && j.md5 == Hex(d)
  {
    var k := j.readCount - 1;
    d := p.chunks[k].digest;
    ChunkFits(c, p, k);
    DigestText(c, p, k);
  }

  /** It fits every buffer on its way, and Thor reads it for what it says. */
  lemma DescriptorTravels(j: Jane, d: Digest)
    requires j.block == Some(1024) && j.llen <= INT_MAX && j.md5 == Hex(d)
    ensures Travels(Descriptor(j).payload, true) && Travels(Descriptor(j).payload, false)
    ensures Descriptor(j).payload == Payload(1, 1024, j.llen, j.md5)
    ensures Parse(Descriptor(j).payload) == Parsed(1, 1024, j.llen, j.md5)
  {
    DescriptorClean(j.llen, d);
    ParseRoundTrip(1, 1024, j.llen, j.md5);
  }

  /** After Send Thor holds the descriptor and nothing else is under way. */
  lemma SentAlone(c: Config, p: Plan, w: World)
    requires c.pattern != [] && Undisturbed(c, p, w) && w.jane.place.Sending?
    ensures var r := Do(c, w, Send);
            r.toThor == [Descriptor(w.jane)] && r.toJane == [] && !r.thorStopped && r.jane.place.Waiting?
  {
    assert w.toThor == [] && w.toJane == [];
  }

  /** After Thor's step Jane holds his reply, on her connection. */
  lemma RepliedAlone(c: Config, p: Plan, w: World)
    requires Valid(c) && PlanOk(c, p) && Undisturbed(c, p, w) && |w.toThor| == 1 && w.toJane == []
    ensures var r := Serve(c, w);
            && r.jane == w.jane && r.memory == w.memory && |r.toJane| == 1
            && r.toJane[0].conn == r.jane.conn
            && (r.toJane[0].payload == w.toThor[0].payload || r.toJane[0].payload == LOKI_MESSAGE)
  {
    var data := ServeOutcome(c, p, w, Serve(c, w));
  }

  lemma {:induction false} TotalAtMost(pat: seq<byte>, c: Context, data: seq<byte>)
    requires c.state < |pat|
    ensures Scan(pat, c, data).total <= c.total + |data|
    decreases |data|
  {
    if data != [] {
      TotalAtMost(pat, Step(pat, c, data[0]), data[1..]);
    }
  }

  /** The scanner has seen no more bytes than the file has. */
  lemma TotalFits(c: Config, p: Plan, w: World)
    requires Valid(c) && PlanOk(c, p) && Undisturbed(c, p, w)
    ensures w.scanner.total <= |c.file|
  {
    OutputIsPrefix(c, p, w.log);
    if c.doSearch {
      TotalAtMost(c.pattern, START, Output(w.log));
    }
  }

  /** Text one side can send the other. */
  ghost predicate Travels(x: string, server: bool) {
    Clean(x, server) && |Frame(x)| < BIG_ENOUGH
  }

  /** One round: from w, where the descriptor is ready, by way of w1, where Thor holds it, and w2,
      where Jane holds his reply, to r. */
  ghost predicate Passes(c: Config, w: World, w1: World, w2: World, r: World) {
    && w.jane.block == Some(1024) && Arrives(c, w1, Descriptor(w.jane).payload)
    && w1.memory == w.memory && w1.log == w.log && w1.scanner == w.scanner
    && Answers(c, w1, w2, w.jane.llen, w.jane.md5)
    && r.jane == w.jane.(place := Filling) && !r.jane.failed && r.memory == w.memory
    && r.log == w2.log && r.scanner == w2.scanner
  }

  ghost predicate Arrives(c: Config, w1: World, x: string) {
    && Travels(x, true) && |w1.toThor| == 1 && w1.toThor[0].payload == x && w1.toJane == []
    && w1.scanner.total <= |c.file| && !w1.thorStopped
  }

  ghost predicate Answers(c: Config, w1: World, w2: World, len: nat, md5: string) {
    && w1.toThor != [] && w2 == ServeBlock(c, w1, 1024, len, md5) && len <= INT_MAX && md5 != ""
    && !w2.thorStopped && |w2.toJane| == 1 && Travels(w2.toJane[0].payload, false)
  }

  lemma RoundPasses(c: Config, p: Plan, w: World) returns (w1: World, w2: World, r: World)
    requires Valid(c) && PoolsOk(c, p) && PlanOk(c, p) && Undisturbed(c, p, w) && w.jane.place.Sending?
    ensures w1 == Do(c, w, Send) && w2 == Do(c, w1, ThorServes) && r == Do(c, w2, GetReply)
    ensures Undisturbed(c, p, r) && Left(p, r) < Left(p, w)
    ensures Passes(c, w, w1, w2, r)
  {
    var d := SentNames(c, p, w.jane);
    DescriptorTravels(w.jane, d);
    SentAlone(c, p, w);
    TotalFits(c, p, w);
    StepUndisturbed(c, p, w, Send);
    w1 := Do(c, w, Send);
    RepliedAlone(c, p, w1);
    LokiClean();
    StepUndisturbed(c, p, w1, ThorServes);
    w2 := Do(c, w1, ThorServes);
    assert w2 == ServeBlock(c, w1, 1024, w.jane.llen, w.jane.md5);
    StepUndisturbed(c, p, w2, GetReply);
    ReplyIs(c, p, w2);
    r := Do(c, w2, GetReply);
  }

  /** The whole transfer: client_loop with server_loop answering it. Whatever was in the segment,
      however the connection cuts the frames, and for every file, it ends, and then Thor's file
      is Jane's and his search result is the scan of it. */
  method Transfer(c: Config, memory: array<byte>, cut: Cutting) returns (client: Client, server: Server)
    requires Valid(c) && Cuts(cut) && memory.Length == SegmentSize(c)
    requires |c.pattern| <= INT_MAX && |c.file| + memory.Length <= LLONG_MAX
    modifies memory
    ensures server.output == c.file
    ensures server.scanner.Valid() && server.scanner.Model() == if c.doSearch then ScanAll(c.pattern, c.file) else START
  {
    ghost var p := MakePlan(c);
    ghost var w;
    client, server, w := Launch(c, memory, p);
    var done := false;
    var n := 0;
    while !done
      invariant fresh(client) && fresh(client.allocator)
      invariant fresh(client.allocator.freePool) && fresh(client.allocator.busyPool)
      invariant fresh(server) && fresh(server.scanner) && fresh(server.scanner.locations)
      invariant Separate(client, server, memory) && Undisturbed(c, p, w)
      invariant server.Reflects(c, w)
      invariant if done then w.jane.place.Closing? else w.jane.place.Filling? && JaneHas(client, memory, c, w)
      decreases Left(p, w), !done
    {
      done, w := NextChunk(c, client, server, memory, cut, n, p, w);
      n := n + 2;
    }
    Finished(c, p, w);
    var heard := Goodbye(cut, n);
  }

  lemma {:induction false} PieceOf(pieces: seq<string>, i: nat)
    requires i < |pieces|
    ensures forall ch :: ch in pieces[i] ==> ch in Flatten(pieces)
  {
    if i > 0 {
      PieceOf(pieces[1..], i - 1);
    }
  }

  /** Past the loop Jane sends the text that ends a transfer, terminator included; Thor's loop
      returns without a message, and he goes back to accept. */
  method Goodbye(cut: Cutting, n: nat) returns (heard: Received)
    requires Cuts(cut)
    ensures heard == Failed
  {
    var pieces := cut(n, DONE_TRANS + [NUL]);
    assert forall ch :: ch in Flatten(pieces) ==> ch != '<';
    forall i | 0 <= i < |pieces| ensures '<' !in pieces[i] {
      PieceOf(pieces, i);
    }
    NoMessageWithoutBracket("", pieces, 0, true);
    var used;
    heard, used := ReceiveLoop(pieces, true);
  }

  method Launch(c: Config, memory: array<byte>, ghost p: Plan)
    returns (client: Client, server: Server, ghost w: World)
    requires Valid(c) && PoolsOk(c, p) && PlanOk(c, p) && p.idle == SlotRuns.Fresh(c.buffers)
    requires |c.pattern| <= INT_MAX && memory.Length == SegmentSize(c)
    ensures fresh(client) && fresh(client.allocator)
    ensures fresh(client.allocator.freePool) && fresh(client.allocator.busyPool)
    ensures fresh(server) && fresh(server.scanner) && fresh(server.scanner.locations)
    ensures Separate(client, server, memory) && Undisturbed(c, p, w) && w.jane.place.Filling?
    ensures JaneHas(client, memory, c, w) && server.Reflects(c, w)
  {
    SizesFit(c);
    client := new Client(c.buffers);
    server := new Server(c.pattern, c.doSearch, []);
    w := Start(c, p, memory[..]);
  }

  /** One round of client_loop's inner loop. */
  method NextChunk(c: Config, client: Client, server: Server, memory: array<byte>, cut: Cutting, n: nat,
                   ghost p: Plan, ghost w: World) returns (done: bool, ghost r: World)
    requires Valid(c) && PoolsOk(c, p) && PlanOk(c, p) && Undisturbed(c, p, w) && w.jane.place.Filling?
    requires Cuts(cut) && Separate(client, server, memory)
    requires JaneHas(client, memory, c, w) && server.Reflects(c, w) && |c.file| + memory.Length <= LLONG_MAX
    modifies client, memory, client.allocator.freePool, client.allocator.busyPool
    modifies server, server.scanner, server.scanner.locations
    ensures Undisturbed(c, p, r) && Left(p, r) < Left(p, w) && server.Reflects(c, r)
    ensures if done then r.jane.place.Closing? else r.jane.place.Filling? && JaneHas(client, memory, c, r)
  {
    var place;
    place, r := FillNext(c, client, memory, p, w);
    if place.Closing? {
      return true, r;
    }
    r := SendNext(c, client, server, memory, cut, n, p, r);
    done := false;
  }

  /** Fill. */
  method FillNext(c: Config, client: Client, memory: array<byte>, ghost p: Plan, ghost w: World)
    returns (place: Place, ghost r: World)
    requires Valid(c) && PoolsOk(c, p) && PlanOk(c, p) && Undisturbed(c, p, w) && w.jane.place.Filling?
    requires JaneHas(client, memory, c, w)
    requires memory as object != client.allocator.freePool && memory as object != client.allocator.busyPool
    modifies client, memory, client.allocator.freePool, client.allocator.busyPool
    ensures Undisturbed(c, p, r) && Left(p, r) < Left(p, w) && r.log == w.log && r.scanner == w.scanner
    ensures JaneHas(client, memory, c, r) && place == r.jane.place && (place.Sending? || place.Closing?)
  {
    r := Filled(c, p, w);
    place := client.Fill(c, memory, w);
  }

  /** Send, Thor's answer, and the reply. */
  method SendNext(c: Config, client: Client, server: Server, memory: array<byte>, cut: Cutting, n: nat,
                  ghost p: Plan, ghost w: World) returns (ghost r: World)
    requires Valid(c) && PoolsOk(c, p) && PlanOk(c, p) && Undisturbed(c, p, w) && w.jane.place.Sending?
    requires Cuts(cut) && Separate(client, server, memory)
    requires JaneHas(client, memory, c, w) && server.Reflects(c, w) && |c.file| + memory.Length <= LLONG_MAX
    modifies client`failed, server, server.scanner, server.scanner.locations
    ensures Undisturbed(c, p, r) && Left(p, r) < Left(p, w) && r.jane.place.Filling?
    ensures JaneHas(client, memory, c, r) && server.Reflects(c, r)
  {
    ghost var w1, w2;
    w1, w2, r := RoundPasses(c, p, w);
    Round(c, client, server, memory, cut, n, w, w1, w2, r);
  }

  /** Both programs have started and are connected. */
  lemma Start(c: Config, p: Plan, memory: seq<byte>) returns (w: World)
    requires Valid(c) && PoolsOk(c, p) && PlanOk(c, p) && p.idle == SlotRuns.Fresh(c.buffers)
    requires |memory| == SegmentSize(c)
    ensures Undisturbed(c, p, w) && w.memory == memory && w.log == [] && w.scanner == START
    ensures w.jane == Jane(Filling, false, None, SlotRuns.Fresh(c.buffers), 0, "", 0, 0, 1)
  {
    var j := Jane(Connecting, false, None, SlotRuns.Fresh(c.buffers), 0, "", 0, 0, 0);
    var w0 := World(j, memory, [], [], [], START, 0, 0, false);
    InitInv(c, p, w0);
    StepUndisturbed(c, p, w0, Connect);
    w := Do(c, w0, Connect);
  }

  /** What Fill leads to. */
  lemma Filled(c: Config, p: Plan, w: World) returns (r: World)
    requires Valid(c) && PoolsOk(c, p) && PlanOk(c, p) && Undisturbed(c, p, w) && w.jane.place.Filling?
    ensures r == FillBlock(c, w) && Undisturbed(c, p, r) && Left(p, r) < Left(p, w)
    ensures r.jane.place.Sending? || r.jane.place.Closing?
    ensures r.log == w.log && r.scanner == w.scanner
  {
    StepUndisturbed(c, p, w, Fill);
    r := Do(c, w, Fill);
    FillIs(c, p, w);
  }

  lemma Finished(c: Config, p: Plan, w: World)
    requires Valid(c) && PlanOk(c, p) && Undisturbed(c, p, w) && w.jane.place.Closing?
    ensures Output(w.log) == c.file
    ensures w.scanner == if c.doSearch then ScanAll(c.pattern, c.file) else START
  {
    OutputIsPrefix(c, p, w.log);
    assert c.file[..|c.file|] == c.file;
  }

  /** One round of client_loop from the send on, with Thor's round of server_loop in between. */
  method Round(c: Config, client: Client, server: Server, memory: array<byte>, cut: Cutting, n: nat,
               ghost w: World, ghost w1: World, ghost w2: World, ghost r: World)
    requires Cuts(cut) && Passes(c, w, w1, w2, r) && Separate(client, server, memory)
    requires JaneHas(client, memory, c, w) && server.Reflects(c, w) && |c.file| + memory.Length <= LLONG_MAX
    modifies client`failed, server, server.scanner, server.scanner.locations
    ensures JaneHas(client, memory, c, r) && server.Reflects(c, r)
  {
    var got := Announce(client, cut, n, w.jane);
    var reply := Buffered(c, server, memory, got, w1, w2, w.jane.llen, w.jane.md5);
    assert JaneHas(client, memory, c, w);
    Conclude(c, client, memory, reply, cut, n + 1, w2.toJane[0].payload, w, r);
  }

  /** Jane's descriptor, as Thor receives it. */
  method Announce(client: Client, cut: Cutting, n: nat, ghost j: Jane) returns (got: string)
    requires Cuts(cut) && client.Reflects(j) && j.block.Some? && Travels(Descriptor(j).payload, true)
    ensures got == Descriptor(j).payload
  {
    var frame := client.ClientSocketSend(j);
    got := Deliver(Descriptor(j).payload, frame, cut, n, true);
  }

  /** Thor's reply, as Jane takes it. */
  method Conclude(c: Config, client: Client, memory: array<byte>, reply: string, cut: Cutting, n: nat,
                  ghost x: string, ghost w: World, ghost r: World)
    requires Cuts(cut) && reply == Frame(x) && Travels(x, false) && JaneHas(client, memory, c, w)
    requires r.jane == w.jane.(place := Filling) && !r.jane.failed && r.memory == w.memory
    modifies client`failed
    ensures JaneHas(client, memory, c, r)
  {
    var answer := Deliver(x, reply, cut, n, false);
    client.TakeReply(answer);
  }

  /** The text in a buffer with room for its terminator. */
  method InBuffer(s: string) returns (buffer: array<char>)
    requires NUL !in s
    ensures fresh(buffer) && CStr(buffer[..]) == s && |s| < buffer.Length
  {
    buffer := new char[|s| + 1](i => if 0 <= i < |s| then s[i] else NUL);
    assert buffer[..] == s + [NUL];
    CStrIs(buffer[..], s);
  }

  /** Thor's round of server_loop, from the text he received. */
  method Buffered(c: Config, server: Server, memory: array<byte>, got: string, ghost w1: World, ghost w2: World,
                  ghost len: nat, ghost md5: string) returns (reply: string)
    requires Arrives(c, w1, got) && Answers(c, w1, w2, len, md5) && got == Payload(1, 1024, len, md5)
    requires server.Reflects(c, w1) && memory[..] == w1.memory && |c.file| + memory.Length <= LLONG_MAX
    modifies server, server.scanner, server.scanner.locations
    ensures server.Reflects(c, w2) && reply == Frame(w2.toJane[0].payload)
  {
    var input := InBuffer(got);
    reply := Serving(c, server, memory, input, w1, w2, len, md5);
  }

  /** Thor's round of server_loop, with the text in his buffer. */
  method Serving(c: Config, server: Server, memory: array<byte>, input: array<char>, ghost w1: World, ghost w2: World,
                 ghost len: nat, ghost md5: string) returns (reply: string)
    requires |CStr(input[..])| < input.Length && Arrives(c, w1, CStr(input[..])) && Answers(c, w1, w2, len, md5)
    requires CStr(input[..]) == Payload(1, 1024, len, md5)
    requires server.Reflects(c, w1) && memory[..] == w1.memory && |c.file| + memory.Length <= LLONG_MAX
    modifies server, server.scanner, server.scanner.locations
    ensures server.Reflects(c, w2) && reply == Frame(w2.toJane[0].payload)
  {
    ParseRoundTrip(1, 1024, len, md5);
    assert Serve(c, w1) == w2;
    var stopped;
    reply, stopped := server.ServerSocketSend(c, input, memory, w1);
  }
}

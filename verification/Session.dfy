/** The programs' own objects taken through any run of the step relation: connections made and
    dropped, frames lost, Thor restarted, the segment tampered with. */
module SessionProgram {
  import opened CTypes
  import opened CStrings
  import opened Util
  import opened Descriptors
  import opened Frames
  import opened Substring
  import SlotRuns
  import opened Protocol
  import opened ProtocolSafety
  import opened ProtocolDelivery
  import opened JaneProgram
  import opened ThorProgram
  import opened TransferProgram

  /** Both programs have started, over a segment with these contents. */
  ghost function Begun(c: Config, memory: seq<byte>): World {
    var j := Jane(Connecting, false, None, SlotRuns.Fresh(c.buffers), 0, "", 0, 0, 0);
    World(j, memory, [], [], [], START, 0, 0, false)
  }

  /** The frames under way to Thor, and those under way to Jane. */
  datatype Wire = Wire(toThor: seq<string>, toJane: seq<string>)

  ghost predicate Wired(wire: Wire, w: World) {
    Packets(wire.toThor, w.toThor) && Replies(wire.toJane, w.toJane)
  }

  ghost predicate Packets(frames: seq<string>, packets: seq<Packet>) {
    |frames| == |packets| && forall i :: 0 <= i < |frames| ==> frames[i] == Frame(packets[i].payload)
  }

  ghost predicate Replies(frames: seq<string>, replies: seq<Reply>) {
    |frames| == |replies| && forall i :: 0 <= i < |frames| ==> frames[i] == Frame(replies[i].payload)
  }

  // ---------------------------------------------------------------- every text fits

  ghost predicate Fits(x: string) {
    Travels(x, true) && Travels(x, false)
  }

  /** Every reply on its way can be received. */
  ghost predicate RepliesFit(w: World) {
    forall i :: 0 <= i < |w.toJane| ==> Travels(w.toJane[i].payload, false)
  }

  lemma ChunkTextFits(c: Config, p: Plan, k: nat)
    requires Valid(c) && PlanOk(c, p) && k < |p.chunks|
    ensures Fits(p.chunks[k].payload)
  {
    ChunkFits(c, p, k);
    InfoPrinted(c, p, k);
    DescriptorClean(|p.chunks[k].data|, p.chunks[k].digest);
  }

  /** So can every descriptor. */
  lemma PacketFits(c: Config, p: Plan, w: World)
    requires Valid(c) && PlanOk(c, p) && Inv(c, p, w) && w.toThor != []
    ensures Fits(w.toThor[0].payload)
  {
    ChunkTextFits(c, p, w.jane.readCount - 1);
  }

  lemma OutcomeFits(w: World, data: seq<byte>, good: bool, r: World)
    requires RepliesFit(w) && Outcome(w, data, good, r) && Fits(w.toThor[0].payload)
    ensures RepliesFit(r)
  {
    LokiClean();
    forall i | 0 <= i < |r.toJane| ensures Travels(r.toJane[i].payload, false) {
      if i < |w.toJane| {
        assert r.toJane[i] == r.toJane[..|w.toJane|][i] == w.toJane[i];
      }
    }
  }

  lemma StepFits(c: Config, p: Plan, w: World, a: Action)
    requires Valid(c) && PoolsOk(c, p) && PlanOk(c, p) && Inv(c, p, w) && RepliesFit(w) && Enabled(w, a)
    ensures RepliesFit(Do(c, w, a))
  {
    match a
    case Fill => FillIs(c, p, w);
    case ThorServes =>
      DoServes(c, w);
      PacketFits(c, p, w);
      var data := ServeOutcome(c, p, w, Serve(c, w));
      OutcomeFits(w, data, c.md5(data) == c.md5(p.chunks[w.jane.readCount - 1].data), Serve(c, w));
    case GetReply => ReplyIs(c, p, w);
    case _ =>
  }

  // ---------------------------------------------------------------- Jane's steps

  method FillStep(c: Config, client: Client, memory: array<byte>, ghost p: Plan, ghost w: World)
    requires Valid(c) && PoolsOk(c, p) && PlanOk(c, p) && Inv(c, p, w) && w.jane.place.Filling?
    requires JaneHas(client, memory, c, w)
    requires memory as object != client.allocator.freePool && memory as object != client.allocator.busyPool
    modifies client, memory, client.allocator.freePool, client.allocator.busyPool
    ensures JaneHas(client, memory, c, FillBlock(c, w))
  {
    StepKeepsInv(c, p, w, Fill);
    var place := client.Fill(c, memory, w);
  }

  /** A frame put on a connection, which may lead nowhere. */
  method Put(client: Client, toThor: seq<string>, dead: bool, ghost w: World) returns (r: seq<string>)
    requires client.Reflects(w.jane) && w.jane.block.Some? && Packets(toThor, w.toThor)
    requires dead == (w.jane.conn <= w.broken)
    ensures Packets(r, Sent(w))
  {
    var frame := client.ClientSocketSend(w.jane);
    r := if dead then toThor else toThor + [frame];
  }

  method ReplyStep(client: Client, toJane: seq<string>, cut: Cutting, n: nat, ghost w: World)
    requires Cuts(cut) && client.Reflects(w.jane) && w.toJane != [] && Replies(toJane, w.toJane) && RepliesFit(w)
    modifies client`failed
    ensures client.failed == TakeReply(w).jane.failed
  {
    var answer := Deliver(w.toJane[0].payload, toJane[0], cut, n, false);
    client.TakeReply(answer);
  }

  // ---------------------------------------------------------------- Thor's steps

  method ServeStep(c: Config, server: Server, memory: array<byte>, toThor: seq<string>, cut: Cutting, n: nat,
               ghost p: Plan, ghost w: World) returns (reply: string)
    requires Valid(c) && PoolsOk(c, p) && PlanOk(c, p) && Inv(c, p, w) && w.toThor != [] && Cuts(cut)
    requires server.Reflects(c, w) && memory[..] == w.memory && Packets(toThor, w.toThor)
    requires w.scanner.total + memory.Length <= LLONG_MAX
    modifies server, server.scanner, server.scanner.locations
    ensures server.Reflects(c, Serve(c, w)) && IsReply(reply, w, Serve(c, w))
  {
    PacketFits(c, p, w);
    var got := Deliver(w.toThor[0].payload, toThor[0], cut, n, true);
    ServeGoesOn(c, p, w);
    ghost var len, md5 := ServeIsBlock(c, p, w);
    reply := ServeText(c, server, memory, got, w, Serve(c, w), len, md5);
  }

  lemma ServeGoesOn(c: Config, p: Plan, w: World)
    requires Valid(c) && PoolsOk(c, p) && PlanOk(c, p) && Inv(c, p, w) && w.toThor != []
    ensures !Serve(c, w).thorStopped && !w.thorStopped
  {
    ServeKeeps(c, p, w);
  }

  lemma ServeIsBlock(c: Config, p: Plan, w: World) returns (len: nat, md5: string)
    requires Valid(c) && PlanOk(c, p) && Inv(c, p, w) && w.toThor != []
    ensures Serve(c, w) == ServeBlock(c, w, 1024, len, md5) && len <= INT_MAX && md5 != ""
    ensures w.toThor[0].payload == Payload(1, 1024, len, md5)
  {
    ServeFinds(c, p, w);
    var k := w.jane.readCount - 1;
    ChunkFits(c, p, k);
    InfoPrinted(c, p, k);
    len, md5 := |p.chunks[k].data|, Hex(p.chunks[k].digest);
  }

  method ServeText(c: Config, server: Server, memory: array<byte>, got: string, ghost w: World, ghost r: World,
                   ghost len: nat, ghost md5: string) returns (reply: string)
    requires server.Reflects(c, w) && memory[..] == w.memory && w.scanner.total + memory.Length <= LLONG_MAX
    requires w.toThor != [] && w.toThor[0].payload == got && NUL !in got && got == Payload(1, 1024, len, md5)
    requires r == ServeBlock(c, w, 1024, len, md5) && len <= INT_MAX && md5 != ""
    requires !w.thorStopped && !r.thorStopped
    modifies server, server.scanner, server.scanner.locations
    ensures server.Reflects(c, r) && IsReply(reply, w, r)
  {
    var input := InBuffer(got);
    reply := ServeInput(c, server, memory, input, w, r, len, md5);
  }

  method ServeInput(c: Config, server: Server, memory: array<byte>, input: array<char>, ghost w: World, ghost r: World,
                    ghost len: nat, ghost md5: string) returns (reply: string)
    requires server.Reflects(c, w) && memory[..] == w.memory && w.scanner.total + memory.Length <= LLONG_MAX
    requires w.toThor != [] && w.toThor[0].payload == CStr(input[..]) == Payload(1, 1024, len, md5)
    requires |CStr(input[..])| < input.Length && r == ServeBlock(c, w, 1024, len, md5) && len <= INT_MAX && md5 != ""
    requires !w.thorStopped && !r.thorStopped
    modifies server, server.scanner, server.scanner.locations
    ensures server.Reflects(c, r) && IsReply(reply, w, r)
  {
    ParseRoundTrip(1, 1024, len, md5);
    assert Serve(c, w) == r;
    var stopped;
    reply, stopped := server.ServerSocketSend(c, input, memory, w);
  }

  method RestartStep(c: Config, server: Server, ghost w: World) returns (fresher: Server)
    requires server.Reflects(c, w) && 0 < |c.pattern| <= INT_MAX
    ensures fresher.Reflects(c, Restart(w))
    ensures fresh(fresher) && fresh(fresher.scanner) && fresh(fresher.scanner.locations) && fresh(fresher.scanner.pattern)
  {
    fresher := new Server(c.pattern, server.doSearch, server.output);
  }

  // ---------------------------------------------------------------- any step

  /** Loki's bytes, over the whole segment. */
  method Overwrite(memory: array<byte>, mem: seq<byte>)
    requires |mem| == memory.Length
    modifies memory
    ensures memory[..] == mem
  {
    forall i | 0 <= i < memory.Length {
      memory[i] := mem[i];
    }
  }

  ghost predicate DeadIs(dead: bool, w: World) {
    dead == (w.jane.conn <= w.broken)
  }

  /** A step in which neither Thor nor Loki does anything. */
  predicate Quiet(a: Action) {
    !a.ThorServes? && !a.ThorRestarts? && !a.Tamper?
  }

  method SendStep(c: Config, client: Client, memory: array<byte>, wire: Wire, dead: bool, a: Action,
                  ghost p: Plan, ghost w: World) returns (next: Wire)
    requires Valid(c) && PlanOk(c, p) && Inv(c, p, w) && Enabled(w, a) && (a.Send? || a.SendFails?)
    requires JaneHas(client, memory, c, w) && Wired(wire, w) && DeadIs(dead, w)
    modifies client`failed
    ensures JaneHas(client, memory, c, Do(c, w, a)) && Wired(next, Do(c, w, a)) && DeadIs(dead, Do(c, w, a))
  {
    var toThor := Put(client, wire.toThor, dead, w);
    if a.Send? {
      return wire.(toThor := toThor);
    }
    client.Fail();
    next := if a.sent then wire.(toThor := toThor) else wire;
  }

  method GetStep(c: Config, client: Client, memory: array<byte>, wire: Wire, ghost dead: bool, a: Action,
                 cut: Cutting, n: nat, ghost w: World) returns (next: Wire)
    requires c.pattern != [] && Enabled(w, a) && (a.GetReply? || a.ReplyFails?) && Cuts(cut) && RepliesFit(w)
    requires JaneHas(client, memory, c, w) && Wired(wire, w) && DeadIs(dead, w)
    modifies client`failed
    ensures JaneHas(client, memory, c, Do(c, w, a)) && Wired(next, Do(c, w, a)) && DeadIs(dead, Do(c, w, a))
  {
    if a.GetReply? {
      ReplyStep(client, wire.toJane, cut, n, w);
      return wire.(toJane := wire.toJane[1..]);
    }
    client.Fail();
    next := wire;
  }

  method LoseStep(ghost c: Config, wire: Wire, ghost dead: bool, a: Action, ghost w: World) returns (next: Wire)
    requires Enabled(w, a) && (a.LosePacket? || a.LoseReply?) && Wired(wire, w) && DeadIs(dead, w)
    ensures Wired(next, Do(c, w, a)) && DeadIs(dead, Do(c, w, a))
    ensures Do(c, w, a).jane == w.jane && Do(c, w, a).memory == w.memory
  {
    if a.LosePacket? {
      return wire.(toThor := wire.toThor[..a.i] + wire.toThor[a.i + 1..]);
    }
    next := wire.(toJane := wire.toJane[..a.i] + wire.toJane[a.i + 1..]);
  }

  lemma FillLeavesWire(c: Config, p: Plan, w: World)
    requires Valid(c) && PoolsOk(c, p) && PlanOk(c, p) && Inv(c, p, w) && w.jane.place.Filling?
    ensures var r := FillBlock(c, w);
            && r.toThor == w.toThor && r.toJane == w.toJane && r.jane.conn == w.jane.conn && r.broken == w.broken
            && r.log == w.log && r.scanner == w.scanner
  {
    FillIs(c, p, w);
  }

  lemma ConnectsOrCloses(c: Config, p: Plan, w: World, a: Action)
    requires c.pattern != [] && Inv(c, p, w) && Enabled(w, a) && (a.Connect? || a.Close?)
    ensures var r := Do(c, w, a);
            && r == w.(jane := r.jane) && w.broken <= w.jane.conn
            && r.jane == w.jane.(place := r.jane.place, conn := if a.Connect? then w.jane.conn + 1 else w.jane.conn)
  {
  }

  /** Any step of Jane's, or a loss. */
  method JaneStep(c: Config, client: Client, memory: array<byte>, wire: Wire, dead: bool, a: Action,
                  cut: Cutting, n: nat, ghost p: Plan, ghost w: World) returns (next: Wire, deadNow: bool)
    requires Valid(c) && PoolsOk(c, p) && PlanOk(c, p) && Inv(c, p, w) && Enabled(w, a) && Quiet(a)
    requires JaneHas(client, memory, c, w) && Wired(wire, w) && DeadIs(dead, w) && Cuts(cut) && RepliesFit(w)
    requires memory as object != client.allocator.freePool && memory as object != client.allocator.busyPool
    modifies client, memory, client.allocator.freePool, client.allocator.busyPool
    ensures JaneHas(client, memory, c, Do(c, w, a)) && Wired(next, Do(c, w, a)) && DeadIs(deadNow, Do(c, w, a))
  {
    next, deadNow := wire, dead;
    match a
    case Connect =>
      ConnectsOrCloses(c, p, w, a);
      deadNow := false;
    case Close => ConnectsOrCloses(c, p, w, a);
    case Fill =>
      FillLeavesWire(c, p, w);
      FillStep(c, client, memory, p, w);
    case Send => next := SendStep(c, client, memory, wire, dead, a, p, w);
    case SendFails(_) => next := SendStep(c, client, memory, wire, dead, a, p, w);
    case GetReply => next := GetStep(c, client, memory, wire, dead, a, cut, n, w);
    case ReplyFails => next := GetStep(c, client, memory, wire, dead, a, cut, n, w);
    case LosePacket(_) => next := LoseStep(c, wire, dead, a, w);
    case LoseReply(_) => next := LoseStep(c, wire, dead, a, w);
  }

  lemma ServedWire(c: Config, p: Plan, w: World, toThor: seq<string>, toJane: seq<string>, reply: string)
    requires Valid(c) && PlanOk(c, p) && Inv(c, p, w) && w.toThor != []
    requires Packets(toThor, w.toThor) && Replies(toJane, w.toJane) && IsReply(reply, w, Serve(c, w))
    ensures Wired(Wire(toThor[1..], toJane + [reply]), Serve(c, w))
    ensures var r := Serve(c, w); r.jane == w.jane && r.memory == w.memory && r.broken == w.broken
  {
    var r := Serve(c, w);
    var data := ServeOutcome(c, p, w, r);
    RepliesGrow(w.toJane, r.toJane, toJane, reply);
  }

  lemma RepliesGrow(was: seq<Reply>, now: seq<Reply>, frames: seq<string>, reply: string)
    requires Replies(frames, was) && |now| == |was| + 1 && now[..|was|] == was && reply == Frame(now[|was|].payload)
    ensures Replies(frames + [reply], now)
  {
    forall i | 0 <= i < |now| ensures (frames + [reply])[i] == Frame(now[i].payload) {
      if i < |was| {
        assert now[i] == now[..|was|][i] == was[i];
      }
    }
  }

  /** Thor's step, or his death and restart. */
  method ThorStep(c: Config, server: Server, memory: array<byte>, wire: Wire, dead: bool, a: Action,
                  cut: Cutting, n: nat, ghost p: Plan, ghost w: World)
    returns (next: Wire, deadNow: bool, now: Server)
    requires Valid(c) && PoolsOk(c, p) && PlanOk(c, p) && Inv(c, p, w) && Enabled(w, a)
    requires (a.ThorServes? || a.ThorRestarts?) && |c.pattern| <= INT_MAX && Cuts(cut)
    requires server.Reflects(c, w) && memory[..] == w.memory && Wired(wire, w) && DeadIs(dead, w)
    requires w.scanner.total + memory.Length <= LLONG_MAX
    modifies server, server.scanner, server.scanner.locations
    ensures now.Reflects(c, Do(c, w, a)) && Wired(next, Do(c, w, a)) && DeadIs(deadNow, Do(c, w, a))
    ensures Do(c, w, a).jane == w.jane && Do(c, w, a).memory == w.memory
    ensures now == server
            || (fresh(now) && fresh(now.scanner) && fresh(now.scanner.locations) && fresh(now.scanner.pattern))
  {
    if a.ThorServes? {
      DoServes(c, w);
      var reply := ServeStep(c, server, memory, wire.toThor, cut, n, p, w);
      ServedWire(c, p, w, wire.toThor, wire.toJane, reply);
      return Wire(wire.toThor[1..], wire.toJane + [reply]), dead, server;
    }
    RestartIs(c, p, w);
    now := RestartStep(c, server, w);
    next, deadNow := Wire([], wire.toJane), true;
  }

  lemma RestartIs(c: Config, p: Plan, w: World)
    requires c.pattern != [] && Inv(c, p, w)
    ensures Do(c, w, ThorRestarts) == Restart(w)
  {
    var a := ThorRestarts;
    match a
    case ThorRestarts =>
  }

  lemma QuietThor(c: Config, p: Plan, w: World, a: Action)
    requires Valid(c) && PoolsOk(c, p) && PlanOk(c, p) && Inv(c, p, w) && Enabled(w, a)
    requires !a.ThorServes? && !a.ThorRestarts?
    ensures Do(c, w, a).log == w.log && Do(c, w, a).scanner == w.scanner
  {
    if a.Fill? {
      FillLeavesWire(c, p, w);
    }
  }

  /** What the loop below keeps of the states alone. */
  ghost predicate Sound(c: Config, p: Plan, w: World)
    requires c.pattern != []
  {
    Inv(c, p, w) && RepliesFit(w)
  }

  lemma StepSound(c: Config, p: Plan, w: World, a: Action)
    requires Valid(c) && PoolsOk(c, p) && PlanOk(c, p) && Sound(c, p, w) && Enabled(w, a)
    ensures Sound(c, p, Do(c, w, a))
  {
    StepKeepsInv(c, p, w, a);
    StepFits(c, p, w, a);
  }

  /** The objects, the segment and the frames are all as w says. */
  ghost predicate Mirrors(client: Client, server: Server, memory: array<byte>, wire: Wire, dead: bool, c: Config, w: World)
    reads client, client.allocator, client.allocator.freePool, client.allocator.busyPool, memory
    reads server, server.scanner, server.scanner.locations, server.scanner.pattern
  {
    && JaneHas(client, memory, c, w) && server.Reflects(c, w)
    && Wired(wire, w) && DeadIs(dead, w) && Separate(client, server, memory)
  }

  method QuietStep(c: Config, client: Client, server: Server, memory: array<byte>, wire: Wire, dead: bool, a: Action,
                   cut: Cutting, n: nat, ghost p: Plan, ghost w: World) returns (next: Wire, deadNow: bool)
    requires Valid(c) && PoolsOk(c, p) && PlanOk(c, p) && Sound(c, p, w) && Enabled(w, a) && Quiet(a)
    requires Mirrors(client, server, memory, wire, dead, c, w) && Cuts(cut)
    modifies client, memory, client.allocator.freePool, client.allocator.busyPool
    ensures Mirrors(client, server, memory, next, deadNow, c, Do(c, w, a))
  {
    QuietThor(c, p, w, a);
    next, deadNow := JaneStep(c, client, memory, wire, dead, a, cut, n, p, w);
  }

  method LokiStep(c: Config, client: Client, server: Server, memory: array<byte>, wire: Wire, dead: bool, a: Action,
                  ghost w: World)
    requires Enabled(w, a) && a.Tamper? && Mirrors(client, server, memory, wire, dead, c, w)
    modifies memory
    ensures Mirrors(client, server, memory, wire, dead, c, Do(c, w, a))
  {
    Overwrite(memory, a.memory);
  }

  method ServerStep(c: Config, client: Client, server: Server, memory: array<byte>, wire: Wire, dead: bool, a: Action,
                    cut: Cutting, n: nat, ghost p: Plan, ghost w: World)
    returns (next: Wire, deadNow: bool, now: Server)
    requires Valid(c) && PoolsOk(c, p) && PlanOk(c, p) && Sound(c, p, w) && Enabled(w, a)
    requires (a.ThorServes? || a.ThorRestarts?) && |c.pattern| <= INT_MAX && Cuts(cut)
    requires Mirrors(client, server, memory, wire, dead, c, w) && w.scanner.total + memory.Length <= LLONG_MAX
    modifies server, server.scanner, server.scanner.locations
    ensures Mirrors(client, now, memory, next, deadNow, c, Do(c, w, a))
    ensures now == server
            || (fresh(now) && fresh(now.scanner) && fresh(now.scanner.locations) && fresh(now.scanner.pattern))
  {
    next, deadNow, now := ThorStep(c, server, memory, wire, dead, a, cut, n, p, w);
    JaneSame(client, memory, c, w, Do(c, w, a));
  }

  lemma JaneSame(client: Client, memory: array<byte>, c: Config, w: World, r: World)
    requires JaneHas(client, memory, c, w) && r.jane == w.jane && r.memory == w.memory
    ensures JaneHas(client, memory, c, r)
  {
  }

  /** Any action whatever. */
  method AnyStep(c: Config, client: Client, server: Server, memory: array<byte>, wire: Wire, dead: bool, a: Action,
                 cut: Cutting, n: nat, ghost p: Plan, ghost w: World)
    returns (next: Wire, deadNow: bool, now: Server)
    requires Valid(c) && PoolsOk(c, p) && PlanOk(c, p) && Sound(c, p, w) && Enabled(w, a)
    requires |c.pattern| <= INT_MAX && Cuts(cut)
    requires Mirrors(client, server, memory, wire, dead, c, w) && w.scanner.total + memory.Length <= LLONG_MAX
    modifies client, memory, client.allocator.freePool, client.allocator.busyPool
    modifies server, server.scanner, server.scanner.locations
    ensures Mirrors(client, now, memory, next, deadNow, c, Do(c, w, a))
    ensures now == server
            || (fresh(now) && fresh(now.scanner) && fresh(now.scanner.locations) && fresh(now.scanner.pattern))
  {
    if a.ThorServes? || a.ThorRestarts? {
      next, deadNow, now := ServerStep(c, client, server, memory, wire, dead, a, cut, n, p, w);
    } else if a.Tamper? {
      LokiStep(c, client, server, memory, wire, dead, a, w);
      next, deadNow, now := wire, dead, server;
    } else {
      next, deadNow := QuietStep(c, client, server, memory, wire, dead, a, cut, n, p, w);
      now := server;
    }
  }

  // ---------------------------------------------------------------- any run

  /** The scanner's 64-bit count is large enough for what is written in the run. */
  ghost predicate Countable(c: Config, w: World, actions: seq<Action>) {
    forall k {:trigger actions[..k]} :: 0 <= k < |actions| ==>
      Run(c, w, actions[..k]).scanner.total + SegmentSize(c) <= LLONG_MAX
  }

  lemma {:induction false} PossibleAt(c: Config, w: World, actions: seq<Action>, i: nat)
    requires Possible(c, w, actions) && i < |actions|
    ensures Enabled(Run(c, w, actions[..i]), actions[i])
    decreases |actions|
  {
    var n := |actions| - 1;
    if i < n {
      PossibleAt(c, w, actions[..n], i);
      assert actions[..n][..i] == actions[..i];
    }
  }

  lemma RunNext(c: Config, w: World, actions: seq<Action>, i: nat)
    requires i < |actions|
    ensures Run(c, w, actions[..i + 1]) == Do(c, Run(c, w, actions[..i]), actions[i])
  {
    assert actions[..i + 1] == actions[..i] + [actions[i]];
    RunSnoc(c, w, actions[..i], actions[i]);
  }

  method Begin(c: Config, memory: array<byte>, ghost p: Plan) returns (client: Client, server: Server)
    requires Valid(c) && PlanOk(c, p) && p.idle == SlotRuns.Fresh(c.buffers)
    requires |c.pattern| <= INT_MAX && memory.Length == SegmentSize(c)
    ensures fresh(client) && fresh(client.allocator)
    ensures fresh(client.allocator.freePool) && fresh(client.allocator.busyPool)
    ensures fresh(server) && fresh(server.scanner) && fresh(server.scanner.locations)
    ensures var w := Begun(c, memory[..]);
            Sound(c, p, w) && Mirrors(client, server, memory, Wire([], []), true, c, w)
  {
    SizesFit(c);
    client := new Client(c.buffers);
    server := new Server(c.pattern, c.doSearch, []);
    InitInv(c, p, Begun(c, memory[..]));
  }

  /** Action number i of a run. */
  method Advance(c: Config, client: Client, server: Server, memory: array<byte>, wire: Wire, dead: bool,
                 actions: seq<Action>, cut: Cutting, i: nat, ghost p: Plan, ghost w0: World, ghost w: World)
    returns (next: Wire, deadNow: bool, now: Server, ghost r: World)
    requires Valid(c) && PoolsOk(c, p) && PlanOk(c, p) && Sound(c, p, w) && |c.pattern| <= INT_MAX && Cuts(cut)
    requires i < |actions| && w == Run(c, w0, actions[..i]) && memory.Length == SegmentSize(c)
    requires Possible(c, w0, actions) && Countable(c, w0, actions)
    requires Mirrors(client, server, memory, wire, dead, c, w)
    modifies client, memory, client.allocator.freePool, client.allocator.busyPool
    modifies server, server.scanner, server.scanner.locations
    ensures r == Run(c, w0, actions[..i + 1]) && Sound(c, p, r)
    ensures Mirrors(client, now, memory, next, deadNow, c, r)
    ensures now == server
            || (fresh(now) && fresh(now.scanner) && fresh(now.scanner.locations) && fresh(now.scanner.pattern))
  {
    PossibleAt(c, w0, actions, i);
    RunNext(c, w0, actions, i);
    StepSound(c, p, w, actions[i]);
    r := Do(c, w, actions[i]);
    next, deadNow, now := AnyStep(c, client, server, memory, wire, dead, actions[i], cut, i, p, w);
  }

  /** Every run of the step relation, on the programs' own objects: with connections made, dropped
      and made again, frames cut in any way or lost, Thor dying and coming back, and Loki writing
      to the segment, the objects end as the run says. */
  method Session(c: Config, memory: array<byte>, actions: seq<Action>, cut: Cutting)
    returns (client: Client, server: Server)
    requires Valid(c) && |c.pattern| <= INT_MAX && Cuts(cut) && memory.Length == SegmentSize(c)
    requires Possible(c, Begun(c, memory[..]), actions) && Countable(c, Begun(c, memory[..]), actions)
    modifies memory
    ensures var r := Run(c, Begun(c, old(memory[..])), actions);
            JaneHas(client, memory, c, r) && server.Reflects(c, r)
  {
    ghost var w0 := Begun(c, memory[..]);
    ghost var p := MakePlan(c);
    client, server := Begin(c, memory, p);
    var wire, dead, i := Wire([], []), true, 0;
    ghost var w := w0;
    while i < |actions|
      invariant 0 <= i <= |actions| && w == Run(c, w0, actions[..i]) && Sound(c, p, w)
      invariant fresh(client) && fresh(client.allocator)
      invariant fresh(client.allocator.freePool) && fresh(client.allocator.busyPool)
      invariant fresh(server) && fresh(server.scanner) && fresh(server.scanner.locations)
      invariant Mirrors(client, server, memory, wire, dead, c, w)
    {
      wire, dead, server, w := Advance(c, client, server, memory, wire, dead, actions, cut, i, p, w0, w);
      i := i + 1;
    }
    assert actions[..|actions|] == actions;
  }
}

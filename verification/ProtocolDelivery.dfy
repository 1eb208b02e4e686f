/** What reaches Thor's file when Loki stays away, and how long a run takes when the connection
    holds. */
module ProtocolDelivery {
  import opened CTypes
  import opened Substring
  import opened SlotPools
  import opened Protocol
  import opened ProtocolSafety

  // ---------------------------------------------------------------- no tampering, any drops

  /** The block still holds what was read last. */
  ghost predicate BlockHolds(p: Plan, readCount: nat, memory: seq<byte>) {
    1 <= readCount <= |p.chunks| ==>
      && 1024 + |p.chunks[readCount - 1].data| <= |memory|
      && memory[1024..1024 + |p.chunks[readCount - 1].data|] == p.chunks[readCount - 1].data
  }

  /** Thor's file is chunk 0, chunk 1, ... up to the last chunk read, which may be repeated. */
  ghost predicate InOrder(p: Plan, readCount: nat, log: seq<Append>) {
    && readCount <= |p.chunks| && readCount - 1 <= |log| && (readCount == 0 ==> log == [])
    && (forall i :: 0 <= i < |log| ==> log[i].chunk == Min(i, readCount - 1))
    && (forall i :: 0 <= i < |log| && log[i].chunk < |p.chunks| ==> log[i].data == p.chunks[log[i].chunk].data)
  }

  /** Until a connection drops, a chunk is answered between its descriptor and the reply to it; n
      have been answered. */
  ghost predicate Answered(w: World, n: nat) {
    !w.jane.failed ==>
      && n <= w.jane.readCount
      && (w.jane.place.Sending? || w.toThor != [] ==> n == w.jane.readCount - 1)
      && (w.jane.place.Filling? || w.jane.place.Closing? || w.jane.place.Done? || w.toJane != [] ==>
            n == w.jane.readCount)
  }

  ghost predicate Untouched(p: Plan, w: World) {
    BlockHolds(p, w.jane.readCount, w.memory) && InOrder(p, w.jane.readCount, w.log) && Answered(w, |w.log|)
  }

  lemma FillUntouched(c: Config, p: Plan, w: World)
    requires Valid(c) && PoolsOk(c, p) && PlanOk(c, p) && Inv(c, p, w) && Untouched(p, w) && w.jane.place.Filling?
    ensures Untouched(p, FillBlock(c, w))
  {
    FillIs(c, p, w);
    if !w.jane.failed && w.jane.readCount < |p.chunks| {
      ReadUntouched(p, w);
    } else {
      NotReadUntouched(p, w);
    }
  }

  lemma ReadUntouched(p: Plan, w: World)
    requires Untouched(p, w) && w.jane.place.Filling? && !w.jane.failed && OneUnderWay(w)
    requires w.jane.readCount < |p.chunks| && 1024 + |p.chunks[w.jane.readCount].data| + 1 <= |w.memory|
    ensures Untouched(p, ReadNext(p.held, w, p.chunks[w.jane.readCount]))
  {
  }

  lemma NotReadUntouched(p: Plan, w: World)
    requires Untouched(p, w) && w.jane.place.Filling?
    ensures Untouched(p, NotRead(p.held, w))
  {
  }

  lemma ServeUntouched(c: Config, p: Plan, w: World)
    requires Valid(c) && PlanOk(c, p) && Inv(c, p, w) && Untouched(p, w) && w.toThor != []
    ensures Untouched(p, Serve(c, w))
    ensures |Serve(c, w).log| == |w.log| + 1
  {
    var data := ServeOutcome(c, p, w, Serve(c, w));
    OutcomeUntouched(p, w, data, Serve(c, w));
  }

  lemma OutcomeUntouched(p: Plan, w: World, data: seq<byte>, r: World)
    requires Untouched(p, w) && OneUnderWay(w) && Outcome(w, data, true, r)
    requires 1 <= w.jane.readCount <= |p.chunks| && w.toThor[0].chunk == w.jane.readCount - 1
    requires data == p.chunks[w.jane.readCount - 1].data
    ensures Untouched(p, r)
  {
  }

  lemma StepUntouched(c: Config, p: Plan, w: World, a: Action)
    requires Valid(c) && PoolsOk(c, p) && PlanOk(c, p) && Inv(c, p, w) && Untouched(p, w) && !a.Tamper?
    ensures Untouched(p, Do(c, w, a))
  {
    if Enabled(w, a) {
      match a
      case Fill => FillUntouched(c, p, w);
      case ThorServes => ServeUntouched(c, p, w);
      case GetReply => ReplyIs(c, p, w);
      case _ =>
    }
  }

  ghost predicate NoTamper(actions: seq<Action>) {
    forall i :: 0 <= i < |actions| ==> !actions[i].Tamper?
  }

  lemma {:induction false} RunUntouched(c: Config, p: Plan, w: World, actions: seq<Action>)
    requires Valid(c) && PoolsOk(c, p) && PlanOk(c, p) && Inv(c, p, w) && Untouched(p, w) && NoTamper(actions)
    ensures Untouched(p, Run(c, w, actions))
    decreases |actions|
  {
    if actions != [] {
      var n := |actions| - 1;
      RunUntouched(c, p, w, actions[..n]);
      RunKeepsInv(c, p, w, actions[..n]);
      StepUntouched(c, p, Run(c, w, actions[..n]), actions[n]);
    }
  }

  /** The first n appends, when they are the first n chunks, spell the start of the file. */
  lemma {:induction false} OutputIsPrefix(c: Config, p: Plan, log: seq<Append>)
    requires PlanOk(c, p) && |log| <= |p.chunks|
    requires forall i :: 0 <= i < |log| ==> log[i].data == p.chunks[i].data
    ensures StartOf(p, |log|) <= |c.file| && Output(log) == c.file[..StartOf(p, |log|)]
    decreases |log|
  {
    if log != [] {
      var n := |log| - 1;
      OutputIsPrefix(c, p, log[..n]);
      var i := p.chunks[n];
      assert DataOk(c, i) && i.start == StartOf(p, n);
      assert c.file[..i.start + |i.data|] == c.file[..i.start] + c.file[i.start..i.start + |i.data|];
    }
  }

  /** With drops, losses and restarts but no tampering, no chunk is skipped: append number i is chunk i,
      until the last chunk read, which alone may be repeated. When Jane has finished, Thor's file
      is the input file, with one append per chunk. */
  lemma DeliveredInOrder(c: Config, w: World, actions: seq<Action>, r: World)
    requires Valid(c) && Init(c, w) && NoTamper(actions) && r == Run(c, w, actions)
    ensures && r.jane.readCount <= |Chunks(c)| && r.jane.readCount - 1 <= |r.log|
            && (forall i :: 0 <= i < |r.log| ==>
                  && r.log[i].chunk == Min(i, r.jane.readCount - 1) < |Chunks(c)|
                  && r.log[i].data == Chunks(c)[r.log[i].chunk])
            && (r.jane.place.Done? ==> |r.log| == |Chunks(c)| && Output(r.log) == c.file)
  {
    var p := MakePlan(c);
    InitInv(c, p, w);
    RunKeepsInv(c, p, w, actions);
    RunUntouched(c, p, w, actions);
    if r.jane.place.Done? {
      OutputIsPrefix(c, p, r.log);
      assert c.file[..|c.file|] == c.file;
    }
  }

  // ---------------------------------------------------------------- no drops, no losses

  /** Every action of the schedule can happen when its turn comes. */
  ghost predicate Possible(c: Config, w: World, actions: seq<Action>)
    decreases |actions|
  {
    actions == [] ||
    (Possible(c, w, actions[..|actions| - 1])
     && Enabled(Run(c, w, actions[..|actions| - 1]), actions[|actions| - 1]))
  }

  ghost predicate AllConnected(actions: seq<Action>) {
    forall i :: 0 <= i < |actions| ==> Connected(actions[i])
  }

  ghost predicate AllFaultFree(actions: seq<Action>) {
    forall i :: 0 <= i < |actions| ==> FaultFree(actions[i])
  }

  /** All n chunks have been read, and the last descriptor sent: Jane needs no connection any more. */
  predicate NeedsNone(n: nat, w: World) {
    w.jane.readCount == n && !w.jane.place.Sending?
  }

  /** No drop so far, and while Jane waits exactly one message is under way, on her connection. */
  ghost predicate Smooth(p: Plan, w: World) {
    && !w.jane.failed && (w.jane.place.Connecting? || w.jane.conn > w.broken || NeedsNone(|p.chunks|, w))
    && (w.jane.place.Waiting? ==> |w.toThor| + |w.toJane| == 1)
    && (w.toThor != [] ==> w.toThor[0].conn == w.jane.conn)
    && (w.toJane != [] ==> w.toJane[0].conn == w.jane.conn)
  }

  function Rank(w: World): nat {
    match w.jane.place
    case Connecting => 3
    case Filling => 2
    case Sending => 5
    case Waiting => if w.toThor != [] then 4 else 3
    case Closing => 1
    case _ => 0
  }

  /** Steps left: four for each unread chunk, and a few. */
  function Left(p: Plan, w: World): int {
    4 * (|p.chunks| - w.jane.readCount) + Rank(w)
  }

  /** The step from w to r is one of those left, and Thor's program is the same as before. */
  ghost predicate OneStep(p: Plan, w: World, r: World) {
    Smooth(p, r) && Left(p, r) == Left(p, w) - 1 && r.since == w.since
  }

  lemma SmoothFill(c: Config, p: Plan, w: World)
    requires Valid(c) && PoolsOk(c, p) && PlanOk(c, p) && Inv(c, p, w) && Smooth(p, w) && w.jane.place.Filling?
    ensures OneStep(p, w, FillBlock(c, w))
  {
    FillIs(c, p, w);
    assert OneUnderWay(w);
    if w.jane.readCount < |p.chunks| {
      SmoothRead(p, w, p.chunks[w.jane.readCount]);
    } else {
      SmoothEnd(p, w);
    }
  }

  lemma SmoothEnd(p: Plan, w: World)
    requires Smooth(p, w) && w.jane.place.Filling?
    ensures OneStep(p, w, NotRead(p.held, w))
  {
  }

  lemma SmoothRead(p: Plan, w: World, i: Info)
    requires Smooth(p, w) && OneUnderWay(w) && w.jane.place.Filling? && w.jane.readCount < |p.chunks|
    requires 1024 + |i.data| + 1 <= |w.memory|
    ensures OneStep(p, w, ReadNext(p.held, w, i))
  {
  }

  lemma SmoothServe(c: Config, p: Plan, w: World)
    requires Valid(c) && PlanOk(c, p) && Inv(c, p, w) && Smooth(p, w) && w.toThor != []
    ensures OneStep(p, w, Serve(c, w))
  {
    var r := Serve(c, w);
    var data := ServeOutcome(c, p, w, r);
    SmoothOutcome(p, w, data, c.md5(data) == c.md5(p.chunks[w.jane.readCount - 1].data), r);
  }

  lemma SmoothOutcome(p: Plan, w: World, data: seq<byte>, good: bool, r: World)
    requires Smooth(p, w) && OneUnderWay(w) && Outcome(w, data, good, r)
    ensures OneStep(p, w, r)
  {
  }

  lemma SmoothReply(c: Config, p: Plan, w: World)
    requires Valid(c) && PlanOk(c, p) && Inv(c, p, w) && Smooth(p, w) && w.toJane != [] && w.jane.place.Waiting?
    ensures OneStep(p, w, TakeReply(w))
  {
    ReplyIs(c, p, w);
  }

  lemma SmoothOther(c: Config, p: Plan, w: World)
    requires Valid(c) && Inv(c, p, w) && Smooth(p, w)
    ensures w.jane.place.Connecting? ==>
              OneStep(p, w, w.(jane := w.jane.(place := Filling, conn := w.jane.conn + 1)))
    ensures w.jane.place.Closing? ==> OneStep(p, w, w.(jane := w.jane.(place := Done)))
    ensures w.jane.place.Sending? ==> OneStep(p, w, SendPacket(w))
  {
    assert OneUnderWay(w);
  }

  lemma SmoothStep(c: Config, p: Plan, w: World, a: Action)
    requires Valid(c) && PoolsOk(c, p) && PlanOk(c, p) && Inv(c, p, w) && Smooth(p, w)
    requires FaultFree(a) && Enabled(w, a)
    ensures OneStep(p, w, Do(c, w, a))
  {
    match a
    case Fill => SmoothFill(c, p, w);
    case ThorServes => SmoothServe(c, p, w);
    case GetReply => SmoothReply(c, p, w);
    case _ => SmoothOther(c, p, w);
  }

  lemma ConnectedStep(c: Config, p: Plan, w: World, a: Action)
    requires Valid(c) && PoolsOk(c, p) && PlanOk(c, p) && Inv(c, p, w) && Smooth(p, w)
    requires Connected(a) && Enabled(w, a)
    ensures Smooth(p, Do(c, w, a)) && Left(p, Do(c, w, a)) + (if a.Tamper? then 0 else 1) == Left(p, w)
    ensures Do(c, w, a).since == w.since
  {
    if !a.Tamper? {
      SmoothStep(c, p, w, a);
    }
  }

  /** How many of the actions are the programs' own. */
  function Worked(actions: seq<Action>): nat {
    if actions == [] then 0
    else Worked(actions[..|actions| - 1]) + if actions[|actions| - 1].Tamper? then 0 else 1
  }

  /** How often Thor refused a block. */
  function Refusals(c: Config, w: World, actions: seq<Action>): nat
    decreases |actions|
  {
    if actions == [] then 0
    else
      var n := |actions| - 1;
      Refusals(c, w, actions[..n]) + if Refuses(c, Run(c, w, actions[..n]), actions[n]) then 1 else 0
  }

  predicate Refuses(c: Config, w: World, a: Action) {
    a.ThorServes? && Enabled(w, a) && |Do(c, w, a).log| == |w.log|
  }

  lemma {:induction false} SmoothRun(c: Config, p: Plan, w: World, actions: seq<Action>)
    requires Valid(c) && PoolsOk(c, p) && PlanOk(c, p) && Inv(c, p, w) && Smooth(p, w)
    requires AllConnected(actions) && Possible(c, w, actions)
    ensures Smooth(p, Run(c, w, actions)) && Left(p, Run(c, w, actions)) + Worked(actions) == Left(p, w)
    ensures Run(c, w, actions).since == w.since
    decreases |actions|
  {
    if actions != [] {
      var n := |actions| - 1;
      SmoothRun(c, p, w, actions[..n]);
      RunKeepsInv(c, p, w, actions[..n]);
      ConnectedStep(c, p, Run(c, w, actions[..n]), actions[n]);
    }
  }

  lemma FillAnswered(c: Config, p: Plan, w: World, n: nat)
    requires Valid(c) && PoolsOk(c, p) && PlanOk(c, p) && Inv(c, p, w) && Smooth(p, w) && w.jane.place.Filling?
    requires Answered(w, n)
    ensures Answered(FillBlock(c, w), n) && FillBlock(c, w).log == w.log
  {
    FillIs(c, p, w);
    assert OneUnderWay(w);
  }

  lemma ServeAnswered(c: Config, p: Plan, w: World, n: nat)
    requires Valid(c) && PlanOk(c, p) && Inv(c, p, w) && Smooth(p, w) && w.toThor != [] && Answered(w, n)
    ensures Answered(Serve(c, w), n + 1)
    ensures |Serve(c, w).log| == |w.log| || |Serve(c, w).log| == |w.log| + 1
  {
    var data := ServeOutcome(c, p, w, Serve(c, w));
    assert OneUnderWay(w);
  }

  lemma StepAnswered(c: Config, p: Plan, w: World, a: Action, k: nat)
    requires Valid(c) && PoolsOk(c, p) && PlanOk(c, p) && Inv(c, p, w) && Smooth(p, w)
    requires Connected(a) && Enabled(w, a) && Answered(w, |w.log| + k)
    ensures Answered(Do(c, w, a), |Do(c, w, a).log| + k + if Refuses(c, w, a) then 1 else 0)
  {
    match a
    case Fill => FillAnswered(c, p, w, |w.log| + k);
    case ThorServes => ServeAnswered(c, p, w, |w.log| + k);
    case GetReply => ReplyIs(c, p, w);
    case _ =>
  }

  lemma {:induction false} RunAnswered(c: Config, p: Plan, w: World, actions: seq<Action>)
    requires Valid(c) && PoolsOk(c, p) && PlanOk(c, p) && Inv(c, p, w) && Smooth(p, w)
    requires AllConnected(actions) && Possible(c, w, actions) && Answered(w, |w.log|)
    ensures Answered(Run(c, w, actions), |Run(c, w, actions).log| + Refusals(c, w, actions))
    decreases |actions|
  {
    if actions != [] {
      var n := |actions| - 1;
      RunAnswered(c, p, w, actions[..n]);
      SmoothRun(c, p, w, actions[..n]);
      RunKeepsInv(c, p, w, actions[..n]);
      StepAnswered(c, p, Run(c, w, actions[..n]), actions[n], Refusals(c, w, actions[..n]));
    }
  }

  /** What happens next without faults. */
  function Next(w: World): Action {
    match w.jane.place
    case Connecting => Connect
    case Filling => Fill
    case Sending => Send
    case Waiting => if w.toThor != [] then ThorServes else GetReply
    case _ => Close
  }

  /** While the connection holds, whatever Loki does, the two programs take at most four steps per
      chunk and three more; a run can go on until Jane is done; and then they have taken exactly
      so many, and Thor has answered every chunk once, by an append or by a refusal. */
  lemma ConnectedRun(c: Config, w: World, actions: seq<Action>, r: World)
    requires Valid(c) && Init(c, w) && AllConnected(actions) && Possible(c, w, actions) && r == Run(c, w, actions)
    ensures Worked(actions) <= 4 * |Chunks(c)| + 3
    ensures !r.jane.place.Done? ==> FaultFree(Next(r)) && Enabled(r, Next(r))
    ensures r.jane.place.Done? ==>
              Worked(actions) == 4 * |Chunks(c)| + 3 && |r.log| + Refusals(c, w, actions) == |Chunks(c)|
    ensures r.since == 0
  {
    var p := MakePlan(c);
    InitInv(c, p, w);
    SmoothRun(c, p, w, actions);
    RunAnswered(c, p, w, actions);
    RunKeepsInv(c, p, w, actions);
    NextEnabled(c, p, r);
  }

  lemma {:induction false} AllWorked(actions: seq<Action>)
    requires AllFaultFree(actions)
    ensures Worked(actions) == |actions| && AllConnected(actions) && NoTamper(actions)
  {
    if actions != [] {
      AllWorked(actions[..|actions| - 1]);
      assert FaultFree(actions[|actions| - 1]);
      assert forall i :: 0 <= i < |actions| ==> FaultFree(actions[i]);
    }
  }

  lemma FaultFreeCount(c: Config, w: World, actions: seq<Action>, r: World)
    requires Valid(c) && Init(c, w) && AllFaultFree(actions) && Possible(c, w, actions) && r == Run(c, w, actions)
    ensures |actions| <= 4 * |Chunks(c)| + 3
    ensures !r.jane.place.Done? ==> FaultFree(Next(r)) && Enabled(r, Next(r))
    ensures r.jane.place.Done? ==> Output(r.log) == c.file && |r.log| == |Chunks(c)|
    ensures r.jane.place.Done? && c.doSearch ==> r.scanner == ScanAll(c.pattern, c.file)
  {
    AllWorked(actions);
    ConnectedRun(c, w, actions, r);
    DeliveredInOrder(c, w, actions, r);
    NothingStops(c, w, actions, r);
    assert r.log[0..] == r.log;
  }

  /** A run without drops, losses or tampering takes at most four steps per chunk and three more;
      it can go on until Jane is done; and then Thor's file is the input file, written with one
      append per chunk, and his search result is the scan of the whole file, whatever
      use_buffers is. There are as many chunks as reads of all but one byte of the block take. */
  lemma FaultFreeRun(c: Config, w: World, actions: seq<Action>, r: World, size: nat, chunks: nat)
    requires Valid(c) && Init(c, w) && AllFaultFree(actions) && Possible(c, w, actions) && r == Run(c, w, actions)
    requires size == c.useBuffers * 1024 - 1 && chunks == (|c.file| + size - 1) / size
    ensures |actions| <= 4 * chunks + 3
    ensures !r.jane.place.Done? ==> FaultFree(Next(r)) && Enabled(r, Next(r))
    ensures r.jane.place.Done? ==> Output(r.log) == c.file && |r.log| == chunks
    ensures r.jane.place.Done? && c.doSearch ==> r.scanner == ScanAll(c.pattern, c.file)
  {
    ChunksAre(c, size);
    FaultFreeCount(c, w, actions, r);
  }

  lemma NextEnabled(c: Config, p: Plan, w: World)
    requires Valid(c) && PlanOk(c, p) && Inv(c, p, w) && Smooth(p, w)
    ensures Left(p, w) >= 0 && (w.jane.place.Done? ==> Left(p, w) == 0)
    ensures !w.jane.place.Done? ==> FaultFree(Next(w)) && Enabled(w, Next(w))
  {
  }

  // ---------------------------------------------------------------- after a drop

  /** Jane resending the first chunk, after a drop: Thor has written it n times. */
  ghost predicate Resending(p: Plan, w: World, n: nat) {
    && w.jane.failed && w.jane.place.Filling? && w.jane.readCount == 1 && w.jane.conn > w.broken
    && w.toThor == [] && w.toJane == [] && |w.log| == n && Untouched(p, w)
  }

  /** Jane's descriptor of the first chunk, sent again, is all there is. */
  ghost predicate Resent(p: Plan, w: World, n: nat) {
    && w.jane.failed && w.jane.place.Waiting? && w.jane.readCount == 1 && w.jane.conn > w.broken
    && |w.toThor| == 1 && w.toThor[0].conn == w.jane.conn && w.toJane == [] && |w.log| == n && Untouched(p, w)
  }

  lemma ResendIs(c: Config, p: Plan, w: World, n: nat)
    requires Valid(c) && PoolsOk(c, p) && PlanOk(c, p) && Inv(c, p, w) && Resending(p, w, n)
    ensures var r := Do(c, Do(c, w, Fill), Send); Inv(c, p, r) && Resent(p, r, n)
  {
    FillIs(c, p, w);
    var r := Do(c, w, Fill);
    assert r == NotRead(p.held, w);
    StepKeepsInv(c, p, w, Fill);
    StepUntouched(c, p, w, Fill);
    StepKeepsInv(c, p, r, Send);
    StepUntouched(c, p, r, Send);
  }

  lemma ResentServed(c: Config, p: Plan, w: World, n: nat)
    requires Valid(c) && PoolsOk(c, p) && PlanOk(c, p) && Inv(c, p, w) && Resent(p, w, n)
    ensures var r := Do(c, Do(c, w, ThorServes), GetReply); Inv(c, p, r) && Resending(p, r, n + 1)
  {
    var r := Do(c, w, ThorServes);
    DoServes(c, w);
    AnswerIs(c, p, w);
    StepKeepsInv(c, p, w, ThorServes);
    StepUntouched(c, p, w, ThorServes);
    StepKeepsInv(c, p, r, GetReply);
    StepUntouched(c, p, r, GetReply);
    ReplyIs(c, p, r);
  }

  lemma RoundAppends(c: Config, p: Plan, w: World, n: nat)
    requires Valid(c) && PoolsOk(c, p) && PlanOk(c, p) && Inv(c, p, w) && Resending(p, w, n)
    ensures var r := Do(c, Do(c, Do(c, Do(c, w, Fill), Send), ThorServes), GetReply);
            Inv(c, p, r) && Resending(p, r, n + 1)
  {
    ResendIs(c, p, w, n);
    ResentServed(c, p, Do(c, Do(c, w, Fill), Send), n);
  }

  lemma AnswerIs(c: Config, p: Plan, w: World)
    requires Valid(c) && PlanOk(c, p) && Inv(c, p, w) && Untouched(p, w)
    requires |w.toThor| == 1 && w.toJane == []
    ensures var r := Serve(c, w);
            && r.jane == w.jane && r.toThor == [] && |r.log| == |w.log| + 1
            && |r.toJane| == 1 && r.toJane[0].conn == w.toThor[0].conn && r.broken == w.broken
  {
    var data := ServeOutcome(c, p, w, Serve(c, w));
  }

  /** One send fails, Jane reconnects and resends; nothing else goes wrong. */
  function Rounds(n: nat): seq<Action> {
    if n == 0 then [] + [Connect] + [Fill] + [SendFails(false)] + [Connect]
    else Rounds(n - 1) + [Fill] + [Send] + [ThorServes] + [GetReply]
  }

  lemma RunFour(c: Config, w: World, a: seq<Action>, x: Action, y: Action, z: Action, t: Action)
    ensures Run(c, w, a + [x] + [y] + [z] + [t]) == Do(c, Do(c, Do(c, Do(c, Run(c, w, a), x), y), z), t)
  {
    RunSnoc(c, w, a, x);
    RunSnoc(c, w, a + [x], y);
    RunSnoc(c, w, a + [x] + [y], z);
    RunSnoc(c, w, a + [x] + [y] + [z], t);
  }

  /** The descriptor of the first chunk is ready, and nothing has happened besides. */
  ghost predicate FirstReady(p: Plan, w: World) {
    && w.jane.place.Sending? && !w.jane.failed && w.jane.readCount == 1 <= |p.chunks| && w.jane.conn > w.broken
    && w.toThor == [] && w.toJane == [] && w.log == [] && !w.thorStopped && Untouched(p, w)
  }

  lemma FirstRead(c: Config, p: Plan, w: World)
    requires Valid(c) && PoolsOk(c, p) && PlanOk(c, p) && Inv(c, p, w) && Untouched(p, w) && c.file != []
    requires w.jane.place.Filling? && !w.jane.failed && w.jane.readCount == 0 && w.jane.conn > w.broken
    ensures Inv(c, p, Do(c, w, Fill)) && FirstReady(p, Do(c, w, Fill))
  {
    StepKeepsInv(c, p, w, Fill);
    StepUntouched(c, p, w, Fill);
    FillIs(c, p, w);
    assert |p.chunks| > 0;
    assert Do(c, w, Fill) == ReadNext(p.held, w, p.chunks[0]);
  }

  lemma FirstConnect(c: Config, p: Plan, w: World)
    requires Valid(c) && PoolsOk(c, p) && PlanOk(c, p) && Init(c, w) && Inv(c, p, w)
    ensures var r := Do(c, w, Connect);
            && Inv(c, p, r) && Untouched(p, r)
            && r.jane.place.Filling? && !r.jane.failed && r.jane.readCount == 0 && r.jane.conn > r.broken
  {
    StepKeepsInv(c, p, w, Connect);
  }

  /** How every run on a non-empty file can begin. */
  lemma FirstSteps(c: Config, p: Plan, w: World) returns (r: World)
    requires Valid(c) && PoolsOk(c, p) && PlanOk(c, p) && Init(c, w) && Inv(c, p, w) && c.file != []
    ensures r == Do(c, Do(c, w, Connect), Fill) && Inv(c, p, r) && FirstReady(p, r)
  {
    FirstConnect(c, p, w);
    FirstRead(c, p, Do(c, w, Connect));
    r := Do(c, Do(c, w, Connect), Fill);
  }

  lemma FirstDropped(c: Config, p: Plan, w: World)
    requires Valid(c) && PoolsOk(c, p) && PlanOk(c, p) && Inv(c, p, w) && FirstReady(p, w)
    ensures var r := Do(c, Do(c, w, SendFails(false)), Connect); Inv(c, p, r) && Resending(p, r, 0)
  {
    StepKeepsInv(c, p, w, SendFails(false));
    StepKeepsInv(c, p, Do(c, w, SendFails(false)), Connect);
  }

  lemma FirstDrop(c: Config, p: Plan, w: World)
    requires Valid(c) && PoolsOk(c, p) && PlanOk(c, p) && Init(c, w) && Inv(c, p, w) && c.file != []
    ensures var r := Do(c, Do(c, Do(c, Do(c, w, Connect), Fill), SendFails(false)), Connect);
            Inv(c, p, r) && Resending(p, r, 0)
  {
    var r := FirstSteps(c, p, w);
    FirstDropped(c, p, r);
  }

  lemma {:induction false} RoundsResend(c: Config, p: Plan, w: World, n: nat)
    requires Valid(c) && PoolsOk(c, p) && PlanOk(c, p) && Init(c, w) && Inv(c, p, w) && c.file != []
    ensures Inv(c, p, Run(c, w, Rounds(n))) && Resending(p, Run(c, w, Rounds(n)), n)
  {
    if n == 0 {
      RunFour(c, w, [], Connect, Fill, SendFails(false), Connect);
      FirstDrop(c, p, w);
    } else {
      RoundsResend(c, p, w, n - 1);
      RunFour(c, w, Rounds(n - 1), Fill, Send, ThorServes, GetReply);
      RoundAppends(c, p, Run(c, w, Rounds(n - 1)), n - 1);
    }
  }

  /** The README says that after Thor comes back Jane sends the remaining data. She does not: for
      any non-empty file and any n there is a run with one failed send and no other fault after
      which Thor has written the first chunk n times and nothing else. */
  lemma ResendsForever(c: Config, w: World, n: nat)
    requires Valid(c) && Init(c, w) && c.file != []
    ensures |Chunks(c)| > 0
    ensures var r := Run(c, w, Rounds(n));
            r.jane.failed && |r.log| == n && forall i :: 0 <= i < n ==> r.log[i] == Append(0, Chunks(c)[0])
  {
    var p := MakePlan(c);
    InitInv(c, p, w);
    RoundsResend(c, p, w, n);
    var r := Run(c, w, Rounds(n));
    forall i | 0 <= i < n ensures r.log[i] == Append(0, Chunks(c)[0]) {
      assert r.log[i].chunk == 0;
    }
  }
}

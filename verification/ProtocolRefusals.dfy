/** What becomes of a chunk that Thor has refused. */
module ProtocolRefusals {
  import opened CTypes
  import opened Protocol
  import opened ProtocolSafety
  import opened ProtocolDelivery

  /** Chunk k is written on the way from w to r. */
  ghost predicate Written(k: nat, w: World, r: World) {
    exists i :: |w.log| <= i < |r.log| && r.log[i].chunk == k
  }

  ghost predicate Writable(c: Config, k: nat, w: World) {
    exists more :: Written(k, w, Run(c, w, more))
  }

  // ---------------------------------------------------------------- how it is written

  lemma WritableBefore(c: Config, k: nat, w: World, a: Action, r: World)
    requires r == Do(c, w, a) && |r.log| == |w.log| && Writable(c, k, r)
    ensures Writable(c, k, w)
  {
    var more :| Written(k, r, Run(c, r, more));
    RunCons(c, w, a, more);
  }

  lemma ChunkInside(c: Config, p: Plan, w: World)
    requires Valid(c) && PlanOk(c, p) && Inv(c, p, w) && 1 <= w.jane.readCount
    ensures w.jane.readCount <= |p.chunks| && 1024 + |p.chunks[w.jane.readCount - 1].data| + 1 <= |w.memory|
  {
    var k := w.jane.readCount - 1;
    assert DataOk(c, p.chunks[k]);
    InfoFits(c, p.chunks[k]);
  }

  lemma WrittenNow(k: nat, w: World, data: seq<byte>, r: World)
    requires Outcome(w, data, true, r) && w.toThor[0].chunk == k
    ensures Written(k, w, r)
  {
    assert r.log[|w.log|].chunk == k;
  }

  lemma WritableByStep(c: Config, k: nat, w: World, a: Action, r: World)
    requires r == Do(c, w, a) && Written(k, w, r)
    ensures Writable(c, k, w)
  {
    RunSnoc(c, w, [], a);
    assert Run(c, w, [] + [a]) == r;
  }

  lemma WritableServing(c: Config, p: Plan, w: World)
    requires Valid(c) && PoolsOk(c, p) && PlanOk(c, p) && Inv(c, p, w) && w.toThor != []
    requires 1 <= w.jane.readCount <= |p.chunks| && 1024 + |p.chunks[w.jane.readCount - 1].data| <= |w.memory|
    requires w.memory[1024..1024 + |p.chunks[w.jane.readCount - 1].data|] == p.chunks[w.jane.readCount - 1].data
    ensures Writable(c, w.jane.readCount - 1, w)
  {
    var r := Serve(c, w);
    var data := ServeOutcome(c, p, w, r);
    WrittenNow(w.jane.readCount - 1, w, data, r);
    DoServes(c, w);
    WritableByStep(c, w.jane.readCount - 1, w, ThorServes, r);
  }

  /** While Thor holds a descriptor, its chunk can be written: Loki restores the block. */
  lemma WritableUnread(c: Config, p: Plan, w: World)
    requires Valid(c) && PoolsOk(c, p) && PlanOk(c, p) && Inv(c, p, w) && w.toThor != []
    ensures w.jane.readCount >= 1 && Writable(c, w.jane.readCount - 1, w)
  {
    assert w.jane.readCount >= 1;
    ChunkInside(c, p, w);
    var k := w.jane.readCount - 1;
    var mem := Stored(w.memory, 1024, p.chunks[k].data);
    StepKeepsInv(c, p, w, Tamper(mem));
    WritableServing(c, p, Do(c, w, Tamper(mem)));
    WritableBefore(c, k, w, Tamper(mem), Do(c, w, Tamper(mem)));
  }

  /** On a connection that leads somewhere the descriptor can be sent. */
  lemma WritableSending(c: Config, p: Plan, w: World)
    requires Valid(c) && PoolsOk(c, p) && PlanOk(c, p) && Inv(c, p, w) && w.jane.place.Sending?
    requires w.jane.conn > w.broken
    ensures w.jane.readCount >= 1 && Writable(c, w.jane.readCount - 1, w)
  {
    StepKeepsInv(c, p, w, Send);
    WritableUnread(c, p, Do(c, w, Send));
    WritableBefore(c, w.jane.readCount - 1, w, Send, Do(c, w, Send));
  }

  lemma WritableFilling(c: Config, p: Plan, w: World)
    requires Valid(c) && PoolsOk(c, p) && PlanOk(c, p) && Inv(c, p, w) && w.jane.place.Filling? && w.jane.failed
    requires w.jane.conn > w.broken
    ensures w.jane.readCount >= 1 && Writable(c, w.jane.readCount - 1, w)
  {
    FillIs(c, p, w);
    var r := Do(c, w, Fill);
    assert r == NotRead(p.held, w);
    StepKeepsInv(c, p, w, Fill);
    WritableSending(c, p, r);
    WritableBefore(c, w.jane.readCount - 1, w, Fill, r);
  }

  lemma WritableConnecting(c: Config, p: Plan, w: World)
    requires Valid(c) && PoolsOk(c, p) && PlanOk(c, p) && Inv(c, p, w) && w.jane.place.Connecting? && w.jane.failed
    ensures w.jane.readCount >= 1 && Writable(c, w.jane.readCount - 1, w)
  {
    StepKeepsInv(c, p, w, Connect);
    WritableFilling(c, p, Do(c, w, Connect));
    WritableBefore(c, w.jane.readCount - 1, w, Connect, Do(c, w, Connect));
  }

  /** From any place a failed send, or a failed reply, leads to a new connection. */
  lemma WritableSendFails(c: Config, p: Plan, w: World)
    requires Valid(c) && PoolsOk(c, p) && PlanOk(c, p) && Inv(c, p, w) && w.jane.place.Sending?
    ensures w.jane.readCount >= 1 && Writable(c, w.jane.readCount - 1, w)
  {
    var fails := SendFails(false);
    StepKeepsInv(c, p, w, fails);
    WritableConnecting(c, p, Do(c, w, fails));
    WritableBefore(c, w.jane.readCount - 1, w, fails, Do(c, w, fails));
  }

  lemma WritableRefilling(c: Config, p: Plan, w: World)
    requires Valid(c) && PoolsOk(c, p) && PlanOk(c, p) && Inv(c, p, w) && w.jane.place.Filling? && w.jane.failed
    ensures w.jane.readCount >= 1 && Writable(c, w.jane.readCount - 1, w)
  {
    FillIs(c, p, w);
    var r := Do(c, w, Fill);
    assert r == NotRead(p.held, w);
    StepKeepsInv(c, p, w, Fill);
    WritableSendFails(c, p, r);
    WritableBefore(c, w.jane.readCount - 1, w, Fill, r);
  }

  lemma WritableWaiting(c: Config, p: Plan, w: World)
    requires Valid(c) && PoolsOk(c, p) && PlanOk(c, p) && Inv(c, p, w) && w.jane.place.Waiting?
    ensures w.jane.readCount >= 1 && Writable(c, w.jane.readCount - 1, w)
  {
    StepKeepsInv(c, p, w, ReplyFails);
    WritableConnecting(c, p, Do(c, w, ReplyFails));
    WritableBefore(c, w.jane.readCount - 1, w, ReplyFails, Do(c, w, ReplyFails));
  }

  // ---------------------------------------------------------------- when it is not

  /** Jane has read on past chunk k, or is about to. */
  ghost predicate Past(k: nat, w: World) {
    && w.jane.readCount >= k + 1
    && (w.jane.readCount == k + 1 ==>
          && !w.jane.failed && w.toThor == []
          && (w.jane.place.Filling? || w.jane.place.Closing? || w.jane.place.Done?))
  }

  lemma StepPast(c: Config, p: Plan, k: nat, w: World, a: Action)
    requires Valid(c) && PoolsOk(c, p) && PlanOk(c, p) && Inv(c, p, w) && Past(k, w)
    ensures Past(k, Do(c, w, a)) && !Written(k, w, Do(c, w, a)) && w.log <= Do(c, w, a).log
  {
    StepAppends(c, p, w, a);
    if Enabled(w, a) && a.Fill? {
      FillIs(c, p, w);
    } else if Enabled(w, a) && a.ThorServes? {
      var data := ServeOutcome(c, p, w, Serve(c, w));
    }
  }

  lemma {:induction false} RunPast(c: Config, p: Plan, k: nat, w: World, more: seq<Action>)
    requires Valid(c) && PoolsOk(c, p) && PlanOk(c, p) && Inv(c, p, w) && Past(k, w)
    ensures Past(k, Run(c, w, more)) && !Written(k, w, Run(c, w, more)) && w.log <= Run(c, w, more).log
    decreases |more|
  {
    if more != [] {
      var n := |more| - 1;
      var q := Run(c, w, more[..n]);
      RunPast(c, p, k, w, more[..n]);
      RunKeepsInv(c, p, w, more[..n]);
      StepPast(c, p, k, q, more[n]);
    }
  }

  /** Exactly when a chunk Jane has read can still be written: it is the last one she read, and
      she has not gone on from it, because its connection dropped or she has yet to take the
      reply. */
  lemma WritableIff(c: Config, w: World, actions: seq<Action>, r: World, k: nat)
    requires Valid(c) && Init(c, w) && r == Run(c, w, actions) && k < r.jane.readCount
    ensures Writable(c, k, r) <==>
            k == r.jane.readCount - 1 && (r.jane.failed || r.jane.place.Sending? || r.jane.place.Waiting?)
  {
    var p := MakePlan(c);
    InitInv(c, p, w);
    RunKeepsInv(c, p, w, actions);
    WritableFrom(c, p, r, k);
  }

  // ---------------------------------------------------------------- after a refusal

  /** Since the refusal of chunk k, which led to w: it has been written only if the connection
      dropped while it was the last chunk read. */
  ghost predicate OnlyAfterDrop(k: nat, w: World, q: World) {
    && q.jane.readCount >= k + 1
    && (q.jane.readCount == k + 1 && !q.jane.failed ==> q.toThor == [] && !q.jane.place.Sending?)
    && (Written(k, w, q) ==> q.jane.failed && q.jane.readCount == k + 1)
  }

  lemma ServedOnlyAfterDrop(k: nat, w: World, q: World, data: seq<byte>, good: bool, r: World)
    requires OnlyAfterDrop(k, w, q) && Outcome(q, data, good, r) && q.toThor[0].chunk == q.jane.readCount - 1
    ensures OnlyAfterDrop(k, w, r)
  {
  }

  lemma FilledOnlyAfterDrop(c: Config, p: Plan, k: nat, w: World, q: World)
    requires Valid(c) && PoolsOk(c, p) && PlanOk(c, p) && Inv(c, p, q) && OnlyAfterDrop(k, w, q)
    requires q.jane.place.Filling?
    ensures OnlyAfterDrop(k, w, FillBlock(c, q))
  {
    FillIs(c, p, q);
  }

  lemma StepOnlyAfterDrop(c: Config, p: Plan, k: nat, w: World, q: World, a: Action)
    requires Valid(c) && PoolsOk(c, p) && PlanOk(c, p) && Inv(c, p, q) && OnlyAfterDrop(k, w, q)
    ensures OnlyAfterDrop(k, w, Do(c, q, a))
  {
    if Enabled(q, a) && a.Fill? {
      FilledOnlyAfterDrop(c, p, k, w, q);
    } else if Enabled(q, a) && a.GetReply? {
      ReplyIs(c, p, q);
    } else if Enabled(q, a) && a.ThorServes? {
      DoServes(c, q);
      var data := ServeOutcome(c, p, q, Serve(c, q));
      ServedOnlyAfterDrop(k, w, q, data, c.md5(data) == c.md5(p.chunks[q.jane.readCount - 1].data), Serve(c, q));
    }
  }

  lemma {:induction false} RunOnlyAfterDrop(c: Config, p: Plan, k: nat, w: World, more: seq<Action>)
    requires Valid(c) && PoolsOk(c, p) && PlanOk(c, p) && Inv(c, p, w) && OnlyAfterDrop(k, w, w)
    ensures OnlyAfterDrop(k, w, Run(c, w, more))
    decreases |more|
  {
    if more != [] {
      var n := |more| - 1;
      RunOnlyAfterDrop(c, p, k, w, more[..n]);
      RunKeepsInv(c, p, w, more[..n]);
      StepOnlyAfterDrop(c, p, k, w, Run(c, w, more[..n]), more[n]);
    }
  }

  lemma AfterRefusal(w: World, data: seq<byte>, good: bool, r: World)
    requires Outcome(w, data, good, r) && |r.log| == |w.log| && 1 <= w.jane.readCount
    requires OneUnderWay(w)
    ensures OnlyAfterDrop(w.jane.readCount - 1, r, r) && (w.jane.failed || w.jane.place.Waiting?)
  {
  }

  lemma RefusedIs(c: Config, p: Plan, r: World, w: World)
    requires Valid(c) && PoolsOk(c, p) && PlanOk(c, p) && Inv(c, p, r) && r.toThor != []
    requires w == Serve(c, r) && |w.log| == |r.log|
    ensures r.jane.readCount >= 1 && r.toThor[0].chunk == r.jane.readCount - 1 && w.jane == r.jane
    ensures OnlyAfterDrop(r.jane.readCount - 1, w, w) && (r.jane.failed || r.jane.place.Waiting?)
  {
    var data := ServeOutcome(c, p, r, w);
    AfterRefusal(r, data, c.md5(data) == c.md5(p.chunks[r.jane.readCount - 1].data), w);
  }

  lemma RefusedState(c: Config, p: Plan, r: World, w: World)
    requires Valid(c) && PoolsOk(c, p) && PlanOk(c, p) && Inv(c, p, r) && Refuses(c, r, ThorServes)
    requires w == Do(c, r, ThorServes)
    ensures r.jane.readCount >= 1 && r.toThor[0].chunk == r.jane.readCount - 1 && w.jane == r.jane
    ensures OnlyAfterDrop(r.jane.readCount - 1, w, w) && (r.jane.failed || r.jane.place.Waiting?)
    ensures Inv(c, p, w)
  {
    StepKeepsInv(c, p, r, ThorServes);
    DoServes(c, r);
    RefusedIs(c, p, r, w);
  }

  /** A chunk Thor has refused is written later only if the connection dropped before Jane went on
      from it: then she has read no further chunk. */
  lemma RefusedWrittenOnlyAfterDrop(c: Config, w: World, actions: seq<Action>, r: World, refused: World,
                                    more: seq<Action>, q: World)
    requires Valid(c) && Init(c, w) && r == Run(c, w, actions) && Refuses(c, r, ThorServes)
    requires refused == Do(c, r, ThorServes) && q == Run(c, refused, more)
    ensures Written(r.toThor[0].chunk, refused, q) ==>
              q.jane.failed && q.jane.readCount == r.jane.readCount == r.toThor[0].chunk + 1
  {
    var p := MakePlan(c);
    InitInv(c, p, w);
    RunKeepsInv(c, p, w, actions);
    RefusedState(c, p, r, refused);
    RunOnlyAfterDrop(c, p, r.jane.readCount - 1, refused, more);
  }

  lemma WritableFrom(c: Config, p: Plan, w: World, k: nat)
    requires Valid(c) && PoolsOk(c, p) && PlanOk(c, p) && Inv(c, p, w) && k < w.jane.readCount
    ensures Writable(c, k, w) <==>
            k == w.jane.readCount - 1 && (w.jane.failed || w.jane.place.Sending? || w.jane.place.Waiting?)
  {
    if k == w.jane.readCount - 1 && (w.jane.failed || w.jane.place.Sending? || w.jane.place.Waiting?) {
      match w.jane.place
      case Sending => WritableSendFails(c, p, w);
      case Waiting => WritableWaiting(c, p, w);
      case Connecting => WritableConnecting(c, p, w);
      case _ => WritableRefilling(c, p, w);
    } else {
      assert OneUnderWay(w);
      forall more ensures !Written(k, w, Run(c, w, more)) {
        RunPast(c, p, k, w, more);
      }
    }
  }

  lemma TakenIs(c: Config, p: Plan, w: World, r: World)
    requires Valid(c) && PoolsOk(c, p) && PlanOk(c, p) && Inv(c, p, w) && Enabled(w, GetReply)
    requires r == Do(c, w, GetReply)
    ensures Inv(c, p, r) && r.log == w.log && r.jane == w.jane.(place := Filling)
  {
    StepKeepsInv(c, p, w, GetReply);
    ReplyIs(c, p, w);
  }

  /** Right after the refusal it can be written still; once Jane has taken the refusal, on a
      connection that never dropped, it cannot. */
  lemma RefusalDecides(c: Config, w: World, actions: seq<Action>, r: World, refused: World, taken: World)
    requires Valid(c) && Init(c, w) && r == Run(c, w, actions) && Refuses(c, r, ThorServes)
    requires refused == Do(c, r, ThorServes) && taken == Do(c, refused, GetReply)
    ensures Writable(c, r.toThor[0].chunk, refused)
    ensures Enabled(refused, GetReply) && !r.jane.failed ==> !Writable(c, r.toThor[0].chunk, taken)
  {
    var p := MakePlan(c);
    InitInv(c, p, w);
    RunKeepsInv(c, p, w, actions);
    RefusedState(c, p, r, refused);
    WritableFrom(c, p, refused, r.jane.readCount - 1);
    if Enabled(refused, GetReply) {
      TakenIs(c, p, refused, taken);
      WritableFrom(c, p, taken, r.jane.readCount - 1);
    }
  }

  // ---------------------------------------------------------------- a run with a refusal

  /** Loki changes the first block while its descriptor is on the way. */
  function Changed(evil: seq<byte>): seq<Action> {
    [] + [Connect] + [Fill] + [Send] + [Tamper(evil)]
  }

  /** A block whose digest is another is refused: a run of the retry jane.c speaks of. The chunk
      can be written still, but once Jane has taken the refusal it is lost for good. */
  lemma FirstChunkLost(c: Config, w: World, evil: seq<byte>, r: World, refused: World, taken: World)
    requires Valid(c) && Init(c, w) && c.file != [] && |evil| == SegmentSize(c)
    requires r == Run(c, w, Changed(evil)) && refused == Do(c, r, ThorServes) && taken == Do(c, refused, GetReply)
    requires |Chunks(c)| > 0 ==> 1024 + |Chunks(c)[0]| <= |evil|
                                 && c.md5(evil[1024..1024 + |Chunks(c)[0]|]) != c.md5(Chunks(c)[0])
    ensures Refuses(c, r, ThorServes) && r.toThor[0].chunk == 0
    ensures refused.log == [] && Writable(c, 0, refused)
    ensures taken.log == [] && taken.jane.place.Filling? && !Writable(c, 0, taken)
  {
    var p := MakePlan(c);
    InitInv(c, p, w);
    RunFour(c, w, [], Connect, Fill, Send, Tamper(evil));
    ChangedLeadsTo(c, p, w, evil);
    RunKeepsInv(c, p, w, Changed(evil));
    FirstRefused(c, p, r, refused, taken);
  }

  lemma FirstRefused(c: Config, p: Plan, r: World, refused: World, taken: World)
    requires Valid(c) && PoolsOk(c, p) && PlanOk(c, p) && Inv(c, p, r) && FirstSent(r) && |p.chunks| > 0
    requires refused == Do(c, r, ThorServes) && taken == Do(c, refused, GetReply)
    requires 1024 + |p.chunks[0].data| <= |r.memory|
    requires c.md5(r.memory[1024..1024 + |p.chunks[0].data|]) != c.md5(p.chunks[0].data)
    ensures Refuses(c, r, ThorServes) && r.toThor[0].chunk == 0
    ensures refused.log == [] && Writable(c, 0, refused)
    ensures taken.log == [] && taken.jane.place.Filling? && !Writable(c, 0, taken)
  {
    DoServes(c, r);
    ServeChanged(c, p, r, refused);
    RefusedState(c, p, r, refused);
    WritableFrom(c, p, refused, 0);
    TakenIs(c, p, refused, taken);
    WritableFrom(c, p, taken, 0);
  }

  lemma ChangedLeadsTo(c: Config, p: Plan, w: World, evil: seq<byte>)
    requires Valid(c) && PoolsOk(c, p) && PlanOk(c, p) && Init(c, w) && Inv(c, p, w)
    requires c.file != [] && |evil| == SegmentSize(c)
    ensures var r := Do(c, Do(c, Do(c, Do(c, w, Connect), Fill), Send), Tamper(evil));
            |p.chunks| > 0 && FirstSent(r) && r.memory == evil
  {
    var r := FirstSteps(c, p, w);
    FirstDescriptor(c, p, r, evil);
  }

  /** The descriptor of the first chunk is the only thing under way. */
  ghost predicate FirstSent(w: World) {
    && w.jane.readCount == 1 && w.jane.place.Waiting? && !w.jane.failed && w.log == [] && w.toJane == []
    && |w.toThor| == 1 && w.toThor[0].conn == w.jane.conn && !w.thorStopped
  }

  lemma FirstDescriptor(c: Config, p: Plan, w: World, evil: seq<byte>)
    requires FirstReady(p, w) && |evil| == |w.memory|
    ensures var r := Do(c, Do(c, w, Send), Tamper(evil)); FirstSent(r) && r.memory == evil
  {
  }

  lemma ServeChanged(c: Config, p: Plan, w: World, r: World)
    requires Valid(c) && PlanOk(c, p) && Inv(c, p, w) && FirstSent(w) && |p.chunks| > 0 && r == Serve(c, w)
    requires 1024 + |p.chunks[0].data| <= |w.memory|
    requires c.md5(w.memory[1024..1024 + |p.chunks[0].data|]) != c.md5(p.chunks[0].data)
    ensures r.log == [] && r.jane == w.jane && w.toThor[0].chunk == 0
    ensures r.toJane != [] && r.toJane[0].conn == r.jane.conn
  {
    var data := ServeOutcome(c, p, w, r);
  }
}

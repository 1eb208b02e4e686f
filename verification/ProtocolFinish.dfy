/** Exactly when a transfer can still be completed. */
module ProtocolFinish {
  import opened CTypes
  import opened Protocol
  import opened ProtocolSafety
  import opened ProtocolDelivery

  /** Jane can reach the end of her program. */
  ghost predicate Finishable(c: Config, w: World) {
    exists more :: Run(c, w, more).jane.place.Done?
  }

  /** What can be read off the state, for a file of n chunks: no drop has been noticed; if Jane
      waits there is something on the way for her to get; and her connection leads to Thor, or she
      needs none any more. */
  predicate Alive(n: nat, w: World) {
    && !w.jane.failed
    && (w.jane.place.Waiting? ==> w.toThor != [] || w.toJane != [])
    && (w.jane.place.Connecting? || w.jane.conn > w.broken || NeedsNone(n, w))
  }

  // ---------------------------------------------------------------- whose frames are under way

  /** Until Jane notices a drop every frame under way is on her connection, and on its way to Thor
      only if that leads to him. */
  ghost predicate OnHerConnection(w: World) {
    !w.jane.failed ==>
      && (forall i :: 0 <= i < |w.toThor| ==> w.toThor[i].conn == w.jane.conn > w.broken)
      && (forall i :: 0 <= i < |w.toJane| ==> w.toJane[i].conn == w.jane.conn)
  }

  lemma OutcomeOnHers(w: World, data: seq<byte>, good: bool, r: World)
    requires OnHerConnection(w) && Outcome(w, data, good, r)
    ensures OnHerConnection(r)
  {
    forall i | 0 <= i < |r.toJane| && !w.jane.failed ensures r.toJane[i].conn == w.jane.conn {
      if i < |w.toJane| {
        assert r.toJane[i] == r.toJane[..|w.toJane|][i] == w.toJane[i];
      } else {
        assert w.toThor[0].conn == w.jane.conn;
      }
    }
  }

  lemma ConnectOnHers(c: Config, p: Plan, w: World)
    requires c.pattern != [] && Inv(c, p, w) && OnHerConnection(w) && w.jane.place.Connecting?
    ensures OnHerConnection(Do(c, w, Connect))
  {
    assert OneUnderWay(w);
  }

  lemma FillOnHers(c: Config, p: Plan, w: World)
    requires Valid(c) && PoolsOk(c, p) && PlanOk(c, p) && Inv(c, p, w) && OnHerConnection(w) && w.jane.place.Filling?
    ensures OnHerConnection(FillBlock(c, w))
  {
    FillIs(c, p, w);
  }

  lemma StepOnHers(c: Config, p: Plan, w: World, a: Action)
    requires Valid(c) && PoolsOk(c, p) && PlanOk(c, p) && Inv(c, p, w) && OnHerConnection(w)
    ensures OnHerConnection(Do(c, w, a))
  {
    if Enabled(w, a) {
      match a
      case Connect => ConnectOnHers(c, p, w);
      case Fill => FillOnHers(c, p, w);
      case GetReply => ReplyIs(c, p, w);
      case ThorServes =>
        DoServes(c, w);
        var data := ServeOutcome(c, p, w, Serve(c, w));
        OutcomeOnHers(w, data, c.md5(data) == c.md5(p.chunks[w.jane.readCount - 1].data), Serve(c, w));
      case _ =>
    }
  }

  lemma {:induction false} RunOnHers(c: Config, p: Plan, w: World, actions: seq<Action>)
    requires Valid(c) && PoolsOk(c, p) && PlanOk(c, p) && Inv(c, p, w) && OnHerConnection(w)
    ensures OnHerConnection(Run(c, w, actions))
    decreases |actions|
  {
    if actions != [] {
      var n := |actions| - 1;
      RunOnHers(c, p, w, actions[..n]);
      RunKeepsInv(c, p, w, actions[..n]);
      StepOnHers(c, p, Run(c, w, actions[..n]), actions[n]);
    }
  }

  // ---------------------------------------------------------------- how to finish

  lemma AliveIsSmooth(c: Config, p: Plan, w: World)
    requires c.pattern != [] && Inv(c, p, w) && OnHerConnection(w) && Alive(|p.chunks|, w)
    ensures Smooth(p, w)
  {
    assert OneUnderWay(w);
  }

  lemma NextStep(c: Config, p: Plan, w: World) returns (r: World)
    requires Valid(c) && PoolsOk(c, p) && PlanOk(c, p) && Inv(c, p, w) && Smooth(p, w) && !w.jane.place.Done?
    ensures r == Do(c, w, Next(w)) && FaultFree(Next(w)) && Inv(c, p, r) && Smooth(p, r)
    ensures 0 <= Left(p, r) == Left(p, w) - 1
  {
    NextEnabled(c, p, w);
    SmoothStep(c, p, w, Next(w));
    StepKeepsInv(c, p, w, Next(w));
    r := Do(c, w, Next(w));
    NextEnabled(c, p, r);
  }

  lemma FaultFreeCons(a: Action, rest: seq<Action>)
    requires FaultFree(a) && AllFaultFree(rest)
    ensures AllFaultFree([a] + rest)
  {
  }

  /** A run that meets no fault from here on gets there. */
  lemma {:induction false} SmoothFinishes(c: Config, p: Plan, w: World) returns (more: seq<Action>)
    requires Valid(c) && PoolsOk(c, p) && PlanOk(c, p) && Inv(c, p, w) && Smooth(p, w)
    ensures AllFaultFree(more) && |more| == Left(p, w) && Run(c, w, more).jane.place.Done?
    decreases Left(p, w)
  {
    if w.jane.place.Done? {
      NextEnabled(c, p, w);
      more := [];
    } else {
      var r := NextStep(c, p, w);
      var rest := SmoothFinishes(c, p, r);
      RunCons(c, w, Next(w), rest);
      FaultFreeCons(Next(w), rest);
      more := [Next(w)] + rest;
    }
  }

  // ---------------------------------------------------------------- how it stays unfinished

  /** Not alive, with no drop noticed yet. */
  ghost predicate Unnoticed(p: Plan, w: World) {
    !w.jane.failed && !Alive(|p.chunks|, w)
  }

  lemma FillUnnoticed(c: Config, p: Plan, w: World)
    requires Valid(c) && PoolsOk(c, p) && PlanOk(c, p) && Inv(c, p, w) && Unnoticed(p, w) && w.jane.place.Filling?
    ensures !Alive(|p.chunks|, FillBlock(c, w))
  {
    FillIs(c, p, w);
  }

  /** What Thor holds unread keeps a transfer alive. */
  lemma NothingUnread(c: Config, p: Plan, w: World)
    requires c.pattern != [] && Inv(c, p, w) && OnHerConnection(w) && Unnoticed(p, w)
    ensures w.toThor == []
  {
    assert OneUnderWay(w);
    UnreadLeadsSomewhere(w);
  }

  lemma UnreadLeadsSomewhere(w: World)
    requires OnHerConnection(w) && !w.jane.failed
    ensures w.toThor != [] ==> w.jane.conn > w.broken
  {
    if w.toThor != [] {
      assert w.toThor[0].conn == w.jane.conn > w.broken;
    }
  }

  lemma OtherUnnoticed(c: Config, p: Plan, w: World, a: Action)
    requires c.pattern != [] && Inv(c, p, w) && OnHerConnection(w) && Unnoticed(p, w)
    requires Enabled(w, a) && !a.Fill? && !a.GetReply?
    ensures !Alive(|p.chunks|, Do(c, w, a))
  {
    NothingUnread(c, p, w);
    assert OneUnderWay(w);
    match a
    case Send =>
    case SendFails(_) =>
    case LoseReply(_) =>
    case _ =>
  }

  lemma StepStaysDead(c: Config, p: Plan, w: World, a: Action)
    requires Valid(c) && PoolsOk(c, p) && PlanOk(c, p) && Inv(c, p, w) && OnHerConnection(w)
    requires !Alive(|p.chunks|, w)
    ensures !Alive(|p.chunks|, Do(c, w, a))
  {
    if w.jane.failed {
      StepKeepsFailed(c, p, w, a);
    } else if Enabled(w, a) {
      match a
      case Fill => FillUnnoticed(c, p, w);
      case GetReply => ReplyIs(c, p, w);
      case _ => OtherUnnoticed(c, p, w, a);
    }
  }

  lemma {:induction false} RunStaysDead(c: Config, p: Plan, w: World, more: seq<Action>)
    requires Valid(c) && PoolsOk(c, p) && PlanOk(c, p) && Inv(c, p, w) && OnHerConnection(w)
    requires !Alive(|p.chunks|, w)
    ensures !Alive(|p.chunks|, Run(c, w, more)) && Inv(c, p, Run(c, w, more))
    decreases |more|
  {
    RunKeepsInv(c, p, w, more);
    if more != [] {
      var n := |more| - 1;
      RunStaysDead(c, p, w, more[..n]);
      RunOnHers(c, p, w, more[..n]);
      StepStaysDead(c, p, Run(c, w, more[..n]), more[n]);
    }
  }

  lemma DoneIsAlive(c: Config, p: Plan, w: World)
    requires c.pattern != [] && Inv(c, p, w) && w.jane.place.Done?
    ensures Alive(|p.chunks|, w)
  {
  }

  lemma DeadNeverDone(c: Config, p: Plan, w: World, more: seq<Action>)
    requires Valid(c) && PoolsOk(c, p) && PlanOk(c, p) && Inv(c, p, w) && OnHerConnection(w)
    requires !Alive(|p.chunks|, w)
    ensures !Run(c, w, more).jane.place.Done?
  {
    RunStaysDead(c, p, w, more);
    if Run(c, w, more).jane.place.Done? {
      DoneIsAlive(c, p, Run(c, w, more));
    }
  }

  /** Exactly when the remaining data can still be sent and the transfer completed, in every
      reachable state. */
  lemma FinishableIff(c: Config, w: World, actions: seq<Action>, r: World)
    requires Valid(c) && Init(c, w) && r == Run(c, w, actions)
    ensures Finishable(c, r) <==> Alive(|Chunks(c)|, r)
  {
    var p := MakePlan(c);
    InitInv(c, p, w);
    RunKeepsInv(c, p, w, actions);
    RunOnHers(c, p, w, actions);
    if Alive(|p.chunks|, r) {
      AliveIsSmooth(c, p, r);
      var more := SmoothFinishes(c, p, r);
    } else {
      forall more ensures !Run(c, r, more).jane.place.Done? {
        DeadNeverDone(c, p, r, more);
      }
    }
  }

  /** The case the README speaks of: Thor dies while he holds a descriptor and comes back. Jane has
      noticed no drop, and never finishes all the same. */
  lemma ThorDiesOnce(c: Config, w: World, r: World)
    requires Valid(c) && Init(c, w) && c.file != []
    requires r == Run(c, w, [] + [Connect] + [Fill] + [Send] + [ThorRestarts])
    ensures !r.jane.failed && r.jane.place.Waiting? && !Finishable(c, r)
  {
    var p := MakePlan(c);
    InitInv(c, p, w);
    RunFour(c, w, [], Connect, Fill, Send, ThorRestarts);
    var w2 := FirstSteps(c, p, w);
    SentAndLost(c, w2);
    FinishableIff(c, w, [] + [Connect] + [Fill] + [Send] + [ThorRestarts], r);
  }

  lemma SentAndLost(c: Config, w: World)
    requires w.jane.place.Sending? && w.toJane == []
    ensures var r := Do(c, Do(c, w, Send), ThorRestarts);
            r.jane == w.jane.(place := Waiting) && r.toThor == [] && r.toJane == []
  {
  }
}

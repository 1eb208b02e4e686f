/** What each step does to any state at all, reachable or not, and that every step which can happen
    in the system can happen in the model. */
module ProtocolSteps {
  import opened CTypes
  import opened Util
  import opened Descriptors
  import opened Substring
  import opened SlotPools
  import SlotRuns
  import opened Protocol

  /** Every configuration the two programs can be started with, over any segment, is one the
      theorems speak of. */
  lemma EveryConfiguration(c: Config, memory: seq<byte>)
    requires 2 <= c.buffers <= 102399 && 1 <= c.useBuffers <= c.buffers && c.pattern != []
    requires |memory| == (c.buffers + 1) * 1024
    ensures Valid(c)
    ensures Init(c, World(Jane(Connecting, false, None, SlotRuns.Fresh(c.buffers), 0, "", 0, 0, 0),
                          memory, [], [], [], START, 0, 0, false))
  {
  }

  /** Jane's reading of a reply: a reply that equals the digest clears `failed`; nothing else does,
      and nothing sets it. */
  lemma ReplyTaken(c: Config, w: World)
    requires w.jane.place.Waiting? && w.toJane != [] && w.toJane[0].conn == w.jane.conn
    ensures var r := Do(c, w, GetReply);
            && r == w.(toJane := w.toJane[1..], jane := r.jane)
            && r.jane == w.jane.(place := Filling, failed := r.jane.failed)
            && (r.jane.failed <==> w.jane.failed && w.toJane[0].payload != w.jane.md5)
  {
    var a := GetReply;
    assert Enabled(w, a);
    match a
    case GetReply =>
  }

  /** What Jane sends: number 1, the offset of her block, the length and the digest of the last
      read, in decimal, between commas. On a connection that leads nowhere it is lost. */
  lemma DescriptorSent(c: Config, w: World, off: int, a: string, b: string)
    requires w.jane.place.Sending? && w.jane.block == Some(off)
    requires Decimal(a) && Atoi(a) == off && Decimal(b) && Atoi(b) == w.jane.llen
    ensures var r := Do(c, w, Send);
            && r == w.(toThor := r.toThor, jane := w.jane.(place := Waiting))
            && (w.jane.conn <= w.broken ==> r.toThor == w.toThor)
            && (w.jane.conn > w.broken ==>
                  |r.toThor| == |w.toThor| + 1 && r.toThor[..|w.toThor|] == w.toThor
                  && r.toThor[|w.toThor|].payload == "1," + a + "," + b + "," + w.jane.md5
                  && r.toThor[|w.toThor|].conn == w.jane.conn)
  {
    DescriptorText(1, off, w.jane.llen, w.jane.md5, "1", a, b);
    assert "1" + "," == "1,";
    SendIs(c, w);
  }

  lemma SendIs(c: Config, w: World)
    requires w.jane.place.Sending?
    ensures Do(c, w, Send) == SendPacket(w)
  {
    var a := Send;
    assert Enabled(w, a);
    match a
    case Send =>
  }

  /** What Thor does with a descriptor he can read, for bytes of the segment: the digest alone
      decides. If it is the one announced he writes the bytes, searches them and answers with the
      whole payload; if not he writes nothing and answers with the refusal. */
  lemma DescriptorServed(c: Config, w: World, num: int, off: nat, len: nat, md5: string, r: World)
    requires w.toThor != [] && Parse(w.toThor[0].payload) == Parsed(num, off, len, md5) && r == Serve(c, w)
    requires off + len <= |w.memory| && w.scanner.state < |c.pattern|
    ensures r.jane == w.jane && r.memory == w.memory && r.toThor == w.toThor[1..] && r.thorStopped == w.thorStopped
    ensures var data := w.memory[off..off + len];
            if Hex(c.md5(data)) == md5 then
              && r.log == w.log + [Append(w.toThor[0].chunk, data)]
              && r.scanner == (if c.doSearch then Scan(c.pattern, w.scanner, data) else w.scanner)
              && r.toJane == w.toJane + [Reply(w.toThor[0].conn, w.toThor[0].payload)]
            else
              && r.log == w.log && r.scanner == w.scanner
              && r.toJane == w.toJane + [Reply(w.toThor[0].conn, "--------->loki has changed message.<------")]
  {
    ServeParsed(c, w, num, off, len, md5);
  }

  lemma ServeParsed(c: Config, w: World, num: int, off: nat, len: nat, md5: string)
    requires w.toThor != [] && Parse(w.toThor[0].payload) == Parsed(num, off, len, md5)
    ensures Serve(c, w) == ServeBlock(c, w, off, len, md5)
  {
  }

  /** Which faults can happen in a state: a send can fail before or after its bytes have left, a
      reply can fail to come, anything under way can be lost, Thor can die, and Loki can write what
      he likes to the segment. */
  lemma FaultsCanHappen(w: World, i: nat, mem: seq<byte>)
    ensures Enabled(w, SendFails(true)) <==> w.jane.place.Sending?
    ensures Enabled(w, SendFails(false)) <==> w.jane.place.Sending?
    ensures Enabled(w, ReplyFails) <==> w.jane.place.Waiting?
    ensures Enabled(w, LosePacket(i)) <==> i < |w.toThor|
    ensures Enabled(w, LoseReply(i)) <==> i < |w.toJane|
    ensures Enabled(w, ThorRestarts)
    ensures Enabled(w, Tamper(mem)) <==> |mem| == |w.memory|
  {
  }

  /** A drop sets `failed` and sends Jane back to connecting, with her descriptor sent or not. */
  lemma DropIs(c: Config, w: World, sent: bool)
    requires w.jane.place.Sending?
    ensures var r := Do(c, w, SendFails(sent));
            && r == w.(toThor := r.toThor, jane := w.jane.(place := Connecting, failed := true))
            && r.toThor == if sent then Do(c, w, Send).toThor else w.toThor
  {
    SendIs(c, w);
    var a := SendFails(sent);
    assert Enabled(w, a);
    match a
    case SendFails(_) =>
  }

  lemma NoReplyIs(c: Config, w: World)
    requires w.jane.place.Waiting?
    ensures Do(c, w, ReplyFails) == w.(jane := w.jane.(place := Connecting, failed := true))
  {
    var a := ReplyFails;
    assert Enabled(w, a);
    match a
    case ReplyFails =>
  }

  /** A lost frame is gone and the others stay; Loki's bytes replace the segment's and touch nothing
      else. */
  lemma LossIs(c: Config, w: World, i: nat, mem: seq<byte>)
    ensures i < |w.toThor| ==> Do(c, w, LosePacket(i)) == w.(toThor := w.toThor[..i] + w.toThor[i + 1..])
    ensures i < |w.toJane| ==> Do(c, w, LoseReply(i)) == w.(toJane := w.toJane[..i] + w.toJane[i + 1..])
    ensures |mem| == |w.memory| ==> Do(c, w, Tamper(mem)) == w.(memory := mem)
  {
  }

  /** Thor's death: his file stays; what he has not read, his search and every connection made so
      far are gone. */
  lemma DeathIs(c: Config, w: World)
    ensures Do(c, w, ThorRestarts) ==
            w.(toThor := [], scanner := Context(0, [], 0, false), since := |w.log|, broken := w.jane.conn,
               thorStopped := false)
  {
  }

  /** Before every read Jane frees her block, if she has one, and allocates as much again. */
  lemma BlockChanged(c: Config, j: Jane, freed: Pools, a: Allocation)
    requires 1 <= c.useBuffers <= |j.pools.free| == |j.pools.busy| && |freed.free| == |freed.busy| == |j.pools.free|
    requires if j.block.None? then freed == j.pools else Dealloc(j.pools, c.useBuffers, j.block.value) == Some(freed)
    requires a == Alloc(freed, c.useBuffers) && a.offset.Some?
    ensures Reallocate(c, j) == Some(a)
  {
  }

  /** The head of the inner loop, once the block is allocated at off: after a drop the old chunk is
      kept for resending; at the end of the file the loop ends; otherwise one read of all but one
      byte of the block, or what is left, a terminator, and the digest of what was read. */
  lemma BlockFilled(c: Config, w: World, off: nat, pools: Pools, n: nat, r: World)
    requires 1 <= c.useBuffers <= |w.jane.pools.free| == |w.jane.pools.busy| && w.jane.pos <= |c.file|
    requires Reallocate(c, w.jane) == Some(Allocation(Some(off), pools)) && r == FillBlock(c, w)
    requires n == (if |c.file| - w.jane.pos < c.useBuffers * 1024 - 1 then |c.file| - w.jane.pos
                   else c.useBuffers * 1024 - 1)
    requires off + n + 1 <= |w.memory|
    ensures r.jane.block == Some(off) && r.jane.pools == pools && r.jane.failed == w.jane.failed
    ensures r.toThor == w.toThor && r.toJane == w.toJane && r.log == w.log && |r.memory| == |w.memory|
    ensures w.jane.failed || n == 0 ==>
              r.memory == w.memory && r.jane.pos == w.jane.pos && r.jane.md5 == w.jane.md5 && r.jane.llen == w.jane.llen
    ensures r.jane.place == if w.jane.failed || n > 0 then Sending else Closing
    ensures !w.jane.failed && n > 0 ==>
              && r.jane.pos == w.jane.pos + n && r.jane.llen == n
              && r.memory[off..off + n] == c.file[w.jane.pos..w.jane.pos + n] && r.memory[off + n] == 0
              && (forall k :: 0 <= k < off || off + n < k < |w.memory| ==> r.memory[k] == w.memory[k])
              && r.jane.md5 == Hex(c.md5(c.file[w.jane.pos..w.jane.pos + n]))
  {
    assert r == ReadInto(c, w, off, pools);
  }

  /** A new connection changes nothing but itself, and closing nothing at all. */
  lemma ConnectIs(c: Config, w: World)
    ensures w.jane.place.Connecting? ==>
              Do(c, w, Connect) == w.(jane := w.jane.(place := Filling, conn := w.jane.conn + 1))
    ensures w.jane.place.Closing? ==> Do(c, w, Close) == w.(jane := w.jane.(place := Done))
  {
  }
}

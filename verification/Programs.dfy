/** jane.c: filling the shared block, in place. */
module JaneProgram {
  import opened CTypes
  import opened CStrings
  import opened Util
  import opened Descriptors
  import opened Frames
  import opened SlotPools
  import SlotRuns
  import opened Asgard
  import opened Protocol

  class Client {
    const allocator: Allocator
    var failed: bool
    var shmBuffer: Option<cint>
    var pos: nat
    var md5: string
    var llen: nat

    constructor (buffers: cint)
      requires 1 <= buffers && buffers * 1024 + 1024 <= INT_MAX
      ensures allocator.Valid() && allocator.members == buffers
      ensures fresh(allocator) && fresh(allocator.freePool) && fresh(allocator.busyPool)
      ensures Reflects(Jane(Connecting, false, None, SlotRuns.Fresh(buffers), 0, "", 0, 0, 0))
    {
      allocator := new Allocator(buffers);
      failed := false;
      shmBuffer := None;
      pos := 0;
      md5 := "";
      llen := 0;
    }

    /** The object's fields are those of j. */
    ghost predicate Reflects(j: Jane)
      reads this, allocator, allocator.freePool, allocator.busyPool
    {
      && failed == j.failed && shmBuffer == j.block && pos == j.pos && md5 == j.md5 && llen == j.llen
      && allocator.Contents() == j.pools
    }

    /** read_input_file: false at the end of the file; otherwise the bytes read and a terminator
        stand at `buffer`. */
    method ReadInputFile(file: seq<byte>, useBuffers: cint, memory: array<byte>, buffer: cint) returns (more: bool)
      requires pos <= |file| && 1 <= useBuffers <= 102399
      requires var n := Min(useBuffers * 1024 - 1, |file| - pos);
               n > 0 ==> 0 <= buffer && buffer + n + 1 <= memory.Length
      modifies memory, this`pos, this`llen
      ensures var n := Min(useBuffers * 1024 - 1, |file| - old(pos));
              more == (n > 0) && pos == old(pos) + n && llen == (if more then n else old(llen))
      ensures memory[..] == if more then Stored(old(memory[..]), buffer, file[old(pos)..pos]) else old(memory[..])
    {
      var newLen := 0;
      ghost var was, p0 := memory[..], pos;
      var wanted := useBuffers * 1024 - 1;
      while newLen < wanted && pos < |file|
        invariant 0 <= newLen <= wanted && p0 + newLen == pos <= |file|
        invariant llen == old(llen)
        invariant forall k :: 0 <= k < memory.Length ==>
                    memory[k] == if buffer <= k < buffer + newLen then file[p0 + k - buffer] else was[k]
        decreases wanted - newLen
      {
        memory[buffer + newLen] := file[pos];
        newLen := newLen + 1;
        pos := pos + 1;
      }
      if newLen == 0 {
        return false;
      }
      llen := newLen;
      memory[buffer + newLen] := 0;
      assert memory[..] == Stored(was, buffer, file[p0..pos]);
      return true;
    }

    /** shm_dealloc of the old block, if any, and shm_alloc of the next. */
    method NextBlock(c: Config, ghost j: Jane)
      requires Valid(c) && allocator.Valid() && allocator.members == c.buffers && Reflects(j)
      requires Reallocate(c, j).Some?
      modifies this`shmBuffer, allocator.freePool, allocator.busyPool
      ensures allocator.Valid()
      ensures shmBuffer.Some? && Reallocate(c, j) == Some(Allocation(shmBuffer, allocator.Contents()))
    {
      var k: cint := c.useBuffers;
      if shmBuffer.Some? {
        var ok := allocator.ShmDealloc(k, shmBuffer.value);
        assert ok;
        shmBuffer := None;
      }
      shmBuffer := allocator.ShmAlloc(k);
    }

    /** The inner loop of client_loop down to the send: what FillBlock says, done to the fields,
        the pools and the segment. That no assertion fails and no access is wild in a reachable
        state is ProtocolSafety.NothingStops. */
    method Fill(c: Config, memory: array<byte>, ghost w: World) returns (place: Place)
      requires Valid(c) && allocator.Valid() && allocator.members == c.buffers
      requires Reflects(w.jane) && memory[..] == w.memory && pos <= |c.file|
      requires memory as object != allocator.freePool && memory as object != allocator.busyPool
      requires !FillBlock(c, w).jane.place.Crashed? && !w.jane.place.Crashed?
      modifies this, memory, allocator.freePool, allocator.busyPool
      ensures allocator.Valid() && pos <= |c.file|
      ensures var r := FillBlock(c, w); Reflects(r.jane) && memory[..] == r.memory && place == r.jane.place
    {
      NextBlock(c, w.jane);
      ghost var pools := allocator.Contents();
      ReadIntoIs(c, w, shmBuffer.value, pools);
      place := ReadAndHash(c, memory, w, pools, FillBlock(c, w));
    }

    /** The part of it after the allocation, which leads to r. */
    method ReadAndHash(c: Config, memory: array<byte>, ghost w: World, ghost pools: Pools, ghost r: World)
      returns (place: Place)
      requires 1 <= c.useBuffers <= 102399 && shmBuffer.Some? && pos <= |c.file|
      requires Reflects(w.jane.(block := shmBuffer, pools := pools)) && memory[..] == w.memory
      requires memory as object != allocator.freePool && memory as object != allocator.busyPool
      requires ReadsTo(c, w, shmBuffer.value, pools, r)
      modifies this`pos, this`llen, this`md5, memory
      ensures pos <= |c.file|
      ensures Reflects(r.jane) && memory[..] == r.memory && place == r.jane.place
    {
      if failed {
        return Sending;
      }
      var more := ReadAhead(c, memory, shmBuffer.value);
      return if more then Sending else Closing;
    }

    /** The read, and the hash if there was anything to read. */
    method ReadAhead(c: Config, memory: array<byte>, off: cint) returns (more: bool)
      requires 1 <= c.useBuffers <= 102399 && pos <= |c.file|
      requires var n := Min(c.useBuffers * 1024 - 1, |c.file| - pos); n > 0 ==> 0 <= off && off + n + 1 <= memory.Length
      modifies this`pos, this`llen, this`md5, memory
      ensures var n := Min(c.useBuffers * 1024 - 1, |c.file| - old(pos));
              more == (n > 0) && pos == old(pos) + n && llen == (if more then n else old(llen))
      ensures more ==> memory[..] == Stored(old(memory[..]), off, c.file[old(pos)..pos])
      ensures more ==> md5 == Hex(c.md5(memory[..][off..off + llen]))
      ensures !more ==> memory[..] == old(memory[..]) && md5 == old(md5)
    {
      more := ReadInputFile(c.file, c.useBuffers, memory, off);
      if more {
        md5 := HashOf(c, memory, off, llen);
      }
    }

    /** readable_hash of len bytes of the segment */
    static method HashOf(c: Config, memory: array<byte>, off: cint, len: nat) returns (text: string)
      requires 0 <= off && off + len <= memory.Length
      ensures text == Hex(c.md5(memory[..][off..off + len]))
    {
      var d := new char[BIG_ENOUGH](_ => NUL);
      ReadableHash(c.md5, memory[off..off + len], d, BIG_ENOUGH - 1);
      assert memory[off..off + len] == memory[..][off..off + len];
      text := CStr(d[..]);
    }

    /** client_socket_send, called with number 1, the block's offset and no acknowledgement: the
        frame of the payload Send puts under way. */
    method ClientSocketSend(ghost j: Jane) returns (frame: string)
      requires Reflects(j) && shmBuffer.Some?
      ensures frame == Frame(Descriptor(j).payload)
      ensures frame == "<CEEEFACE>" + "1" + "," + PrintInt(shmBuffer.value) + "," + PrintInt(llen) + "," + md5
                       + "<DEADBEEF>"
    {
      frame := START_MARKER + PrintInt(1) + "," + PrintInt(shmBuffer.value) + "," + PrintInt(llen) + "," + md5
               + END_MARKER;
      FieldsJoin(PrintInt(1), PrintInt(shmBuffer.value), PrintInt(llen), md5);
    }

    /** What client_loop does when a send or a receive fails. */
    method Fail()
      modifies this`failed
      ensures failed
    {
      failed := true;
    }

    /** What client_loop does with a reply. */
    method TakeReply(reply: string)
      modifies this`failed
      ensures failed == (old(failed) && reply != md5)
    {
      if reply == md5 {
        failed := false;
      }
    }
  }

  lemma FieldsJoin(num: string, off: string, len: string, md5: string)
    ensures START_MARKER + num + "," + off + "," + len + "," + md5 + END_MARKER
         == Frame(num + "," + (off + "," + (len + "," + md5)))
  {
  }

  /** What ReadInto leads to, by cases. */
  ghost predicate ReadsTo(c: Config, w: World, off: int, pools: Pools, r: World) {
    var n := Min(ChunkSize(c), |c.file| - w.jane.pos);
    var j := w.jane.(block := Some(off), pools := pools);
    if w.jane.failed then r == w.(jane := j.(place := Sending))
    else if n <= 0 then r == w.(jane := j.(place := Closing))
    else
      && 0 <= off && off + n + 1 <= |w.memory|
      && r.memory == Stored(w.memory, off, c.file[j.pos..j.pos + n])
      && r.jane == j.(place := Sending, pos := j.pos + n, llen := n, readCount := j.readCount + 1,
                      md5 := Hex(c.md5(r.memory[off..off + n])))
  }

  lemma ReadIntoIs(c: Config, w: World, off: int, pools: Pools)
    requires !ReadInto(c, w, off, pools).jane.place.Crashed?
    ensures ReadsTo(c, w, off, pools, ReadInto(c, w, off, pools))
  {
  }
}

/** thor.c: answering a descriptor, in place. */
module ThorProgram {
  import opened CTypes
  import opened CStrings
  import opened Util
  import opened Descriptors
  import opened Frames
  import opened Substring
  import opened Protocol

  class Server {
    const scanner: Scanner
    const doSearch: bool
    var output: seq<byte>

    /** The output file is opened to append: what is in it stays. */
    constructor (pattern: seq<byte>, doSearch: bool, output: seq<byte>)
      requires 0 < |pattern| <= INT_MAX
      ensures scanner.Valid() && scanner.pattern[..] == pattern && this.doSearch == doSearch && this.output == output
      ensures scanner.Model() == START
      ensures fresh(scanner) && fresh(scanner.locations) && fresh(scanner.pattern)
    {
      scanner := new Scanner(pattern);
      this.doSearch := doSearch;
      this.output := output;
    }

    /** The check of the block and what follows it. */
    method Answer(md5: seq<byte> -> Digest, data: seq<byte>, digest: string, payload: string) returns (reply: string)
      requires scanner.Valid() && scanner.total + |data| <= LLONG_MAX && NUL !in digest
      modifies this, scanner, scanner.locations
      ensures scanner.Valid()
      ensures var good := Hex(md5(data)) == digest;
              && output == (if good then old(output) + data else old(output))
              && scanner.Model() == (if good && doSearch then Scan(scanner.pattern[..], old(scanner.Model()), data)
                                     else old(scanner.Model()))
              && reply == "<CEEEFACE>" + (if good then payload else "--------->loki has changed message.<------")
                          + "<DEADBEEF>"
    {
      CStrIs(digest, digest);
      var intact := DoesStringIntact(md5, data, digest);
      if intact {
        reply := START_MARKER + payload + END_MARKER;
        output := output + data;
        if doSearch {
          scanner.Compute(data);
        }
      } else {
        reply := START_MARKER + LOKI_MESSAGE + END_MARKER;
      }
    }

    /** server_socket_send: what Serve says, done to the output file and the scanner; the reply
        is the frame of the reply Serve puts under way. `stopped` is a failed assertion of
        parse_data. */
    method ServerSocketSend(c: Config, input: array<char>, memory: array<byte>, ghost w: World)
      returns (reply: string, stopped: bool)
      requires Reflects(c, w) && w.memory == memory[..] && w.scanner.total + memory.Length <= LLONG_MAX
      requires |CStr(input[..])| < input.Length
      requires w.toThor != [] && w.toThor[0].payload == CStr(input[..]) && !w.thorStopped
      requires Parse(CStr(input[..])).Parsed? ==> !Serve(c, w).thorStopped
      modifies this, scanner, scanner.locations
      ensures Reflects(c, Serve(c, w)) && stopped == Serve(c, w).thorStopped
      ensures !stopped ==> IsReply(reply, w, Serve(c, w))
    {
      var r := ParseData(input);
      if r.Stopped? {
        return "", true;
      }
      DigestTextHasNoNul(CStr(input[..]));
      assert Serve(c, w) == ServeBlock(c, w, r.offset, r.len, r.md5);
      reply := ServeData(c, CStr(input[..]), r.offset, r.len, r.md5, memory, w);
      stopped := false;
    }

    /** The output file and the scanner are as w says. */
    ghost predicate Reflects(c: Config, w: World)
      reads this, scanner, scanner.locations, scanner.pattern
    {
      match w
      case World(_, _, _, _, log, context, _, _, _) =>
        && scanner.Valid() && scanner.pattern[..] == c.pattern && doSearch == c.doSearch
        && output == Output(log) && scanner.Model() == context
    }

    /** The part of it after parse_data. */
    method ServeData(c: Config, payload: string, offset: int, len: int, md5: string, memory: array<byte>, ghost w: World)
      returns (reply: string)
      requires Reflects(c, w) && w.memory == memory[..] && w.scanner.total + memory.Length <= LLONG_MAX
      requires w.toThor != [] && w.toThor[0].payload == payload && NUL !in md5 && !w.thorStopped
      requires !ServeBlock(c, w, offset, len, md5).thorStopped
      modifies this, scanner, scanner.locations
      ensures Reflects(c, ServeBlock(c, w, offset, len, md5))
      ensures IsReply(reply, w, ServeBlock(c, w, offset, len, md5))
    {
      var data := memory[offset..offset + len];
      assert data == w.memory[offset..offset + len];
      OutputSnoc(w.log, Append(w.toThor[0].chunk, data));
      reply := Answer(c.md5, data, md5, payload);
    }
  }

  /** The frame of the reply that the step from w to r put under way. */
  ghost predicate IsReply(reply: string, w: World, r: World) {
    |r.toJane| == |w.toJane| + 1 && reply == Frame(r.toJane[|w.toJane|].payload)
  }

  /** What parse_data copies out of a string is part of that string. */
  lemma DigestTextHasNoNul(s: string)
    requires NUL !in s && Parse(s).Parsed?
    ensures NUL !in Parse(s).md5
  {
  }
}

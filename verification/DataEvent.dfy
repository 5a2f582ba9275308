/**
 Data events: large buffers and strings are posted in chunks (bpf/process/data_event.h) that user
 space puts together again and checks against a descriptor (pkg/observer/data.go).
 Offsets count from the start of the source; `mem` gives its bytes.
 */
module DataEvent {
  import opened Common

  type Byte = x: int | 0 <= x < 256

  type Memory = nat -> Byte

  /** The helpers' results for one chunk; a negative one is an error. */
  datatype Chunk = Chunk(readErr: int, outErr: int)

  datatype Sent = Sent(payloads: seq<seq<Byte>>, ret: int)

  const ARG_LEN: nat := 32736
  const MAX_CHUNKS: nat := 10
  const MAX_BYTES: nat := 10 * 32736

  function Slice(mem: Memory, from: nat, n: nat): (r: seq<Byte>)
    ensures |r| == n && forall i :: 0 <= i < n ==> r[i] == mem(from + i)
  {
    seq(n, i requires 0 <= i < n => mem(from + i))
  }

  function Concat(ps: seq<seq<Byte>>): seq<Byte>
  {
    if ps == [] then [] else ps[0] + Concat(ps[1..])
  }

  function Min(a: nat, b: nat): nat
  {
    if a < b then a else b
  }

  lemma SliceJoins(mem: Memory, from: nat, m: nat, n: nat)
    ensures Slice(mem, from, m) + Slice(mem, from + m, n) == Slice(mem, from, m + n)
  {
  }

  // ---------------------------------------------------------------- raw bytes

  /** do_bytes from chunk `i` on, with `rd` bytes posted. */
  function SendBytes(mem: Memory, size: nat, env: nat -> Chunk, rd: nat, i: nat): Sent
    requires rd <= size
    decreases size - rd
  {
    if i >= MAX_CHUNKS then Sent([], rd)
    else
      var n := Min(size - rd, ARG_LEN);
      if env(i).readErr < 0 then Sent([], env(i).readErr)
      else if env(i).outErr < 0 then Sent([], env(i).outErr)
      else if rd + n == size then Sent([Slice(mem, rd, n)], size)
      else
        var rest := SendBytes(mem, size, env, rd + n, i + 1);
        Sent([Slice(mem, rd, n)] + rest.payloads, rest.ret)
  }

  ghost predicate Healthy(env: nat -> Chunk)
  {
    forall i :: env(i).readErr >= 0 && env(i).outErr >= 0
  }

  /** What remains to be posted from `rd` on, with `MAX_CHUNKS - i` chunks left. */
  function Rest(size: nat, rd: nat, i: nat): nat
    requires rd <= size && i <= MAX_CHUNKS
  {
    Min(size - rd, (MAX_CHUNKS - i) * ARG_LEN)
  }

  lemma ConcatCons(p: seq<Byte>, ps: seq<seq<Byte>>)
    ensures Concat([p] + ps) == p + Concat(ps)
  {
    assert ([p] + ps)[1..] == ps;
  }

  /** The payloads continue the source from `rd` on. */
  lemma {:induction false} SendBytesContent(mem: Memory, size: nat, env: nat -> Chunk, rd: nat, i: nat)
    requires rd <= size && i <= MAX_CHUNKS
    ensures var s := SendBytes(mem, size, env, rd, i);
            && Concat(s.payloads) == Slice(mem, rd, |Concat(s.payloads)|)
            && |Concat(s.payloads)| <= Rest(size, rd, i)
            && (s.payloads != [] ==> size == rd || |Concat(s.payloads)| > 0)
    decreases MAX_CHUNKS - i
  {
    if i < MAX_CHUNKS && env(i).readErr >= 0 && env(i).outErr >= 0 {
      var n := Min(size - rd, ARG_LEN);
      var first := Slice(mem, rd, n);
      if rd + n == size {
        ConcatCons(first, []);
        assert [first] + [] == [first];
      } else {
        SendBytesContent(mem, size, env, rd + n, i + 1);
        var rest := SendBytes(mem, size, env, rd + n, i + 1);
        ConcatCons(first, rest.payloads);
        SliceJoins(mem, rd, n, |Concat(rest.payloads)|);
      }
    }
  }

  /** Success means that all there is, or all that ten chunks hold, was posted. */
  lemma {:induction false} SendBytesFrom(mem: Memory, size: nat, env: nat -> Chunk, rd: nat, i: nat)
    requires rd <= size && i <= MAX_CHUNKS
    ensures var s := SendBytes(mem, size, env, rd, i);
            && (s.ret >= 0 ==> s.ret == rd + |Concat(s.payloads)| == rd + Rest(size, rd, i))
            && (s.ret >= 0 && i < MAX_CHUNKS ==> s.payloads != [])
            && (Healthy(env) ==> s.ret >= 0)
    decreases MAX_CHUNKS - i
  {
    if i < MAX_CHUNKS && env(i).readErr >= 0 && env(i).outErr >= 0 {
      var n := Min(size - rd, ARG_LEN);
      var first := Slice(mem, rd, n);
      if rd + n == size {
        ConcatCons(first, []);
        assert [first] + [] == [first];
      } else {
        SendBytesFrom(mem, size, env, rd + n, i + 1);
        ConcatCons(first, SendBytes(mem, size, env, rd + n, i + 1).payloads);
      }
    }
  }

  /**
   The payloads posted by do_bytes, put together, are the first bytes of the source, with none lost
   or repeated between chunks: min(size, 10 * 32736) of them when no helper fails.
   */
  lemma BytesReassembled(mem: Memory, size: nat, env: nat -> Chunk)
    ensures var s := SendBytes(mem, size, env, 0, 0);
            && Concat(s.payloads) == Slice(mem, 0, |Concat(s.payloads)|)
            && (s.ret >= 0 ==> s.ret == |Concat(s.payloads)| == Min(size, MAX_BYTES) && s.payloads != [])
            && (s.ret < 0 && s.payloads != [] ==> 0 < |Concat(s.payloads)| <= Min(size, MAX_BYTES))
            && (Healthy(env) ==> s.ret >= 0)
  {
    SendBytesContent(mem, size, env, 0, 0);
    SendBytesFrom(mem, size, env, 0, 0);
    if size == 0 {
      assert SendBytes(mem, 0, env, 0, 0).ret < 0 ==> SendBytes(mem, 0, env, 0, 0).payloads == [];
    }
  }

  /** The chunks it takes: even nothing takes one, and there are at most ten. */
  function ChunksNeeded(size: nat): nat
  {
    if size <= ARG_LEN then 1
    else if size > MAX_BYTES then MAX_CHUNKS
    else (size - 1) / ARG_LEN + 1
  }

  ghost predicate Works(env: nat -> Chunk, from: nat, to: nat)
  {
    forall i :: from <= i < to ==> env(i).readErr >= 0 && env(i).outErr >= 0
  }

  /** With `rd` bytes posted in `i` full chunks, success depends on the helpers for the rest. */
  lemma {:induction false} SentFrom(mem: Memory, size: nat, env: nat -> Chunk, i: nat)
    requires i < ChunksNeeded(size)
    ensures i * ARG_LEN <= size
    ensures SendBytes(mem, size, env, i * ARG_LEN, i).ret >= 0 <==> Works(env, i, ChunksNeeded(size))
    decreases MAX_CHUNKS - i
  {
    var ok := env(i).readErr >= 0 && env(i).outErr >= 0;
    if i + 1 == ChunksNeeded(size) {
      assert ok <==> Works(env, i, i + 1);
      assert size <= MAX_BYTES ==> size - i * ARG_LEN <= ARG_LEN;
      assert ok && size - i * ARG_LEN > ARG_LEN ==> SendBytes(mem, size, env, (i + 1) * ARG_LEN, i + 1).ret >= 0;
    } else {
      SentFrom(mem, size, env, i + 1);
      assert size - i * ARG_LEN > ARG_LEN;
      assert (i + 1) * ARG_LEN == i * ARG_LEN + ARG_LEN;
      assert Works(env, i, ChunksNeeded(size)) <==> ok && Works(env, i + 1, ChunksNeeded(size));
    }
  }

  /** The bytes are sent exactly when no helper fails for the chunks they need. */
  lemma SentExactly(mem: Memory, size: nat, env: nat -> Chunk)
    ensures SendBytes(mem, size, env, 0, 0).ret >= 0 <==> Works(env, 0, ChunksNeeded(size))
  {
    SentFrom(mem, size, env, 0);
  }

  /** What the first failing helper returned. */
  function HelperError(c: Chunk): int
  {
    if c.readErr < 0 then c.readErr else c.outErr
  }

  lemma {:induction false} FailsFrom(mem: Memory, size: nat, env: nat -> Chunk, rd: nat, i: nat) returns (k: nat)
    requires rd <= size && i <= MAX_CHUNKS && SendBytes(mem, size, env, rd, i).ret < 0
    ensures i <= k < MAX_CHUNKS && Works(env, i, k) && !Works(env, k, k + 1)
    ensures SendBytes(mem, size, env, rd, i).ret == HelperError(env(k))
    ensures |SendBytes(mem, size, env, rd, i).payloads| == k - i
    decreases MAX_CHUNKS - i
  {
    if env(i).readErr < 0 || env(i).outErr < 0 {
      k := i;
    } else {
      k := FailsFrom(mem, size, env, rd + Min(size - rd, ARG_LEN), i + 1);
    }
  }

  /** A failed send returns the error of the first helper that failed, the chunks before it being posted. */
  lemma FailureIsFirstError(mem: Memory, size: nat, env: nat -> Chunk)
    requires SendBytes(mem, size, env, 0, 0).ret < 0
    ensures var s := SendBytes(mem, size, env, 0, 0);
            exists k :: 0 <= k < ChunksNeeded(size) && Works(env, 0, k) && !Works(env, k, k + 1)
              && Describe(size, s.ret) == Desc(if env(k).readErr < 0 then env(k).readErr else env(k).outErr, 0, 0)
              && |s.payloads| == k
  {
    var k := FailsFrom(mem, size, env, 0, 0);
    SentExactly(mem, size, env);
    if k >= ChunksNeeded(size) {
      assert Works(env, 0, ChunksNeeded(size));
    }
  }

  // ---------------------------------------------------------------- strings

  /** The number of characters before the first NUL from `from` on, up to `max`. */
  function StrLen(mem: Memory, from: nat, max: nat): nat
    decreases max
  {
    if max == 0 || mem(from) == 0 then 0 else 1 + StrLen(mem, from + 1, max - 1)
  }

  /** StrLen counts to the first NUL, if it is within reach. */
  lemma {:induction false} StrLenIsFirstNul(mem: Memory, from: nat, max: nat)
    ensures StrLen(mem, from, max) <= max
    ensures forall p :: from <= p < from + StrLen(mem, from, max) ==> mem(p) != 0
    ensures StrLen(mem, from, max) < max ==> mem(from + StrLen(mem, from, max)) == 0
    decreases max
  {
    if max != 0 && mem(from) != 0 {
      StrLenIsFirstNul(mem, from + 1, max - 1);
    }
  }

  /**
   do_str from chunk `i` on: two chunks of up to `len` characters.  With the message's buffer of
   32736 bytes, `len` is 32734: one byte is not used and one is for the terminating NUL.
   */
  function SendStr(mem: Memory, env: nat -> Chunk, len: nat, rd: nat, i: nat): Sent
    decreases 2 - i
  {
    if i >= 2 then Sent([], rd)
    else if env(i).readErr < 0 then Sent([], env(i).readErr)
    else
      var n := StrLen(mem, rd, len);
      var payload := Slice(mem, rd, n);
      if n != len then Sent([payload], rd + n)
      else
        var rest := SendStr(mem, env, len, rd + n, i + 1);
        Sent([payload] + rest.payloads, rest.ret)
  }

  lemma {:induction false} StrLenSplits(mem: Memory, from: nat, a: nat, b: nat)
    ensures StrLen(mem, from, a + b)
            == if StrLen(mem, from, a) == a then a + StrLen(mem, from + a, b) else StrLen(mem, from, a)
    decreases a
  {
    StrLenIsFirstNul(mem, from, a);
    if a > 0 && mem(from) != 0 {
      StrLenSplits(mem, from + 1, a - 1, b);
      StrLenIsFirstNul(mem, from + 1, a - 1);
    }
  }

  lemma {:induction false} SendStrFrom(mem: Memory, env: nat -> Chunk, len: nat, rd: nat, i: nat)
    requires i <= 2 && len > 0
    ensures Concat(SendStr(mem, env, len, rd, i).payloads)
            == Slice(mem, rd, |Concat(SendStr(mem, env, len, rd, i).payloads)|)
    ensures SendStr(mem, env, len, rd, i).ret >= 0 ==>
              && SendStr(mem, env, len, rd, i).ret == rd + |Concat(SendStr(mem, env, len, rd, i).payloads)|
              && (i < 2 ==> SendStr(mem, env, len, rd, i).payloads != [])
    ensures SendStr(mem, env, len, rd, i).ret < 0 && SendStr(mem, env, len, rd, i).payloads != [] ==>
              |Concat(SendStr(mem, env, len, rd, i).payloads)| > 0
    ensures Healthy(env) ==> SendStr(mem, env, len, rd, i).ret >= 0
    decreases 2 - i
  {
    if i < 2 && env(i).readErr >= 0 {
      var n := StrLen(mem, rd, len);
      var first := Slice(mem, rd, n);
      if n != len {
        ConcatCons(first, []);
        assert [first] + [] == [first];
      } else {
        SendStrFrom(mem, env, len, rd + n, i + 1);
        var rest := SendStr(mem, env, len, rd + n, i + 1);
        ConcatCons(first, rest.payloads);
        SliceJoins(mem, rd, n, |Concat(rest.payloads)|);
      }
    }
  }

  /** Two chunks reach as far as one count of their joint length would. */
  lemma SendStrLength(mem: Memory, env: nat -> Chunk, len: nat)
    requires SendStr(mem, env, len, 0, 0).ret >= 0
    ensures SendStr(mem, env, len, 0, 0).ret == StrLen(mem, 0, 2 * len)
  {
    StrLenSplits(mem, 0, len, len);
    if StrLen(mem, 0, len) == len {
      assert SendStr(mem, env, len, 0, 0).ret == SendStr(mem, env, len, len, 1).ret;
      StrLenIsFirstNul(mem, len, len);
      assert SendStr(mem, env, len, 2 * len, 2).ret == 2 * len;
    }
  }

  /** The payloads posted by do_str are the first min(length, 2 * len) characters. */
  lemma StrReassembled(mem: Memory, env: nat -> Chunk, len: nat)
    requires len > 0
    ensures var s := SendStr(mem, env, len, 0, 0);
            && Concat(s.payloads) == Slice(mem, 0, |Concat(s.payloads)|)
            && (s.ret >= 0 ==> s.ret == |Concat(s.payloads)| == StrLen(mem, 0, 2 * len) && s.payloads != [])
            && (s.ret < 0 && s.payloads != [] ==> |Concat(s.payloads)| > 0)
            && (Healthy(env) ==> s.ret >= 0)
  {
    SendStrFrom(mem, env, len, 0, 0);
    if SendStr(mem, env, len, 0, 0).ret >= 0 {
      SendStrLength(mem, env, len);
    }
  }

  // ---------------------------------------------------------------- descriptor and reassembly

  datatype Desc = Desc(error: int, leftover: nat, size: nat)

  /** The descriptor for a result; the fields of sizes are 32 bits wide. */
  function Describe(size: nat, ret: int): Desc
  {
    if ret < 0 then Desc(ret, 0, 0)
    else Desc(0, if size == U64 - 1 then 0 else (size - ret) % U32, ret % U32)
  }

  /** Size and leftover add up to the total exactly when the leftover fits its field. */
  lemma DescribesTotal(mem: Memory, size: nat, env: nat -> Chunk)
    requires size < U64 - 1 && SendBytes(mem, size, env, 0, 0).ret >= 0
    ensures var d := Describe(size, SendBytes(mem, size, env, 0, 0).ret);
            && d.error == 0 && d.size == Min(size, MAX_BYTES)
            && (d.size + d.leftover == size <==> size < U32 + MAX_BYTES)
  {
    BytesReassembled(mem, size, env);
  }

  type Id = nat

  function DataAdd(cache: map<Id, seq<Byte>>, id: Id, payload: seq<Byte>): map<Id, seq<Byte>>
  {
    cache[id := if id in cache then cache[id] + payload else payload]
  }

  function Receive(cache: map<Id, seq<Byte>>, id: Id, ps: seq<seq<Byte>>): map<Id, seq<Byte>>
    decreases |ps|
  {
    if ps == [] then cache else Receive(DataAdd(cache, id, ps[0]), id, ps[1..])
  }

  function DataGet(cache: map<Id, seq<Byte>>, id: Id, desc: Desc): Option<seq<Byte>>
  {
    if id !in cache then None
    else if |cache[id]| != (desc.size - desc.leftover) % U32 then None
    else Some(cache[id])
  }

  lemma {:induction false} ReceiveConcat(cache: map<Id, seq<Byte>>, id: Id, ps: seq<seq<Byte>>)
    ensures var c := Receive(cache, id, ps);
            && (id in c <==> id in cache || ps != [])
            && (id in c ==> c[id] == (if id in cache then cache[id] else []) + Concat(ps))
            && (forall other :: other != id ==> (other in c <==> other in cache))
            && (forall other :: other != id && other in c ==> c[other] == cache[other])
    decreases |ps|
  {
    if ps != [] {
      ReceiveConcat(DataAdd(cache, id, ps[0]), id, ps[1..]);
    }
  }

  lemma GetReceived(cache: map<Id, seq<Byte>>, id: Id, ps: seq<seq<Byte>>, desc: Desc)
    requires id !in cache
    ensures DataGet(Receive(cache, id, ps), id, desc)
            == if ps != [] && |Concat(ps)| == (desc.size - desc.leftover) % U32 then Some(Concat(ps)) else None
  {
    ReceiveConcat(cache, id, ps);
    assert [] + Concat(ps) == Concat(ps);
  }

  /** The sizes whose leftover is zero: what fits in ten chunks, exceeds it by multiples of 2^32, or is -1. */
  predicate NoLeftover(size: nat)
  {
    size <= MAX_BYTES || (size - MAX_BYTES) % U32 == 0 || size == U64 - 1
  }

  lemma LeftoverOf(mem: Memory, size: nat, env: nat -> Chunk)
    requires size < U64 && SendBytes(mem, size, env, 0, 0).ret >= 0
    ensures var d := Describe(size, SendBytes(mem, size, env, 0, 0).ret);
            && (d.leftover == 0 <==> NoLeftover(size))
            && (MAX_BYTES < size < U64 - 1 ==> d.leftover == (size - MAX_BYTES) % U32 && d.size == MAX_BYTES)
  {
    BytesReassembled(mem, size, env);
  }

  /** The length the reader expects is the length posted exactly when the leftover is zero. */
  lemma ExpectedLength(size: nat, ret: nat)
    requires ret <= MAX_BYTES
    ensures var d := Describe(size, ret);
            ret == (d.size - d.leftover) % U32 <==> d.leftover == 0
  {
  }

  /**
   The round trip of a buffer: user space gets it back, cut at 10 * 32736 bytes, exactly when no
   helper fails for the chunks it needs and its size leaves no leftover.  Any other long buffer is
   posted but then rejected, because the descriptor's size is what was posted and the reader
   subtracts the leftover from it.
   */
  lemma BytesRoundTrip(cache: map<Id, seq<Byte>>, id: Id, mem: Memory, size: nat, env: nat -> Chunk)
    requires id !in cache && size < U64
    ensures var s := SendBytes(mem, size, env, 0, 0);
            DataGet(Receive(cache, id, s.payloads), id, Describe(size, s.ret))
            == if Works(env, 0, ChunksNeeded(size)) && NoLeftover(size)
               then Some(Slice(mem, 0, Min(size, MAX_BYTES))) else None
  {
    var s := SendBytes(mem, size, env, 0, 0);
    SentExactly(mem, size, env);
    BytesReassembled(mem, size, env);
    GetReceived(cache, id, s.payloads, Describe(size, s.ret));
    if s.ret >= 0 {
      LeftoverOf(mem, size, env);
      ExpectedLength(size, s.ret);
    }
  }

  /** A buffer one byte over the limit does not come back, whatever its contents. */
  lemma LongBufferIsRejected(cache: map<Id, seq<Byte>>, id: Id, mem: Memory, env: nat -> Chunk)
    requires id !in cache && Healthy(env)
    ensures var s := SendBytes(mem, MAX_BYTES + 1, env, 0, 0);
            && Concat(s.payloads) == Slice(mem, 0, MAX_BYTES)
            && DataGet(Receive(cache, id, s.payloads), id, Describe(MAX_BYTES + 1, s.ret)) == None
  {
    BytesReassembled(mem, MAX_BYTES + 1, env);
    BytesRoundTrip(cache, id, mem, MAX_BYTES + 1, env);
  }

  lemma StrExpectedLength(ret: nat)
    requires ret < U32
    ensures (Describe(U64 - 1, ret).size - Describe(U64 - 1, ret).leftover) % U32 == ret
  {
  }

  /** The reads a string needs succeed: the first, and the second if the first chunk is full. */
  predicate StrWorks(mem: Memory, env: nat -> Chunk, len: nat)
  {
    env(0).readErr >= 0 && (StrLen(mem, 0, len) == len ==> env(1).readErr >= 0)
  }

  lemma StrSentExactly(mem: Memory, env: nat -> Chunk, len: nat)
    requires len > 0
    ensures SendStr(mem, env, len, 0, 0).ret >= 0 <==> StrWorks(mem, env, len)
  {
    if env(0).readErr >= 0 && StrLen(mem, 0, len) == len {
      assert SendStr(mem, env, len, 0, 0).ret == SendStr(mem, env, len, len, 1).ret;
      assert SendStr(mem, env, len, 2 * len, 2).ret == 2 * len;
    }
  }

  /** A failed string is described by the error of the read that failed. */
  lemma StrFailureIsFirstError(mem: Memory, env: nat -> Chunk, len: nat)
    requires len > 0 && SendStr(mem, env, len, 0, 0).ret < 0
    ensures var s := SendStr(mem, env, len, 0, 0);
            if env(0).readErr < 0 then s.payloads == [] && Describe(U64 - 1, s.ret) == Desc(env(0).readErr, 0, 0)
            else |s.payloads| == 1 && Describe(U64 - 1, s.ret) == Desc(env(1).readErr, 0, 0)
  {
    if env(0).readErr >= 0 {
      StrSentExactly(mem, env, len);
      assert SendStr(mem, env, len, 0, 0).ret == SendStr(mem, env, len, len, 1).ret;
    }
  }

  /** A string comes back, cut at two chunks, exactly when the reads it needs succeed. */
  lemma StrRoundTrip(cache: map<Id, seq<Byte>>, id: Id, mem: Memory, env: nat -> Chunk, len: nat)
    requires id !in cache && 0 < 2 * len < U32
    ensures var s := SendStr(mem, env, len, 0, 0);
            DataGet(Receive(cache, id, s.payloads), id, Describe(U64 - 1, s.ret))
            == if StrWorks(mem, env, len) then Some(Slice(mem, 0, StrLen(mem, 0, 2 * len))) else None
    ensures StrWorks(mem, env, len) ==>
              Describe(U64 - 1, SendStr(mem, env, len, 0, 0).ret) == Desc(0, 0, StrLen(mem, 0, 2 * len))
  {
    StrReassembled(mem, env, len);
    StrSentExactly(mem, env, len);
    var s := SendStr(mem, env, len, 0, 0);
    StrLenIsFirstNul(mem, 0, 2 * len);
    GetReceived(cache, id, s.payloads, Describe(U64 - 1, s.ret));
    if s.ret >= 0 {
      StrExpectedLength(s.ret);
    }
  }

  function Later(through: nat -> bool): nat -> bool
  {
    (i: nat) => through(i + 1)
  }

  /** The messages that make it through the ring buffer. */
  function Delivered(ps: seq<seq<Byte>>, through: nat -> bool): seq<seq<Byte>>
    decreases |ps|
  {
    if ps == [] then []
    else
      var rest := Delivered(ps[1..], Later(through));
      if through(0) then [ps[0]] + rest else rest
  }

  lemma {:induction false} DeliveredAll(ps: seq<seq<Byte>>, through: nat -> bool)
    ensures |Concat(Delivered(ps, through))| <= |Concat(ps)|
    ensures |Concat(Delivered(ps, through))| == |Concat(ps)| ==> Concat(Delivered(ps, through)) == Concat(ps)
    decreases |ps|
  {
    if ps != [] {
      var later := Later(through);
      DeliveredAll(ps[1..], later);
      assert ([ps[0]] + Delivered(ps[1..], later))[1..] == Delivered(ps[1..], later);
    }
  }

  lemma AcceptedIsWhole(cache: map<Id, seq<Byte>>, id: Id, ps: seq<seq<Byte>>, through: nat -> bool, desc: Desc)
    requires id !in cache && |Concat(ps)| == (desc.size - desc.leftover) % U32
    ensures var got := DataGet(Receive(cache, id, Delivered(ps, through)), id, desc);
            got.Some? ==> got.value == Concat(ps)
  {
    GetReceived(cache, id, Delivered(ps, through), desc);
    DeliveredAll(ps, through);
  }

  /** Whatever messages are lost, what user space accepts is complete if the size leaves no leftover. */
  lemma AcceptedIsComplete(cache: map<Id, seq<Byte>>, id: Id, mem: Memory, size: nat, env: nat -> Chunk,
                           through: nat -> bool)
    requires id !in cache && size < U64 && NoLeftover(size)
    ensures var s := SendBytes(mem, size, env, 0, 0);
            var got := DataGet(Receive(cache, id, Delivered(s.payloads, through)), id, Describe(size, s.ret));
            got.Some? ==> got.value == Slice(mem, 0, Min(size, MAX_BYTES))
  {
    var s := SendBytes(mem, size, env, 0, 0);
    if s.ret >= 0 {
      WholeExpected(mem, size, env);
      AcceptedIsWhole(cache, id, s.payloads, through, Describe(size, s.ret));
    } else {
      FailedIsRejected(cache, id, mem, size, env, through);
    }
  }

  lemma WholeExpected(mem: Memory, size: nat, env: nat -> Chunk)
    requires size < U64 && NoLeftover(size) && SendBytes(mem, size, env, 0, 0).ret >= 0
    ensures var s := SendBytes(mem, size, env, 0, 0);
            var d := Describe(size, s.ret);
            && Concat(s.payloads) == Slice(mem, 0, Min(size, MAX_BYTES))
            && |Concat(s.payloads)| == (d.size - d.leftover) % U32
  {
    BytesReassembled(mem, size, env);
    LeftoverOf(mem, size, env);
    ExpectedLength(size, SendBytes(mem, size, env, 0, 0).ret);
  }

  // ---------------------------------------------------------------- which losses pass

  ghost predicate AllOfLength(ps: seq<seq<Byte>>, n: nat)
  {
    forall p :: p in ps ==> |p| == n
  }

  lemma FullAppend(p: seq<Byte>, ps: seq<seq<Byte>>, n: nat)
    requires |p| == n && AllOfLength(ps, n)
    ensures AllOfLength([p] + ps, n)
  {
  }

  /** Chunks posted before an error are full. */
  lemma {:induction false} FullBeforeError(mem: Memory, size: nat, env: nat -> Chunk, rd: nat, i: nat)
    requires rd <= size && i <= MAX_CHUNKS && SendBytes(mem, size, env, rd, i).ret < 0
    ensures AllOfLength(SendBytes(mem, size, env, rd, i).payloads, ARG_LEN)
    decreases MAX_CHUNKS - i
  {
    if i < MAX_CHUNKS && env(i).readErr >= 0 && env(i).outErr >= 0 {
      FullBeforeError(mem, size, env, rd + ARG_LEN, i + 1);
      FullAppend(Slice(mem, rd, ARG_LEN), SendBytes(mem, size, env, rd + ARG_LEN, i + 1).payloads, ARG_LEN);
    }
  }

  /** Of a buffer too long, all ten chunks are full. */
  lemma {:induction false} FullWhenLong(mem: Memory, size: nat, env: nat -> Chunk, rd: nat, i: nat)
    requires i <= MAX_CHUNKS && size > rd + (MAX_CHUNKS - i) * ARG_LEN && SendBytes(mem, size, env, rd, i).ret >= 0
    ensures AllOfLength(SendBytes(mem, size, env, rd, i).payloads, ARG_LEN)
    ensures |SendBytes(mem, size, env, rd, i).payloads| == MAX_CHUNKS - i
    decreases MAX_CHUNKS - i
  {
    if i < MAX_CHUNKS {
      FullWhenLong(mem, size, env, rd + ARG_LEN, i + 1);
      FullAppend(Slice(mem, rd, ARG_LEN), SendBytes(mem, size, env, rd + ARG_LEN, i + 1).payloads, ARG_LEN);
    }
  }

  lemma {:induction false} DeliveredChunks(ps: seq<seq<Byte>>, n: nat, through: nat -> bool)
    requires AllOfLength(ps, n)
    ensures |Delivered(ps, through)| <= |ps|
    ensures |Concat(Delivered(ps, through))| == n * |Delivered(ps, through)|
    decreases |ps|
  {
    if ps != [] {
      var rest := Delivered(ps[1..], Later(through));
      DeliveredChunks(ps[1..], n, Later(through));
      ConcatCons(ps[0], rest);
      assert ps[0] in ps;
      assert n * (|rest| + 1) == n * |rest| + n;
    }
  }

  /** Full chunks of any length, posted before an error, never pass for anything. */
  lemma FailureRejected(cache: map<Id, seq<Byte>>, id: Id, s: Sent, n: nat, size: nat, through: nat -> bool)
    requires id !in cache && s.ret < 0 && n > 0 && AllOfLength(s.payloads, n)
    ensures DataGet(Receive(cache, id, Delivered(s.payloads, through)), id, Describe(size, s.ret)) == None
  {
    DeliveredChunks(s.payloads, n, through);
    GetReceived(cache, id, Delivered(s.payloads, through), Describe(size, s.ret));
    if Delivered(s.payloads, through) != [] {
      Positive(n, |Delivered(s.payloads, through)|);
    }
  }

  lemma Positive(a: nat, b: nat)
    requires a > 0 && b > 0
    ensures a * b > 0
  {
  }

  lemma FailedIsRejected(cache: map<Id, seq<Byte>>, id: Id, mem: Memory, size: nat, env: nat -> Chunk,
                         through: nat -> bool)
    requires id !in cache && SendBytes(mem, size, env, 0, 0).ret < 0
    ensures var s := SendBytes(mem, size, env, 0, 0);
            DataGet(Receive(cache, id, Delivered(s.payloads, through)), id, Describe(size, s.ret)) == None
  {
    FullBeforeError(mem, size, env, 0, 0);
    FailureRejected(cache, id, SendBytes(mem, size, env, 0, 0), ARG_LEN, size, through);
  }

  function Below(m: nat): nat -> bool
  {
    (i: nat) => i < m
  }

  lemma {:induction false} DeliveredSame(ps: seq<seq<Byte>>, f: nat -> bool, g: nat -> bool)
    requires forall i: nat :: f(i) == g(i)
    ensures Delivered(ps, f) == Delivered(ps, g)
    decreases |ps|
  {
    if ps != [] {
      DeliveredSame(ps[1..], Later(f), Later(g));
    }
  }

  lemma {:induction false} DeliveredBelow(ps: seq<seq<Byte>>, m: nat)
    requires m <= |ps|
    ensures |Delivered(ps, Below(m))| == m
    decreases |ps|
  {
    if ps != [] {
      if m > 0 {
        DeliveredBelow(ps[1..], m - 1);
        DeliveredSame(ps[1..], Later(Below(m)), Below(m - 1));
      } else {
        DeliveredBelow(ps[1..], 0);
        DeliveredSame(ps[1..], Later(Below(0)), Below(0));
      }
    }
  }

  /** The sizes whose leftover is one to nine chunks. */
  predicate LossCanPass(size: nat)
  {
    MAX_BYTES < size < U64 - 1 && exists j :: 1 <= j <= 9 && (size - MAX_BYTES) % U32 == j * ARG_LEN
  }

  /** With `m` chunks delivered, the reader is satisfied exactly when the leftover is the other chunks. */
  lemma ChunksExpected(left: nat, m: nat)
    requires 0 < left < U32 && m <= MAX_CHUNKS
    ensures m * ARG_LEN == (MAX_BYTES - left) % U32 <==> left == (MAX_CHUNKS - m) * ARG_LEN
  {
    assert (MAX_CHUNKS - m) * ARG_LEN == MAX_BYTES - m * ARG_LEN;
    if left > MAX_BYTES {
      assert (MAX_BYTES - left) % U32 == MAX_BYTES - left + U32;
    }
  }

  /** Ten full chunks, some of them lost. */
  lemma LossAccepted(cache: map<Id, seq<Byte>>, id: Id, s: Sent, size: nat, through: nat -> bool)
    requires id !in cache && MAX_BYTES < size < U64 - 1 && !NoLeftover(size)
    requires s.ret == MAX_BYTES && |s.payloads| == MAX_CHUNKS && AllOfLength(s.payloads, ARG_LEN)
    ensures var m := |Delivered(s.payloads, through)|;
            && m <= MAX_CHUNKS && |Concat(Delivered(s.payloads, through))| == ARG_LEN * m
            && (DataGet(Receive(cache, id, Delivered(s.payloads, through)), id, Describe(size, s.ret)).Some?
                <==> m > 0 && (size - MAX_BYTES) % U32 == (MAX_CHUNKS - m) * ARG_LEN)
  {
    DeliveredChunks(s.payloads, ARG_LEN, through);
    GetReceived(cache, id, Delivered(s.payloads, through), Describe(size, s.ret));
    ChunksExpected((size - MAX_BYTES) % U32, |Delivered(s.payloads, through)|);
  }

  lemma LongIsFull(mem: Memory, size: nat, env: nat -> Chunk)
    requires MAX_BYTES < size && SendBytes(mem, size, env, 0, 0).ret >= 0
    ensures var s := SendBytes(mem, size, env, 0, 0);
            s.ret == MAX_BYTES && |s.payloads| == MAX_CHUNKS && AllOfLength(s.payloads, ARG_LEN)
  {
    BytesReassembled(mem, size, env);
    FullWhenLong(mem, size, env, 0, 0);
  }

  /** Is there a loss after which user space accepts something else than the buffer? */
  ghost predicate Deceived(cache: map<Id, seq<Byte>>, id: Id, mem: Memory, size: nat, env: nat -> Chunk)
  {
    var s := SendBytes(mem, size, env, 0, 0);
    exists through: nat -> bool ::
      var got := DataGet(Receive(cache, id, Delivered(s.payloads, through)), id, Describe(size, s.ret));
      got.Some? && got.value != Slice(mem, 0, Min(size, MAX_BYTES))
  }

  /** Exactly when losing messages can go unnoticed: the leftover is one to nine whole chunks. */
  lemma LossPassesExactly(cache: map<Id, seq<Byte>>, id: Id, mem: Memory, size: nat, env: nat -> Chunk)
    requires id !in cache && size < U64
    ensures Deceived(cache, id, mem, size, env) <==> Works(env, 0, ChunksNeeded(size)) && LossCanPass(size)
  {
    var s := SendBytes(mem, size, env, 0, 0);
    SentExactly(mem, size, env);
    if Works(env, 0, ChunksNeeded(size)) && LossCanPass(size) {
      var j :| 1 <= j <= 9 && (size - MAX_BYTES) % U32 == j * ARG_LEN;
      LongIsFull(mem, size, env);
      SomeLossPasses(cache, id, s, size, Slice(mem, 0, MAX_BYTES), j);
    }
    if Deceived(cache, id, mem, size, env) {
      DeceivedMeans(cache, id, mem, size, env);
    }
  }

  /** With the first chunks delivered and `j` lost, a leftover of `j` chunks is accepted. */
  lemma SomeLossPasses(cache: map<Id, seq<Byte>>, id: Id, s: Sent, size: nat, whole: seq<Byte>, j: nat)
    requires id !in cache && MAX_BYTES < size < U64 - 1 && 1 <= j <= 9 && (size - MAX_BYTES) % U32 == j * ARG_LEN
    requires s.ret == MAX_BYTES && |s.payloads| == MAX_CHUNKS && AllOfLength(s.payloads, ARG_LEN)
    requires |whole| == MAX_BYTES
    ensures exists through: nat -> bool ::
              var got := DataGet(Receive(cache, id, Delivered(s.payloads, through)), id, Describe(size, s.ret));
              got.Some? && got.value != whole
  {
    var through := Below(MAX_CHUNKS - j);
    DeliveredBelow(s.payloads, MAX_CHUNKS - j);
    LossAccepted(cache, id, s, size, through);
    GetReceived(cache, id, Delivered(s.payloads, through), Describe(size, s.ret));
  }

  lemma DeceivedMeans(cache: map<Id, seq<Byte>>, id: Id, mem: Memory, size: nat, env: nat -> Chunk)
    requires id !in cache && size < U64 && Deceived(cache, id, mem, size, env)
    ensures SendBytes(mem, size, env, 0, 0).ret >= 0 && LossCanPass(size)
  {
    var s := SendBytes(mem, size, env, 0, 0);
    var through: nat -> bool :|
      var got := DataGet(Receive(cache, id, Delivered(s.payloads, through)), id, Describe(size, s.ret));
      got.Some? && got.value != Slice(mem, 0, Min(size, MAX_BYTES));
    if s.ret < 0 {
      FailedIsRejected(cache, id, mem, size, env, through);
    } else if NoLeftover(size) {
      AcceptedIsComplete(cache, id, mem, size, env, through);
    } else {
      LongIsFull(mem, size, env);
      LossAccepted(cache, id, s, size, through);
      var m := |Delivered(s.payloads, through)|;
      assert 1 <= MAX_CHUNKS - m <= 9;
    }
  }

  lemma {:induction false} DeliveredUnharmed(ps: seq<seq<Byte>>, through: nat -> bool)
    requires forall i: nat :: through(i)
    ensures Delivered(ps, through) == ps
    decreases |ps|
  {
    if ps != [] {
      DeliveredUnharmed(ps[1..], Later(through));
    }
  }

  lemma ElevenChunks(mem: Memory, env: nat -> Chunk)
    requires Healthy(env)
    ensures var s, rest := SendBytes(mem, 11 * ARG_LEN, env, 0, 0), SendBytes(mem, 11 * ARG_LEN, env, ARG_LEN, 1);
            && s.payloads == [Slice(mem, 0, ARG_LEN)] + rest.payloads
            && s.ret == MAX_BYTES
            && rest.payloads != []
            && Concat(rest.payloads) == Slice(mem, ARG_LEN, 9 * ARG_LEN)
  {
    SendBytesContent(mem, 11 * ARG_LEN, env, ARG_LEN, 1);
    SendBytesFrom(mem, 11 * ARG_LEN, env, ARG_LEN, 1);
  }

  /**
   With a leftover that is not so: of a buffer of eleven chunks ten are posted, and if the first is
   lost on the way, the other nine pass for the whole.
   */
  lemma LossIsAccepted(cache: map<Id, seq<Byte>>, id: Id, mem: Memory, env: nat -> Chunk, through: nat -> bool)
    requires id !in cache && Healthy(env)
    requires forall i: nat :: through(i) <==> i != 0
    ensures var s := SendBytes(mem, 11 * ARG_LEN, env, 0, 0);
            DataGet(Receive(cache, id, Delivered(s.payloads, through)), id, Describe(11 * ARG_LEN, s.ret))
            == Some(Slice(mem, ARG_LEN, 9 * ARG_LEN))
  {
    ElevenChunks(mem, env);
    var rest := SendBytes(mem, 11 * ARG_LEN, env, ARG_LEN, 1).payloads;
    FirstLost(Slice(mem, 0, ARG_LEN), rest, through);
    GetReceived(cache, id, rest, Describe(11 * ARG_LEN, MAX_BYTES));
  }

  lemma FirstLost(p: seq<Byte>, ps: seq<seq<Byte>>, through: nat -> bool)
    requires forall i: nat :: through(i) <==> i != 0
    ensures Delivered([p] + ps, through) == ps
  {
    assert ([p] + ps)[1..] == ps;
    forall i: nat
      ensures Later(through)(i)
    {
      assert through(i + 1);
    }
    DeliveredUnharmed(ps, Later(through));
  }

  /** Chunks of a string posted before an error are full. */
  lemma {:induction false} StrFullBeforeError(mem: Memory, env: nat -> Chunk, len: nat, rd: nat, i: nat)
    requires i <= 2 && SendStr(mem, env, len, rd, i).ret < 0
    ensures AllOfLength(SendStr(mem, env, len, rd, i).payloads, len)
    decreases 2 - i
  {
    if i < 2 && env(i).readErr >= 0 {
      StrFullBeforeError(mem, env, len, rd + len, i + 1);
      FullAppend(Slice(mem, rd, len), SendStr(mem, env, len, rd + len, i + 1).payloads, len);
    }
  }

  /** Whatever messages are lost and whatever reads fail, a string that is accepted is complete. */
  lemma AcceptedStrIsComplete(cache: map<Id, seq<Byte>>, id: Id, mem: Memory, env: nat -> Chunk, len: nat,
                              through: nat -> bool)
    requires id !in cache && 0 < 2 * len < U32
    ensures var s := SendStr(mem, env, len, 0, 0);
            var got := DataGet(Receive(cache, id, Delivered(s.payloads, through)), id, Describe(U64 - 1, s.ret));
            got.Some? ==> got.value == Slice(mem, 0, StrLen(mem, 0, 2 * len))
  {
    var s := SendStr(mem, env, len, 0, 0);
    if s.ret >= 0 {
      StrReassembled(mem, env, len);
      StrLenIsFirstNul(mem, 0, 2 * len);
      StrExpectedLength(s.ret);
      AcceptedIsWhole(cache, id, s.payloads, through, Describe(U64 - 1, s.ret));
    } else {
      StrFullBeforeError(mem, env, len, 0, 0);
      FailureRejected(cache, id, s, len, U64 - 1, through);
    }
  }

  // ---------------------------------------------------------------- the code's in-place form

  class Sender {
    const arg: array<Byte>
    var posted: seq<seq<Byte>>

    constructor ()
      ensures arg.Length == ARG_LEN && posted == [] && fresh(arg)
    {
      arg := new Byte[ARG_LEN];
      posted := [];
    }

    method ProbeRead(mem: Memory, from: nat, n: nat)
      requires n <= arg.Length
      modifies arg
      ensures arg[..n] == Slice(mem, from, n)
    {
      forall i | 0 <= i < n {
        arg[i] := mem(from + i);
      }
    }

    method OneBytes(mem: Memory, from: nat, left: nat, c: Chunk) returns (ret: int)
      requires arg.Length == ARG_LEN
      modifies this`posted, arg
      ensures ret == if c.readErr < 0 then c.readErr else if c.outErr < 0 then c.outErr else Min(left, ARG_LEN)
      ensures posted == if ret < 0 then old(posted) else old(posted) + [Slice(mem, from, ret)]
    {
      var bytes := left;
      if bytes >= ARG_LEN {
        bytes := ARG_LEN;
      }
      if c.readErr < 0 {
        return c.readErr;
      }
      ProbeRead(mem, from, bytes);
      if c.outErr < 0 {
        return c.outErr;
      }
      posted := posted + [arg[..bytes]];
      return bytes;
    }

    method DoBytes(mem: Memory, size: nat, env: nat -> Chunk) returns (ret: int)
      requires arg.Length == ARG_LEN
      modifies this`posted, arg
      ensures var s := SendBytes(mem, size, env, 0, 0);
              ret == s.ret && posted == old(posted) + s.payloads
    {
      var rd := 0;
      for i := 0 to MAX_CHUNKS
        invariant rd <= size
        invariant var all, rest := SendBytes(mem, size, env, 0, 0), SendBytes(mem, size, env, rd, i);
                  all.ret == rest.ret && old(posted) + all.payloads == posted + rest.payloads
      {
        ghost var before, rest := posted, SendBytes(mem, size, env, rd, i);
        var err := OneBytes(mem, rd, size - rd, env(i));
        if err < 0 {
          return err;
        }
        rd := rd + err;
        if rd == size {
          return rd;
        }
        assert before + rest.payloads == posted + SendBytes(mem, size, env, rd, i + 1).payloads;
      }
      return rd;
    }

    /** The copied length counts the NUL, which is cut again before posting. */
    method OneStr(mem: Memory, from: nat, c: Chunk) returns (ret: int, done: bool)
      requires arg.Length == ARG_LEN
      modifies this`posted, arg
      ensures ret == if c.readErr < 0 then c.readErr else StrLen(mem, from, arg.Length - 2)
      ensures ret >= 0 ==> done == (ret != arg.Length - 2)
      ensures posted == if ret < 0 then old(posted) else old(posted) + [Slice(mem, from, ret)]
    {
      var max := arg.Length - 1;
      if c.readErr < 0 {
        return c.readErr, false;
      }
      var n := StrLen(mem, from, max - 1);
      StrLenIsFirstNul(mem, from, max - 1);
      ProbeRead(mem, from, n);
      arg[n] := 0;
      var copied := n + 1;
      done := copied != max;
      ret := copied - 1;
      assert arg[..ret] == Slice(mem, from, n);
      posted := posted + [arg[..ret]];
    }

    method DoStr(mem: Memory, env: nat -> Chunk) returns (ret: int)
      requires arg.Length == ARG_LEN
      modifies this`posted, arg
      ensures var s := SendStr(mem, env, arg.Length - 2, 0, 0);
              ret == s.ret && posted == old(posted) + s.payloads
    {
      var rd := 0;
      for i := 0 to 2
        invariant var all, rest := SendStr(mem, env, arg.Length - 2, 0, 0), SendStr(mem, env, arg.Length - 2, rd, i);
                  all.ret == rest.ret && old(posted) + all.payloads == posted + rest.payloads
      {
        ghost var before, rest := posted, SendStr(mem, env, arg.Length - 2, rd, i);
        var n, done := OneStr(mem, rd, env(i));
        if n < 0 {
          return n;
        }
        rd := rd + n;
        if done {
          return rd;
        }
        assert before + rest.payloads == posted + SendStr(mem, env, arg.Length - 2, rd, i + 1).payloads;
      }
      return rd;
    }

    /** data_event_bytes, or with `str` data_event_str, whose size argument is -1. */
    method PostData(mem: Memory, size: nat, str: bool, env: nat -> Chunk) returns (desc: Desc)
      requires arg.Length == ARG_LEN && (str ==> size == U64 - 1)
      modifies this`posted, arg
      ensures var s := if str then SendStr(mem, env, arg.Length - 2, 0, 0) else SendBytes(mem, size, env, 0, 0);
              desc == Describe(size, s.ret) && posted == old(posted) + s.payloads
    {
      var err;
      if str {
        err := DoStr(mem, env);
      } else {
        err := DoBytes(mem, size, env);
      }
      if err < 0 {
        desc := Desc(err, 0, 0);
      } else {
        var leftover := if size == U64 - 1 then 0 else (size - err) % U32;
        desc := Desc(0, leftover, err % U32);
      }
    }
  }

  class DataCache {
    var cache: map<Id, seq<Byte>>

    method Add(id: Id, payload: seq<Byte>)
      modifies this
      ensures cache == DataAdd(old(cache), id, payload)
    {
      if id !in cache {
        cache := cache[id := payload];
      } else {
        cache := cache[id := cache[id] + payload];
      }
    }

    /** The data leaves the cache whether or not its length is accepted. */
    method Get(id: Id, desc: Desc) returns (data: Option<seq<Byte>>)
      modifies this
      ensures data == DataGet(old(cache), id, desc)
      ensures cache == old(cache) - {id}
    {
      if id !in cache {
        assert cache - {id} == cache;
        return None;
      }
      var found := cache[id];
      cache := cache - {id};
      if |found| != (desc.size - desc.leftover) % U32 {
        return None;
      }
      return Some(found);
    }
  }
}

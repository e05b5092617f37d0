// The bad-block-mapped flash descriptor of general_load
// (board/loongson/common/general_load/device/mtd.c, mtd.h).
//
// A descriptor wraps one raw flash device and a running "badsize": the bytes
// of bad erase blocks skipped so far. Every logical address handed to it is
// shifted by badsize before it reaches the flash, so the data lands on the
// next good blocks.

module MtdGl {
  import opened Opt

  type pos = x: nat | x > 0 witness 1

  /** 2^64: the u64 arithmetic of the descriptor wraps modulo this. */
  const U64: int := 0x1_0000_0000_0000_0000

  /** mtd_erase fails with -EIO on a block it cannot erase. */
  const EIO: int := 5

  datatype Partition = Partition(offset: nat, size: nat)

  /** One call into the raw flash layer, at a physical address. */
  datatype Op =
    | Erase(addr: nat)
    | IsBad(addr: nat)
    | MarkBad(addr: nat)
    | Write(addr: nat, len: nat, from: nat)  // from: offset in the caller's buffer
    | Read(addr: nat, len: nat, into: nat)

  /**
   * The raw flash device (struct mtd_info) behind the mtd_* calls: its
   * geometry and partition list, and, as an oracle, the physical block
   * addresses at which each call reports a failure. It records every call.
   */
  class MtdInfo {
    const size: nat
    const erasesize: pos
    const writesize: pos
    const partitions: seq<Partition>
    /** Blocks mtd_block_isbad reports bad. */
    const badBlocks: set<nat>
    /** Blocks whose mtd_erase fails. */
    const eraseFails: set<nat>
    /** Blocks whose mtd_block_markbad fails. */
    const markFails: set<nat>
    /** Blocks whose mtd_read fails. */
    const readFails: set<nat>
    /** Byte counts mtd_read/mtd_write report for a short transfer at a block. */
    const shortTransfers: map<nat, nat>
    var ops: seq<Op>

    constructor (size: nat, erasesize: pos, writesize: pos, partitions: seq<Partition>,
                 badBlocks: set<nat>, eraseFails: set<nat>, markFails: set<nat>,
                 readFails: set<nat>, shortTransfers: map<nat, nat>)
      ensures this.size == size && this.erasesize == erasesize && this.writesize == writesize
      ensures this.partitions == partitions && this.badBlocks == badBlocks
      ensures this.eraseFails == eraseFails && this.markFails == markFails
      ensures this.readFails == readFails && this.shortTransfers == shortTransfers
      ensures ops == []
    {
      this.size := size;
      this.erasesize := erasesize;
      this.writesize := writesize;
      this.partitions := partitions;
      this.badBlocks := badBlocks;
      this.eraseFails := eraseFails;
      this.markFails := markFails;
      this.readFails := readFails;
      this.shortTransfers := shortTransfers;
      ops := [];
    }

    /** mtd_write of one erase block at physical `p`; reports the bytes written. */
    method WriteBlock(p: nat, from: nat) returns (written: nat)
      modifies this`ops
      ensures ops == old(ops) + [Write(p, erasesize, from)]
      ensures written == Transferred(this, p)
    {
      ops := ops + [Write(p, erasesize, from)];
      written := Transferred(this, p);
    }

    /** mtd_read of one erase block at physical `p`; a failing block gives -1. */
    method ReadBlock(p: nat, into: nat) returns (ret: int, read: nat)
      modifies this`ops
      ensures ops == old(ops) + [Read(p, erasesize, into)]
      ensures ret == (if p in readFails then -1 else 0)
      ensures read == Transferred(this, p)
    {
      ops := ops + [Read(p, erasesize, into)];
      ret := if p in readFails then -1 else 0;
      read := Transferred(this, p);
    }
  }

  /** Bytes the flash reports transferred for one erase block at `p`. */
  function Transferred(m: MtdInfo, p: nat): nat
  {
    if p in m.shortTransfers then m.shortTransfers[p] else m.erasesize
  }

  /** Part 0 is the whole device; part k >= 1 the k-th partition in list order. */
  function PartitionOf(m: MtdInfo, part: int): Option<Partition>
  {
    if part == 0 then Some(Partition(0, m.size))
    else if 1 <= part <= |m.partitions| then Some(m.partitions[part - 1])
    else None
  }

  /** mtd_gl_partition_remain with the skip `bs` given as a value. */
  function PartitionRemain(m: MtdInfo, oip: nat, part: int, bs: nat): (r: nat)
    ensures r < U64
    ensures PartitionOf(m, part).None? ==> r == 0
    ensures PartitionOf(m, part).Some? && oip + bs <= PartitionOf(m, part).value.size < U64 ==>
      r == PartitionOf(m, part).value.size - oip - bs
  {
    match PartitionOf(m, part)
    case None => 0
    case Some(pt) => (pt.size - oip - bs) % U64
  }

  /** A bound above every block of `s`: the retry loops below end before passing it. */
  ghost function Bound(s: set<nat>): (r: nat)
    ensures forall x | x in s :: x < r
    decreases |s|
  {
    if s == {} then 0
    else
      var x :| x in s;
      var r := Bound(s - {x});
      assert forall y | y in s :: y == x || y in s - {x};
      if x < r then r else x + 1
  }

  /** What a mapped read or write loop leaves behind. */
  datatype Run = Run(ret: int, badsize: nat, retsize: nat, ops: seq<Op>)

  /**
   * The write loop of m__mtd_gl_write_mapped, from logical offset `i` on with
   * the current `badsize`: `ops` is what it issues from here on. A block
   * whose erase fails is marked bad and the same logical offset is retried on
   * the next block; a failed mark ends the loop with -1.
   */
  function WriteLoop(m: MtdInfo, addr: nat, size: nat, i: nat, badsize: nat, retsize: nat): Run
    decreases size - i, Bound(m.eraseFails) - (addr + i + badsize)
  {
    if i >= size then Run(0, badsize, retsize, [])
    else
      var p := addr + i + badsize;
      if p in m.eraseFails then
        if p in m.markFails then Run(-1, badsize + m.erasesize, retsize, [Erase(p), MarkBad(p)])
        else
          var r := WriteLoop(m, addr, size, i, badsize + m.erasesize, retsize);
          r.(ops := [Erase(p), MarkBad(p)] + r.ops)
      else
        var r := WriteLoop(m, addr, size, i + m.erasesize, badsize, retsize + Transferred(m, p));
        r.(ops := [Erase(p), Write(p, m.erasesize, i)] + r.ops)
  }

  /**
   * The read loop of m__mtd_gl_read_mapped: a block reported bad is skipped
   * (badsize grows) and the same logical offset retried; a failed read ends
   * the loop with -1.
   */
  function ReadLoop(m: MtdInfo, addr: nat, size: nat, i: nat, badsize: nat, retsize: nat): Run
    decreases size - i, Bound(m.badBlocks) - (addr + i + badsize)
  {
    if i >= size then Run(0, badsize, retsize, [])
    else
      var p := addr + i + badsize;
      if p in m.badBlocks then
        var r := ReadLoop(m, addr, size, i, badsize + m.erasesize, retsize);
        r.(ops := [IsBad(p)] + r.ops)
      else if p in m.readFails then Run(-1, badsize, retsize, [IsBad(p), Read(p, m.erasesize, i)])
      else
        var r := ReadLoop(m, addr, size, i + m.erasesize, badsize, retsize + Transferred(m, p));
        r.(ops := [IsBad(p), Read(p, m.erasesize, i)] + r.ops)
  }

  // One step of each loop, as the methods below take it.

  lemma WriteLoopMarkStep(m: MtdInfo, addr: nat, size: nat, i: nat, bs: nat, rs: nat)
    requires i < size && addr + i + bs in m.eraseFails
    ensures var p := addr + i + bs; var r := WriteLoop(m, addr, size, i, bs + m.erasesize, rs);
      WriteLoop(m, addr, size, i, bs, rs) ==
        if p in m.markFails then Run(-1, bs + m.erasesize, rs, [Erase(p), MarkBad(p)])
        else r.(ops := [Erase(p), MarkBad(p)] + r.ops)
  {
  }

  lemma WriteLoopAdvance(m: MtdInfo, addr: nat, size: nat, i: nat, bs: nat, rs: nat)
    requires i < size && addr + i + bs !in m.eraseFails
    ensures var p := addr + i + bs; var r := WriteLoop(m, addr, size, i + m.erasesize, bs, rs + Transferred(m, p));
      WriteLoop(m, addr, size, i, bs, rs) == r.(ops := [Erase(p), Write(p, m.erasesize, i)] + r.ops)
  {
  }

  lemma ReadLoopSkip(m: MtdInfo, addr: nat, size: nat, i: nat, bs: nat, rs: nat)
    requires i < size && addr + i + bs in m.badBlocks
    ensures var p := addr + i + bs; var r := ReadLoop(m, addr, size, i, bs + m.erasesize, rs);
      ReadLoop(m, addr, size, i, bs, rs) == r.(ops := [IsBad(p)] + r.ops)
  {
  }

  lemma ReadLoopReadStep(m: MtdInfo, addr: nat, size: nat, i: nat, bs: nat, rs: nat)
    requires i < size && addr + i + bs !in m.badBlocks
    ensures var p := addr + i + bs; var r := ReadLoop(m, addr, size, i + m.erasesize, bs, rs + Transferred(m, p));
      ReadLoop(m, addr, size, i, bs, rs) ==
        if p in m.readFails then Run(-1, bs, rs, [IsBad(p), Read(p, m.erasesize, i)])
        else r.(ops := [IsBad(p), Read(p, m.erasesize, i)] + r.ops)
  {
  }

  lemma ConcatAssoc(a: seq<Op>, b: seq<Op>, c: seq<Op>)
    ensures a + (b + c) == (a + b) + c
  {
  }

  /** Where a loop stands: `rest` is what remains of the run `whole` once `done` is issued. */
  predicate Remaining(whole: Run, done: seq<Op>, rest: Run)
  {
    whole.ret == rest.ret && whole.badsize == rest.badsize && whole.retsize == rest.retsize &&
    whole.ops == done + rest.ops
  }

  /** Issuing the first `step` of what remains leaves the rest of it to go. */
  lemma RemainingStep(whole: Run, done: seq<Op>, step: seq<Op>, rest: Run, next: Run)
    requires Remaining(whole, done, rest) && rest == next.(ops := step + next.ops)
    ensures Remaining(whole, done + step, next)
  {
    ConcatAssoc(done, step, next.ops);
  }

  /** Issuing all that remains ends the run. */
  lemma RemainingLast(whole: Run, done: seq<Op>, step: seq<Op>, rest: Run)
    requires Remaining(whole, done, rest) && rest.ops == step
    ensures whole == Run(rest.ret, rest.badsize, rest.retsize, done + step)
  {
  }

  /** Nothing remains at the end of the loop. */
  lemma RemainingEnd(whole: Run, done: seq<Op>, rest: Run)
    requires Remaining(whole, done, rest) && rest.ops == []
    ensures whole == Run(rest.ret, rest.badsize, rest.retsize, done)
  {
    assert done + [] == done;
  }

  /** A block whose erase fails and is marked bad: the same offset is retried one block further. */
  lemma WriteMarkRemains(m: MtdInfo, addr: nat, size: nat, i: nat, bs: nat, rs: nat, whole: Run, done: seq<Op>)
    requires i < size && addr + i + bs in m.eraseFails && addr + i + bs !in m.markFails
    requires Remaining(whole, done, WriteLoop(m, addr, size, i, bs, rs))
    ensures var p := addr + i + bs;
      Remaining(whole, done + [Erase(p), MarkBad(p)], WriteLoop(m, addr, size, i, bs + m.erasesize, rs))
  {
    var p := addr + i + bs;
    WriteLoopMarkStep(m, addr, size, i, bs, rs);
    RemainingStep(whole, done, [Erase(p), MarkBad(p)], WriteLoop(m, addr, size, i, bs, rs),
      WriteLoop(m, addr, size, i, bs + m.erasesize, rs));
  }

  /** A failed mark ends the write loop with -1. */
  lemma WriteMarkFailEnds(m: MtdInfo, addr: nat, size: nat, i: nat, bs: nat, rs: nat, whole: Run, done: seq<Op>)
    requires i < size && addr + i + bs in m.eraseFails && addr + i + bs in m.markFails
    requires Remaining(whole, done, WriteLoop(m, addr, size, i, bs, rs))
    ensures var p := addr + i + bs; whole == Run(-1, bs + m.erasesize, rs, done + [Erase(p), MarkBad(p)])
  {
    var p := addr + i + bs;
    WriteLoopMarkStep(m, addr, size, i, bs, rs);
    RemainingLast(whole, done, [Erase(p), MarkBad(p)], WriteLoop(m, addr, size, i, bs, rs));
  }

  /** A block that erases is written and the loop moves on by one erase unit. */
  lemma WriteBlockRemains(m: MtdInfo, addr: nat, size: nat, i: nat, bs: nat, rs: nat, whole: Run, done: seq<Op>)
    requires i < size && addr + i + bs !in m.eraseFails
    requires Remaining(whole, done, WriteLoop(m, addr, size, i, bs, rs))
    ensures var p := addr + i + bs;
      Remaining(whole, done + [Erase(p), Write(p, m.erasesize, i)],
        WriteLoop(m, addr, size, i + m.erasesize, bs, rs + Transferred(m, p)))
  {
    var p := addr + i + bs;
    WriteLoopAdvance(m, addr, size, i, bs, rs);
    RemainingStep(whole, done, [Erase(p), Write(p, m.erasesize, i)], WriteLoop(m, addr, size, i, bs, rs),
      WriteLoop(m, addr, size, i + m.erasesize, bs, rs + Transferred(m, p)));
  }

  /** A bad block is skipped: the loop goes on at the same offset, one block further. */
  lemma ReadSkipRemains(m: MtdInfo, addr: nat, size: nat, i: nat, bs: nat, rs: nat, whole: Run, done: seq<Op>)
    requires i < size && addr + i + bs in m.badBlocks
    requires Remaining(whole, done, ReadLoop(m, addr, size, i, bs, rs))
    ensures Remaining(whole, done + [IsBad(addr + i + bs)], ReadLoop(m, addr, size, i, bs + m.erasesize, rs))
  {
    ReadLoopSkip(m, addr, size, i, bs, rs);
    RemainingStep(whole, done, [IsBad(addr + i + bs)], ReadLoop(m, addr, size, i, bs, rs),
      ReadLoop(m, addr, size, i, bs + m.erasesize, rs));
  }

  /** A good block that reads moves the loop on by one erase unit. */
  lemma ReadBlockRemains(m: MtdInfo, addr: nat, size: nat, i: nat, bs: nat, rs: nat, whole: Run, done: seq<Op>)
    requires i < size && addr + i + bs !in m.badBlocks && addr + i + bs !in m.readFails
    requires Remaining(whole, done, ReadLoop(m, addr, size, i, bs, rs))
    ensures var p := addr + i + bs;
      Remaining(whole, done + [IsBad(p), Read(p, m.erasesize, i)],
        ReadLoop(m, addr, size, i + m.erasesize, bs, rs + Transferred(m, p)))
  {
    var p := addr + i + bs;
    ReadLoopReadStep(m, addr, size, i, bs, rs);
    RemainingStep(whole, done, [IsBad(p), Read(p, m.erasesize, i)], ReadLoop(m, addr, size, i, bs, rs),
      ReadLoop(m, addr, size, i + m.erasesize, bs, rs + Transferred(m, p)));
  }

  /** A failed read ends the loop with -1. */
  lemma ReadFailEnds(m: MtdInfo, addr: nat, size: nat, i: nat, bs: nat, rs: nat, whole: Run, done: seq<Op>)
    requires i < size && addr + i + bs !in m.badBlocks && addr + i + bs in m.readFails
    requires Remaining(whole, done, ReadLoop(m, addr, size, i, bs, rs))
    ensures var p := addr + i + bs; whole == Run(-1, bs, rs, done + [IsBad(p), Read(p, m.erasesize, i)])
  {
    var p := addr + i + bs;
    ReadLoopReadStep(m, addr, size, i, bs, rs);
    RemainingLast(whole, done, [IsBad(p), Read(p, m.erasesize, i)], ReadLoop(m, addr, size, i, bs, rs));
  }

  // ---- properties of the op streams ----

  /** Number of MarkBad calls in `ops`. */
  function Marks(ops: seq<Op>): nat
  {
    if ops == [] then 0 else (if ops[0].MarkBad? then 1 else 0) + Marks(ops[1..])
  }

  /** Number of IsBad calls in `ops` that found a bad block, given the device. */
  function Skips(m: MtdInfo, ops: seq<Op>): nat
  {
    if ops == [] then 0 else (if ops[0].IsBad? && ops[0].addr in m.badBlocks then 1 else 0) + Skips(m, ops[1..])
  }

  /** The buffer offsets of the writes in `ops`, in issue order. */
  function WriteOffsets(ops: seq<Op>): seq<nat>
  {
    if ops == [] then [] else (if ops[0].Write? then [ops[0].from] else []) + WriteOffsets(ops[1..])
  }

  /** The buffer offsets of the reads in `ops`, in issue order. */
  function ReadOffsets(ops: seq<Op>): seq<nat>
  {
    if ops == [] then [] else (if ops[0].Read? then [ops[0].into] else []) + ReadOffsets(ops[1..])
  }

  /** Logical offsets i, i + step, ... below size. */
  function Strides(i: nat, size: nat, step: pos): seq<nat>
    decreases size - i
  {
    if i >= size then [] else [i] + Strides(i + step, size, step)
  }

  /**
   * Every write in `ops` goes to addr + from + the skip in force at that
   * point, where the skip starts at `bs` and grows by `es` at each MarkBad.
   */
  predicate WritesMapped(ops: seq<Op>, addr: nat, bs: nat, es: nat)
  {
    ops == [] ||
    match ops[0]
      case MarkBad(_) => WritesMapped(ops[1..], addr, bs + es, es)
      case Write(p, _, from) => p == addr + from + bs && WritesMapped(ops[1..], addr, bs, es)
      case _ => WritesMapped(ops[1..], addr, bs, es)
  }

  /** The same for reads, where the skip grows at each IsBad that found a bad block. */
  predicate ReadsMapped(m: MtdInfo, ops: seq<Op>, addr: nat, bs: nat)
  {
    ops == [] ||
    match ops[0]
      case IsBad(q) => ReadsMapped(m, ops[1..], addr, if q in m.badBlocks then bs + m.erasesize else bs)
      case Read(p, _, into) => p == addr + into + bs && ReadsMapped(m, ops[1..], addr, bs)
      case _ => ReadsMapped(m, ops[1..], addr, bs)
  }

  /** Every write is immediately preceded by a successful erase of the same block. */
  predicate ErasedBeforeWrite(m: MtdInfo, ops: seq<Op>)
  {
    forall k | 0 <= k < |ops| && ops[k].Write? ::
      k > 0 && ops[k - 1] == Erase(ops[k].addr) && ops[k].addr !in m.eraseFails
  }

  /** No read touches a block the device reports bad. */
  predicate ReadsAvoidBad(m: MtdInfo, ops: seq<Op>)
  {
    forall k | 0 <= k < |ops| && ops[k].Read? :: ops[k].addr !in m.badBlocks
  }

  lemma MarksPair(a: Op, b: Op, t: seq<Op>)
    ensures Marks([a, b] + t) == (if a.MarkBad? then 1 else 0) + (if b.MarkBad? then 1 else 0) + Marks(t)
  {
    assert ([a, b] + t)[1..] == [b] + t && ([b] + t)[1..] == t;
  }

  lemma MulStep(e: nat, n: nat)
    ensures e * (1 + n) == e + e * n
  {
  }

  /** A step of two calls in front of a run whose skip is already accounted for. */
  lemma MarkedPair(whole: Run, r: Run, a: Op, b: Op, bs: nat, e: nat)
    requires whole == r.(ops := [a, b] + r.ops) && !a.MarkBad?
    requires r.badsize == bs + (if b.MarkBad? then e else 0) + e * Marks(r.ops)
    ensures whole.badsize == bs + e * Marks(whole.ops)
  {
    MarksPair(a, b, r.ops);
    if b.MarkBad? {
      MulStep(e, Marks(r.ops));
    }
  }

  /** The skip after a write loop is one erase block per block it marked bad. */
  lemma {:induction false} WriteLoopBadsize(m: MtdInfo, addr: nat, size: nat, i: nat, bs: nat, rs: nat)
    ensures WriteLoop(m, addr, size, i, bs, rs).badsize == bs + m.erasesize * Marks(WriteLoop(m, addr, size, i, bs, rs).ops)
    decreases size - i, Bound(m.eraseFails) - (addr + i + bs)
  {
    if i < size {
      var p := addr + i + bs;
      if p in m.eraseFails {
        WriteLoopMarkStep(m, addr, size, i, bs, rs);
        if p !in m.markFails {
          WriteLoopBadsize(m, addr, size, i, bs + m.erasesize, rs);
          MarkedPair(WriteLoop(m, addr, size, i, bs, rs), WriteLoop(m, addr, size, i, bs + m.erasesize, rs),
            Erase(p), MarkBad(p), bs, m.erasesize);
        } else {
          MarksPair(Erase(p), MarkBad(p), []);
          assert [Erase(p), MarkBad(p)] + [] == [Erase(p), MarkBad(p)];
        }
      } else {
        WriteLoopAdvance(m, addr, size, i, bs, rs);
        WriteLoopBadsize(m, addr, size, i + m.erasesize, bs, rs + Transferred(m, p));
        MarkedPair(WriteLoop(m, addr, size, i, bs, rs), WriteLoop(m, addr, size, i + m.erasesize, bs, rs + Transferred(m, p)),
          Erase(p), Write(p, m.erasesize, i), bs, m.erasesize);
      }
    }
  }

  lemma {:induction false} WriteLoopMapped(m: MtdInfo, addr: nat, size: nat, i: nat, bs: nat, rs: nat)
    ensures WritesMapped(WriteLoop(m, addr, size, i, bs, rs).ops, addr, bs, m.erasesize)
    decreases size - i, Bound(m.eraseFails) - (addr + i + bs)
  {
    if i < size {
      var p := addr + i + bs;
      var ops := WriteLoop(m, addr, size, i, bs, rs).ops;
      if p in m.eraseFails {
        if p !in m.markFails {
          WriteLoopMapped(m, addr, size, i, bs + m.erasesize, rs);
          assert ops[1..][1..] == WriteLoop(m, addr, size, i, bs + m.erasesize, rs).ops;
        } else {
          assert ops[1..][1..] == [];
        }
      } else {
        WriteLoopMapped(m, addr, size, i + m.erasesize, bs, rs + Transferred(m, p));
        assert ops[1..][1..] == WriteLoop(m, addr, size, i + m.erasesize, bs, rs + Transferred(m, p)).ops;
      }
    }
  }

  lemma {:induction false} WriteLoopErases(m: MtdInfo, addr: nat, size: nat, i: nat, bs: nat, rs: nat)
    ensures ErasedBeforeWrite(m, WriteLoop(m, addr, size, i, bs, rs).ops)
    decreases size - i, Bound(m.eraseFails) - (addr + i + bs)
  {
    if i < size {
      var p := addr + i + bs;
      var ops := WriteLoop(m, addr, size, i, bs, rs).ops;
      if p in m.eraseFails {
        if p !in m.markFails {
          WriteLoopErases(m, addr, size, i, bs + m.erasesize, rs);
          var rest := WriteLoop(m, addr, size, i, bs + m.erasesize, rs).ops;
          assert ops == [Erase(p), MarkBad(p)] + rest;
          forall k | 0 <= k < |ops| && ops[k].Write?
            ensures k > 0 && ops[k - 1] == Erase(ops[k].addr) && ops[k].addr !in m.eraseFails
          {
            assert k >= 2 && ops[k] == rest[k - 2];
            assert k - 2 > 0 && rest[k - 3] == Erase(rest[k - 2].addr);
          }
        }
      } else {
        WriteLoopErases(m, addr, size, i + m.erasesize, bs, rs + Transferred(m, p));
        var rest := WriteLoop(m, addr, size, i + m.erasesize, bs, rs + Transferred(m, p)).ops;
        assert ops == [Erase(p), Write(p, m.erasesize, i)] + rest;
        forall k | 0 <= k < |ops| && ops[k].Write?
          ensures k > 0 && ops[k - 1] == Erase(ops[k].addr) && ops[k].addr !in m.eraseFails
        {
          if k >= 2 {
            assert ops[k] == rest[k - 2];
            assert k - 2 > 0 && rest[k - 3] == Erase(rest[k - 2].addr);
          }
        }
      }
    }
  }

  /** A write loop that returns 0 wrote every logical erase unit of the request once, in order. */
  lemma {:induction false} WriteLoopCovers(m: MtdInfo, addr: nat, size: nat, i: nat, bs: nat, rs: nat)
    requires WriteLoop(m, addr, size, i, bs, rs).ret == 0
    ensures WriteOffsets(WriteLoop(m, addr, size, i, bs, rs).ops) == Strides(i, size, m.erasesize)
    decreases size - i, Bound(m.eraseFails) - (addr + i + bs)
  {
    if i < size {
      var p := addr + i + bs;
      var ops := WriteLoop(m, addr, size, i, bs, rs).ops;
      if p in m.eraseFails {
        WriteLoopCovers(m, addr, size, i, bs + m.erasesize, rs);
        assert ops[1..][1..] == WriteLoop(m, addr, size, i, bs + m.erasesize, rs).ops;
      } else {
        WriteLoopCovers(m, addr, size, i + m.erasesize, bs, rs + Transferred(m, p));
        assert ops[1..][1..] == WriteLoop(m, addr, size, i + m.erasesize, bs, rs + Transferred(m, p)).ops;
      }
    }
  }

  lemma {:induction false} ReadLoopMapped(m: MtdInfo, addr: nat, size: nat, i: nat, bs: nat, rs: nat)
    ensures ReadsMapped(m, ReadLoop(m, addr, size, i, bs, rs).ops, addr, bs)
    decreases size - i, Bound(m.badBlocks) - (addr + i + bs)
  {
    if i < size {
      var p := addr + i + bs;
      var ops := ReadLoop(m, addr, size, i, bs, rs).ops;
      if p in m.badBlocks {
        ReadLoopMapped(m, addr, size, i, bs + m.erasesize, rs);
        assert ops[1..] == ReadLoop(m, addr, size, i, bs + m.erasesize, rs).ops;
      } else if p in m.readFails {
        assert ops[1..][1..] == [];
      } else {
        ReadLoopMapped(m, addr, size, i + m.erasesize, bs, rs + Transferred(m, p));
        assert ops[1..][1..] == ReadLoop(m, addr, size, i + m.erasesize, bs, rs + Transferred(m, p)).ops;
      }
    }
  }

  /** Reads never touch a block the device reports bad. */
  lemma {:induction false} ReadLoopAvoidsBad(m: MtdInfo, addr: nat, size: nat, i: nat, bs: nat, rs: nat)
    ensures ReadsAvoidBad(m, ReadLoop(m, addr, size, i, bs, rs).ops)
    decreases size - i, Bound(m.badBlocks) - (addr + i + bs)
  {
    if i < size {
      var p := addr + i + bs;
      var ops := ReadLoop(m, addr, size, i, bs, rs).ops;
      if p in m.badBlocks {
        ReadLoopAvoidsBad(m, addr, size, i, bs + m.erasesize, rs);
        assert ops[1..] == ReadLoop(m, addr, size, i, bs + m.erasesize, rs).ops;
      } else if p in m.readFails {
        assert ops[1..][1..] == [];
      } else {
        ReadLoopAvoidsBad(m, addr, size, i + m.erasesize, bs, rs + Transferred(m, p));
        assert ops[1..][1..] == ReadLoop(m, addr, size, i + m.erasesize, bs, rs + Transferred(m, p)).ops;
      }
    }
  }

  lemma {:induction false} SkipsConcat(m: MtdInfo, a: seq<Op>, t: seq<Op>)
    ensures Skips(m, a + t) == Skips(m, a) + Skips(m, t)
    decreases |a|
  {
    if a != [] {
      assert (a + t)[1..] == a[1..] + t;
      SkipsConcat(m, a[1..], t);
    } else {
      assert a + t == t;
    }
  }

  lemma SkipsSingle(m: MtdInfo, o: Op)
    ensures Skips(m, [o]) == if o.IsBad? && o.addr in m.badBlocks then 1 else 0
  {
    assert [o][1..] == [];
  }

  /** A step of `k` skips in front of a run whose skip is already accounted for. */
  lemma SkippedStep(m: MtdInfo, whole: Run, r: Run, step: seq<Op>, k: nat, bs: nat)
    requires whole == r.(ops := step + r.ops) && Skips(m, step) == k && k <= 1
    requires r.badsize == bs + k * m.erasesize + m.erasesize * Skips(m, r.ops)
    ensures whole.badsize == bs + m.erasesize * Skips(m, whole.ops)
  {
    SkipsConcat(m, step, r.ops);
    if k == 1 {
      MulStep(m.erasesize, Skips(m, r.ops));
    }
  }

  /** The skip after a read loop is one erase block per bad block it met. */
  lemma {:induction false} ReadLoopBadsize(m: MtdInfo, addr: nat, size: nat, i: nat, bs: nat, rs: nat)
    ensures ReadLoop(m, addr, size, i, bs, rs).badsize == bs + m.erasesize * Skips(m, ReadLoop(m, addr, size, i, bs, rs).ops)
    decreases size - i, Bound(m.badBlocks) - (addr + i + bs)
  {
    if i < size {
      var p := addr + i + bs;
      if p in m.badBlocks {
        ReadLoopBadsize(m, addr, size, i, bs + m.erasesize, rs);
        ReadBadsizeSkip(m, addr, size, i, bs, rs);
      } else {
        if p !in m.readFails {
          ReadLoopBadsize(m, addr, size, i + m.erasesize, bs, rs + Transferred(m, p));
        }
        ReadBadsizeRead(m, addr, size, i, bs, rs);
      }
    }
  }

  /** ReadLoopBadsize across a bad block, given it for the rest of the loop. */
  lemma ReadBadsizeSkip(m: MtdInfo, addr: nat, size: nat, i: nat, bs: nat, rs: nat)
    requires i < size && addr + i + bs in m.badBlocks
    requires var r := ReadLoop(m, addr, size, i, bs + m.erasesize, rs);
      r.badsize == bs + m.erasesize + m.erasesize * Skips(m, r.ops)
    ensures ReadLoop(m, addr, size, i, bs, rs).badsize == bs + m.erasesize * Skips(m, ReadLoop(m, addr, size, i, bs, rs).ops)
  {
    var p := addr + i + bs;
    ReadLoopSkip(m, addr, size, i, bs, rs);
    SkipsSingle(m, IsBad(p));
    SkippedStep(m, ReadLoop(m, addr, size, i, bs, rs), ReadLoop(m, addr, size, i, bs + m.erasesize, rs), [IsBad(p)], 1, bs);
  }

  /** ReadLoopBadsize across a good block, given it for the rest of the loop when the read succeeds. */
  lemma ReadBadsizeRead(m: MtdInfo, addr: nat, size: nat, i: nat, bs: nat, rs: nat)
    requires i < size && addr + i + bs !in m.badBlocks
    requires var p := addr + i + bs; var r := ReadLoop(m, addr, size, i + m.erasesize, bs, rs + Transferred(m, p));
      p !in m.readFails ==> r.badsize == bs + m.erasesize * Skips(m, r.ops)
    ensures ReadLoop(m, addr, size, i, bs, rs).badsize == bs + m.erasesize * Skips(m, ReadLoop(m, addr, size, i, bs, rs).ops)
  {
    var p := addr + i + bs;
    ReadLoopReadStep(m, addr, size, i, bs, rs);
    var step := [IsBad(p), Read(p, m.erasesize, i)];
    SkipsSingle(m, Read(p, m.erasesize, i));
    SkipsConcat(m, [IsBad(p)], [Read(p, m.erasesize, i)]);
    SkipsSingle(m, IsBad(p));
    assert step == [IsBad(p)] + [Read(p, m.erasesize, i)];
    if p !in m.readFails {
      SkippedStep(m, ReadLoop(m, addr, size, i, bs, rs), ReadLoop(m, addr, size, i + m.erasesize, bs, rs + Transferred(m, p)), step, 0, bs);
    }
  }

  /** A read loop that returns 0 read every logical erase unit of the request once, in order. */
  lemma {:induction false} ReadLoopCovers(m: MtdInfo, addr: nat, size: nat, i: nat, bs: nat, rs: nat)
    requires ReadLoop(m, addr, size, i, bs, rs).ret == 0
    ensures ReadOffsets(ReadLoop(m, addr, size, i, bs, rs).ops) == Strides(i, size, m.erasesize)
    decreases size - i, Bound(m.badBlocks) - (addr + i + bs)
  {
    if i < size {
      var p := addr + i + bs;
      var ops := ReadLoop(m, addr, size, i, bs, rs).ops;
      if p in m.badBlocks {
        ReadLoopCovers(m, addr, size, i, bs + m.erasesize, rs);
        assert ops[1..] == ReadLoop(m, addr, size, i, bs + m.erasesize, rs).ops;
      } else {
        ReadLoopCovers(m, addr, size, i + m.erasesize, bs, rs + Transferred(m, p));
        assert ops[1..][1..] == ReadLoop(m, addr, size, i + m.erasesize, bs, rs + Transferred(m, p)).ops;
      }
    }
  }

  /** struct mtd_gl_desc: a flash device plus the running bad-block skip. */
  class MtdGlDesc {
    const mtd: MtdInfo
    var badsize: nat

    /** mtd_gl_init: the descriptor starts with no skip (calloc). */
    constructor (m: MtdInfo)
      ensures mtd == m && badsize == 0
    {
      mtd := m;
      badsize := 0;
    }

    /** mtd_gl_erase: erase one erase block at addr + badsize. */
    method EraseMapped(addr: nat) returns (ret: int)
      modifies mtd`ops
      ensures mtd.ops == old(mtd.ops) + [Erase(addr + badsize)]
      ensures ret == (if addr + badsize in mtd.eraseFails then -EIO else 0)
    {
      mtd.ops := mtd.ops + [Erase(addr + badsize)];
      ret := if addr + badsize in mtd.eraseFails then -EIO else 0;
    }

    /** mtd_gl_isbad: a block reported bad is added to the skip. */
    method IsBadMapped(addr: nat) returns (bad: bool)
      modifies this`badsize, mtd`ops
      ensures mtd.ops == old(mtd.ops) + [IsBad(addr + old(badsize))]
      ensures bad == (addr + old(badsize) in mtd.badBlocks)
      ensures badsize == old(badsize) + (if bad then mtd.erasesize else 0)
    {
      mtd.ops := mtd.ops + [IsBad(addr + badsize)];
      bad := addr + badsize in mtd.badBlocks;
      if bad {
        badsize := badsize + mtd.erasesize;
      }
    }

    /** mtd_gl_markbad: the skip grows whether or not the mark succeeds. */
    method MarkBadMapped(addr: nat) returns (ret: int)
      modifies this`badsize, mtd`ops
      ensures mtd.ops == old(mtd.ops) + [MarkBad(addr + old(badsize))]
      ensures ret == (if addr + old(badsize) in mtd.markFails then -1 else 0)
      ensures badsize == old(badsize) + mtd.erasesize
    {
      mtd.ops := mtd.ops + [MarkBad(addr + badsize)];
      ret := if addr + badsize in mtd.markFails then -1 else 0;
      badsize := badsize + mtd.erasesize;
    }

    /** mtd_gl_clearbad */
    method ClearBad()
      modifies this`badsize
      ensures badsize == 0
    {
      badsize := 0;
    }

    /** mtd_gl_write: write `size` bytes at logical `addr`, one erase unit at a time. */
    method WriteMapped(addr: nat, size: nat) returns (ret: int, retsize: nat)
      modifies this`badsize, mtd`ops
      ensures var r := WriteLoop(mtd, addr, size, 0, old(badsize), 0);
        ret == r.ret && retsize == r.retsize && badsize == r.badsize && mtd.ops == old(mtd.ops) + r.ops
    {
      retsize := 0;
      var i: nat := 0;
      ghost var done: seq<Op> := [];
      ghost var whole := WriteLoop(mtd, addr, size, 0, badsize, 0);
      while i < size
        invariant mtd.ops == old(mtd.ops) + done
        invariant Remaining(whole, done, WriteLoop(mtd, addr, size, i, badsize, retsize))
        decreases size - i, Bound(mtd.eraseFails) - (addr + i + badsize)
      {
        ghost var done0 := done;
        ghost var bs := badsize;
        var p := addr + i + badsize;
        var e := EraseMapped(addr + i);
        if e < 0 {
          var mk := MarkBadMapped(addr + i);
          ghost var step := [Erase(p), MarkBad(p)];
          ConcatAssoc(old(mtd.ops), done0, step);
          assert mtd.ops == old(mtd.ops) + (done0 + step);
          if mk < 0 {
            WriteMarkFailEnds(mtd, addr, size, i, bs, retsize, whole, done0);
            done := done + step;
            return -1, retsize;
          }
          WriteMarkRemains(mtd, addr, size, i, bs, retsize, whole, done0);
          done := done + step;
          continue;
        }
        var ws := mtd.WriteBlock(p, i);
        ghost var step := [Erase(p), Write(p, mtd.erasesize, i)];
        ConcatAssoc(old(mtd.ops), done0, step);
        assert mtd.ops == old(mtd.ops) + (done0 + step);
        WriteBlockRemains(mtd, addr, size, i, bs, retsize, whole, done0);
        done := done + step;
        retsize := retsize + ws;
        i := i + mtd.erasesize;
      }
      ret := 0;
      RemainingEnd(whole, done, WriteLoop(mtd, addr, size, i, badsize, retsize));
    }

    /** mtd_gl_read: read `size` bytes from logical `addr`, one erase unit at a time. */
    method ReadMapped(addr: nat, size: nat) returns (ret: int, retsize: nat)
      modifies this`badsize, mtd`ops
      ensures var r := ReadLoop(mtd, addr, size, 0, old(badsize), 0);
        ret == r.ret && retsize == r.retsize && badsize == r.badsize && mtd.ops == old(mtd.ops) + r.ops
    {
      retsize := 0;
      var i: nat := 0;
      ghost var done: seq<Op> := [];
      ghost var whole := ReadLoop(mtd, addr, size, 0, badsize, 0);
      while i < size
        invariant mtd.ops == old(mtd.ops) + done
        invariant Remaining(whole, done, ReadLoop(mtd, addr, size, i, badsize, retsize))
        decreases size - i, Bound(mtd.badBlocks) - (addr + i + badsize)
      {
        ghost var done0 := done;
        ghost var bs := badsize;
        var p := addr + i + badsize;
        var bad := IsBadMapped(addr + i);
        ConcatAssoc(old(mtd.ops), done0, [IsBad(p)]);
        if bad {
          ReadSkipRemains(mtd, addr, size, i, bs, retsize, whole, done0);
          done := done + [IsBad(p)];
          continue;
        }
        var rr, rs := mtd.ReadBlock(p, i);
        ghost var step := [IsBad(p), Read(p, mtd.erasesize, i)];
        ConcatAssoc(old(mtd.ops), done0, step);
        assert mtd.ops == old(mtd.ops) + (done0 + step);
        if rr < 0 {
          ReadFailEnds(mtd, addr, size, i, bs, retsize, whole, done0);
          done := done + step;
          return -1, retsize;
        }
        ReadBlockRemains(mtd, addr, size, i, bs, retsize, whole, done0);
        done := done + step;
        retsize := retsize + rs;
        i := i + mtd.erasesize;
      }
      ret := 0;
      RemainingEnd(whole, done, ReadLoop(mtd, addr, size, i, badsize, retsize));
    }

    /**
     * mtd_gl_partition_remain: the bytes of partition `part` after logical
     * offset `oip`, less the skip; computed in u64, so it wraps when the skip
     * and offset pass the partition end. A missing partition gives 0.
     */
    function Remain(oip: nat, part: int): (r: nat)
      reads this
      ensures r < U64
      ensures PartitionOf(mtd, part).None? ==> r == 0
      ensures PartitionOf(mtd, part).Some? && oip + badsize <= PartitionOf(mtd, part).value.size < U64 ==>
        r == PartitionOf(mtd, part).value.size - oip - badsize
      ensures r == PartitionRemain(mtd, oip, part, badsize)
    {
      PartitionRemain(mtd, oip, part, badsize)
    }

    /** mtd_gl_partition_offset: where partition `part` starts on the device. */
    function Offset(part: int): (r: nat)
      ensures PartitionOf(mtd, part).Some? ==> r == PartitionOf(mtd, part).value.offset
      ensures PartitionOf(mtd, part).None? ==> r == 0
    {
      match PartitionOf(mtd, part)
      case None => 0
      case Some(pt) => pt.offset
    }
  }

  /** mtd_gl_destroy: releasing a descriptor (NULL is ignored). */
  function Destroy(d: MtdGlDesc?): (released: set<MtdGlDesc>)
    ensures d == null ==> released == {}
    ensures d != null ==> released == {d}
  {
    if d == null then {} else {d}
  }

  /**
   * When the skip and offset stay inside the partition, offset, skip and
   * remain add up to the partition's physical end.
   */
  lemma RemainReachesPartitionEnd(d: MtdGlDesc, oip: nat, part: int)
    requires PartitionOf(d.mtd, part).Some?
    requires oip + d.badsize <= PartitionOf(d.mtd, part).value.size < U64
    ensures d.Offset(part) + oip + d.badsize + d.Remain(oip, part)
      == PartitionOf(d.mtd, part).value.offset + PartitionOf(d.mtd, part).value.size
  {
  }

  /** Past the partition end the u64 subtraction wraps to a huge remain. */
  lemma RemainWraps(d: MtdGlDesc, oip: nat, part: int)
    requires PartitionOf(d.mtd, part).Some?
    requires PartitionOf(d.mtd, part).value.size < oip + d.badsize <= PartitionOf(d.mtd, part).value.size + U64
    ensures d.Remain(oip, part) == U64 - (oip + d.badsize - PartitionOf(d.mtd, part).value.size)
  {
    var sz := PartitionOf(d.mtd, part).value.size;
    var k := oip + d.badsize - sz;
    assert sz - oip - d.badsize == -k;
    if k < U64 {
      assert (-k) % U64 == U64 - k;
    } else {
      assert (-k) % U64 == 0;
    }
  }
}

/**
 The scatter-gather engine of module/ata.c: reads are cut at list entries, at the
 16 KiB buffer and at the bounce buffer, and leave as a stream of messages.
 */
module Ata {
  import opened Common

  const BUFFER_SIZE: nat := 16384
  const CMD_PACKET_PAYLOAD_MAX: nat := 96
  const SG_ENTRY_SIZE: nat := 8
  const MAX_ATA_SIF_SG: nat := CMD_PACKET_PAYLOAD_MAX / SG_ENTRY_SIZE

  type Word = x: nat | x < 0x1_0000_0000

  function Wrap(x: int): Word {
    x % 0x1_0000_0000
  }

  datatype Entry = Entry(addr: Word, size: Word)

  /** The main processor's bounce buffer. */
  datatype BounceBuffer = BounceBuffer(addr: Word, size: Word)

  /**
   A read message: `data` goes by DMA to `at` in main memory, and the main processor is
   asked to copy `size` bytes from `src` to `dst`. The acknowledgement carries nothing.
   */
  datatype Message = Rd(src: Word, dst: Word, size: Word, at: Word, data: seq<bv8>) | Ack

  /** How far the disk has been read, and what the buffer holds. */
  datatype Dma = Dma(taken: nat, buf: seq<bv8>)

  /** Rounding up to 8 and to 16 bytes. */
  function Align8(x: nat): nat {
    (x + 7) / 8 * 8
  }

  function Align16(x: nat): nat {
    (x + 15) / 16 * 16
  }

  // ----- What one list of entries amounts to -----

  /**
   The bounce buffer takes pieces, each of which SIF DMA can round up to 16 bytes: it
   is of whole units of 16, or takes the whole buffer in one piece.
   */
  ghost predicate Usable(bb: BounceBuffer) {
    bb.size > 0 && (bb.size % 16 == 0 || bb.size >= BUFFER_SIZE)
  }

  function PieceSize(bb: BounceBuffer, left: nat): nat {
    Min(Min(left, BUFFER_SIZE), bb.size)
  }

  /** The messages for the buffer's bytes from `offset` up to `size`. */
  ghost function Pieces(buf: seq<bv8>, addr: nat, size: nat, bb: BounceBuffer, offset: nat): seq<Message>
    requires |buf| == BUFFER_SIZE && size <= BUFFER_SIZE && Usable(bb)
    requires offset < size ==> offset % 16 == 0
    decreases size - offset
  {
    if offset >= size then []
    else
      PieceFits(size, bb, offset);
      [Piece(buf, addr, size, bb, offset)]
      + Pieces(buf, addr, size, bb, offset + PieceSize(bb, size - offset))
  }

  ghost function Piece(buf: seq<bv8>, addr: nat, size: nat, bb: BounceBuffer, offset: nat): Message
    requires |buf| == BUFFER_SIZE && offset < size <= BUFFER_SIZE && Usable(bb) && offset % 16 == 0
  {
    var w := PieceSize(bb, size - offset);
    Rd(bb.addr, Wrap(addr + offset), w, bb.addr, buf[offset..offset + Align16(w)])
  }

  lemma {:induction false} PieceFits(size: nat, bb: BounceBuffer, offset: nat)
    requires offset < size <= BUFFER_SIZE && Usable(bb) && offset % 16 == 0
    ensures var w := PieceSize(bb, size - offset);
            && 0 < w <= Align16(w) <= bb.size && offset + Align16(w) <= BUFFER_SIZE
            && Align16(w) % 16 == 0 && Align16(w) < w + 16
            && offset + w <= size && (offset + w < size ==> (offset + w) % 16 == 0)
  {
  }

  lemma {:induction false} NextPiece(buf: seq<bv8>, addr: nat, size: nat, bb: BounceBuffer, offset: nat)
    requires |buf| == BUFFER_SIZE && offset < size <= BUFFER_SIZE && Usable(bb) && offset % 16 == 0
    ensures var w := PieceSize(bb, size - offset);
            && (offset + w < size ==> (offset + w) % 16 == 0)
            && Pieces(buf, addr, size, bb, offset) ==
               [Piece(buf, addr, size, bb, offset)] + Pieces(buf, addr, size, bb, offset + w)
  {
    PieceFits(size, bb, offset);
  }

  /** The disk's next bytes, in whole blocks of eight, at the start of the buffer. */
  ghost function Filled(platter: int -> bv8, d: Dma, size: nat): (r: Dma)
    requires |d.buf| == BUFFER_SIZE && size <= BUFFER_SIZE
    ensures |r.buf| == BUFFER_SIZE
  {
    var n := Align8(size);
    Dma(d.taken + n, seq(n, j => platter(d.taken + j)) + d.buf[n..])
  }

  ghost function EntryMessages(platter: int -> bv8, bb: BounceBuffer, e: Entry, d: Dma): seq<Message>
    requires |d.buf| == BUFFER_SIZE && Usable(bb)
    decreases e.size
  {
    if e.size == 0 then []
    else
      var w := Min(e.size, BUFFER_SIZE);
      var d' := Filled(platter, d, w);
      Pieces(d'.buf, e.addr, w, bb, 0) + EntryMessages(platter, bb, Entry(Wrap(e.addr + w), e.size - w), d')
  }

  ghost function EntryDma(platter: int -> bv8, e: Entry, d: Dma): (r: Dma)
    requires |d.buf| == BUFFER_SIZE
    ensures |r.buf| == BUFFER_SIZE
    decreases e.size
  {
    if e.size == 0 then d
    else
      var w := Min(e.size, BUFFER_SIZE);
      EntryDma(platter, Entry(Wrap(e.addr + w), e.size - w), Filled(platter, d, w))
  }

  /** The messages for a whole list, one entry after the other. */
  ghost function ListMessages(platter: int -> bv8, bb: BounceBuffer, es: seq<Entry>, d: Dma): seq<Message>
    requires |d.buf| == BUFFER_SIZE && Usable(bb)
    decreases |es|
  {
    if es == [] then []
    else EntryMessages(platter, bb, es[0], d) + ListMessages(platter, bb, es[1..], EntryDma(platter, es[0], d))
  }

  ghost function ListDma(platter: int -> bv8, es: seq<Entry>, d: Dma): (r: Dma)
    requires |d.buf| == BUFFER_SIZE
    ensures |r.buf| == BUFFER_SIZE
    decreases |es|
  {
    if es == [] then d else ListDma(platter, es[1..], EntryDma(platter, es[0], d))
  }

  /** An entry all of which has been moved. */
  function Finished(e: Entry): Entry {
    Entry(Wrap(e.addr + e.size), 0)
  }

  /** Moving some of an entry leaves the same end. */
  lemma {:induction false} SameEnd(e: Entry, moved: nat)
    requires moved <= e.size
    ensures Finished(Entry(Wrap(e.addr + moved), Wrap(e.size - moved))) == Finished(e)
    ensures Wrap(e.size - moved) == e.size - moved
  {
  }

  lemma {:induction false} EmptyEntry(platter: int -> bv8, bb: BounceBuffer, es: seq<Entry>, d: Dma)
    requires |d.buf| == BUFFER_SIZE && es != [] && es[0].size == 0
    ensures Usable(bb) ==> ListMessages(platter, bb, es, d) == ListMessages(platter, bb, es[1..], d)
    ensures ListDma(platter, es, d) == ListDma(platter, es[1..], d)
  {
  }

  /** Of `n` sends, `k` succeed before one fails. */
  ghost predicate Accepts(answers: int -> int, from: nat, n: nat, k: nat) {
    k <= n && (forall i :: from <= i < from + k ==> answers(i) >= 0) && (k < n ==> answers(from + k) < 0)
  }

  lemma {:induction false} AcceptsThen(answers: int -> int, from: nat, m: nat, at: nat, n: nat, k: nat)
    requires at == from + m && Accepts(answers, from, m, m) && Accepts(answers, at, n, k)
    ensures Accepts(answers, from, m + n, m + k)
  {
  }

  /** After a failure nothing more is tried. */
  lemma {:induction false} FailedAt(answers: int -> int, from: nat, m: nat, n: nat, k: nat)
    requires Accepts(answers, from, m, k) && k < m <= n
    ensures Accepts(answers, from, n, k)
  {
  }

  lemma {:induction false} AcceptsOne(answers: int -> int, from: nat)
    ensures Accepts(answers, from, 0, 0)
    ensures Accepts(answers, from, 1, if answers(from) < 0 then 0 else 1)
  {
  }

  lemma {:induction false} NoPieces(buf: seq<bv8>, addr: nat, size: nat, bb: BounceBuffer, offset: nat)
    requires |buf| == BUFFER_SIZE && size <= BUFFER_SIZE && Usable(bb) && offset >= size
    ensures Pieces(buf, addr, size, bb, offset) == []
  {
  }

  /** The DMA count register: blocks of 128 bytes if the size allows it, of 8 otherwise. */
  function Bcr(size: nat): nat {
    var blockSize := if size % 128 != 0 then 8 else 128;
    Align8(size) / blockSize * 0x1_0000 + blockSize / 4
  }

  /** Blocks times the words of a block. */
  function BcrBytes(bcr: nat): nat {
    bcr / 0x1_0000 * (bcr % 0x1_0000 * 4)
  }

  /** Either way the size rounded up to a multiple of 8 is moved, which the register can hold. */
  lemma {:induction false} DmaMovesAligned(size: nat)
    requires size <= BUFFER_SIZE
    ensures BcrBytes(Bcr(size)) == Align8(size) <= BUFFER_SIZE
    ensures Align8(size) % 8 == 0 && size <= Align8(size) < size + 8
    ensures Bcr(size) < 0x1_0000_0000
  {
    var blocks := Align8(size) / if size % 128 != 0 then 8 else 128;
    if size % 128 != 0 {
      assert Bcr(size) == blocks * 0x1_0000 + 2;
      assert Bcr(size) / 0x1_0000 == blocks;
    } else {
      assert size == size / 128 * 128;
      assert Align8(size) == size;
      assert Bcr(size) == blocks * 0x1_0000 + 32;
      assert Bcr(size) / 0x1_0000 == blocks;
    }
  }

  /** An entry shrinks by what was moved of it. */
  lemma {:induction false} FirstChunk(platter: int -> bv8, bb: BounceBuffer, es: seq<Entry>, d: Dma)
    requires |d.buf| == BUFFER_SIZE && Usable(bb) && es != [] && es[0].size > 0
    ensures var w := Min(es[0].size, BUFFER_SIZE);
            var d' := Filled(platter, d, w);
            var es' := [Entry(Wrap(es[0].addr + w), es[0].size - w)] + es[1..];
            && ListMessages(platter, bb, es, d) ==
               Pieces(d'.buf, es[0].addr, w, bb, 0) + ListMessages(platter, bb, es', d')
            && ListDma(platter, es, d) == ListDma(platter, es', d')
  {
    hide Pieces, Filled;
    var w := Min(es[0].size, BUFFER_SIZE);
    var d' := Filled(platter, d, w);
    var es' := [Entry(Wrap(es[0].addr + w), es[0].size - w)] + es[1..];
    assert es'[1..] == es[1..];
  }

  class AtaDev {
    const buffer: array<bv8>
    const entries: array<Entry>
    var count: nat
    var write: bool
    var index: nat
    /** The direction programmed last, if any. */
    var dir: Option<bool>
    /** The registers that set the direction, SPD_REG_IF_CTRL and SPD_REG_XFR_CTRL. */
    var ifCtrl: nat
    var xfrCtrl: nat
    /** The register at 0x38, which also holds the number of blocks ready for DMA. */
    var reg38: nat
    var bb: BounceBuffer
    /** The disk as a stream of bytes, and how much of it has been moved by DMA. */
    const platter: int -> bv8
    var taken: nat
    /** What the n-th send answers, how many were made, and the messages that left. */
    const answers: int -> int
    var attempts: nat
    var sent: seq<Message>

    ghost predicate Valid()
      reads this
    {
      && buffer.Length == BUFFER_SIZE && entries.Length == MAX_ATA_SIF_SG && count <= MAX_ATA_SIF_SG
      && (dir.Some? ==> Programmed(dir.value))
    }

    /** The registers select the direction; the lowest bit of the first, MWDMA or UDMA, is anyone's. */
    ghost predicate Programmed(write: bool)
      reads this`ifCtrl, this`xfrCtrl
    {
      && ifCtrl - ifCtrl % 2 == (if write then 0x4c else 0x4e)
      && xfrCtrl == (if write then 7 else 6)
    }

    constructor (platter: int -> bv8, answers: int -> int, ifCtrl: nat, xfrCtrl: nat, reg38: nat)
      ensures Valid() && fresh(buffer) && fresh(entries)
      ensures this.platter == platter && this.answers == answers
      ensures count == index == taken == attempts == 0 && sent == [] && dir == None && bb.size == 0
    {
      buffer := new bv8[BUFFER_SIZE](_ => 0);
      entries := new Entry[MAX_ATA_SIF_SG](_ => Entry(0, 0));
      count, write, index, dir := 0, false, 0, None;
      bb := BounceBuffer(0, 0);
      this.platter, this.answers := platter, answers;
      this.ifCtrl, this.xfrCtrl, this.reg38 := ifCtrl, xfrCtrl, reg38;
      taken, attempts, sent := 0, 0, [];
    }

    ghost function Read(): Dma
      reads this, buffer
    {
      Dma(taken, buffer[..])
    }

    /** sif_cmd_opt_data: the message leaves, or the send fails. */
    method Send(m: Message) returns (err: int)
      modifies this`attempts, this`sent
      ensures err == answers(old(attempts)) && attempts == old(attempts) + 1
      ensures sent == if err < 0 then old(sent) else old(sent) + [m]
    {
      err := answers(attempts);
      attempts := attempts + 1;
      if err >= 0 {
        sent := sent + [m];
      }
    }

    /** ata_direction: afterwards the registers select the direction, also when it returns at once. */
    method Direction(write: bool)
      requires Valid()
      modifies this`dir, this`ifCtrl, this`xfrCtrl, this`reg38
      ensures Valid() && dir == Some(write) && Programmed(write)
      ensures ifCtrl % 2 == old(ifCtrl) % 2
      ensures reg38 == if old(dir) == Some(write) then old(reg38) else 3
    {
      if dir == Some(write) {
        return;
      }
      dir := Some(write);
      reg38 := 3;
      var udma := ifCtrl % 2;
      ifCtrl := udma + if write then 0x4c else 0x4e;
      xfrCtrl := if write then 7 else 6;
    }

    /** ata_sif_cmd_bb. */
    method CmdBb(announced: BounceBuffer)
      modifies this`bb
      ensures bb == announced
    {
      bb := announced;
    }

    /** ata_read_dma: the disk's next bytes come to the start of the buffer. */
    method ReadDma(size: nat)
      requires Valid() && size <= BUFFER_SIZE
      modifies this`taken, buffer
      ensures Read() == Filled(platter, old(Read()), size)
    {
      DmaMovesAligned(size);
      var moved := BcrBytes(Bcr(size));
      hide Bcr, BcrBytes;
      ghost var was, from := buffer[..], taken;
      forall j | 0 <= j < moved {
        buffer[j] := platter(taken + j);
      }
      taken := taken + moved;
      assert buffer[..] == seq(moved, j => platter(from + j)) + was[moved..];
    }

    /** The messages `ms` went out, up to the first failure, which is the answer. */
    ghost predicate Sent(sent0: seq<Message>, attempts0: nat, ms: seq<Message>, n: nat, r: int)
      reads this
    {
      && n <= |ms| && sent == sent0 + ms[..n] && Accepts(answers, attempts0, |ms|, n)
      && if n == |ms| then r >= 0 && attempts == attempts0 + n
         else r < 0 && r == answers(attempts0 + n) && attempts == attempts0 + n + 1
    }

    /** ata_sif_cmd_rd_bounce: the buffer's bytes, a bounce buffer at a time. */
    method RdBounce(addr: Word, size: nat) returns (r: int, ghost n: nat)
      requires Valid() && Usable(bb) && size <= BUFFER_SIZE
      modifies this`attempts, this`sent
      ensures Sent(old(sent), old(attempts), Pieces(buffer[..], addr, size, bb, 0), n, r)
      ensures r >= 0 ==> r == size
    {
      hide Pieces, Accepts, Align16, PieceSize, Usable;
      ghost var buf := buffer[..];
      ghost var ms := Pieces(buf, addr, size, bb, 0);
      n := 0;
      var offset := 0;
      AcceptsOne(answers, attempts);
      while offset < size
        invariant offset < size ==> offset % 16 == 0
        invariant n <= |ms| && ms[n..] == Pieces(buf, addr, size, bb, offset)
        invariant sent == old(sent) + ms[..n] && attempts == old(attempts) + n
        invariant Accepts(answers, old(attempts), n, n)
      {
        var wanted := PieceSize(bb, size - offset);
        PieceFits(size, bb, offset);
        var rd := Rd(bb.addr, Wrap(addr + offset), wanted, bb.addr, buffer[offset..offset + Align16(wanted)]);
        NextPiece(buf, addr, size, bb, offset);
        assert ms[n..][0] == rd == ms[n];
        AcceptsOne(answers, attempts);
        AcceptsThen(answers, old(attempts), n, attempts, 1, if answers(attempts) < 0 then 0 else 1);
        var err := Send(rd);
        if err < 0 {
          FailedAt(answers, old(attempts), n + 1, |ms|, n);
          return err, n;
        }
        assert ms[n + 1..] == ms[n..][1..];
        n := n + 1;
        offset := offset + wanted;
      }
      NoPieces(buf, addr, size, bb, offset);
      return size, n;
    }

    /** ata_read. */
    method ReadChunk(addr: Word, size: nat) returns (r: int, ghost n: nat)
      requires Valid() && Usable(bb) && size <= BUFFER_SIZE
      modifies this`taken, buffer, this`attempts, this`sent
      ensures Read() == Filled(platter, old(Read()), size)
      ensures Sent(old(sent), old(attempts), Pieces(Read().buf, addr, size, bb, 0), n, r)
      ensures r >= 0 ==> r == size
    {
      hide Pieces, Filled;
      ReadDma(size);
      r, n := RdBounce(addr, size);
    }

    /** ata_write, which moves nothing. */
    method WriteChunk(addr: Word, size: nat) returns (r: int)
      ensures r == size
    {
      return size;
    }

    /** ata_sif_cmd_sg_ack. */
    method SgAck()
      modifies this`attempts, this`sent
      ensures attempts == old(attempts) + 1
      ensures sent == old(sent) + if answers(old(attempts)) < 0 then [] else [Ack]
    {
      var _ := Send(Ack);
    }

    /** The rest of the list can be worked off: it is for writing, or empty, or the bounce buffer can be used. */
    ghost predicate Ready()
      requires Valid()
      reads this, entries
    {
      write || Usable(bb) || forall i :: index <= i < count ==> entries[i].size == 0
    }

    /** The messages still to be sent for the list. */
    ghost function Remaining(): seq<Message>
      requires Valid() && index <= count
      reads this, buffer, entries
    {
      if write || !Usable(bb) then [] else ListMessages(platter, bb, entries[index..count], Read())
    }

    ghost function RemainingDma(): Dma
      requires Valid() && index <= count
      reads this, buffer, entries
    {
      if write then Read() else ListDma(platter, entries[index..count], Read())
    }

    /**
     One chunk of the entry at hand. The pieces read are the next of the remaining
     messages; on an error the rest of the list is skipped.
     */
    method TransferChunk() returns (ghost n: nat)
      requires Valid() && index < count && entries[index].size > 0 && (!write ==> Usable(bb))
      modifies this`index, this`taken, this`attempts, this`sent, buffer, entries
      ensures n <= |old(Remaining())| && sent == old(sent) + old(Remaining())[..n]
      ensures index == old(index) ==>
                && Accepts(answers, old(attempts), n, n) && attempts == old(attempts) + n
                && Remaining() == old(Remaining())[n..] && RemainingDma() == old(RemainingDma())
                && entries[index].size < old(entries[index].size)
                && Finished(entries[index]) == Finished(old(entries[index]))
                && (forall i :: 0 <= i < MAX_ATA_SIF_SG && i != index ==> entries[i] == old(entries[i]))
      ensures index != old(index) ==>
                && index == count && attempts == old(attempts) + n + 1
                && n < |old(Remaining())| && Accepts(answers, old(attempts), |old(Remaining())|, n)
    {
      hide Accepts, ListMessages, ListDma, Pieces, Filled, Usable, Finished, Wrap;
      ghost var es, d, ms := entries[index..count], Read(), Remaining();
      var slot := index;
      var e := entries[slot];
      var wanted := Min(e.size, BUFFER_SIZE);
      var actual: int;
      n := 0;
      AcceptsOne(answers, attempts);
      if write {
        actual := WriteChunk(e.addr, wanted);
      } else {
        assert ms == ListMessages(platter, bb, es, d) && es[0] == e;
        FirstChunk(platter, bb, es, d);
        actual, n := ReadChunk(e.addr, wanted);
        ghost var pieces := Pieces(Read().buf, e.addr, wanted, bb, 0);
        assert ms[..|pieces|] == pieces && ms[..n] == pieces[..n];
        if actual < 0 {
          FailedAt(answers, old(attempts), |pieces|, |ms|, n);
        }
      }
      if actual < 0 {
        index := count;
      }
      entries[slot] := Entry(Wrap(e.addr + actual), Wrap(e.size - actual));
      if actual >= 0 {
        SameEnd(e, wanted);
        assert entries[index..count] == [entries[index]] + es[1..];
      }
    }

    /** An empty entry has nothing to send. */
    method SkipEntry()
      requires Valid() && index < count && entries[index].size == 0
      modifies this`index
      ensures index == old(index) + 1
      ensures Remaining() == old(Remaining()) && RemainingDma() == old(RemainingDma())
    {
      ghost var es := entries[index..count];
      EmptyEntry(platter, bb, es, Read());
      index := index + 1;
      assert entries[index..count] == es[1..];
    }

    /** `n` of the messages `ms` went out, and the next one failed or is still to be tried. */
    ghost predicate Progress(sent0: seq<Message>, attempts0: nat, ms: seq<Message>, n: nat, failed: bool)
      reads this
    {
      && n <= |ms| && sent == sent0 + ms[..n]
      && if failed then n < |ms| && attempts == attempts0 + n + 1 && Accepts(answers, attempts0, |ms|, n)
         else attempts == attempts0 + n && Accepts(answers, attempts0, n, n)
    }

    /** The step that TransferChunk makes. */
    lemma {:induction false} MoreProgress(sent0: seq<Message>, attempts0: nat, ms: seq<Message>, n: nat,
                                          at: nat, k: nat, failed: bool)
      requires n + k <= |ms| && at == attempts0 + n && Accepts(answers, attempts0, n, n)
      requires sent == sent0 + ms[..n] + ms[n..][..k]
      requires if failed then k < |ms[n..]| && attempts == at + k + 1 && Accepts(answers, at, |ms[n..]|, k)
               else attempts == at + k && Accepts(answers, at, k, k)
      ensures Progress(sent0, attempts0, ms, n + k, failed)
    {
      assert ms[..n + k] == ms[..n] + ms[n..][..k];
      AcceptsThen(answers, attempts0, n, at, if failed then |ms[n..]| else k, k);
    }

    /** The loop of ata_sif_cmd_sg_transfer. Nothing failed: all entries are used up. */
    method TransferEntries() returns (ghost n: nat, ghost failed: bool)
      requires Valid() && index <= count && Ready()
      modifies this`index, this`taken, this`attempts, this`sent, buffer, entries
      ensures index == count && Progress(old(sent), old(attempts), old(Remaining()), n, failed)
      ensures !failed ==>
                && n == |old(Remaining())| && Read() == old(RemainingDma())
                && AllFinished(entries[..], old(entries[..]), old(index), count)
    {
      hide Accepts, Usable, UsedUp, AllFinished, Progress, Remaining, RemainingDma, Read, Finished;
      ghost var ms, es0 := Remaining(), entries[..];
      StartUsedUp(es0, index, count);
      n, failed := 0, false;
      NoProgress(ms);
      while index < count
        invariant Valid() && old(index) <= index <= count && Ready()
        invariant Progress(old(sent), old(attempts), ms, n, failed)
        invariant failed ==> index == count
        invariant !failed ==> n <= |ms| && Remaining() == ms[n..] && RemainingDma() == old(RemainingDma())
        invariant !failed ==> UsedUp(entries[..], es0, old(index), index, count)
        decreases count - index, if index < count then entries[index].size else 0
      {
        ghost var at, here, was := attempts, index, entries[..];
        ProgressSoFar(old(sent), old(attempts), ms, n);
        if entries[index].size == 0 {
          NoneLeftOf(was, es0, old(index), index, count);
          SkipEntry();
          ProgressKept(old(sent), old(attempts), ms, n);
          continue;
        }
        ghost var k := TransferChunk();
        failed := index != here;
        MoreProgress(old(sent), old(attempts), ms, n, at, k, failed);
        if !failed {
          MoreUsedUp(was, entries[..], es0, old(index), index, count);
        }
        n := n + k;
      }
      NothingRemains();
      if !failed {
        AllUsedUp(entries[..], es0, old(index), count);
      }
    }

    lemma {:induction false} NothingRemains()
      requires Valid() && index == count
      ensures Remaining() == [] && RemainingDma() == Read()
    {
      assert entries[index..count] == [];
    }

    lemma {:induction false} NoProgress(ms: seq<Message>)
      ensures Progress(sent, attempts, ms, 0, false)
    {
    }

    lemma {:induction false} ProgressSoFar(sent0: seq<Message>, attempts0: nat, ms: seq<Message>, n: nat)
      requires Progress(sent0, attempts0, ms, n, false)
      ensures n <= |ms| && sent == sent0 + ms[..n] && attempts == attempts0 + n && Accepts(answers, attempts0, n, n)
    {
    }

    lemma {:induction false} ProgressKept(sent0: seq<Message>, attempts0: nat, ms: seq<Message>, n: nat)
      requires n <= |ms| && sent == sent0 + ms[..n] && attempts == attempts0 + n && Accepts(answers, attempts0, n, n)
      ensures Progress(sent0, attempts0, ms, n, false)
    {
    }

    /** `n` of the messages `ms` went out, up to the first failure, and then the acknowledgement was tried. */
    ghost predicate Acknowledged(sent0: seq<Message>, attempts0: nat, ms: seq<Message>, n: nat)
      reads this`sent, this`attempts
    {
      var tries := if n < |ms| then n + 1 else n;
      && Accepts(answers, attempts0, |ms|, n) && attempts == attempts0 + tries + 1
      && sent == sent0 + ms[..n] + (if answers(attempts0 + tries) < 0 then [] else [Ack])
    }

    /**
     ata_sif_cmd_sg_transfer: the messages of the list go out until one fails, and the
     acknowledgement is tried once, last.
     */
    method SgTransfer() returns (ghost n: nat)
      requires Valid() && index <= count && Ready()
      modifies this`index, this`taken, this`attempts, this`sent, buffer, entries
      ensures index == count && Acknowledged(old(sent), old(attempts), old(Remaining()), n)
      ensures n == |old(Remaining())| ==>
                && Read() == old(RemainingDma())
                && AllFinished(entries[..], old(entries[..]), old(index), count)
    {
      hide Accepts, ListMessages, ListDma, Usable, AllFinished;
      ghost var failed: bool;
      n, failed := TransferEntries();
      SgAck();
    }

    /** ata_sif_cmd_sg: a list of transfers arrives, replaces the one before, and is worked off. */
    method CmdSg(count: nat, write: bool, list: seq<Entry>) returns (ghost n: nat)
      requires Valid() && count <= MAX_ATA_SIF_SG && count <= |list|
      requires write || Usable(bb) || forall i :: 0 <= i < count ==> list[i].size == 0
      modifies this`count, this`write, this`dir, this`ifCtrl, this`xfrCtrl, this`reg38
      modifies this`index, this`taken, this`attempts, this`sent, buffer, entries
      ensures Valid() && dir == Some(write) && Programmed(write)
      ensures this.count == count && this.write == write && index == count
      ensures var ms := if write || !Usable(bb) then [] else ListMessages(platter, bb, list[..count], old(Read()));
              && Acknowledged(old(sent), old(attempts), ms, n)
              && (n == |ms| ==>
                    && Read() == (if write then old(Read()) else ListDma(platter, list[..count], old(Read())))
                    && forall i :: 0 <= i < count ==> entries[i] == Finished(list[i]))
    {
      hide Acknowledged, ListMessages, ListDma, Usable, Finished, AllFinished, Programmed;
      ghost var d := Read();
      Direction(write);
      this.count, this.write := count, write;
      forall i | 0 <= i < count {
        entries[i] := list[i];
      }
      index := 0;
      ghost var es0 := entries[..];
      assert entries[index..count] == list[..count] && Read() == d;
      assert Remaining() == if write || !Usable(bb) then [] else ListMessages(platter, bb, list[..count], d);
      assert RemainingDma() == if write then d else ListDma(platter, list[..count], d);
      n := SgTransfer();
      if AllFinished(entries[..], es0, 0, count) {
        FinishedAt(entries[..], es0, count);
      }
    }
  }

  /** Entries from `from` to `index` are finished; the one at `index` is under way; the rest are as they were. */
  ghost predicate UsedUp(es: seq<Entry>, es0: seq<Entry>, from: nat, index: nat, count: nat) {
    && |es| == |es0| && from <= index <= count <= |es|
    && (forall i :: from <= i < index ==> es[i] == Finished(es0[i]))
    && (index < count ==> Finished(es[index]) == Finished(es0[index]))
    && (forall i :: 0 <= i < |es| && (i < from || i > index || i >= count) ==> es[i] == es0[i])
  }

  ghost predicate AllFinished(es: seq<Entry>, es0: seq<Entry>, from: nat, count: nat) {
    |es| == |es0| && forall i :: 0 <= i < |es| ==> es[i] == if from <= i < count then Finished(es0[i]) else es0[i]
  }

  lemma {:induction false} FinishedAt(es: seq<Entry>, es0: seq<Entry>, count: nat)
    requires AllFinished(es, es0, 0, count) && count <= |es|
    ensures |es| == |es0| && forall i :: 0 <= i < count ==> es[i] == Finished(es0[i])
  {
  }

  lemma {:induction false} StartUsedUp(es: seq<Entry>, index: nat, count: nat)
    requires index <= count <= |es|
    ensures UsedUp(es, es, index, index, count)
  {
  }

  lemma {:induction false} AllUsedUp(es: seq<Entry>, es0: seq<Entry>, from: nat, count: nat)
    requires UsedUp(es, es0, from, count, count)
    ensures AllFinished(es, es0, from, count)
  {
  }

  lemma {:induction false} NoneLeftOf(es: seq<Entry>, es0: seq<Entry>, from: nat, index: nat, count: nat)
    requires UsedUp(es, es0, from, index, count) && index < count && es[index].size == 0
    ensures UsedUp(es, es0, from, index + 1, count)
  {
  }

  lemma {:induction false} MoreUsedUp(es: seq<Entry>, es': seq<Entry>, es0: seq<Entry>,
                                      from: nat, index: nat, count: nat)
    requires UsedUp(es, es0, from, index, count) && index < count
    requires |es'| == |es| && Finished(es'[index]) == Finished(es[index])
    requires forall i :: 0 <= i < |es| && i != index ==> es'[i] == es[i]
    ensures UsedUp(es', es0, from, index, count)
  {
  }
}

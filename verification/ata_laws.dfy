/**
 What the messages of a scatter-gather list do to main memory, when the main processor
 copies each bounced piece to its destination (module/ata.c:280-285).
 */
module AtaLaws {
  import opened Ata

  type Memory = int -> bv8

  function Store(mem: Memory, at: int, data: seq<bv8>): Memory {
    a => if at <= a < at + |data| then data[a - at] else mem(a)
  }

  function Copy(mem: Memory, dst: int, src: int, size: int): Memory {
    a => if dst <= a < dst + size then mem(src + (a - dst)) else mem(a)
  }

  /** A message arrives: its data by DMA, then the copy it asks for. */
  function Deliver(mem: Memory, m: Message): Memory {
    match m
    case Rd(src, dst, size, at, data) => Copy(Store(mem, at, data), dst, src, size)
    case Ack => mem
  }

  function DeliverAll(mem: Memory, ms: seq<Message>): Memory
    decreases |ms|
  {
    if ms == [] then mem else DeliverAll(Deliver(mem, ms[0]), ms[1..])
  }

  lemma {:induction false} DeliverBoth(mem: Memory, xs: seq<Message>, ys: seq<Message>)
    ensures DeliverAll(mem, xs + ys) == DeliverAll(DeliverAll(mem, xs), ys)
    decreases |xs|
  {
    if xs == [] {
      assert xs + ys == ys;
    } else {
      assert (xs + ys)[1..] == xs[1..] + ys;
      DeliverBoth(Deliver(mem, xs[0]), xs[1..], ys);
    }
  }

  // ----- What is left alone -----

  predicate Within(a: int, addr: nat, size: nat) {
    addr <= a < addr + size
  }

  predicate Touches(m: Message, a: int) {
    m.Rd? && (Within(a, m.dst, m.size) || Within(a, m.at, |m.data|))
  }

  ghost predicate Untouched(ms: seq<Message>, a: int) {
    forall k :: 0 <= k < |ms| ==> !Touches(ms[k], a)
  }

  lemma {:induction false} UntouchedKept(mem: Memory, ms: seq<Message>, a: int)
    requires Untouched(ms, a)
    ensures DeliverAll(mem, ms)(a) == mem(a)
    decreases |ms|
  {
    if ms != [] {
      assert !Touches(ms[0], a);
      UntouchedKept(Deliver(mem, ms[0]), ms[1..], a);
    }
  }

  lemma {:induction false} UntouchedBoth(xs: seq<Message>, ys: seq<Message>, a: int)
    requires Untouched(xs, a) && Untouched(ys, a)
    ensures Untouched(xs + ys, a)
  {
  }

  /** Pieces write the target from `offset` on, and the bounce buffer. */
  lemma {:induction false} PiecesUntouched(buf: seq<bv8>, addr: nat, size: nat, bb: BounceBuffer, offset: nat, a: int)
    requires |buf| == BUFFER_SIZE && size <= BUFFER_SIZE && Usable(bb) && addr + size <= 0x1_0000_0000
    requires offset < size ==> offset % 16 == 0
    requires !(addr + offset <= a < addr + size) && !Within(a, bb.addr, bb.size)
    ensures Untouched(Pieces(buf, addr, size, bb, offset), a)
    decreases size - offset
  {
    if offset < size {
      hide PieceSize, Align16;
      PieceFits(size, bb, offset);
      assert !Touches(Piece(buf, addr, size, bb, offset), a);
      PiecesUntouched(buf, addr, size, bb, offset + PieceSize(bb, size - offset), a);
    }
  }

  lemma {:induction false} EntryUntouched(platter: int -> bv8, bb: BounceBuffer, e: Entry, d: Dma, a: int)
    requires |d.buf| == BUFFER_SIZE && Usable(bb) && e.addr + e.size <= 0x1_0000_0000
    requires !Within(a, e.addr, e.size) && !Within(a, bb.addr, bb.size)
    ensures Untouched(EntryMessages(platter, bb, e, d), a)
    decreases e.size
  {
    hide Filled, Pieces, Usable;
    if e.size > 0 {
      var w := if e.size < BUFFER_SIZE then e.size else BUFFER_SIZE;
      var d' := Filled(platter, d, w);
      var e' := Entry(Wrap(e.addr + w), e.size - w);
      PiecesUntouched(d'.buf, e.addr, w, bb, 0, a);
      EntryUntouched(platter, bb, e', d', a);
      UntouchedBoth(Pieces(d'.buf, e.addr, w, bb, 0), EntryMessages(platter, bb, e', d'), a);
    }
  }

  /** An address is in none of the targets nor the bounce buffer. */
  ghost predicate Elsewhere(es: seq<Entry>, bb: BounceBuffer, a: int) {
    !Within(a, bb.addr, bb.size) && forall i :: 0 <= i < |es| ==> !Within(a, es[i].addr, es[i].size)
  }

  /** Targets fit in the address space. */
  ghost predicate Addressable(es: seq<Entry>) {
    forall i :: 0 <= i < |es| ==> es[i].addr + es[i].size <= 0x1_0000_0000
  }

  lemma {:induction false} ListUntouched(platter: int -> bv8, bb: BounceBuffer, es: seq<Entry>, d: Dma, a: int)
    requires |d.buf| == BUFFER_SIZE && Usable(bb) && Addressable(es) && Elsewhere(es, bb, a)
    ensures Untouched(ListMessages(platter, bb, es, d), a)
    decreases |es|
  {
    hide EntryMessages, EntryDma;
    if es != [] {
      var d' := EntryDma(platter, es[0], d);
      EntryUntouched(platter, bb, es[0], d, a);
      ListUntouched(platter, bb, es[1..], d', a);
      UntouchedBoth(EntryMessages(platter, bb, es[0], d), ListMessages(platter, bb, es[1..], d'), a);
    }
  }

  /** However many of the messages got through, memory elsewhere is as it was. */
  lemma {:induction false} PartialTransferStaysInside(platter: int -> bv8, bb: BounceBuffer, es: seq<Entry>, d: Dma,
                                                      mem: Memory, n: nat, a: int)
    requires |d.buf| == BUFFER_SIZE && Usable(bb) && Addressable(es) && Elsewhere(es, bb, a)
    requires n <= |ListMessages(platter, bb, es, d)|
    ensures DeliverAll(mem, ListMessages(platter, bb, es, d)[..n])(a) == mem(a)
  {
    ListUntouched(platter, bb, es, d, a);
    UntouchedKept(mem, ListMessages(platter, bb, es, d)[..n], a);
  }

  // ----- What arrives -----

  predicate Apart(a: nat, m: nat, b: nat, n: nat) {
    m == 0 || n == 0 || a + m <= b || b + n <= a
  }

  /** One piece, at an address it is for. */
  lemma {:induction false} PieceArrives(buf: seq<bv8>, addr: nat, size: nat, bb: BounceBuffer, offset: nat,
                                        mem: Memory, a: int)
    requires |buf| == BUFFER_SIZE && offset < size <= BUFFER_SIZE && Usable(bb) && offset % 16 == 0
    requires addr + size <= 0x1_0000_0000
    requires addr + offset <= a < addr + offset + PieceSize(bb, size - offset)
    ensures Deliver(mem, Piece(buf, addr, size, bb, offset))(a) == buf[a - addr]
  {
    hide PieceSize, Align16;
    PieceFits(size, bb, offset);
    var m := Piece(buf, addr, size, bb, offset);
    assert m.dst == addr + offset;
    assert Store(mem, m.at, m.data)(m.src + (a - m.dst)) == m.data[a - m.dst];
  }

  /** The target from `offset` on ends up as the buffer. */
  lemma {:induction false} PiecesArrive(buf: seq<bv8>, addr: nat, size: nat, bb: BounceBuffer, offset: nat,
                                        mem: Memory, a: int)
    requires |buf| == BUFFER_SIZE && size <= BUFFER_SIZE && Usable(bb)
    requires addr + size <= 0x1_0000_0000 && Apart(addr, size, bb.addr, bb.size)
    requires offset < size ==> offset % 16 == 0
    requires addr + offset <= a < addr + size
    ensures DeliverAll(mem, Pieces(buf, addr, size, bb, offset))(a) == buf[a - addr]
    decreases size - offset
  {
    hide Piece, Deliver;
    var w := PieceSize(bb, size - offset);
    var m := Piece(buf, addr, size, bb, offset);
    PieceFits(size, bb, offset);
    NextPiece(buf, addr, size, bb, offset);
    var rest := Pieces(buf, addr, size, bb, offset + w);
    assert ([m] + rest)[1..] == rest;
    if a < addr + offset + w {
      PieceArrives(buf, addr, size, bb, offset, mem, a);
      PiecesUntouched(buf, addr, size, bb, offset + w, a);
      UntouchedKept(Deliver(mem, m), rest, a);
    } else {
      PiecesArrive(buf, addr, size, bb, offset + w, Deliver(mem, m), a);
    }
  }

  lemma {:induction false} FilledBytes(platter: int -> bv8, d: Dma, size: nat)
    requires |d.buf| == BUFFER_SIZE && size <= BUFFER_SIZE
    ensures var d' := Filled(platter, d, size);
            && d'.taken == d.taken + Align8(size)
            && (forall j :: 0 <= j < size ==> d'.buf[j] == platter(d.taken + j))
    ensures size == BUFFER_SIZE ==> Align8(size) == size
  {
  }

  /** A target ends up as the disk's next bytes. */
  lemma {:induction false} EntryArrives(platter: int -> bv8, bb: BounceBuffer, e: Entry, d: Dma, mem: Memory, a: int)
    requires |d.buf| == BUFFER_SIZE && Usable(bb) && e.addr + e.size <= 0x1_0000_0000
    requires Apart(e.addr, e.size, bb.addr, bb.size) && Within(a, e.addr, e.size)
    ensures DeliverAll(mem, EntryMessages(platter, bb, e, d))(a) == platter(d.taken + (a - e.addr))
    decreases e.size
  {
    hide Pieces, Deliver, Filled, DeliverAll, Untouched;
    var w := if e.size < BUFFER_SIZE then e.size else BUFFER_SIZE;
    FilledBytes(platter, d, w);
    var d' := Filled(platter, d, w);
    var e' := Entry(Wrap(e.addr + w), e.size - w);
    var first, rest := Pieces(d'.buf, e.addr, w, bb, 0), EntryMessages(platter, bb, e', d');
    var mem' := DeliverAll(mem, first);
    DeliverBoth(mem, first, rest);
    if a < e.addr + w {
      PiecesArrive(d'.buf, e.addr, w, bb, 0, mem, a);
      assert mem'(a) == d'.buf[a - e.addr];
      EntryUntouched(platter, bb, e', d', a);
      UntouchedKept(mem', rest, a);
    } else {
      assert w == BUFFER_SIZE && d'.taken == d.taken + w;
      EntryArrives(platter, bb, e', d', mem', a);
    }
  }

  /** Where the slice for entry `i` starts: each entry takes its size rounded up to 8. */
  function Position(es: seq<Entry>, i: nat): nat
    requires i <= |es|
  {
    if i == 0 then 0 else Position(es, i - 1) + Align8(es[i - 1].size)
  }

  lemma {:induction false} PositionAfterFirst(es: seq<Entry>, i: nat)
    requires 0 < i <= |es|
    ensures Position(es, i) == Align8(es[0].size) + Position(es[1..], i - 1)
    decreases i
  {
    hide Align8;
    if i > 1 {
      PositionAfterFirst(es, i - 1);
    }
  }

  lemma {:induction false} AlignedChunk(size: nat, w: nat)
    requires w <= size && (w == size || w == BUFFER_SIZE)
    ensures Align8(size) == Align8(w) + Align8(size - w)
  {
  }

  lemma {:induction false} EntryTakes(platter: int -> bv8, e: Entry, d: Dma)
    requires |d.buf| == BUFFER_SIZE
    ensures EntryDma(platter, e, d).taken == d.taken + Align8(e.size)
    decreases e.size
  {
    if e.size > 0 {
      hide Filled, Align8, Wrap;
      var w := if e.size < BUFFER_SIZE then e.size else BUFFER_SIZE;
      FilledBytes(platter, d, w);
      EntryTakes(platter, Entry(Wrap(e.addr + w), e.size - w), Filled(platter, d, w));
      AlignedChunk(e.size, w);
    } else {
      assert Align8(0) == 0;
    }
  }

  /** The list a caller may pass: targets in memory, apart from each other and from the bounce buffer. */
  ghost predicate GoodList(es: seq<Entry>, bb: BounceBuffer) {
    && Addressable(es)
    && (forall i :: 0 <= i < |es| ==> Apart(es[i].addr, es[i].size, bb.addr, bb.size))
    && (forall i, j :: 0 <= i < j < |es| ==> Apart(es[i].addr, es[i].size, es[j].addr, es[j].size))
  }

  lemma {:induction false} ListArrives(platter: int -> bv8, bb: BounceBuffer, es: seq<Entry>, d: Dma,
                                       mem: Memory, i: nat, a: int)
    requires |d.buf| == BUFFER_SIZE && Usable(bb) && GoodList(es, bb)
    requires i < |es| && Within(a, es[i].addr, es[i].size)
    ensures DeliverAll(mem, ListMessages(platter, bb, es, d))(a) ==
            platter(d.taken + Position(es, i) + (a - es[i].addr))
    decreases |es|
  {
    hide EntryMessages, EntryDma, Deliver;
    var first, d' := EntryMessages(platter, bb, es[0], d), EntryDma(platter, es[0], d);
    var rest := ListMessages(platter, bb, es[1..], d');
    var mem' := DeliverAll(mem, first);
    DeliverBoth(mem, first, rest);
    if i == 0 {
      EntryArrives(platter, bb, es[0], d, mem, a);
      RestElsewhere(es, bb, a);
      ListUntouched(platter, bb, es[1..], d', a);
      UntouchedKept(mem', rest, a);
    } else {
      EntryTakes(platter, es[0], d);
      PositionAfterFirst(es, i);
      RestGood(es, bb);
      ListArrives(platter, bb, es[1..], d', mem', i - 1, a);
    }
  }

  lemma {:induction false} RestGood(es: seq<Entry>, bb: BounceBuffer)
    requires GoodList(es, bb) && es != []
    ensures GoodList(es[1..], bb)
  {
    var r := es[1..];
    assert forall i :: 0 <= i < |r| ==> r[i] == es[i + 1];
  }

  lemma {:induction false} RestElsewhere(es: seq<Entry>, bb: BounceBuffer, a: int)
    requires GoodList(es, bb) && es != [] && Within(a, es[0].addr, es[0].size)
    ensures Elsewhere(es[1..], bb, a) && Addressable(es[1..])
  {
    RestGood(es, bb);
    forall i | 0 <= i < |es[1..]|
      ensures !Within(a, es[1..][i].addr, es[1..][i].size)
    {
      assert Apart(es[0].addr, es[0].size, es[i + 1].addr, es[i + 1].size);
    }
  }

  /** A target equals the disk from a position on. */
  ghost predicate Holds(mem: Memory, e: Entry, platter: int -> bv8, from: nat) {
    forall a :: Within(a, e.addr, e.size) ==> mem(a) == platter(from + (a - e.addr))
  }

  /**
   The whole list, delivered: each target equals its slice of the disk stream, memory
   outside the targets and the bounce buffer is as it was, and the disk has advanced by
   the sizes rounded up to 8.
   */
  lemma {:induction false} ScatterGather(platter: int -> bv8, bb: BounceBuffer, es: seq<Entry>, d: Dma, mem: Memory)
    requires |d.buf| == BUFFER_SIZE && Usable(bb) && GoodList(es, bb)
    ensures var mem' := DeliverAll(mem, ListMessages(platter, bb, es, d));
            && (forall i :: 0 <= i < |es| ==> Holds(mem', es[i], platter, d.taken + Position(es, i)))
            && (forall a :: Elsewhere(es, bb, a) ==> mem'(a) == mem(a))
    ensures ListDma(platter, es, d).taken == d.taken + Position(es, |es|)
  {
    hide ListMessages, Elsewhere, GoodList, ListDma, Holds, Position;
    var ms := ListMessages(platter, bb, es, d);
    var mem' := DeliverAll(mem, ms);
    forall i | 0 <= i < |es|
      ensures Holds(mem', es[i], platter, d.taken + Position(es, i))
    {
      TargetHolds(platter, bb, es, d, mem, i);
    }
    forall a | Elsewhere(es, bb, a)
      ensures mem'(a) == mem(a)
    {
      GoodIsAddressable(es, bb);
      ListUntouched(platter, bb, es, d, a);
      UntouchedKept(mem, ms, a);
    }
    ListTakes(platter, es, d);
  }

  lemma {:induction false} TargetHolds(platter: int -> bv8, bb: BounceBuffer, es: seq<Entry>, d: Dma,
                                       mem: Memory, i: nat)
    requires |d.buf| == BUFFER_SIZE && Usable(bb) && GoodList(es, bb) && i < |es|
    ensures Holds(DeliverAll(mem, ListMessages(platter, bb, es, d)), es[i], platter, d.taken + Position(es, i))
  {
    hide ListMessages, GoodList, Position, DeliverAll;
    forall a | Within(a, es[i].addr, es[i].size)
      ensures DeliverAll(mem, ListMessages(platter, bb, es, d))(a) ==
              platter(d.taken + Position(es, i) + (a - es[i].addr))
    {
      ListArrives(platter, bb, es, d, mem, i, a);
    }
  }

  lemma {:induction false} GoodIsAddressable(es: seq<Entry>, bb: BounceBuffer)
    requires GoodList(es, bb)
    ensures Addressable(es)
  {
  }

  lemma {:induction false} ListTakes(platter: int -> bv8, es: seq<Entry>, d: Dma)
    requires |d.buf| == BUFFER_SIZE
    ensures ListDma(platter, es, d).taken == d.taken + Position(es, |es|)
    decreases |es|
  {
    hide Align8, EntryDma;
    if es != [] {
      EntryTakes(platter, es[0], d);
      ListTakes(platter, es[1..], EntryDma(platter, es[0], d));
      PositionAfterFirst(es, |es|);
    }
  }

  /** The next slice starts where slice `i` ends. */
  predicate Follows(es: seq<Entry>, i: nat)
    requires i < |es|
  {
    Position(es, i + 1) == Position(es, i) + es[i].size
  }

  /** The slices are consecutive exactly when all sizes but the last are multiples of 8. */
  lemma {:induction false} SlicesConsecutive(es: seq<Entry>)
    ensures (forall i :: 0 <= i < |es| - 1 ==> Follows(es, i))
       <==> (forall i :: 0 <= i < |es| - 1 ==> es[i].size % 8 == 0)
  {
    forall i | 0 <= i < |es| - 1
      ensures Follows(es, i) <==> es[i].size % 8 == 0
    {
      RoundedUp(es[i].size);
    }
    hide Follows;
    assert forall i :: 0 <= i < |es| - 1 && es[i].size % 8 == 0 ==> Follows(es, i);
  }

  lemma {:induction false} RoundedUp(x: nat)
    ensures Align8(x) == x <==> x % 8 == 0
  {
  }

  /** Where no send fails, all messages go out. */
  lemma {:induction false} NothingFails(answers: int -> int, from: nat, n: nat, k: nat)
    requires Accepts(answers, from, n, k) && forall i :: answers(i) >= 0
    ensures k == n
  {
    assert answers(from + k) >= 0;
  }

  /**
   Where no send fails, what leaves is every message and then one acknowledgement, and
   when that arrives each target equals its slice of the disk.
   */
  lemma {:induction false} ArrivedWhenAcknowledged(platter: int -> bv8, bb: BounceBuffer, es: seq<Entry>, d: Dma,
                                                   mem: Memory, answers: int -> int, from: nat, n: nat)
    requires |d.buf| == BUFFER_SIZE && Usable(bb) && GoodList(es, bb) && forall i :: answers(i) >= 0
    requires Accepts(answers, from, |ListMessages(platter, bb, es, d)|, n)
    ensures var left := ListMessages(platter, bb, es, d)[..n] + [Ack];
            var mem' := DeliverAll(mem, left);
            && left == ListMessages(platter, bb, es, d) + [Ack]
            && Ack !in ListMessages(platter, bb, es, d)
            && (forall i :: 0 <= i < |es| ==> Holds(mem', es[i], platter, d.taken + Position(es, i)))
  {
    hide ListMessages, GoodList, Holds, Position, Accepts, DeliverAll, Usable, ListDma;
    var ms := ListMessages(platter, bb, es, d);
    NothingFails(answers, from, |ms|, n);
    assert ms[..n] == ms;
    NoAcks(platter, bb, es, d);
    ScatterGather(platter, bb, es, d, mem);
    AckDeliversNothing(mem, ms);
  }

  lemma {:induction false} AckDeliversNothing(mem: Memory, ms: seq<Message>)
    ensures DeliverAll(mem, ms + [Ack]) == DeliverAll(mem, ms)
  {
    DeliverBoth(mem, ms, [Ack]);
    var after := DeliverAll(mem, ms);
    assert [Ack][1..] == [] && DeliverAll(after, [Ack]) == Deliver(after, Ack);
  }

  lemma {:induction false} NoAcks(platter: int -> bv8, bb: BounceBuffer, es: seq<Entry>, d: Dma)
    requires |d.buf| == BUFFER_SIZE && Usable(bb)
    ensures Ack !in ListMessages(platter, bb, es, d)
    decreases |es|
  {
    if es != [] {
      EntryNoAcks(platter, bb, es[0], d);
      NoAcks(platter, bb, es[1..], EntryDma(platter, es[0], d));
    }
  }

  lemma {:induction false} EntryNoAcks(platter: int -> bv8, bb: BounceBuffer, e: Entry, d: Dma)
    requires |d.buf| == BUFFER_SIZE && Usable(bb)
    ensures Ack !in EntryMessages(platter, bb, e, d)
    decreases e.size
  {
    hide Filled;
    if e.size > 0 {
      var w := if e.size < BUFFER_SIZE then e.size else BUFFER_SIZE;
      var d' := Filled(platter, d, w);
      PiecesNoAcks(d'.buf, e.addr, w, bb, 0);
      EntryNoAcks(platter, bb, Entry(Wrap(e.addr + w), e.size - w), d');
    }
  }

  lemma {:induction false} PiecesNoAcks(buf: seq<bv8>, addr: nat, size: nat, bb: BounceBuffer, offset: nat)
    requires |buf| == BUFFER_SIZE && size <= BUFFER_SIZE && Usable(bb)
    requires offset < size ==> offset % 16 == 0
    ensures Ack !in Pieces(buf, addr, size, bb, offset)
    decreases size - offset
  {
    if offset < size {
      PieceFits(size, bb, offset);
      PiecesNoAcks(buf, addr, size, bb, offset + PieceSize(bb, size - offset));
    }
  }

  // ----- What SIF DMA requires -----

  /**
   The data goes to the bounce buffer and is of whole units of 16 bytes, no more of them
   than the piece needs; main copies the piece from there.
   */
  ghost predicate SuitsSifDma(m: Message, bb: BounceBuffer) {
    && m.Rd? && m.at == bb.addr && m.src == bb.addr
    && |m.data| % 16 == 0 && m.size <= |m.data| < m.size + 16 && |m.data| <= bb.size
  }

  lemma {:induction false} PiecesSuit(buf: seq<bv8>, addr: nat, size: nat, bb: BounceBuffer, offset: nat)
    requires |buf| == BUFFER_SIZE && size <= BUFFER_SIZE && Usable(bb)
    requires offset < size ==> offset % 16 == 0
    ensures forall m :: m in Pieces(buf, addr, size, bb, offset) ==> SuitsSifDma(m, bb)
    decreases size - offset
  {
    hide PieceSize, Usable, Align16;
    if offset < size {
      PieceFits(size, bb, offset);
      PiecesSuit(buf, addr, size, bb, offset + PieceSize(bb, size - offset));
    }
  }

  lemma {:induction false} EntrySuits(platter: int -> bv8, bb: BounceBuffer, e: Entry, d: Dma)
    requires |d.buf| == BUFFER_SIZE && Usable(bb)
    ensures forall m :: m in EntryMessages(platter, bb, e, d) ==> SuitsSifDma(m, bb)
    decreases e.size
  {
    hide SuitsSifDma, Pieces, Filled, Usable;
    if e.size > 0 {
      var w := if e.size < BUFFER_SIZE then e.size else BUFFER_SIZE;
      var d' := Filled(platter, d, w);
      PiecesSuit(d'.buf, e.addr, w, bb, 0);
      EntrySuits(platter, bb, Entry(Wrap(e.addr + w), e.size - w), d');
    }
  }

  /** Every message of every list is one that SIF DMA can carry and the bounce buffer can hold. */
  lemma {:induction false} ListSuits(platter: int -> bv8, bb: BounceBuffer, es: seq<Entry>, d: Dma)
    requires |d.buf| == BUFFER_SIZE && Usable(bb)
    ensures forall m :: m in ListMessages(platter, bb, es, d) ==> SuitsSifDma(m, bb)
    decreases |es|
  {
    hide SuitsSifDma, EntryMessages, EntryDma, Usable;
    if es != [] {
      EntrySuits(platter, bb, es[0], d);
      ListSuits(platter, bb, es[1..], EntryDma(platter, es[0], d));
    }
  }
}

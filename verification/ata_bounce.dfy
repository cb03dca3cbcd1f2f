/**
 Which bounce buffers the loop of ata_sif_cmd_rd_bounce (module/ata.c:161-188) can
 use: when it ends, and when its pieces stay inside the buffers.
 */
module AtaBounce {
  import opened Common
  import opened Ata

  /** The loop's offset after some turns. */
  function OffsetAfter(bb: BounceBuffer, size: nat, turns: nat): nat {
    if turns == 0 then 0
    else
      var offset := OffsetAfter(bb, size, turns - 1);
      if offset >= size then offset else offset + PieceSize(bb, size - offset)
  }

  ghost predicate LoopEnds(bb: BounceBuffer, size: nat) {
    exists turns: nat :: OffsetAfter(bb, size, turns) >= size
  }

  lemma {:induction false} OffsetStays(bb: BounceBuffer, size: nat, turns: nat)
    requires bb.size == 0
    ensures OffsetAfter(bb, size, turns) == 0
  {
    if turns > 0 {
      OffsetStays(bb, size, turns - 1);
    }
  }

  lemma {:induction false} OffsetGrows(bb: BounceBuffer, size: nat, turns: nat)
    requires bb.size > 0
    ensures OffsetAfter(bb, size, turns) >= Min(turns, size)
  {
    if turns > 0 {
      OffsetGrows(bb, size, turns - 1);
    }
  }

  /** The loop ends if and only if there is nothing to send or a bounce buffer of some size. */
  lemma {:induction false} LoopEndsExactly(bb: BounceBuffer, size: nat)
    ensures LoopEnds(bb, size) <==> size == 0 || bb.size > 0
  {
    if bb.size > 0 {
      OffsetGrows(bb, size, size);
    } else if size == 0 {
      assert OffsetAfter(bb, size, 0) >= size;
    } else {
      forall turns: nat
        ensures OffsetAfter(bb, size, turns) < size
      {
        OffsetStays(bb, size, turns);
      }
    }
  }

  /** No chunk of the list keeps its loop from ending. */
  ghost predicate ListEnds(bb: BounceBuffer, es: seq<Entry>) {
    forall i :: 0 <= i < |es| ==> LoopEnds(bb, Min(es[i].size, BUFFER_SIZE))
  }

  lemma {:induction false} ListEndsExactly(bb: BounceBuffer, es: seq<Entry>)
    ensures ListEnds(bb, es) <==> bb.size > 0 || forall i :: 0 <= i < |es| ==> es[i].size == 0
  {
    forall i | 0 <= i < |es|
      ensures LoopEnds(bb, Min(es[i].size, BUFFER_SIZE)) <==> es[i].size == 0 || bb.size > 0
    {
      LoopEndsExactly(bb, Min(es[i].size, BUFFER_SIZE));
    }
  }

  /** A read list that arrives before any bounce buffer is announced does not end. */
  lemma {:induction false} UnannouncedNeverEnds(e: Entry)
    requires e.size > 0
    ensures !ListEnds(BounceBuffer(0, 0), [e])
  {
    ListEndsExactly(BounceBuffer(0, 0), [e]);
    assert [e][0].size > 0;
  }

  /** Each piece, rounded up to 16, is read from inside the buffer and fits the bounce buffer. */
  ghost predicate PiecesFit(bb: BounceBuffer, size: nat) {
    forall turns: nat ::
      var offset := OffsetAfter(bb, size, turns);
      offset < size ==>
        var w := Align16(PieceSize(bb, size - offset));
        offset + w <= BUFFER_SIZE && w <= bb.size
  }

  lemma {:induction false} OffsetAligned(bb: BounceBuffer, size: nat, turns: nat)
    requires Usable(bb) && size <= BUFFER_SIZE
    ensures var offset := OffsetAfter(bb, size, turns);
            offset <= size && (offset < size ==> offset % 16 == 0)
  {
    if turns > 0 {
      OffsetAligned(bb, size, turns - 1);
      var offset := OffsetAfter(bb, size, turns - 1);
      if offset < size {
        PieceFits(size, bb, offset);
      }
    }
  }

  lemma {:induction false} UsableFits(bb: BounceBuffer, size: nat)
    requires Usable(bb) && size <= BUFFER_SIZE
    ensures PiecesFit(bb, size)
  {
    forall turns: nat
      ensures var offset := OffsetAfter(bb, size, turns);
              offset < size ==>
                var w := Align16(PieceSize(bb, size - offset));
                offset + w <= BUFFER_SIZE && w <= bb.size
    {
      OffsetAligned(bb, size, turns);
      var offset := OffsetAfter(bb, size, turns);
      if offset < size {
        PieceFits(size, bb, offset);
      }
    }
  }

  lemma {:induction false} EmptyFits(bb: BounceBuffer, size: nat)
    requires bb.size == 0 && size <= BUFFER_SIZE
    ensures PiecesFit(bb, size)
  {
    forall turns: nat
      ensures OffsetAfter(bb, size, turns) == 0
    {
      OffsetStays(bb, size, turns);
    }
  }

  /** A chunk of the size of an odd bounce buffer is rounded up beyond it. */
  lemma {:induction false} OddDoesNotFit(bb: BounceBuffer)
    requires bb.size % 16 != 0 && bb.size < BUFFER_SIZE
    ensures !PiecesFit(bb, bb.size)
  {
    assert OffsetAfter(bb, bb.size, 0) == 0;
    assert Align16(PieceSize(bb, bb.size)) > bb.size;
  }

  /**
   All pieces of all chunks fit if and only if the bounce buffer is of whole units of 16
   bytes or takes a chunk in one piece.
   */
  lemma {:induction false} FitExactly(bb: BounceBuffer)
    ensures (forall size :: 0 <= size <= 16384 ==> PiecesFit(bb, size)) <==> bb.size % 16 == 0 || bb.size >= 16384
  {
    hide PiecesFit;
    if bb.size % 16 == 0 || bb.size >= BUFFER_SIZE {
      forall size | 0 <= size <= BUFFER_SIZE
        ensures PiecesFit(bb, size)
      {
        if bb.size == 0 {
          EmptyFits(bb, size);
        } else {
          UsableFits(bb, size);
        }
      }
    } else {
      OddDoesNotFit(bb);
    }
  }
}

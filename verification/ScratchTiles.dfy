/** The interleaved tile store of the collision scratch: one device buffer holds the records of
    every candidate, TILE_WIDTH candidates to a tile. */
module ScratchTiles {

  import opened Arithmetic
  import opened Common

  const TILE_WIDTH: nat := 32

  /** Tiles per record index; the addition is 32 bits wide. */
  function TileStride(stride: Word): nat {
    (stride + TILE_WIDTH - 1) % WORDS / TILE_WIDTH
  }

  datatype Cell = Cell(tile: nat, lane: nat)

  /** The tile and lane that SearchCollisionAt addresses. */
  function CellOf(stride: Word, slot: nat, index: nat): Cell {
    Cell(index * TileStride(stride) + slot / TILE_WIDTH, slot % TILE_WIDTH)
  }

  ghost predicate Separates(stride: Word) {
    forall i: nat, s: nat, j: nat, t: nat ::
      s < stride && t < stride && CellOf(stride, s, i) == CellOf(stride, t, j) ==> i == j && s == t
  }

  /** MAIN RESULT.  Distinct (index, slot) pairs reach distinct cells exactly for the strides
      whose rounding up to whole tiles does not wrap around. */
  lemma {:induction false} SeparatesIff(stride: Word)
    requires stride > 0
    ensures Separates(stride) <==> stride + TILE_WIDTH - 1 < WORDS
  {
    if stride + TILE_WIDTH - 1 < WORDS {
      forall i: nat, s: nat, j: nat, t: nat |
        s < stride && t < stride && CellOf(stride, s, i) == CellOf(stride, t, j)
        ensures i == j && s == t
      {
        CellDeterminesPair(stride, s, i, t, j);
      }
    } else {
      assert TileStride(stride) == 0;
      assert CellOf(stride, 0, 0) == CellOf(stride, 0, 1);
    }
  }

  lemma {:induction false} CellDeterminesPair(stride: Word, s: nat, i: nat, t: nat, j: nat)
    requires s < stride && t < stride && stride + TILE_WIDTH - 1 < WORDS
    requires CellOf(stride, s, i) == CellOf(stride, t, j)
    ensures i == j && s == t
  {
    var n := TileStride(stride);
    assert s / TILE_WIDTH < n && t / TILE_WIDTH < n;
    if i < j {
      RowsApart(i, j, n);
    } else if j < i {
      RowsApart(j, i, n);
    }
  }

  /** Every addressed tile lies within capacity times the tile stride. */
  lemma {:induction false} CellInBounds(stride: Word, slot: nat, index: nat, capacity: nat)
    requires slot < stride && index < capacity && stride + TILE_WIDTH - 1 < WORDS
    ensures CellOf(stride, slot, index).tile < capacity * TileStride(stride)
    ensures CellOf(stride, slot, index).lane < TILE_WIDTH
  {
    var n := TileStride(stride);
    RowsApart(index, capacity, n);
    assert slot / TILE_WIDTH < n;
  }

  /** One collision record; the overflow accessors use its two vectors. */
  datatype Record<V> = Record(extraNegated: V, contactPoint: V, words: seq<nat>)

  class CollisionStorage<V(0)> {
    const stride: Word
    const capacity: nat
    const tiles: array<seq<Record<V>>>

    ghost predicate Valid()
      reads tiles
    {
      && stride + TILE_WIDTH - 1 < WORDS
      && tiles.Length == capacity * TileStride(stride)
      && forall k :: 0 <= k < tiles.Length ==> |tiles[k]| == TILE_WIDTH
    }

    constructor (stride: Word, capacity: nat, initial: Record<V>)
      requires stride + TILE_WIDTH - 1 < WORDS
      ensures Valid() && fresh(tiles) && this.stride == stride && this.capacity == capacity
    {
      this.stride, this.capacity := stride, capacity;
      tiles := new seq<Record<V>>[capacity * TileStride(stride)](_ => seq(TILE_WIDTH, _ => initial));
    }

    /** Record index of one candidate, as the shared buffer stores it. */
    ghost function At(slot: nat, index: nat): Record<V>
      requires Valid() && slot < stride && index < capacity
      reads tiles
    {
      CellInBounds(stride, slot, index, capacity);
      tiles[CellOf(stride, slot, index).tile][CellOf(stride, slot, index).lane]
    }

    /** The records of one candidate, as if it had an array of its own. */
    ghost function Records(slot: nat): seq<Record<V>>
      requires Valid() && slot < stride
      reads tiles
    {
      seq(capacity, index requires 0 <= index < capacity && Valid() reads tiles => At(slot, index))
    }

    /** The overflow vectors of one candidate: two to a record. */
    ghost function Overflow(slot: nat): seq<V>
      requires Valid() && slot < stride
      reads tiles
    {
      seq(2 * capacity, index requires 0 <= index < 2 * capacity && Valid() reads tiles =>
        if index % 2 == 0 then At(slot, index / 2).extraNegated else At(slot, index / 2).contactPoint)
    }

    method Load(slot: nat, index: nat) returns (record: Record<V>)
      requires Valid() && slot < stride && index < capacity
      ensures record == Records(slot)[index]
    {
      CellInBounds(stride, slot, index, capacity);
      record := tiles[CellOf(stride, slot, index).tile][CellOf(stride, slot, index).lane];
    }

    /** A store through one candidate updates that candidate's array and no other. */
    method Store(slot: nat, index: nat, record: Record<V>)
      requires Valid() && slot < stride && index < capacity
      modifies tiles
      ensures Valid()
      ensures Records(slot) == old(Records(slot))[index := record]
      ensures forall s, i :: 0 <= s < stride && 0 <= i < capacity && !(s == slot && i == index) ==>
                At(s, i) == old(At(s, i))
      ensures At(slot, index) == record
    {
      CellInBounds(stride, slot, index, capacity);
      SeparatesIff(stride);
      var cell := CellOf(stride, slot, index);
      tiles[cell.tile] := tiles[cell.tile][cell.lane := record];
      forall s, i | 0 <= s < stride && 0 <= i < capacity && !(s == slot && i == index)
        ensures At(s, i) == old(At(s, i))
      {
        CellInBounds(stride, s, i, capacity);
        assert CellOf(stride, s, i) != cell;
      }
    }

    /** ReplacementOverflowAtConst */
    method LoadOverflow(slot: nat, index: nat) returns (value: V)
      requires Valid() && slot < stride && index < 2 * capacity
      ensures value == Overflow(slot)[index]
    {
      var storage := Load(slot, index / 2);
      value := if index % 2 == 0 then storage.extraNegated else storage.contactPoint;
    }

    /** StoreReplacementOverflowAt: on a candidate's overflow vectors this is a plain update, and
        every other candidate's vectors and records stay as they were. */
    method StoreOverflow(slot: nat, index: nat, value: V)
      requires Valid() && slot < stride && index < 2 * capacity
      modifies tiles
      ensures Valid()
      ensures Overflow(slot) == old(Overflow(slot))[index := value]
      ensures forall s :: 0 <= s < stride && s != slot ==>
                Overflow(s) == old(Overflow(s)) && Records(s) == old(Records(s))
    {
      var storage := Load(slot, index / 2);
      Store(slot, index / 2, if index % 2 == 0 then storage.(extraNegated := value)
                             else storage.(contactPoint := value));
    }
  }
}

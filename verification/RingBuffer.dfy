/** The ring buffer used by one thread: a bounded first-in first-out queue (src/ring_buffer.cpp, src/ring_buffer.h:70-165). */
module RingBuffer {
  import opened RingSlots

  class Ring {
    const size: nat
    const cells: array<char>
    var writeP: nat
    var readP: nat

    // How many bytes have been written and read since the last clear, without the wrap-around.
    ghost var written: nat
    ghost var taken: nat

    ghost predicate Valid()
      reads this
    {
      && GoodSize(size) && cells.Length == size
      && taken <= written <= taken + size
      && writeP == Wrap(written) && readP == Wrap(taken)
    }

    /** The bytes waiting, oldest first. */
    ghost function Contents(): (s: seq<char>)
      requires Valid()
      reads this, cells
      ensures |s| == written - taken
    {
      SizePositive(size);
      seq(written - taken, i requires 0 <= i < written - taken reads this, cells => cells[Slot(taken, i, cells.Length)])
    }

    /** The cells that are free, in the order in which they will be written. */
    ghost function Room(): (s: seq<char>)
      requires Valid()
      reads this, cells
      ensures |s| == size - (written - taken)
    {
      SizePositive(size);
      seq(size - (written - taken), i requires 0 <= i < size - (written - taken) reads this, cells => cells[Slot(written, i, cells.Length)])
    }

    constructor (bufSize: nat)
      requires bufSize < 0x8000_0000 && IsPowerOfTwo(bufSize)
      ensures Valid() && fresh(cells) && size == bufSize && Contents() == []
    {
      size := bufSize;
      cells := new char[bufSize](_ => '\0');
      writeP, readP, written, taken := 0, 0, 0, 0;
      new;
      PowerOfTwoTest(bufSize);
    }

    method Clear()
      requires Valid()
      modifies this
      ensures Valid() && Contents() == []
    {
      writeP, readP, written, taken := 0, 0, 0, 0;
    }

    function Available(): nat
      reads this
    {
      Wrap(size - Wrap(writeP - readP))
    }

    function Used(): nat
      reads this
    {
      Wrap(writeP - readP)
    }

    /** The counters give the right numbers across every wrap-around. */
    lemma Counts()
      requires Valid()
      ensures Used() == |Contents()| && Available() == size - |Contents()| == |Room()|
      ensures Wrap(size - writeP + readP) == Available()
    {
      Distance(written, taken);
      var u := writeP - readP;
      WrapOfWrap(size, u);
    }

    /** Both memcpys of a write: up to the end of the buffer, then from its beginning. */
    method CopyInCells(buffer: array<char>, len: nat)
      requires Valid() && buffer != cells && len <= buffer.Length && len <= size
      modifies cells
      ensures forall j :: 0 <= j < size ==>
        cells[Slot(written, j, cells.Length)] == if j < len then buffer[j] else old(cells[Slot(written, j, cells.Length)])
    {
      hide And;
      SizePositive(size);
      WrapKeepsSlot(written, size);
      var at := And(writeP, size - 1);
      var first := Min(len, size - at);
      CopyBytes(buffer, 0, cells, at, first);
      CopyBytes(buffer, first, cells, 0, len - first);
      forall j | 0 <= j < size
        ensures cells[Slot(written, j, size)] == if j < len then buffer[j] else old(cells[Slot(written, j, size)])
      {
        SlotIs(written, j, size);
      }
    }

    method CopyIn(buffer: array<char>, len: nat)
      requires Valid() && buffer != cells && len <= buffer.Length && len <= |Room()|
      modifies cells
      ensures Valid() && Contents() == old(Contents())
      ensures Room() == buffer[..len] + old(Room())[len..]
    {
      hide Wrap, And;
      SizePositive(size);
      ghost var before, r := cells[..], Room();
      CopyInCells(buffer, len);
      forall i | 0 <= i < written - taken
        ensures cells[Slot(taken, i, size)] == before[Slot(taken, i, size)]
      {
        AroundOnce(taken + i, size);
        assert Slot(taken, i, size) == Slot(written, size - (written - taken) + i, size);
      }
      forall j | 0 <= j < |r|
        ensures Room()[j] == if j < len then buffer[j] else r[j]
      {}
    }

    /** Both memcpys of a read. */
    method CopyOut(buffer: array<char>, len: nat)
      requires Valid() && buffer != cells && len <= buffer.Length && len <= |Contents()|
      modifies buffer
      ensures Contents() == old(Contents()) && Room() == old(Room())
      ensures buffer[..len] == Contents()[..len] && buffer[len..] == old(buffer[len..])
    {
      hide Wrap;
      SizePositive(size);
      WrapKeepsSlot(taken, size);
      var at := And(readP, size - 1);
      var first := Min(len, size - at);
      CopyBytes(cells, at, buffer, 0, first);
      CopyBytes(cells, 0, buffer, first, len - first);
      forall j | 0 <= j < len
        ensures buffer[j] == cells[Slot(taken, j, size)]
      {
        SlotIs(taken, j, size);
      }
    }

    method AdvanceWrite(n: nat)
      requires Valid() && n <= |Room()|
      modifies `writeP, `written
      ensures Valid() && Contents() == old(Contents() + Room()[..n]) && Room() == old(Room()[n..])
    {
      hide Wrap, And;
      SizePositive(size);
      Advance(written, n);
      writeP := Wrap(writeP + n);
      written := written + n;
    }

    method AdvanceRead(n: nat)
      requires Valid() && n <= |Contents()|
      modifies `readP, `taken
      ensures Valid() && Contents() == old(Contents()[n..]) && Room() == old(Room() + Contents()[..n])
    {
      hide Wrap, And;
      SizePositive(size);
      Advance(taken, n);
      forall i | 0 <= i < n
        ensures Slot(written, size - (written - taken) + i, size) == Slot(taken, i, size)
      {
        AroundOnce(taken + i, size);
      }
      readP := Wrap(readP + n);
      taken := taken + n;
    }

    /** Appends the first bytes, as many as there is room for. */
    method KfifoPut(buffer: array<char>, len: nat) returns (n: nat)
      requires Valid() && buffer != cells && len <= buffer.Length && len < MODULUS
      modifies this, cells
      ensures Valid() && n == Min(len, size - |old(Contents())|)
      ensures Contents() == old(Contents()) + buffer[..n]
    {
      Counts();
      if len == 0 {
        return 0;
      }
      n := Min(len, Wrap(size - writeP + readP));
      CopyIn(buffer, n);
      AdvanceWrite(n);
    }

    /** Removes the first bytes, as many as are wanted and waiting. */
    method KfifoGet(buffer: array<char>, len: nat) returns (n: nat)
      requires Valid() && buffer != cells && len <= buffer.Length && len < MODULUS
      modifies this, buffer
      ensures Valid() && n == Min(len, |old(Contents())|)
      ensures buffer[..n] == old(Contents())[..n] && buffer[n..] == old(buffer[n..])
      ensures Contents() == old(Contents())[n..]
    {
      Counts();
      if Used() == 0 {
        return 0;
      }
      n := Min(len, Wrap(writeP - readP));
      CopyOut(buffer, n);
      AdvanceRead(n);
    }

    /** All the bytes wanted are copied and stay in the queue, or nothing happens. */
    method PeekRead(buffer: array<char>, len: nat) returns (n: nat)
      requires Valid() && buffer != cells && len <= buffer.Length && len < MODULUS
      modifies buffer
      ensures Contents() == old(Contents()) && Room() == old(Room())
      ensures n == if len <= |Contents()| then len else 0
      ensures buffer[..n] == Contents()[..n] && buffer[n..] == old(buffer[n..])
    {
      Counts();
      if Used() == 0 || Used() < len {
        return 0;
      }
      n := Min(len, Wrap(writeP - readP));
      CopyOut(buffer, n);
    }

    method SeekRead(len: nat) returns (ok: bool)
      requires Valid() && len < MODULUS
      modifies this
      ensures Valid() && ok == (len <= |old(Contents())|)
      ensures Contents() == if ok then old(Contents())[len..] else old(Contents())
      ensures Room() == if ok then old(Room() + Contents()[..len]) else old(Room())
    {
      Counts();
      if Used() < len {
        return false;
      }
      AdvanceRead(len);
      ok := true;
    }

    /** All the bytes are copied into the room and are not yet in the queue, or nothing happens. */
    method PeekWrite(buffer: array<char>, len: nat) returns (n: nat)
      requires Valid() && buffer != cells && len <= buffer.Length && len < MODULUS
      modifies cells
      ensures Valid() && Contents() == old(Contents())
      ensures n == if len <= |Room()| then len else 0
      ensures Room() == buffer[..n] + old(Room())[n..]
    {
      Counts();
      if len == 0 || Available() < len {
        return 0;
      }
      n := Min(len, Wrap(size - writeP + readP));
      CopyIn(buffer, n);
    }

    method SeekWrite(len: nat) returns (ok: bool)
      requires Valid() && len < MODULUS
      modifies this
      ensures Valid() && ok == (len <= |old(Room())|)
      ensures Contents() == if ok then old(Contents() + Room()[..len]) else old(Contents())
      ensures Room() == if ok then old(Room())[len..] else old(Room())
    {
      Counts();
      if Available() < len {
        return false;
      }
      AdvanceWrite(len);
      ok := true;
    }
  }

  lemma AroundOnce(x: nat, size: nat)
    requires size > 0
    ensures (x + size) % size == x % size
  {
    RemainderOfSum(1, x, size);
  }

  /** Peeking and then moving on is a get: the same bytes, the same queue, whenever the bytes are there. */
  method GetInTwo(ring: Ring, buffer: array<char>, len: nat) returns (n: nat)
    requires ring.Valid() && buffer != ring.cells && len <= buffer.Length && len <= |ring.Contents()|
    modifies ring, buffer
    ensures ring.Valid() && n == len
    ensures buffer[..len] == old(ring.Contents())[..len] && buffer[len..] == old(buffer[len..])
    ensures ring.Contents() == old(ring.Contents())[len..]
  {
    n := ring.PeekRead(buffer, len);
    var ok := ring.SeekRead(n);
  }

  /** Peeking and then moving on is a put, whenever there is room. */
  method PutInTwo(ring: Ring, buffer: array<char>, len: nat) returns (n: nat)
    requires ring.Valid() && buffer != ring.cells && len <= buffer.Length && len <= |ring.Room()|
    modifies ring, ring.cells
    ensures ring.Valid() && n == len
    ensures ring.Contents() == old(ring.Contents()) + buffer[..len]
  {
    n := ring.PeekWrite(buffer, len);
    var ok := ring.SeekWrite(n);
  }

  /** memcpy between two buffers. */
  method CopyBytes(src: array<char>, from: nat, dst: array<char>, to: nat, n: nat)
    requires src != dst && from + n <= src.Length && to + n <= dst.Length
    modifies dst
    ensures forall k :: 0 <= k < dst.Length ==> dst[k] == if to <= k < to + n then src[from + k - to] else old(dst[k])
  {
    forall k | 0 <= k < n {
      dst[to + k] := src[from + k];
    }
  }

  lemma SizePositive(size: nat)
    requires GoodSize(size)
    ensures size > 0
  {
    WrapKeepsSlot(0, size);
  }

  lemma WrapOfWrap(x: int, y: int)
    ensures Wrap(x - Wrap(y)) == Wrap(x - y)
  {
    assert y == y / MODULUS * MODULUS + Wrap(y);
    assert (x - y) + y / MODULUS * MODULUS == x - Wrap(y);
    WrapShift(x - y, y / MODULUS);
  }

  lemma {:induction false} WrapShift(x: int, q: int)
    ensures Wrap(x + q * MODULUS) == Wrap(x)
  {}
}

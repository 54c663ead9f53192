/** One producer and one consumer at work on the ring buffer at the same time (src/ring_buffer.cpp:103-164). Every sample of
    the other side's counter, every byte of every memcpy and every update of a counter is a step of its own. The bytes of one
    memcpy may be copied in any order; the barriers fix the order of the rest. */
module RingConcurrent {
  import opened RingSlots

  /** Where kfifo_put stands. */
  datatype Producer =
    | Ready
    | Storing(data: seq<char>, first: nat, left: set<nat>)              // the bytes that fit, the first piece, what is left to copy

  /** Where kfifo_get stands. */
  datatype Consumer =
    | Waiting
    | Checked(len: nat)                                                 // empty() was false
    | Loading(out: seq<char>, first: nat, left: set<nat>)

  /** The shared memory, both threads, and the history: all bytes put and all bytes got so far. */
  datatype State = State(
    size: nat, cells: seq<char>, writeP: nat, readP: nat,
    producer: Producer, consumer: Consumer,
    put: seq<char>, got: seq<char>)

  datatype Step =
    | StartPut(bytes: seq<char>)             // sample the read counter
    | Store(i: nat)                          // copy one byte in
    | PublishWrite
    | CheckEmpty(len: nat)                   // sample the write counter
    | StartGet(buffer: seq<char>)            // sample the write counter again; the caller's buffer
    | Load(i: nat)                           // copy one byte out
    | PublishRead

  /** The numbers below `n`. */
  function Upto(n: nat): (s: set<nat>)
    ensures forall i: nat {:trigger i in s} :: i in s <==> i < n
  {
    if n == 0 then {} else Upto(n - 1) + {n - 1}
  }

  /** The size of the first piece of a transfer of `n` bytes that begins at counter `p`. */
  function FirstPiece(p: nat, n: nat, size: nat): nat
    requires size > 0
  {
    var at := And(p, size - 1);
    Min(n, if at <= size then size - at else 0)
  }

  /** The cell of byte `i`: the first piece goes up to the end of the buffer, the second starts at its beginning. */
  function CellOf(p: nat, first: nat, i: nat, size: nat): nat
    requires size > 0
  {
    if i < first then And(p, size - 1) + i else i - first
  }

  /** A byte may be copied while it is left, those of the second piece only after the first piece. */
  ghost predicate Due(i: nat, first: nat, left: set<nat>) {
    i in left && (i < first || forall k :: k in left ==> k >= first)
  }

  ghost predicate Enabled(s: State, step: Step) {
    match step
    case StartPut(bytes) => s.producer.Ready? && |bytes| < MODULUS
    case Store(i) => s.producer.Storing? && Due(i, s.producer.first, s.producer.left)
    case PublishWrite => s.producer.Storing? && s.producer.left == {}
    case CheckEmpty(len) => s.consumer.Waiting? && len < MODULUS
    case StartGet(buffer) => s.consumer.Checked? && |buffer| == s.consumer.len
    case Load(i) => s.consumer.Loading? && Due(i, s.consumer.first, s.consumer.left)
    case PublishRead => s.consumer.Loading? && s.consumer.left == {}
  }

  // ----- the places that the counters stand for

  function Place(k: nat, size: nat): (p: nat)
    requires size > 0
    ensures p < size
  {
    Slot(k, 0, size)
  }

  /** All bytes of a transfer that starts at byte number `x` are where they should be. */
  lemma CellIsPlace(x: nat, n: nat, i: nat, size: nat)
    requires GoodSize(size) && i < n <= size
    ensures size > 0 && CellOf(Wrap(x), FirstPiece(Wrap(x), n, size), i, size) == Place(x + i, size)
  {
    hide And;
    WrapKeepsSlot(x, size);
    SlotIs(x, i, size);
  }

  lemma PlacesApart(a: nat, b: nat, size: nat)
    requires a < b < a + size
    ensures Place(a, size) != Place(b, size)
  {
    SlotIs(a, b - a, size);
  }

  // ----- what every step keeps

  ghost predicate Shared(s: State) {
    && GoodSize(s.size) && s.size > 0 && |s.cells| == s.size
    && |s.got| <= |s.put| <= |s.got| + s.size
    && s.writeP == Wrap(|s.put|) && s.readP == Wrap(|s.got|)
    && s.got == s.put[..|s.got|]
    && forall k :: |s.got| <= k < |s.put| ==> s.cells[Place(k, s.size)] == s.put[k]
  }

  ghost predicate Stores(s: State)
    requires Shared(s)
  {
    s.producer.Storing? ==>
      && |s.producer.data| <= s.size - (|s.put| - |s.got|)
      && s.producer.first == FirstPiece(s.writeP, |s.producer.data|, s.size)
      && s.producer.left <= Upto(|s.producer.data|)
      && forall i :: 0 <= i < |s.producer.data| && i !in s.producer.left ==> s.cells[Place(|s.put| + i, s.size)] == s.producer.data[i]
  }

  ghost predicate Loads(s: State)
    requires Shared(s)
  {
    s.consumer.Loading? ==>
      && |s.consumer.out| <= |s.put| - |s.got|
      && s.consumer.first == FirstPiece(s.readP, |s.consumer.out|, s.size)
      && s.consumer.left <= Upto(|s.consumer.out|)
      && forall i :: 0 <= i < |s.consumer.out| && i !in s.consumer.left ==> s.consumer.out[i] == s.put[|s.got| + i]
  }

  ghost predicate Inv(s: State) {
    Shared(s) && Stores(s) && Loads(s)
  }

  /** The bytes a due step of either side touches are inside the buffers: nothing is written or read out of bounds. */
  lemma InBounds(s: State, i: nat)
    requires Inv(s)
    ensures s.producer.Storing? && i in s.producer.left ==>
      i < |s.producer.data| && CellOf(s.writeP, s.producer.first, i, s.size) == Place(|s.put| + i, s.size) < |s.cells|
    ensures s.consumer.Loading? && i in s.consumer.left ==>
      i < |s.consumer.out| && CellOf(s.readP, s.consumer.first, i, s.size) == Place(|s.got| + i, s.size) < |s.cells|
  {
    hide CellOf, FirstPiece, Place, Wrap, Upto;
    if s.producer.Storing? && i in s.producer.left {
      CellIsPlace(|s.put|, |s.producer.data|, i, s.size);
    }
    if s.consumer.Loading? && i in s.consumer.left {
      CellIsPlace(|s.got|, |s.consumer.out|, i, s.size);
    }
  }

  function Next(s: State, step: Step): State
    requires Inv(s) && Enabled(s, step)
  {
    match step
    case StartPut(bytes) =>
      if bytes == [] then s
      else
        var n := Min(|bytes|, Wrap(s.size - s.writeP + s.readP));
        s.(producer := Storing(bytes[..n], FirstPiece(s.writeP, n, s.size), Upto(n)))
    case Store(i) =>
      InBounds(s, i);
      var p := s.producer;
      s.(cells := s.cells[CellOf(s.writeP, p.first, i, s.size) := p.data[i]], producer := p.(left := p.left - {i}))
    case PublishWrite =>
      s.(writeP := Wrap(s.writeP + |s.producer.data|), producer := Ready, put := s.put + s.producer.data)
    case CheckEmpty(len) =>
      if Wrap(s.writeP - s.readP) == 0 then s else s.(consumer := Checked(len))
    case StartGet(buffer) =>
      var n := Min(|buffer|, Wrap(s.writeP - s.readP));
      s.(consumer := Loading(buffer[..n], FirstPiece(s.readP, n, s.size), Upto(n)))
    case Load(i) =>
      InBounds(s, i);
      var c := s.consumer;
      s.(consumer := c.(out := c.out[i := s.cells[CellOf(s.readP, c.first, i, s.size)]], left := c.left - {i}))
    case PublishRead =>
      s.(readP := Wrap(s.readP + |s.consumer.out|), consumer := Waiting, got := s.got + s.consumer.out)
  }

  lemma Room(s: State)
    requires Shared(s)
    ensures Wrap(s.size - s.writeP + s.readP) == s.size - (|s.put| - |s.got|)
    ensures Wrap(s.writeP - s.readP) == |s.put| - |s.got|
  {
    Distance(|s.put|, |s.got|);
    Distance(|s.got| + s.size, |s.put|);
    WrapAgain(s.size - s.writeP, |s.got|, |s.put|, s.size);
  }

  lemma WrapAgain(x: int, g: nat, p: nat, size: nat)
    requires x == size - Wrap(p)
    ensures Wrap(x + Wrap(g)) == Wrap(Wrap(g + size) - Wrap(p))
  {}

  lemma StartPutKeeps(s: State, bytes: seq<char>)
    requires Inv(s) && Enabled(s, StartPut(bytes))
    ensures Inv(Next(s, StartPut(bytes)))
  {
    hide FirstPiece, Place, Wrap, Upto;
    Room(s);
  }

  lemma StoreKeeps(s: State, i: nat)
    requires Inv(s) && Enabled(s, Store(i))
    ensures Inv(Next(s, Store(i)))
  {
    hide FirstPiece, Place, CellOf, Wrap, Upto;
    InBounds(s, i);
    var t := Next(s, Store(i));
    var w := |s.put|;
    forall k | |s.got| <= k < w
      ensures t.cells[Place(k, s.size)] == s.put[k]
    {
      PlacesApart(k, w + i, s.size);
    }
    forall j | 0 <= j < |s.producer.data| && j !in t.producer.left
      ensures t.cells[Place(w + j, s.size)] == s.producer.data[j]
    {
      if j < i {
        PlacesApart(w + j, w + i, s.size);
      } else if i < j {
        PlacesApart(w + i, w + j, s.size);
      }
    }
  }

  lemma PublishWriteKeeps(s: State)
    requires Inv(s) && Enabled(s, PublishWrite)
    ensures Inv(Next(s, PublishWrite))
  {
    hide FirstPiece, Place, Wrap, Upto;
    var t, w := Next(s, PublishWrite), |s.put|;
    Advance(w, |s.producer.data|);
    forall k | |s.got| <= k < |t.put|
      ensures t.cells[Place(k, s.size)] == t.put[k]
    {
      if k >= w {
        assert t.cells[Place(w + (k - w), s.size)] == s.producer.data[k - w];
      }
    }
  }

  lemma StartGetKeeps(s: State, buffer: seq<char>)
    requires Inv(s) && Enabled(s, StartGet(buffer))
    ensures Inv(Next(s, StartGet(buffer)))
  {
    hide FirstPiece, Place, Wrap, Upto;
    Room(s);
  }

  lemma LoadKeeps(s: State, i: nat)
    requires Inv(s) && Enabled(s, Load(i))
    ensures Inv(Next(s, Load(i)))
  {
    hide FirstPiece, Place, CellOf, Wrap, Upto;
    InBounds(s, i);
  }

  lemma PublishReadKeeps(s: State)
    requires Inv(s) && Enabled(s, PublishRead)
    ensures Inv(Next(s, PublishRead))
  {
    hide FirstPiece, Place, Wrap, Upto;
    var t, n := Next(s, PublishRead), |s.consumer.out|;
    Advance(|s.got|, n);
    assert s.consumer.out == s.put[|s.got|..|s.got| + n];
    assert t.got == s.put[..|s.got|] + s.put[|s.got|..|s.got| + n] == t.put[..|t.got|];
  }

  lemma NextKeeps(s: State, step: Step)
    requires Inv(s) && Enabled(s, step)
    ensures Inv(Next(s, step))
  {
    hide Shared, Stores, Loads;
    match step {
      case StartPut(bytes) => StartPutKeeps(s, bytes);
      case Store(i) => StoreKeeps(s, i);
      case PublishWrite => PublishWriteKeeps(s);
      case CheckEmpty(len) => CheckEmptyKeeps(s, len);
      case StartGet(buffer) => StartGetKeeps(s, buffer);
      case Load(i) => LoadKeeps(s, i);
      case PublishRead => PublishReadKeeps(s);
    }
  }

  lemma CheckEmptyKeeps(s: State, len: nat)
    requires Inv(s) && Enabled(s, CheckEmpty(len))
    ensures Inv(Next(s, CheckEmpty(len)))
  {
    hide FirstPiece, Place, Wrap, Upto;
  }

  // ----- runs

  /** A new buffer: counters zero, cells arbitrary. */
  function Init(cells: seq<char>): State {
    State(|cells|, cells, 0, 0, Ready, Waiting, [], [])
  }

  /** `t` can be reached from `s` by these steps of the two threads, in this order. */
  ghost predicate Reaches(s: State, steps: seq<Step>, t: State)
    requires Inv(s)
    decreases |steps|
  {
    if steps == [] then s == t
    else
      && Enabled(s, steps[0])
      && (NextKeeps(s, steps[0]); Reaches(Next(s, steps[0]), steps[1..], t))
  }

  lemma InitHolds(cells: seq<char>)
    requires GoodSize(|cells|)
    ensures Inv(Init(cells))
  {
    hide Place;
    WrapKeepsSlot(0, |cells|);
  }

  lemma {:induction false} InvReached(s: State, steps: seq<Step>, t: State)
    requires Inv(s) && Reaches(s, steps, t)
    ensures Inv(t)
    decreases |steps|
  {
    hide Inv;
    if steps != [] {
      NextKeeps(s, steps[0]);
      InvReached(Next(s, steps[0]), steps[1..], t);
    }
  }

  /** Number of bytes waiting, by the 32-bit counters alone. */
  function Used(s: State): nat {
    Wrap(s.writeP - s.readP)
  }

  /** In every interleaving: the consumer gets, in order and unchanged, a prefix of what the producer put, and the number
      of bytes in between never exceeds the size, however often the counters wrap around. */
  lemma Safety(cells: seq<char>, steps: seq<Step>, t: State)
    requires GoodSize(|cells|)
    requires (InitHolds(cells); Reaches(Init(cells), steps, t))
    ensures t.got <= t.put
    ensures Used(t) == |t.put| - |t.got| <= t.size
    ensures Used(t) == 0 ==> t.got == t.put
  {
    InitHolds(cells);
    InvReached(Init(cells), steps, t);
    Room(t);
  }

  /** In every interleaving: the cell the producer is about to write is not waiting to be read, and is not the cell the
      consumer is about to read. */
  lemma NoRace(cells: seq<char>, steps: seq<Step>, t: State, i: nat, k: nat)
    requires GoodSize(|cells|)
    requires (InitHolds(cells); Reaches(Init(cells), steps, t))
    requires t.producer.Storing? && i in t.producer.left && |t.got| <= k < |t.put| && t.size > 0
    ensures CellOf(t.writeP, t.producer.first, i, t.size) != Place(k, t.size)
    ensures t.consumer.Loading? ==>
      forall j :: j in t.consumer.left ==> CellOf(t.readP, t.consumer.first, j, t.size) != CellOf(t.writeP, t.producer.first, i, t.size)
  {
    hide CellOf, FirstPiece, Place, Wrap, Upto;
    InitHolds(cells);
    InvReached(Init(cells), steps, t);
    InBounds(t, i);
    PlacesApart(k, |t.put| + i, t.size);
    if t.consumer.Loading? {
      forall j | j in t.consumer.left
        ensures CellOf(t.readP, t.consumer.first, j, t.size) != CellOf(t.writeP, t.producer.first, i, t.size)
      {
        InBounds(t, j);
        PlacesApart(|t.got| + j, |t.put| + i, t.size);
      }
    }
  }

  /** What a get hands over: the bytes that come next, exactly as they were put. */
  lemma GetsNext(cells: seq<char>, steps: seq<Step>, t: State)
    requires GoodSize(|cells|)
    requires (InitHolds(cells); Reaches(Init(cells), steps, t))
    requires Enabled(t, PublishRead)
    ensures |t.got| + |t.consumer.out| <= |t.put| && t.consumer.out == t.put[|t.got|..|t.got| + |t.consumer.out|]
  {
    hide FirstPiece, Place, Wrap, Upto;
    InitHolds(cells);
    InvReached(Init(cells), steps, t);
  }

  /** A put accepts all bytes that fit beside what was unread when the read counter was sampled; there may be more room by
      the time they are published, never less. */
  lemma PutFits(cells: seq<char>, steps: seq<Step>, t: State, bytes: seq<char>)
    requires GoodSize(|cells|)
    requires (InitHolds(cells); Reaches(Init(cells), steps, t))
    requires Enabled(t, StartPut(bytes)) && bytes != []
    ensures Inv(t) && var u := Next(t, StartPut(bytes));
      && var free := t.size - (|t.put| - |t.got|);
      && u.producer.Storing?
      && u.producer.data == (if |bytes| <= free then bytes else bytes[..free])
      && u == t.(producer := u.producer)
  {
    InitHolds(cells);
    InvReached(Init(cells), steps, t);
    Room(t);
  }

  /** The first sample moves a get on exactly when bytes are waiting, and changes nothing else. */
  lemma EmptyTells(cells: seq<char>, steps: seq<Step>, t: State, len: nat)
    requires GoodSize(|cells|)
    requires (InitHolds(cells); Reaches(Init(cells), steps, t))
    requires Enabled(t, CheckEmpty(len))
    ensures Inv(t) && Next(t, CheckEmpty(len)) == if |t.got| < |t.put| then t.(consumer := Checked(len)) else t
  {
    InitHolds(cells);
    InvReached(Init(cells), steps, t);
    Room(t);
  }

  /** A get takes all the bytes that are wanted and were waiting when the write counter was sampled, and until it publishes
      nothing else changes by it. */
  lemma GetFits(cells: seq<char>, steps: seq<Step>, t: State, buffer: seq<char>)
    requires GoodSize(|cells|)
    requires (InitHolds(cells); Reaches(Init(cells), steps, t))
    requires Enabled(t, StartGet(buffer))
    ensures Inv(t) && var u := Next(t, StartGet(buffer));
      && u.consumer.Loading?
      && |u.consumer.out| == (if |buffer| <= |t.put| - |t.got| then |buffer| else |t.put| - |t.got|)
      && u == t.(consumer := u.consumer)
  {
    InitHolds(cells);
    InvReached(Init(cells), steps, t);
    Room(t);
  }

  /** The history grows by exactly what was begun: a put by the bytes it took from the caller, a get by as many bytes as it
      took on, each at its own publishing step and at no other; only a copying step of the producer changes a cell. */
  lemma WhatStepsChange(cells: seq<char>, steps: seq<Step>, t: State, step: Step)
    requires GoodSize(|cells|)
    requires (InitHolds(cells); Reaches(Init(cells), steps, t))
    requires Enabled(t, step)
    ensures Inv(t) && var u := Next(t, step);
      && u.put == (if step == PublishWrite then t.put + t.producer.data else t.put)
      && u.got == (if step == PublishRead then t.got + t.consumer.out else t.got)
      && (step == PublishWrite ==> u.producer == Ready)
      && (step == PublishRead ==> u.consumer == Waiting)
      && (t.producer.Storing? && step != PublishWrite ==> u.producer.Storing? && u.producer.data == t.producer.data)
      && (t.consumer.Loading? && step != PublishRead ==> u.consumer.Loading? && |u.consumer.out| == |t.consumer.out|)
      && (!step.Store? ==> u.cells == t.cells)
      && (step.Store? ==> forall k :: |t.got| <= k < |t.put| ==> u.cells[Place(k, t.size)] == t.put[k])
  {
    hide FirstPiece, Place, Wrap, Upto, CellOf;
    InitHolds(cells);
    InvReached(Init(cells), steps, t);
    NextKeeps(t, step);
  }

  /** A copy that is not finished always has a byte that is due. */
  lemma NeverStuck(first: nat, left: set<nat>)
    requires left != {}
    ensures exists i :: Due(i, first, left)
  {
    if exists i :: i in left && i < first {
      var i :| i in left && i < first;
      assert Due(i, first, left);
    } else {
      var i :| i in left;
      assert Due(i, first, left);
    }
  }

  // ----- nobody waits for the other side

  lemma {:induction false} ReachesOn(s: State, a: seq<Step>, t: State, b: seq<Step>, u: State)
    requires Inv(s) && Inv(t) && Reaches(s, a, t) && Reaches(t, b, u)
    ensures Reaches(s, a + b, u)
    decreases |a|
  {
    hide Inv, Enabled, Next;
    if a == [] {
      assert a + b == b;
    } else {
      assert (a + b)[0] == a[0] && (a + b)[1..] == a[1..] + b;
      NextKeeps(s, a[0]);
      ReachesOn(Next(s, a[0]), a[1..], t, b, u);
    }
  }

  lemma ReachesOne(s: State, step: Step, b: seq<Step>, u: State)
    requires Inv(s) && Enabled(s, step) && (NextKeeps(s, step); Reaches(Next(s, step), b, u))
    ensures Reaches(s, [step] + b, u)
  {
    hide Inv, Enabled, Next;
    assert ([step] + b)[1..] == b;
  }

  /** A put that was begun can be finished by its own steps. */
  lemma {:induction false} PutEnds(s: State) returns (steps: seq<Step>, t: State)
    requires Inv(s) && s.producer.Storing?
    ensures Reaches(s, steps, t) && Inv(t)
    ensures t.producer == Ready && t.put == s.put + s.producer.data && t.got == s.got && t.consumer == s.consumer
    decreases |s.producer.left|
  {
    hide Inv, Shared, Stores, Loads, CellOf, FirstPiece, Place, Wrap, Upto, Due;
    if s.producer.left == {} {
      NextKeeps(s, PublishWrite);
      steps, t := [], Next(s, PublishWrite);
      ReachesOne(s, PublishWrite, [], t);
      steps := [PublishWrite] + [];
    } else {
      NeverStuck(s.producer.first, s.producer.left);
      var i :| Due(i, s.producer.first, s.producer.left);
      DueIsLeft(i, s.producer.first, s.producer.left);
      NextKeeps(s, Store(i));
      steps, t := PutEnds(Next(s, Store(i)));
      ReachesOne(s, Store(i), steps, t);
      steps := [Store(i)] + steps;
    }
  }

  lemma DueIsLeft(i: nat, first: nat, left: set<nat>)
    requires Due(i, first, left)
    ensures i in left && |left - {i}| < |left|
  {}

  /** So can a get. */
  lemma {:induction false} GetEnds(s: State) returns (steps: seq<Step>, t: State)
    requires Inv(s) && s.consumer.Loading?
    ensures Reaches(s, steps, t) && Inv(t)
    ensures t.consumer == Waiting && |t.got| == |s.got| + |s.consumer.out| && t.put == s.put && t.producer == s.producer
    decreases |s.consumer.left|
  {
    hide Inv, Shared, Stores, Loads, CellOf, FirstPiece, Place, Wrap, Upto, Due;
    if s.consumer.left == {} {
      NextKeeps(s, PublishRead);
      steps, t := [], Next(s, PublishRead);
      ReachesOne(s, PublishRead, [], t);
      steps := [PublishRead] + [];
    } else {
      NeverStuck(s.consumer.first, s.consumer.left);
      var i :| Due(i, s.consumer.first, s.consumer.left);
      DueIsLeft(i, s.consumer.first, s.consumer.left);
      InBounds(s, i);
      NextKeeps(s, Load(i));
      steps, t := GetEnds(Next(s, Load(i)));
      ReachesOne(s, Load(i), steps, t);
      steps := [Load(i)] + steps;
    }
  }

  /** A get from its second sample on. */
  lemma GetFrom(s: State, buffer: seq<char>) returns (steps: seq<Step>, t: State)
    requires Inv(s) && Enabled(s, StartGet(buffer))
    ensures Reaches(s, steps, t) && Inv(t)
    ensures t.consumer == Waiting && t.put == s.put && t.producer == s.producer
    ensures |t.got| == |s.got| + Min(|buffer|, |s.put| - |s.got|)
  {
    hide Stores, Loads, CellOf, FirstPiece, Place, Wrap, Upto, Due;
    Room(s);
    NextKeeps(s, StartGet(buffer));
    var u := Next(s, StartGet(buffer));
    steps, t := GetEnds(u);
    ReachesOne(s, StartGet(buffer), steps, t);
    steps := [StartGet(buffer)] + steps;
  }

  /** One call of get empties the buffer. */
  lemma GetAll(s: State) returns (steps: seq<Step>, t: State)
    requires Inv(s) && s.consumer == Waiting
    ensures Reaches(s, steps, t) && Inv(t)
    ensures t.consumer == Waiting && t.put == s.put && t.producer == s.producer && |t.got| == |t.put|
  {
    hide Stores, Loads, CellOf, FirstPiece, Place, Wrap, Upto, Due;
    var n := |s.put| - |s.got|;
    if n == 0 {
      return [], s;
    }
    Room(s);
    NextKeeps(s, CheckEmpty(n));
    var u := Next(s, CheckEmpty(n));
    steps, t := GetFrom(u, seq(n, _ => ' '));
    ReachesOne(s, CheckEmpty(n), steps, t);
    steps := [CheckEmpty(n)] + steps;
  }

  /** Whatever the consumer is at, it can go on alone until the buffer is empty. */
  lemma Drains(s: State) returns (steps: seq<Step>, t: State)
    requires Inv(s)
    ensures Reaches(s, steps, t) && Inv(t)
    ensures t.consumer == Waiting && t.put == s.put && t.producer == s.producer && |t.got| == |t.put|
  {
    hide Inv;
    var a, u := [], s;
    if s.consumer.Checked? {
      a, u := GetFrom(s, seq(s.consumer.len, _ => ' '));
    } else if s.consumer.Loading? {
      a, u := GetEnds(s);
    } else {
      assert Reaches(s, [], s);
    }
    steps, t := GetAll(u);
    ReachesOn(s, a, u, steps, t);
    steps := a + steps;
  }

  /** The bytes of a put that was begun. */
  function Pending(s: State): seq<char> {
    if s.producer.Storing? then s.producer.data else []
  }

  /** From every reached state the run can go on so that all that was put, and all of a put that was begun, is got. */
  lemma EverythingArrives(cells: seq<char>, steps: seq<Step>, t: State)
    requires GoodSize(|cells|)
    requires (InitHolds(cells); Reaches(Init(cells), steps, t))
    ensures Inv(t) && exists more, u :: Reaches(t, more, u) && u.got == u.put == t.put + Pending(t)
  {
    InitHolds(cells);
    InvReached(Init(cells), steps, t);
    var more, u := Arriving(t);
    assert Reaches(t, more, u);
  }

  lemma Arriving(s: State) returns (steps: seq<Step>, t: State)
    requires Inv(s)
    ensures Reaches(s, steps, t) && t.got == t.put == s.put + Pending(s)
  {
    hide Stores, Loads, Place, Wrap;
    var a, u := [], s;
    if s.producer.Storing? {
      a, u := PutEnds(s);
    } else {
      assert Reaches(s, [], s);
    }
    steps, t := Drains(u);
    ReachesOn(s, a, u, steps, t);
    steps := a + steps;
  }
}

/** Whole histories of a buffer: it is a plain byte queue, and how far its allocation grows. */
module IoBufferHistory {
  import opened Bytes
  import opened IoBuffer

  datatype Op =
    | PushBack(bytes: seq<byte>)
    | Emplace(n: nat)
    | PopFront(n: nat)
    | Append(source: seq<byte>, want: nat)
    | Reserve(n: nat)
    | Empty
    | Clear

  const EXPAND: nat := 0x1000

  /** How many bytes an append reads. */
  function Taken(f: Fill, op: Op): nat
    requires f.Valid() && op.Append?
  {
    var room := f.Room(EXPAND);
    Min(Min(op.want, |op.source|), room.max - room.size)
  }

  function After(f: Fill, op: Op): (r: Fill)
    requires f.Valid()
    ensures r.Valid() && r.max >= f.max
  {
    match op
    case PushBack(bytes) => var l := f.Compacted(|bytes|); l.Room(|bytes|).(size := l.size + |bytes|)
    case Emplace(n) => f.Compacted(n).Room(n)
    case PopFront(n) => f.Popped(n)
    case Append(_, _) => f.Room(EXPAND).(size := f.size + Taken(f, op))
    case Reserve(n) => f.(max := Max(f.max, f.pos + n))
    case Empty => f.Popped(0)
    case Clear => Fill(0, 0, f.max)
  }

  /** The queue of bytes the window stands for. */
  function Queued(q: seq<byte>, f: Fill, op: Op): seq<byte>
    requires f.Valid()
  {
    match op
    case PushBack(bytes) => q + bytes
    case PopFront(n) => q[Min(n, |q|)..]
    case Append(source, _) => q + source[..Taken(f, op)]
    case Clear => []
    case _ => q
  }

  function Level(capacity: nat, ops: seq<Op>): (r: Fill)
    requires capacity > 0
    ensures r.Valid()
  {
    if ops == [] then Fill(0, 0, capacity) else After(Level(capacity, ops[..|ops| - 1]), ops[|ops| - 1])
  }

  function Queue(capacity: nat, ops: seq<Op>): seq<byte>
    requires capacity > 0
  {
    if ops == [] then []
    else
      var before := ops[..|ops| - 1];
      Queued(Queue(capacity, before), Level(capacity, before), ops[|ops| - 1])
  }

  lemma OneMore(capacity: nat, ops: seq<Op>, i: nat)
    requires capacity > 0 && i < |ops|
    ensures Level(capacity, ops[..i + 1]) == After(Level(capacity, ops[..i]), ops[i])
    ensures Queue(capacity, ops[..i + 1]) == Queued(Queue(capacity, ops[..i]), Level(capacity, ops[..i]), ops[i])
  {
    assert ops[..i + 1][..i] == ops[..i];
  }

  lemma NoneYet(capacity: nat, ops: seq<Op>)
    requires capacity > 0
    ensures Level(capacity, ops[..0]) == Fill(0, 0, capacity) && Queue(capacity, ops[..0]) == []
  {
  }

  method Perform(b: IoBufferEx, op: Op)
    requires b.Valid() && b.expand == EXPAND
    modifies b, b.buffer
    ensures b.Valid() && b.expand == EXPAND && (b.buffer == old(b.buffer) || fresh(b.buffer))
    ensures b.Level() == After(old(b.Level()), op)
    ensures b.Window() == Queued(old(b.Window()), old(b.Level()), op)
  {
    match op {
      case PushBack(bytes) => b.PushBack(bytes);
      case Emplace(n) => b.Emplace(n);
      case PopFront(n) => b.PopFront(n);
      case Append(source, want) => var _ := b.Append(source, want);
      case Reserve(n) => b.Reserve(n);
      case Empty => var _ := b.Empty();
      case Clear => b.Clear();
    }
  }

  /** Every history: the window is the queue of the bytes put in and not yet taken out, and prefix,
      stored bytes and capacity are those of the arithmetic above. */
  method Replay(capacity: nat, ops: seq<Op>) returns (window: seq<byte>, level: Fill)
    requires capacity > 0
    ensures window == Queue(capacity, ops) && level == Level(capacity, ops)
    ensures |window| == level.Live()
  {
    hide Queue, Level, After, Queued;
    var b := new IoBufferEx(capacity);
    NoneYet(capacity, ops);
    for i := 0 to |ops|
      invariant b.Valid() && fresh(b) && fresh(b.buffer) && b.expand == EXPAND
      invariant b.Level() == Level(capacity, ops[..i]) && b.Window() == Queue(capacity, ops[..i])
    {
      Perform(b, ops[i]);
      OneMore(capacity, ops, i);
    }
    assert ops[..|ops|] == ops;
    window, level := b.Window(), b.Level();
  }

  // ---------------------------------------------------------------------------------------------
  // How far the allocation grows

  /** The bytes an operation asks room for. */
  function Demand(op: Op): nat {
    match op
    case PushBack(bytes) => |bytes|
    case Emplace(n) => n
    case Append(_, _) => EXPAND
    case Reserve(n) => n
    case _ => 0
  }

  /** The operation is no append that must grow a buffer in which the live bytes would leave room,
      and no reserve behind a consumed prefix longer than all that is live and asked for. */
  predicate Modest(f: Fill, op: Op) {
    match op
    case Append(_, _) => !(f.Live() + EXPAND < f.max < f.size + EXPAND)
    case Reserve(n) => f.pos + n <= f.max || f.pos <= 2 * f.Live() + n
    case _ => true
  }

  /** What each operation does to prefix, stored bytes and capacity.  push_back and emplace give up the
      prefix once the capacity would be reached, and grow only if even the live bytes leave too little
      room; append keeps the prefix and grows if the stored bytes do.  Growth doubles the larger of
      capacity and request.  An emptied buffer starts again at the front. */
  lemma OperationsAreExact(f: Fill, op: Op)
    requires f.Valid()
    ensures var r := After(f, op);
      match op
      case PushBack(bytes) => r.Live() == f.Live() + |bytes| && MakesRoom(f, |bytes|, r)
      case Emplace(n) => r.Live() == f.Live() && MakesRoom(f, n, r)
      case PopFront(n) =>
        r.Live() == Max(f.Live() - n, 0) && r.max == f.max && if r.Live() == 0 then r.size == 0 else r.size == f.size
      case Append(source, want) =>
        && r.max == (if f.size + 0x1000 <= f.max then f.max else 2 * Max(f.max, 0x1000))
        && r.pos == f.pos && r.size == f.size + Min(Min(want, |source|), r.max - f.size)
      case Reserve(n) => r.pos == f.pos && r.size == f.size && r.max == Max(f.max, f.pos + n)
      case Empty => r.Live() == f.Live() && r.max == f.max && if r.Live() == 0 then r.size == 0 else r.size == f.size
      case Clear => r == Fill(0, 0, f.max)
  {
  }

  predicate MakesRoom(f: Fill, n: nat, r: Fill) {
    && r.pos == (if f.size + n >= f.max then 0 else f.pos)
    && r.max == if f.Live() + n <= f.max then f.max else 2 * Max(f.max, n)
  }

  /** Exactly the modest operations keep the capacity within twice what is live and asked for. */
  lemma BoundedIffModest(f: Fill, op: Op)
    requires f.Valid()
    ensures After(f, op).max <= Max(f.max, 2 * (f.Live() + Demand(op))) <==> Modest(f, op)
  {
  }

  /** The peak, over a history, of live bytes plus requested bytes. */
  function LivePeak(capacity: nat, ops: seq<Op>): int
    requires capacity > 0
  {
    if ops == [] then 0
    else
      var before := ops[..|ops| - 1];
      Max(LivePeak(capacity, before), Level(capacity, before).Live() + Demand(ops[|ops| - 1]))
  }

  /** The same with the consumed prefix. */
  function StoredPeak(capacity: nat, ops: seq<Op>): int
    requires capacity > 0
  {
    if ops == [] then 0
    else
      var before := ops[..|ops| - 1];
      Max(StoredPeak(capacity, before), Level(capacity, before).size + Demand(ops[|ops| - 1]))
  }

  lemma BoundedByStored(f: Fill, op: Op)
    requires f.Valid()
    ensures After(f, op).max <= Max(f.max, 2 * (f.size + Demand(op)))
  {
  }

  /** After every history the capacity is within twice the peak of stored and requested bytes. */
  lemma {:induction false} WithinStoredPeak(capacity: nat, ops: seq<Op>)
    requires capacity > 0
    ensures Level(capacity, ops).max <= Max(capacity, 2 * StoredPeak(capacity, ops))
    decreases |ops|
  {
    if ops != [] {
      var before := ops[..|ops| - 1];
      WithinStoredPeak(capacity, before);
      BoundedByStored(Level(capacity, before), ops[|ops| - 1]);
      hide After, Demand;
    }
  }

  /** After every history of modest operations, all that use only push_back and emplace to grow
      among them, it is within twice the peak of live and requested bytes. */
  lemma {:induction false} WithinLivePeak(capacity: nat, ops: seq<Op>)
    requires capacity > 0
    requires forall i | 0 <= i < |ops| :: Modest(Level(capacity, ops[..i]), ops[i])
    ensures Level(capacity, ops).max <= Max(capacity, 2 * LivePeak(capacity, ops))
    decreases |ops|
  {
    if ops != [] {
      var before := ops[..|ops| - 1];
      assert forall i | 0 <= i < |before| :: before[..i] == ops[..i];
      WithinLivePeak(capacity, before);
      BoundedIffModest(Level(capacity, before), ops[|ops| - 1]);
    }
  }

  /** The condition fails without limit for append, the operation recv uses: it never compacts.  When
      every read leaves one byte unconsumed, the allocation grows with the bytes read in total,
      although no more than 0x1001 of them are ever live. */
  method AppendKeepsConsumedBytes(rounds: nat) returns (live: nat, max: nat)
    ensures live == 1 && max >= 0x1000 * rounds
  {
    var b := new IoBufferEx(0x1000);
    ReadAndConsume(b, 2);
    for i := 0 to rounds
      invariant b.Valid() && fresh(b) && fresh(b.buffer) && b.expand == 0x1000
      invariant |b.Window()| == 1 && b.size == 2 + 0x1000 * i
    {
      ReadAndConsume(b, 0x1000);
    }
    live, max := |b.Window()|, b.max;
  }

  /** A read of n bytes after which all but one of the live bytes are consumed. */
  method ReadAndConsume(b: IoBufferEx, n: nat)
    requires b.Valid() && b.expand == 0x1000 && 0 < n <= 0x1000 && |b.Window()| + n > 1
    modifies b, b.buffer
    ensures b.Valid() && b.expand == 0x1000 && (b.buffer == old(b.buffer) || fresh(b.buffer))
    ensures |b.Window()| == 1 && b.size == old(b.size) + n
  {
    var chunk := seq(n, _ => 0 as byte);
    var r := b.Append(chunk, n);
    assert r == n;
    b.PopFront(|b.Window()| - 1);
  }
}

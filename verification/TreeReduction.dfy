/** The tree-ordered reduction: `size` processes, each running the mask loop on its own,
    joined by one ordered queue of messages per (source, destination) pair. */
module TreeReduction {
  import opened Bits
  import opened Folds

  /** Where one process stands in the loop. `rounds` counts the doublings of `mask`;
      `sent` is the list of messages it has sent so far. */
  datatype Proc<V> = Proc(mask: nat, result: V, done: bool, rounds: nat, sent: seq<Mail<V>>)

  datatype Mail<V> = Mail(to: nat, payload: V)

  datatype Config<!V> = Config(size: nat, root: nat, op: (V, V) -> V)

  datatype System<V> = System(procs: seq<Proc<V>>, queues: map<(nat, nat), seq<V>>)

  predicate ValidConfig<V>(c: Config<V>) {
    c.root < c.size
  }

  /** The position of a rank in the order root, root+1, ..., root-1. */
  function WrappedRank(rank: nat, size: nat, root: nat): (w: nat)
    requires root < size && rank < size
    ensures w < size
  {
    if rank >= root then rank - root else rank + size - root
  }

  function RealRank(w: nat, size: nat, root: nat): (r: nat)
    requires root < size && w < size
    ensures r < size
  {
    if w + root < size then w + root else w + root - size
  }

  lemma ModOnce(a: nat, n: nat)
    requires a < 2 * n
    ensures a % n == if a < n then a else a - n
  {
    if a >= n {
      assert a == n + (a - n);
    }
  }

  /** The rotations are the ones the code computes with the remainder operator, and they undo each other. */
  lemma RanksAreInverse(w: nat, size: nat, root: nat)
    requires root < size && w < size
    ensures WrappedRank(w, size, root) == (w + size - root) % size
    ensures RealRank(w, size, root) == (w + root) % size
    ensures WrappedRank(RealRank(w, size, root), size, root) == w
    ensures RealRank(WrappedRank(w, size, root), size, root) == w
  {
    ModOnce(w + root, size);
    ModOnce(w + size - root, size);
  }

  function Queue<V>(queues: map<(nat, nat), seq<V>>, source: nat, destination: nat): seq<V> {
    if (source, destination) in queues then queues[(source, destination)] else []
  }

  function Init<V>(c: Config<V>, values: seq<V>): System<V>
    requires |values| == c.size
  {
    System(seq(c.size, i requires 0 <= i < c.size => Proc(1, values[i], false, 0, [])), map[])
  }

  /** What the process of this rank is about to do. */
  datatype Action = Halt | SendTo(receiver: nat) | ReceiveFrom(sender: nat) | Skip

  function NextAction(size: nat, root: nat, rank: nat, mask: nat): Action
    requires root < size && rank < size
  {
    var w := WrappedRank(rank, size, root);
    AndNotBelow(w, mask);
    if mask >= size then Halt
    else if And(w, mask) != 0 then SendTo(RealRank(AndNot(w, mask), size, root))
    else if Or(w, mask) < size then ReceiveFrom(RealRank(Or(w, mask), size, root))
    else Skip
  }

  /** A process can move unless it has left the loop or blocks in its receive. */
  predicate Enabled<V>(c: Config<V>, s: System<V>, r: nat)
    requires ValidConfig(c) && |s.procs| == c.size
  {
    && r < c.size
    && !s.procs[r].done
    && var a := NextAction(c.size, c.root, r, s.procs[r].mask);
       (a.ReceiveFrom? ==> Queue(s.queues, a.sender, r) != [])
  }

  /** One pass through the loop by the process of rank r. */
  function Step<V>(c: Config<V>, s: System<V>, r: nat): (s': System<V>)
    requires ValidConfig(c) && |s.procs| == c.size && Enabled(c, s, r)
    ensures |s'.procs| == c.size
  {
    var p := s.procs[r];
    match NextAction(c.size, c.root, r, p.mask)
    case Halt => s.(procs := s.procs[r := p.(done := true)])
    case SendTo(to) =>
      System(s.procs[r := p.(done := true, sent := p.sent + [Mail(to, p.result)])],
             s.queues[(r, to) := Queue(s.queues, r, to) + [p.result]])
    case ReceiveFrom(from) =>
      var q := Queue(s.queues, from, r);
      System(s.procs[r := p.(mask := 2 * p.mask, result := c.op(p.result, q[0]), rounds := p.rounds + 1)],
             s.queues[(from, r) := q[1..]])
    case Skip => s.(procs := s.procs[r := p.(mask := 2 * p.mask, rounds := p.rounds + 1)])
  }

  /** The states a run passes through: any interleaving of enabled processes. */
  ghost predicate IsRun<V>(c: Config<V>, values: seq<V>, run: seq<System<V>>, schedule: seq<nat>)
    requires ValidConfig(c) && |values| == c.size
  {
    && |run| == |schedule| + 1
    && run[0] == Init(c, values)
    && (forall i :: 0 <= i < |schedule| ==>
          |run[i].procs| == c.size && Enabled(c, run[i], schedule[i]) && run[i + 1] == Step(c, run[i], schedule[i]))
  }

  // ---------------------------------------------------------------- invariant

  /** The values in wrapped order: the root's first. */
  function Wrapped<V>(c: Config<V>, values: seq<V>): (ws: seq<V>)
    requires ValidConfig(c) && |values| == c.size
    ensures |ws| == c.size
  {
    values[c.root..] + values[..c.root]
  }

  function Min(a: nat, b: nat): nat { if a < b then a else b }

  function At<V>(c: Config<V>, s: System<V>, w: nat): Proc<V>
    requires ValidConfig(c) && |s.procs| == c.size && w < c.size
  {
    s.procs[RealRank(w, c.size, c.root)]
  }

  function Between<V>(c: Config<V>, s: System<V>, a: nat, b: nat): seq<V>
    requires ValidConfig(c) && a < c.size && b < c.size
  {
    Queue(s.queues, RealRank(a, c.size, c.root), RealRank(b, c.size, c.root))
  }

  /** The fold of the block of wrapped ranks that w is responsible for after `rounds` doublings. */
  function Block<V>(c: Config<V>, values: seq<V>, w: nat, rounds: nat): V
    requires ValidConfig(c) && |values| == c.size && w < c.size
  {
    FoldRange(c.op, Wrapped(c, values), w, Min(w + Pow2(rounds), c.size))
  }

  ghost predicate ProcInv<V>(c: Config<V>, values: seq<V>, w: nat, p: Proc<V>)
    requires ValidConfig(c) && |values| == c.size && w < c.size
  {
    && p.mask == Pow2(p.rounds)
    && Aligned(w, p.rounds)
    && p.result == Block(c, values, w, p.rounds)
    && p.rounds <= CeilLog2(c.size)
    && (!p.done ==> p.sent == [])
    && (p.done && w == 0 ==> p.mask >= c.size && p.sent == [])
    && (p.done && w > 0 ==>
          && p.rounds == LowIndex(w)
          && p.sent == [Mail(RealRank(Parent(w), c.size, c.root), p.result)])
  }

  /** What the queue q from wrapped rank a to wrapped rank b holds, given their processes. */
  ghost predicate QueueOk<V>(a: nat, b: nat, q: seq<V>, pa: Proc<V>, pb: Proc<V>) {
    if a == 0 || b != Parent(a) then q == []
    else if pb.rounds > LowIndex(a) then q == [] && pa.done
    else if pa.done then q == [pa.result]
    else q == []
  }

  ghost predicate QueueInv<V>(c: Config<V>, s: System<V>, a: nat, b: nat)
    requires ValidConfig(c) && |s.procs| == c.size && a < c.size && b < c.size
  {
    QueueOk(a, b, Between(c, s, a, b), At(c, s, a), At(c, s, b))
  }

  ghost predicate RankInv<V>(c: Config<V>, values: seq<V>, s: System<V>, w: nat)
    requires ValidConfig(c) && |values| == c.size && |s.procs| == c.size && w < c.size
  {
    ProcInv(c, values, w, At(c, s, w))
  }

  ghost predicate Inv<V>(c: Config<V>, values: seq<V>, s: System<V>)
    requires ValidConfig(c) && |values| == c.size
  {
    && |s.procs| == c.size
    && (forall w :: 0 <= w < c.size ==> RankInv(c, values, s, w))
    && (forall a, b :: 0 <= a < c.size && 0 <= b < c.size ==> QueueInv(c, s, a, b))
  }

  lemma InitInv<V>(c: Config<V>, values: seq<V>)
    requires ValidConfig(c) && |values| == c.size
    ensures Inv(c, values, Init(c, values))
  {
    var s := Init(c, values);
    forall w | 0 <= w < c.size
      ensures ProcInv(c, values, w, At(c, s, w))
    {
      assert Wrapped(c, values)[w..w + 1] == [Wrapped(c, values)[w]];
    }
  }

  // ---------------------------------------------------------------- preservation

  lemma RealRankInjective(size: nat, root: nat)
    requires root < size
    ensures forall a, b ::
      0 <= a < size && 0 <= b < size && RealRank(a, size, root) == RealRank(b, size, root) ==> a == b
  {
  }

  /** Reads the action off the bits of the wrapped rank: a process sends once, at its lowest set bit,
      to the rank with that bit cleared; before that it listens to the ranks with one more bit set. */
  lemma ActionBits(size: nat, root: nat, r: nat, k: nat)
    requires root < size && r < size && Aligned(WrappedRank(r, size, root), k)
    ensures var w := WrappedRank(r, size, root);
            match NextAction(size, root, r, Pow2(k))
            case Halt => w == 0 && Pow2(k) >= size
            case SendTo(to) => Pow2(k) < size && w > 0 && k == LowIndex(w) && to == RealRank(Parent(w), size, root)
            case ReceiveFrom(from) =>
              && w + Pow2(k) < size && from == RealRank(w + Pow2(k), size, root)
              && LowIndex(w + Pow2(k)) == k && Parent(w + Pow2(k)) == w && Aligned(w, k + 1)
            case Skip => Pow2(k) < size <= w + Pow2(k) && Aligned(w, k + 1)
  {
    var w := WrappedRank(r, size, root);
    TestMask(w, k);
    AlignNext(w, k);
    if Pow2(k) >= size {
      if w > 0 {
        LowBitIs(w, k);
        LowBitBound(w);
        Pow2Monotone(k, LowIndex(w));
      }
    } else if Bit(w, k) {
      ClearMask(w, k);
      LowBitIs(w, k);
    } else {
      SetMask(w, k);
      ChildOf(w, k);
    }
  }

  lemma ActionOf<V>(c: Config<V>, values: seq<V>, s: System<V>, r: nat)
    requires ValidConfig(c) && |values| == c.size && Inv(c, values, s) && r < c.size
    ensures var w := WrappedRank(r, c.size, c.root);
            RealRank(w, c.size, c.root) == r && s.procs[r] == At(c, s, w) && ProcInv(c, values, w, s.procs[r])
  {
    var w := WrappedRank(r, c.size, c.root);
    assert RankInv(c, values, s, w);
  }

  /** A process still inside the loop has rounds to spare. */
  lemma RoundsBelowLog(size: nat, k: nat)
    requires Pow2(k) < size
    ensures k < CeilLog2(size)
  {
    CeilLog2Least(size, k);
    if k >= CeilLog2(size) {
      Pow2Monotone(CeilLog2(size), k);
    }
  }

  /** s' is s with the process of wrapped rank w and the queue from a to b replaced. */
  ghost predicate Moves<V>(c: Config<V>, s: System<V>, s': System<V>, w: nat, p: Proc<V>, a: nat, b: nat, q: seq<V>)
    requires ValidConfig(c) && |s.procs| == c.size
  {
    && |s'.procs| == c.size && w < c.size && a < c.size && b < c.size
    && (forall v :: 0 <= v < c.size ==> At(c, s', v) == if v == w then p else At(c, s, v))
    && (forall x, y :: 0 <= x < c.size && 0 <= y < c.size ==>
          Between(c, s', x, y) == if x == a && y == b then q else Between(c, s, x, y))
  }

  /** The queue from x to y after the move, which touches one of its ends. */
  ghost predicate TouchedOk<V>(c: Config<V>, s: System<V>, w: nat, p: Proc<V>, a: nat, b: nat, q: seq<V>,
                               x: nat, y: nat)
    requires ValidConfig(c) && |s.procs| == c.size && x < c.size && y < c.size
  {
    QueueOk(x, y, if x == a && y == b then q else Between(c, s, x, y),
            if x == w then p else At(c, s, x), if y == w then p else At(c, s, y))
  }

  lemma MovesInv<V>(c: Config<V>, values: seq<V>, s: System<V>, s': System<V>, w: nat, p: Proc<V>,
                    a: nat, b: nat, q: seq<V>)
    requires ValidConfig(c) && |values| == c.size && Inv(c, values, s)
    requires Moves(c, s, s', w, p, a, b, q)
    requires ProcInv(c, values, w, p)
    requires a == w || b == w
    requires forall x, y :: 0 <= x < c.size && 0 <= y < c.size && (x == w || y == w) ==>
      TouchedOk(c, s, w, p, a, b, q, x, y)
    ensures Inv(c, values, s')
  {
    forall v | 0 <= v < c.size
      ensures ProcInv(c, values, v, At(c, s', v))
    {
      assert RankInv(c, values, s, v);
    }
    forall x, y | 0 <= x < c.size && 0 <= y < c.size
      ensures QueueInv(c, s', x, y)
    {
      assert QueueInv(c, s, x, y);
      assert x == w || y == w ==> TouchedOk(c, s, w, p, a, b, q, x, y);
    }
  }

  lemma UpdateMoves<V>(c: Config<V>, s: System<V>, w: nat, p: Proc<V>, a: nat, b: nat, q: seq<V>)
    requires ValidConfig(c) && |s.procs| == c.size && w < c.size && a < c.size && b < c.size
    ensures var procs := s.procs[RealRank(w, c.size, c.root) := p];
            var key := (RealRank(a, c.size, c.root), RealRank(b, c.size, c.root));
            && Moves(c, s, System(procs, s.queues[key := q]), w, p, a, b, q)
            && Moves(c, s, System(procs, s.queues), w, p, a, b, Between(c, s, a, b))
  {
    RealRankInjective(c.size, c.root);
  }

  /** What one step does, seen through wrapped ranks. */
  lemma StepMoves<V>(c: Config<V>, values: seq<V>, s: System<V>, r: nat)
    requires ValidConfig(c) && |values| == c.size && Inv(c, values, s) && Enabled(c, s, r)
    ensures var w := WrappedRank(r, c.size, c.root);
            var p := s.procs[r];
            var s' := Step(c, s, r);
            match NextAction(c.size, c.root, r, p.mask)
            case SendTo(_) =>
              w > 0 && Moves(c, s, s', w, s'.procs[r], w, Parent(w), Between(c, s, w, Parent(w)) + [p.result])
            case ReceiveFrom(_) =>
              && w + p.mask < c.size && Between(c, s, w + p.mask, w) != []
              && s'.procs[r].result == c.op(p.result, Between(c, s, w + p.mask, w)[0])
              && Moves(c, s, s', w, s'.procs[r], w + p.mask, w, Between(c, s, w + p.mask, w)[1..])
            case _ => Moves(c, s, s', w, s'.procs[r], w, w, Between(c, s, w, w))
  {
    ActionOf(c, values, s, r);
    ActionBits(c.size, c.root, r, s.procs[r].rounds);
    var w, p, s' := WrappedRank(r, c.size, c.root), s.procs[r], Step(c, s, r);
    match NextAction(c.size, c.root, r, p.mask)
    case SendTo(to) => UpdateMoves(c, s, w, s'.procs[r], w, Parent(w), Between(c, s, w, Parent(w)) + [p.result]);
    case ReceiveFrom(from) => UpdateMoves(c, s, w, s'.procs[r], w + p.mask, w, Between(c, s, w + p.mask, w)[1..]);
    case _ => UpdateMoves(c, s, w, s'.procs[r], w, w, Between(c, s, w, w));
  }

  lemma QuietQueue<V>(x: nat, y: nat, w: nat, q: seq<V>, px: Proc<V>, py: Proc<V>, p: Proc<V>, p': Proc<V>)
    requires QueueOk(x, y, q, px, py) && (x == w ==> px == p) && (y == w ==> py == p)
    requires p' == p.(done := w == 0, sent := p'.sent)
    requires !p.done && (p'.done ==> w == 0)
    ensures QueueOk(x, y, q, if x == w then p' else px, if y == w then p' else py)
  {
  }

  lemma SendQueue<V>(x: nat, y: nat, w: nat, q: seq<V>, px: Proc<V>, py: Proc<V>, p: Proc<V>, p': Proc<V>)
    requires QueueOk(x, y, q, px, py) && (x == w ==> px == p) && (y == w ==> py == p)
    requires w > 0 && !p.done && p' == p.(done := true, sent := p'.sent)
    ensures QueueOk(x, y, if x == w && y == Parent(w) then q + [p.result] else q,
                    if x == w then p' else px, if y == w then p' else py)
  {
  }

  /** w moves on to the next bit; a is its child at the present one, if it has one in range. */
  lemma AdvanceQueue<V>(x: nat, y: nat, w: nat, size: nat, q: seq<V>, px: Proc<V>, py: Proc<V>, p: Proc<V>, p': Proc<V>)
    requires QueueOk(x, y, q, px, py) && (x == w ==> px == p) && (y == w ==> py == p)
    requires !p.done && p' == p.(rounds := p.rounds + 1, mask := p'.mask, result := p'.result)
    requires x < size && y < size && Aligned(w, p.rounds + 1)
    requires x == w + Pow2(p.rounds) && y == w ==> q != []
    ensures QueueOk(x, y, if x == w + Pow2(p.rounds) && y == w && q != [] then q[1..] else q,
                    if x == w then p' else px, if y == w then p' else py)
  {
    ChildOf(w, p.rounds);
    if x > 0 && y == w == Parent(x) {
      LowBitBound(x);
    }
  }

  lemma HaltInv<V>(c: Config<V>, values: seq<V>, s: System<V>, r: nat)
    requires ValidConfig(c) && |values| == c.size && Inv(c, values, s) && Enabled(c, s, r)
    requires NextAction(c.size, c.root, r, s.procs[r].mask).Halt?
    ensures Inv(c, values, Step(c, s, r))
  {
    ActionOf(c, values, s, r);
    ActionBits(c.size, c.root, r, s.procs[r].rounds);
    StepMoves(c, values, s, r);
    var w, p, s' := WrappedRank(r, c.size, c.root), s.procs[r], Step(c, s, r);
    forall x, y | 0 <= x < c.size && 0 <= y < c.size && (x == w || y == w)
      ensures TouchedOk(c, s, w, s'.procs[r], w, w, Between(c, s, w, w), x, y)
    {
      assert QueueInv(c, s, x, y);
      QuietQueue(x, y, w, Between(c, s, x, y), At(c, s, x), At(c, s, y), p, s'.procs[r]);
    }
    MovesInv(c, values, s, s', w, s'.procs[r], w, w, Between(c, s, w, w));
  }

  lemma SendInv<V>(c: Config<V>, values: seq<V>, s: System<V>, r: nat)
    requires ValidConfig(c) && |values| == c.size && Inv(c, values, s) && Enabled(c, s, r)
    requires NextAction(c.size, c.root, r, s.procs[r].mask).SendTo?
    ensures Inv(c, values, Step(c, s, r))
  {
    ActionOf(c, values, s, r);
    ActionBits(c.size, c.root, r, s.procs[r].rounds);
    StepMoves(c, values, s, r);
    var w, p, s' := WrappedRank(r, c.size, c.root), s.procs[r], Step(c, s, r);
    var q := Between(c, s, w, Parent(w)) + [p.result];
    forall x, y | 0 <= x < c.size && 0 <= y < c.size && (x == w || y == w)
      ensures TouchedOk(c, s, w, s'.procs[r], w, Parent(w), q, x, y)
    {
      assert QueueInv(c, s, x, y);
      SendQueue(x, y, w, Between(c, s, x, y), At(c, s, x), At(c, s, y), p, s'.procs[r]);
    }
    MovesInv(c, values, s, s', w, s'.procs[r], w, Parent(w), q);
  }

  lemma ReceiveInv<V(!new)>(c: Config<V>, values: seq<V>, s: System<V>, r: nat)
    requires Associative(c.op)
    requires ValidConfig(c) && |values| == c.size && Inv(c, values, s) && Enabled(c, s, r)
    requires NextAction(c.size, c.root, r, s.procs[r].mask).ReceiveFrom?
    ensures Inv(c, values, Step(c, s, r))
  {
    ActionOf(c, values, s, r);
    ActionBits(c.size, c.root, r, s.procs[r].rounds);
    StepMoves(c, values, s, r);
    var w, p, s' := WrappedRank(r, c.size, c.root), s.procs[r], Step(c, s, r);
    var a := w + p.mask;
    var rest := Between(c, s, a, w)[1..];
    ReceivedBlock(c, values, s, r);
    ReceiveProc(c, values, s, r);
    forall x, y | 0 <= x < c.size && 0 <= y < c.size && (x == w || y == w)
      ensures TouchedOk(c, s, w, s'.procs[r], a, w, rest, x, y)
    {
      assert QueueInv(c, s, x, y);
      AdvanceQueue(x, y, w, c.size, Between(c, s, x, y), At(c, s, x), At(c, s, y), p, s'.procs[r]);
    }
    MovesInv(c, values, s, s', w, s'.procs[r], a, w, rest);
  }

  /** The blocks of a receiver and of its child at bit k are adjacent and join into one. */
  lemma JoinBlocks<V(!new)>(c: Config<V>, values: seq<V>, w: nat, k: nat)
    requires ValidConfig(c) && |values| == c.size && Associative(c.op) && w + Pow2(k) < c.size
    ensures c.op(Block(c, values, w, k), Block(c, values, w + Pow2(k), k)) == Block(c, values, w, k + 1)
  {
    FoldAdjacent(c.op, Wrapped(c, values), w, w + Pow2(k), Min(w + Pow2(k + 1), c.size));
  }

  /** What a receiver at bit k finds in the queue of its child at that bit: nothing until the child is done, and
      then the fold of the child's block. */
  lemma ChildQueue<V>(c: Config<V>, values: seq<V>, s: System<V>, w: nat, k: nat)
    requires ValidConfig(c) && |values| == c.size && Inv(c, values, s)
    requires w + Pow2(k) < c.size && At(c, s, w).rounds == k && Aligned(w, k + 1)
    ensures var a := w + Pow2(k);
      Between(c, s, a, w) == if At(c, s, a).done then [Block(c, values, a, k)] else []
  {
    var a := w + Pow2(k);
    ChildOf(w, k);
    assert QueueInv(c, s, a, w);
    assert RankInv(c, values, s, a);
  }

  lemma AbsorbChild<V(!new)>(c: Config<V>, values: seq<V>, w: nat, p: Proc<V>)
    requires ValidConfig(c) && |values| == c.size && Associative(c.op) && w + p.mask < c.size
    requires ProcInv(c, values, w, p) && Aligned(w, p.rounds + 1) && !p.done
    ensures ProcInv(c, values, w, p.(mask := 2 * p.mask, rounds := p.rounds + 1,
                                     result := c.op(p.result, Block(c, values, w + p.mask, p.rounds))))
  {
    JoinBlocks(c, values, w, p.rounds);
    RoundsBelowLog(c.size, p.rounds);
  }

  lemma ReceiveStep<V>(c: Config<V>, s: System<V>, r: nat)
    requires ValidConfig(c) && |s.procs| == c.size && Enabled(c, s, r)
    requires NextAction(c.size, c.root, r, s.procs[r].mask).ReceiveFrom?
    ensures var p := s.procs[r];
            var received := Queue(s.queues, NextAction(c.size, c.root, r, p.mask).sender, r)[0];
      Step(c, s, r).procs[r] == p.(mask := 2 * p.mask, rounds := p.rounds + 1, result := c.op(p.result, received))
  {
  }

  /** What is in the queue that a process is about to receive from. */
  lemma ReceivedBlock<V>(c: Config<V>, values: seq<V>, s: System<V>, r: nat)
    requires ValidConfig(c) && |values| == c.size && Inv(c, values, s) && Enabled(c, s, r)
    requires NextAction(c.size, c.root, r, s.procs[r].mask).ReceiveFrom?
    ensures var w, p := WrappedRank(r, c.size, c.root), s.procs[r];
      && w + p.mask < c.size && Aligned(w, p.rounds + 1) && ProcInv(c, values, w, p)
      && Queue(s.queues, NextAction(c.size, c.root, r, p.mask).sender, r) == [Block(c, values, w + p.mask, p.rounds)]
  {
    var w, p := WrappedRank(r, c.size, c.root), s.procs[r];
    ActionOf(c, values, s, r);
    ActionBits(c.size, c.root, r, p.rounds);
    ChildQueue(c, values, s, w, p.rounds);
    assert Queue(s.queues, NextAction(c.size, c.root, r, p.mask).sender, r) == Between(c, s, w + p.mask, w);
  }

  lemma ReceiveProc<V(!new)>(c: Config<V>, values: seq<V>, s: System<V>, r: nat)
    requires ValidConfig(c) && |values| == c.size && |s.procs| == c.size && Associative(c.op) && Enabled(c, s, r)
    requires NextAction(c.size, c.root, r, s.procs[r].mask).ReceiveFrom?
    requires var w, p := WrappedRank(r, c.size, c.root), s.procs[r];
      && w + p.mask < c.size && Aligned(w, p.rounds + 1) && ProcInv(c, values, w, p)
      && Queue(s.queues, NextAction(c.size, c.root, r, p.mask).sender, r) == [Block(c, values, w + p.mask, p.rounds)]
    ensures ProcInv(c, values, WrappedRank(r, c.size, c.root), Step(c, s, r).procs[r])
  {
    ReceiveStep(c, s, r);
    AbsorbChild(c, values, WrappedRank(r, c.size, c.root), s.procs[r]);
  }

  lemma SkipInv<V>(c: Config<V>, values: seq<V>, s: System<V>, r: nat)
    requires ValidConfig(c) && |values| == c.size && Inv(c, values, s) && Enabled(c, s, r)
    requires NextAction(c.size, c.root, r, s.procs[r].mask).Skip?
    ensures Inv(c, values, Step(c, s, r))
  {
    ActionOf(c, values, s, r);
    ActionBits(c.size, c.root, r, s.procs[r].rounds);
    StepMoves(c, values, s, r);
    var w, p, s' := WrappedRank(r, c.size, c.root), s.procs[r], Step(c, s, r);
    RoundsBelowLog(c.size, p.rounds);
    forall x, y | 0 <= x < c.size && 0 <= y < c.size && (x == w || y == w)
      ensures TouchedOk(c, s, w, s'.procs[r], w, w, Between(c, s, w, w), x, y)
    {
      assert QueueInv(c, s, x, y);
      AdvanceQueue(x, y, w, c.size, Between(c, s, x, y), At(c, s, x), At(c, s, y), p, s'.procs[r]);
    }
    MovesInv(c, values, s, s', w, s'.procs[r], w, w, Between(c, s, w, w));
  }

  lemma StepInv<V(!new)>(c: Config<V>, values: seq<V>, s: System<V>, r: nat)
    requires ValidConfig(c) && |values| == c.size && Inv(c, values, s) && Associative(c.op) && Enabled(c, s, r)
    ensures Inv(c, values, Step(c, s, r))
  {
    match NextAction(c.size, c.root, r, s.procs[r].mask)
    case Halt => HaltInv(c, values, s, r);
    case SendTo(_) => SendInv(c, values, s, r);
    case ReceiveFrom(_) => ReceiveInv(c, values, s, r);
    case Skip => SkipInv(c, values, s, r);
  }

  // ---------------------------------------------------------------- theorems

  lemma {:induction false} RunInv<V(!new)>(c: Config<V>, values: seq<V>, run: seq<System<V>>, schedule: seq<nat>,
                                           i: nat)
    requires ValidConfig(c) && |values| == c.size && Associative(c.op)
    requires IsRun(c, values, run, schedule) && i < |run|
    ensures Inv(c, values, run[i])
  {
    if i == 0 {
      InitInv(c, values);
    } else {
      RunInv(c, values, run, schedule, i - 1);
      StepInv(c, values, run[i - 1], schedule[i - 1]);
    }
  }

  predicate AllDone<V>(s: System<V>) {
    forall r :: 0 <= r < |s.procs| ==> s.procs[r].done
  }

  /** The running process that is last in wrapped order among w..size-1. */
  lemma {:induction false} LastRunning<V>(c: Config<V>, s: System<V>, w: nat) returns (last: nat)
    requires ValidConfig(c) && |s.procs| == c.size && w < c.size && !At(c, s, w).done
    ensures w <= last < c.size && !At(c, s, last).done
    ensures forall v :: last < v < c.size ==> At(c, s, v).done
    decreases c.size - w
  {
    last := w;
    if v :| w < v < c.size && !At(c, s, v).done {
      last := LastRunning(c, s, v);
    }
  }

  lemma LastCanMove<V>(c: Config<V>, values: seq<V>, s: System<V>, w: nat)
    requires ValidConfig(c) && |values| == c.size && Inv(c, values, s)
    requires w < c.size && !At(c, s, w).done && forall v :: w < v < c.size ==> At(c, s, v).done
    ensures Enabled(c, s, RealRank(w, c.size, c.root))
  {
    var rank := RealRank(w, c.size, c.root);
    ActionOf(c, values, s, rank);
    ActionBits(c.size, c.root, rank, s.procs[rank].rounds);
    if NextAction(c.size, c.root, rank, s.procs[rank].mask).ReceiveFrom? {
      ChildQueue(c, values, s, w, s.procs[rank].rounds);
    }
  }

  /** No deadlock: unless everybody is done, the last running process can move. */
  lemma Progress<V>(c: Config<V>, values: seq<V>, s: System<V>)
    requires ValidConfig(c) && |values| == c.size && Inv(c, values, s)
    ensures AllDone(s) <==> !exists r :: 0 <= r < c.size && Enabled(c, s, r)
  {
    if r :| 0 <= r < c.size && !s.procs[r].done {
      ActionOf(c, values, s, r);
      var w := LastRunning(c, s, WrappedRank(r, c.size, c.root));
      LastCanMove(c, values, s, w);
    }
  }

  /** How many more passes a process can make. */
  function Fuel<V>(c: Config<V>, p: Proc<V>): nat {
    if p.done then 0 else if p.rounds > CeilLog2(c.size) then 0 else 1 + CeilLog2(c.size) - p.rounds
  }

  function TotalFuel<V>(c: Config<V>, procs: seq<Proc<V>>): nat {
    if procs == [] then 0 else Fuel(c, procs[0]) + TotalFuel(c, procs[1..])
  }

  function TotalSent<V>(procs: seq<Proc<V>>): nat {
    if procs == [] then 0 else |procs[0].sent| + TotalSent(procs[1..])
  }

  lemma {:induction false} FuelDrops<V>(c: Config<V>, procs: seq<Proc<V>>, r: nat, p: Proc<V>)
    requires r < |procs| && Fuel(c, p) < Fuel(c, procs[r])
    ensures TotalFuel(c, procs[r := p]) < TotalFuel(c, procs)
  {
    if r == 0 {
      assert procs[0 := p][1..] == procs[1..];
    } else {
      assert procs[r := p][1..] == procs[1..][r - 1 := p];
      FuelDrops(c, procs[1..], r - 1, p);
    }
  }

  lemma {:induction false} FuelAtStart<V>(c: Config<V>, procs: seq<Proc<V>>)
    requires forall r :: 0 <= r < |procs| ==> !procs[r].done && procs[r].rounds == 0
    ensures TotalFuel(c, procs) == |procs| * (1 + CeilLog2(c.size))
  {
    if procs != [] {
      FuelAtStart(c, procs[1..]);
    }
  }

  /** Every schedule ends: a run of n steps has used up n units of the initial fuel. */
  lemma {:induction false} RunsAreShort<V(!new)>(c: Config<V>, values: seq<V>, run: seq<System<V>>,
                                                 schedule: seq<nat>, i: nat)
    requires ValidConfig(c) && |values| == c.size && Associative(c.op)
    requires IsRun(c, values, run, schedule) && i < |run|
    ensures i + TotalFuel(c, run[i].procs) <= c.size * (1 + CeilLog2(c.size))
  {
    if i == 0 {
      FuelAtStart(c, run[0].procs);
    } else {
      RunsAreShort(c, values, run, schedule, i - 1);
      RunInv(c, values, run, schedule, i - 1);
      var s, r := run[i - 1], schedule[i - 1];
      ActionOf(c, values, s, r);
      FuelDrops(c, s.procs, r, run[i].procs[r]);
    }
  }

  /** Rank r's contribution: everyone but the root sends one message. */
  lemma {:induction false} SentCount<V>(procs: seq<Proc<V>>, root: int)
    requires forall r :: 0 <= r < |procs| ==> |procs[r].sent| == if r == root then 0 else 1
    ensures TotalSent(procs) == if 0 <= root < |procs| then |procs| - 1 else |procs|
  {
    if procs != [] {
      SentCount(procs[1..], root - 1);
    }
  }

  /** Whatever the schedule: it is short; it never gets stuck before everybody is done; and when everybody is
      done, the root holds the fold of the values in the order root, root+1, ..., root-1, every other process has
      sent exactly one message (the fold of its block, to the rank with its lowest set bit cleared), size-1
      messages have been sent in all, and no queue holds any. */
  lemma TreeReduceCorrect<V(!new)>(c: Config<V>, values: seq<V>, run: seq<System<V>>, schedule: seq<nat>)
    requires ValidConfig(c) && |values| == c.size && Associative(c.op) && IsRun(c, values, run, schedule)
    ensures |schedule| <= c.size * (1 + CeilLog2(c.size))
    ensures var s := run[|schedule|];
      && |s.procs| == c.size
      && (forall r :: 0 <= r < c.size ==> s.procs[r].rounds <= CeilLog2(c.size) && |s.procs[r].sent| <= 1)
      && (AllDone(s) <==> !exists r :: 0 <= r < c.size && Enabled(c, s, r))
      && (AllDone(s) ==>
            && s.procs[c.root].result == Fold(c.op, values[c.root..] + values[..c.root])
            && (forall w :: 0 < w < c.size ==>
                  At(c, s, w).sent == [Mail(RealRank(Parent(w), c.size, c.root), Block(c, values, w, LowIndex(w)))])
            && TotalSent(s.procs) == c.size - 1
            && (forall a, b :: 0 <= a < c.size && 0 <= b < c.size ==> Queue(s.queues, a, b) == []))
  {
    var s := run[|schedule|];
    RunInv(c, values, run, schedule, |schedule|);
    RunsAreShort(c, values, run, schedule, |schedule|);
    Progress(c, values, s);
    forall r | 0 <= r < c.size
      ensures s.procs[r].rounds <= CeilLog2(c.size) && |s.procs[r].sent| <= 1
    {
      ActionOf(c, values, s, r);
    }
    if AllDone(s) {
      DoneState(c, values, s);
    }
  }

  /** Any run can be completed, by letting whoever is able to move move. */
  lemma {:induction false} CompleteRun<V(!new)>(c: Config<V>, values: seq<V>, run: seq<System<V>>, schedule: seq<nat>)
    returns (run': seq<System<V>>, schedule': seq<nat>)
    requires ValidConfig(c) && |values| == c.size && Associative(c.op) && IsRun(c, values, run, schedule)
    ensures IsRun(c, values, run', schedule') && AllDone(run'[|schedule'|]) && schedule <= schedule'
    decreases c.size * (1 + CeilLog2(c.size)) - |schedule|
  {
    var s := run[|schedule|];
    RunInv(c, values, run, schedule, |schedule|);
    if AllDone(s) {
      run', schedule' := run, schedule;
    } else {
      Progress(c, values, s);
      var r :| 0 <= r < c.size && Enabled(c, s, r);
      RunExtends(c, values, run, schedule, r);
      RunsAreShort(c, values, run + [Step(c, s, r)], schedule + [r], |schedule| + 1);
      run', schedule' := CompleteRun(c, values, run + [Step(c, s, r)], schedule + [r]);
    }
  }

  lemma RunExtends<V>(c: Config<V>, values: seq<V>, run: seq<System<V>>, schedule: seq<nat>, r: nat)
    requires ValidConfig(c) && |values| == c.size && IsRun(c, values, run, schedule)
    requires |run[|schedule|].procs| == c.size && Enabled(c, run[|schedule|], r)
    ensures IsRun(c, values, run + [Step(c, run[|schedule|], r)], schedule + [r])
  {
  }

  lemma SomeCompletedRun<V(!new)>(c: Config<V>, values: seq<V>) returns (run: seq<System<V>>, schedule: seq<nat>)
    requires ValidConfig(c) && |values| == c.size && Associative(c.op)
    ensures IsRun(c, values, run, schedule) && AllDone(run[|schedule|])
  {
    run, schedule := CompleteRun(c, values, [Init(c, values)], []);
  }

  lemma DoneState<V>(c: Config<V>, values: seq<V>, s: System<V>)
    requires ValidConfig(c) && |values| == c.size && Inv(c, values, s) && AllDone(s)
    ensures s.procs[c.root].result == Fold(c.op, values[c.root..] + values[..c.root])
    ensures forall w :: 0 < w < c.size ==>
      At(c, s, w).sent == [Mail(RealRank(Parent(w), c.size, c.root), Block(c, values, w, LowIndex(w)))]
    ensures TotalSent(s.procs) == c.size - 1
    ensures forall a, b :: 0 <= a < c.size && 0 <= b < c.size ==> Queue(s.queues, a, b) == []
  {
    assert RankInv(c, values, s, 0);
    assert Wrapped(c, values)[0..c.size] == Wrapped(c, values);
    forall w | 0 < w < c.size
      ensures At(c, s, w).sent == [Mail(RealRank(Parent(w), c.size, c.root), Block(c, values, w, LowIndex(w)))]
    {
      assert RankInv(c, values, s, w);
    }
    forall r | 0 <= r < c.size
      ensures |s.procs[r].sent| == if r == c.root then 0 else 1
    {
      ActionOf(c, values, s, r);
    }
    SentCount(s.procs, c.root);
    forall a, b | 0 <= a < c.size && 0 <= b < c.size
      ensures Queue(s.queues, a, b) == []
    {
      ActionOf(c, values, s, a);
      ActionOf(c, values, s, b);
      DoneQueue(c, values, s, WrappedRank(a, c.size, c.root), WrappedRank(b, c.size, c.root));
    }
  }

  /** A finished parent has passed the bit of every child it has. */
  lemma DoneQueue<V>(c: Config<V>, values: seq<V>, s: System<V>, a: nat, b: nat)
    requires ValidConfig(c) && |values| == c.size && Inv(c, values, s) && AllDone(s)
    requires a < c.size && b < c.size
    ensures Between(c, s, a, b) == []
  {
    assert QueueInv(c, s, a, b);
    if a > 0 && b == Parent(a) {
      assert RankInv(c, values, s, b);
      ParentAligned(a);
      LowBitBound(a);
      if b > 0 {
        LowBitIs(b, LowIndex(a) + 1);
      } else if At(c, s, b).rounds <= LowIndex(a) {
        Pow2Monotone(At(c, s, b).rounds, LowIndex(a));
      }
    }
  }

  // ---------------------------------------------------------------- the loop of one process

  /** The values that the children of wrapped rank w send it, by real rank. */
  ghost predicate ChildrenSent<V>(c: Config<V>, values: seq<V>, w: nat, inbox: map<nat, V>)
    requires ValidConfig(c) && |values| == c.size && w < c.size
  {
    forall a :: 0 < a < c.size && Parent(a) == w ==>
      && RealRank(a, c.size, c.root) in inbox
      && inbox[RealRank(a, c.size, c.root)] == Block(c, values, a, LowIndex(a))
  }

  /** The branch in which the process sends. */
  lemma SendBody<V>(c: Config<V>, values: seq<V>, w: nat, p: Proc<V>)
    requires ValidConfig(c) && |values| == c.size && w < c.size && ProcInv(c, values, w, p) && And(w, p.mask) != 0
    ensures w > 0 && AndNot(w, p.mask) == Parent(w) && p.result == Block(c, values, w, LowIndex(w))
  {
    TestMask(w, p.rounds);
    ClearMask(w, p.rounds);
    LowBitIs(w, p.rounds);
  }

  /** Whether it receives or not, the next mask is aligned. */
  lemma NextBit(w: nat, k: nat)
    requires Aligned(w, k) && And(w, Pow2(k)) == 0
    ensures Or(w, Pow2(k)) == w + Pow2(k) && Aligned(w, k + 1)
  {
    TestMask(w, k);
    SetMask(w, k);
    AlignNext(w, k);
  }

  lemma ChildInInbox<V>(c: Config<V>, values: seq<V>, w: nat, k: nat, inbox: map<nat, V>)
    requires ValidConfig(c) && |values| == c.size && w < c.size && ChildrenSent(c, values, w, inbox)
    requires Aligned(w, k + 1) && w + Pow2(k) < c.size
    ensures var sender := RealRank(w + Pow2(k), c.size, c.root);
      sender in inbox && inbox[sender] == Block(c, values, w + Pow2(k), k)
  {
    ChildOf(w, k);
    var a := w + Pow2(k);
    assert Parent(a) == w && LowIndex(a) == k;
  }

  /** The branch in which it receives. */
  lemma ReceiveBody<V(!new)>(c: Config<V>, values: seq<V>, w: nat, p: Proc<V>, inbox: map<nat, V>)
    requires ValidConfig(c) && |values| == c.size && Associative(c.op) && w < c.size
    requires ChildrenSent(c, values, w, inbox) && ProcInv(c, values, w, p) && !p.done
    requires Aligned(w, p.rounds + 1) && w + p.mask < c.size
    ensures var sender := RealRank(w + p.mask, c.size, c.root);
      && sender in inbox
      && ProcInv(c, values, w, p.(mask := 2 * p.mask, rounds := p.rounds + 1, result := c.op(p.result, inbox[sender])))
  {
    ChildInInbox(c, values, w, p.rounds, inbox);
    AbsorbChild(c, values, w, p);
  }

  /** The branch in which there is nobody to receive from. */
  lemma SkipBody<V>(c: Config<V>, values: seq<V>, w: nat, p: Proc<V>)
    requires ValidConfig(c) && |values| == c.size && w < c.size && ProcInv(c, values, w, p) && !p.done
    requires Aligned(w, p.rounds + 1) && p.mask < c.size <= w + p.mask
    ensures ProcInv(c, values, w, p.(mask := 2 * p.mask, rounds := p.rounds + 1))
  {
    RoundsBelowLog(c.size, p.rounds);
  }

  lemma LoopEntry<V>(c: Config<V>, values: seq<V>, rank: nat)
    requires ValidConfig(c) && |values| == c.size && rank < c.size
    ensures ProcInv(c, values, WrappedRank(rank, c.size, c.root), Proc(1, values[rank], false, 0, []))
  {
    var w := WrappedRank(rank, c.size, c.root);
    assert Wrapped(c, values)[w..w + 1] == [values[rank]];
  }

  /** Only the root runs out of the loop, and then it holds the whole fold. */
  lemma LoopExit<V>(c: Config<V>, values: seq<V>, rank: nat, p: Proc<V>)
    requires ValidConfig(c) && |values| == c.size && rank < c.size && p.mask >= c.size
    requires ProcInv(c, values, WrappedRank(rank, c.size, c.root), p)
    ensures rank == c.root && p.result == Fold(c.op, values[c.root..] + values[..c.root])
  {
    ActionBits(c.size, c.root, rank, p.rounds);
    assert Wrapped(c, values)[0..c.size] == Wrapped(c, values);
  }

  /** The mask loop as one process runs it to the end, `inbox` being what its receives return. It leaves the
      process in the state that every completed run of the whole system leaves it in. */
  method ReduceOnRank<V(!new)>(rank: nat, c: Config<V>, inbox: map<nat, V>, ghost values: seq<V>, message: V)
    returns (result: Option<V>, sent: seq<Mail<V>>)
    requires ValidConfig(c) && |values| == c.size && Associative(c.op)
    requires rank < c.size && message == values[rank]
    requires ChildrenSent(c, values, WrappedRank(rank, c.size, c.root), inbox)
    ensures rank == c.root ==> result == Some(Fold(c.op, values[c.root..] + values[..c.root])) && sent == []
    ensures rank != c.root ==>
      var w := WrappedRank(rank, c.size, c.root);
      && result == None
      && sent == [Mail(RealRank(Parent(w), c.size, c.root), Block(c, values, w, LowIndex(w)))]
  {
    var wrappedRank := WrappedRank(rank, c.size, c.root);
    var p := Proc(1, message, false, 0, []);
    LoopEntry(c, values, rank);
    while p.mask < c.size
      invariant !p.done && ProcInv(c, values, wrappedRank, p)
      decreases c.size - p.mask
    {
      if And(wrappedRank, p.mask) != 0 {
        SendBody(c, values, wrappedRank, p);
        var receiver := RealRank(AndNot(wrappedRank, p.mask), c.size, c.root);
        return None, [Mail(receiver, p.result)];
      }
      var wrappedSender := Or(wrappedRank, p.mask);
      NextBit(wrappedRank, p.rounds);
      if wrappedSender < c.size {
        ReceiveBody(c, values, wrappedRank, p, inbox);
        var x := inbox[RealRank(wrappedSender, c.size, c.root)];
        p := p.(mask := 2 * p.mask, rounds := p.rounds + 1, result := c.op(p.result, x));
      } else {
        SkipBody(c, values, wrappedRank, p);
        p := p.(mask := 2 * p.mask, rounds := p.rounds + 1);
      }
    }
    LoopExit(c, values, rank, p);
    return (if rank == c.root then Some(p.result) else None), p.sent;
  }
}

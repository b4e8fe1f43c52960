/**
 What becomes of the follower and the pallet over time.  Accepted windows move the pallet forward and
 past any tip within a bounded number of blocks.  A window that is too large for the call is refused
 in every later block as well.
 */
module Progress {
  import opened Common
  import opened CnightTypes
  import opened CnightChain
  import opened EndToEnd
  import opened FollowerRows
  import opened ObservationWindow
  import opened Ordering
  import opened WindowPlaces

  // Moving forward

  /** While the tip is not behind, a window ends strictly after it starts. */
  lemma WindowMovesForward(table: seq<Row>, history: seq<ObservedUtxo>, start: CardanoPosition, tip: CardanoPosition,
                           capacity: nat)
    requires TableOf(table, history) && capacity >= 2 && Before(start, Increment(tip))
    ensures Before(start, WindowOf(table, start, tip, capacity).end)
  {
    var us, missed := Merged(table, start, tip, capacity), OutOfReach(table, start, tip, capacity);
    var k := CutFrom(us, capacity, 0);
    WindowIsCut(table, history, start, tip, capacity);
    CountStaysBelow(us, capacity, k, k);
    if k < |us| {
      AfterTheCut(us, capacity, k, k);
      assert us[k - 1] in us;
      IncrementIsNext(us[k - 1].header.position, start);
    }
  }

  /** How many transactions with observable UTXOs lie between two positions. */
  function TxsBetween(history: seq<ObservedUtxo>, start: CardanoPosition, goal: CardanoPosition): (n: nat) {
    var us := Slice(history, start, goal);
    CountTxs(us, |us|)
  }

  lemma TxsArePlaces(history: seq<ObservedUtxo>, start: CardanoPosition, goal: CardanoPosition)
    requires StrictlySorted(history)
    ensures TxsBetween(history, start, goal) == |PlaceSet(Slice(history, start, goal))|
  {
    var us := Slice(history, start, goal);
    FilterStrictlySorted(history, UtxoIn(start, goal));
    forall i | 0 < i < |us| ensures !Before(us[i].header.position, us[i - 1].header.position) {
      assert UtxoLe(us[i - 1], us[i]);
    }
    CountIsPlaces(us, |us|);
    assert us[..|us|] == us;
  }

  lemma SlicePlaces(history: seq<ObservedUtxo>, start: CardanoPosition, goal: CardanoPosition, n: nat)
    ensures n in PlaceSet(Slice(history, start, goal)) ==> n < Place(goal) && n >= Place(start)
  {
    if n in PlaceSet(Slice(history, start, goal)) {
      var u :| u in Slice(history, start, goal) && Place(u.header.position) == n;
      SliceMember(history, start, goal, u);
      PlaceOrder(u.header.position, goal);
      PlaceOrder(u.header.position, start);
    }
  }

  lemma SlicesNest(history: seq<ObservedUtxo>, start: CardanoPosition, mid: CardanoPosition, goal: CardanoPosition)
    requires !Before(mid, start) && !Before(goal, mid)
    ensures PlaceSet(Slice(history, start, mid)) <= PlaceSet(Slice(history, start, goal))
    ensures PlaceSet(Slice(history, mid, goal)) <= PlaceSet(Slice(history, start, goal))
    ensures PlaceSet(Slice(history, start, mid)) !! PlaceSet(Slice(history, mid, goal))
  {
    forall u ensures u in Slice(history, start, mid) ==> u in Slice(history, start, goal)
             ensures u in Slice(history, mid, goal) ==> u in Slice(history, start, goal)
    {
      SliceMember(history, start, mid, u);
      SliceMember(history, mid, goal, u);
      SliceMember(history, start, goal, u);
    }
    forall n | n in PlaceSet(Slice(history, start, mid)) ensures n !in PlaceSet(Slice(history, mid, goal)) {
      SlicePlaces(history, start, mid, n);
      SlicePlaces(history, mid, goal, n);
    }
  }

  lemma DisjointParts(a: set<nat>, b: set<nat>, whole: set<nat>)
    requires a <= whole && b <= whole && a !! b
    ensures |a| + |b| <= |whole|
  {
    assert |a + b| == |a| + |b|;
    FewerElements(a + b, whole);
  }

  lemma FewerElements(a: set<nat>, b: set<nat>)
    requires a <= b
    ensures |a| <= |b|
  {
    assert b == a + (b - a);
  }

  /** A window that stops short of a goal its tip has reached leaves `capacity - 1` transactions behind. */
  lemma WindowTakesTransactions(table: seq<Row>, history: seq<ObservedUtxo>, start: CardanoPosition,
                                tip: CardanoPosition, capacity: nat, goal: CardanoPosition)
    requires TableOf(table, history) && capacity >= 2 && !Before(Increment(tip), goal)
    requires var end := WindowOf(table, start, tip, capacity).end; !Before(end, start) && Before(end, goal)
    ensures var end := WindowOf(table, start, tip, capacity).end;
            TxsBetween(history, end, goal) + (capacity - 1) <= TxsBetween(history, start, goal)
  {
    var us, missed := Merged(table, start, tip, capacity), OutOfReach(table, start, tip, capacity);
    var k := CutFrom(us, capacity, 0);
    var w := WindowOf(table, start, tip, capacity);
    WindowIsCut(table, history, start, tip, capacity);
    CutFacts(history, start, tip, capacity, us, missed, k);
    CountStaysBelow(us, capacity, k, k);
    AfterTheCut(us, capacity, k, k);
    CountIsPlaces(us, k);
    assert PlaceSet(us[..k]) <= PlaceSet(Slice(history, start, w.end));
    FewerElements(PlaceSet(us[..k]), PlaceSet(Slice(history, start, w.end)));
    TxsArePlaces(history, start, goal);
    TxsArePlaces(history, w.end, goal);
    SlicesNest(history, start, w.end, goal);
    DisjointParts(PlaceSet(Slice(history, start, w.end)), PlaceSet(Slice(history, w.end, goal)),
                  PlaceSet(Slice(history, start, goal)));
  }

  /** Block by block, whether the pallet accepted. */
  function Verdicts(host: Host, st: PalletState, bs: seq<BlockInput>): (vs: seq<bool>)
    decreases |bs|
  {
    if bs == [] then []
    else [Accepts(host, st, InherentFor(st, bs[0]))] + Verdicts(host, Block(host, st, bs[0]), bs[1..])
  }

  function CountTrue(vs: seq<bool>): (n: nat) {
    if vs == [] then 0 else (if vs[0] then 1 else 0) + CountTrue(vs[1..])
  }

  function AcceptedBlocks(host: Host, st: PalletState, bs: seq<BlockInput>): (n: nat) {
    CountTrue(Verdicts(host, st, bs))
  }

  lemma BlockPosition(host: Host, st: PalletState, b: BlockInput)
    ensures var st' := Block(host, st, b);
            && st'.capacity == st.capacity && !st'.executed && !Before(st'.position, st.position)
            && st'.position == (if Accepts(host, st, InherentFor(st, b)) then WindowFor(st, b).end else st.position)
  {
  }

  /** `per` for every accepted block. */
  function Taken(vs: seq<bool>, per: nat): (n: nat) {
    if vs == [] then 0 else (if vs[0] then per else 0) + Taken(vs[1..], per)
  }

  lemma {:induction false} TakenIsProduct(vs: seq<bool>, per: nat)
    ensures Taken(vs, per) == CountTrue(vs) * per
  {
    if vs != [] {
      TakenIsProduct(vs[1..], per);
      OneBlockMore(CountTrue(vs[1..]), per);
    }
  }

  lemma OneBlockMore(n: nat, per: nat)
    ensures (1 + n) * per == per + n * per && (0 + n) * per == n * per
  {
  }

  /** What one block leaves behind on the way to a goal it does not reach. */
  lemma BlockTakes(host: Host, history: seq<ObservedUtxo>, st: PalletState, b: BlockInput, goal: CardanoPosition)
    requires Honest(history, st, b) && st.capacity >= 2 && !Before(Increment(b.tip), goal)
    requires Before(Block(host, st, b).position, goal)
    ensures (if Accepts(host, st, InherentFor(st, b)) then st.capacity - 1 else 0) +
            TxsBetween(history, Block(host, st, b).position, goal) <= TxsBetween(history, st.position, goal)
  {
    BlockPosition(host, st, b);
    if Accepts(host, st, InherentFor(st, b)) {
      WindowTakesTransactions(b.table, history, st.position, b.tip, st.capacity, goal);
    }
  }

  /** Where the pallet stands before each block and after the last. */
  function Positions(host: Host, st: PalletState, bs: seq<BlockInput>): (ps: seq<CardanoPosition>)
    ensures |ps| == |bs| + 1 && ps[0] == st.position
    decreases |bs|
  {
    [st.position] + if bs == [] then [] else Positions(host, Block(host, st, bs[0]), bs[1..])
  }

  lemma {:induction false} LastPosition(host: Host, st: PalletState, bs: seq<BlockInput>)
    ensures Positions(host, st, bs)[|bs|] == Blocks(host, st, bs).position && |Verdicts(host, st, bs)| == |bs|
    decreases |bs|
  {
    if bs != [] {
      LastPosition(host, Block(host, st, bs[0]), bs[1..]);
    }
  }

  /** From one position to the next: never back, and `per` transactions fewer to the goal if accepted. */
  ghost predicate StepsOn(history: seq<ObservedUtxo>, goal: CardanoPosition, per: nat, p: CardanoPosition,
                          q: CardanoPosition, accepted: bool)
  {
    && !Before(q, p)
    && (Before(q, goal) ==>
          (if accepted then per else 0) + TxsBetween(history, q, goal) <= TxsBetween(history, p, goal))
  }

  lemma BlockStepsOn(host: Host, history: seq<ObservedUtxo>, st: PalletState, b: BlockInput, goal: CardanoPosition)
    requires Honest(history, st, b) && st.capacity >= 2 && !Before(Increment(b.tip), goal)
    ensures StepsOn(history, goal, st.capacity - 1, st.position, Block(host, st, b).position,
                    Accepts(host, st, InherentFor(st, b)))
  {
    BlockPosition(host, st, b);
    if Before(Block(host, st, b).position, goal) {
      BlockTakes(host, history, st, b, goal);
    }
  }

  lemma {:induction false} EveryBlockStepsOn(host: Host, history: seq<ObservedUtxo>, st: PalletState,
                                             bs: seq<BlockInput>, goal: CardanoPosition, i: nat)
    requires HonestRun(host, history, st, bs) && st.capacity >= 2 && i < |bs|
    requires forall b :: b in bs ==> !Before(Increment(b.tip), goal)
    ensures |Verdicts(host, st, bs)| == |bs|
    ensures StepsOn(history, goal, st.capacity - 1, Positions(host, st, bs)[i], Positions(host, st, bs)[i + 1],
                    Verdicts(host, st, bs)[i])
    decreases |bs|
  {
    TraceOfBlock(host, st, bs);
    if i == 0 {
      assert bs[0] in bs;
      BlockStepsOn(host, history, st, bs[0], goal);
    } else {
      EveryBlockStepsOn(host, history, Block(host, st, bs[0]), bs[1..], goal, i - 1);
    }
  }

  /** The first entry of the trace, and the rest of it. */
  lemma TraceOfBlock(host: Host, st: PalletState, bs: seq<BlockInput>)
    requires bs != []
    ensures var st1 := Block(host, st, bs[0]);
            && st1.capacity == st.capacity
            && |Verdicts(host, st, bs)| == |bs|
            && Verdicts(host, st, bs)[0] == Accepts(host, st, InherentFor(st, bs[0]))
            && Verdicts(host, st, bs)[1..] == Verdicts(host, st1, bs[1..])
            && Positions(host, st, bs)[1] == st1.position
            && Positions(host, st, bs)[1..] == Positions(host, st1, bs[1..])
  {
    LastPosition(host, st, bs);
  }

  ghost predicate AllStepOn(history: seq<ObservedUtxo>, goal: CardanoPosition, per: nat, ps: seq<CardanoPosition>,
                            vs: seq<bool>)
  {
    |ps| == |vs| + 1 && forall i :: 0 <= i < |vs| ==> StepsOn(history, goal, per, ps[i], ps[i + 1], vs[i])
  }

  /** A run as the positions it goes through and the verdicts on its blocks. */
  lemma RunTrace(host: Host, history: seq<ObservedUtxo>, st: PalletState, bs: seq<BlockInput>, goal: CardanoPosition)
    returns (ps: seq<CardanoPosition>, vs: seq<bool>)
    requires HonestRun(host, history, st, bs) && st.capacity >= 2
    requires forall b :: b in bs ==> !Before(Increment(b.tip), goal)
    ensures AllStepOn(history, goal, st.capacity - 1, ps, vs)
    ensures ps[0] == st.position && ps[|vs|] == Blocks(host, st, bs).position
    ensures CountTrue(vs) == AcceptedBlocks(host, st, bs)
  {
    ps, vs := Positions(host, st, bs), Verdicts(host, st, bs);
    LastPosition(host, st, bs);
    forall i | 0 <= i < |vs| ensures StepsOn(history, goal, st.capacity - 1, ps[i], ps[i + 1], vs[i]) {
      EveryBlockStepsOn(host, history, st, bs, goal, i);
    }
  }

  /** As long as the goal is ahead, every accepted block leaves `per` transactions behind. */
  lemma {:induction false} TransactionsLeft(history: seq<ObservedUtxo>, goal: CardanoPosition, per: nat,
                                            ps: seq<CardanoPosition>, vs: seq<bool>)
    requires AllStepOn(history, goal, per, ps, vs) && Before(ps[|vs|], goal)
    ensures !Before(ps[|vs|], ps[0])
    ensures Taken(vs, per) + TxsBetween(history, ps[|vs|], goal) <= TxsBetween(history, ps[0], goal)
    decreases |vs|
  {
    if vs != [] {
      assert StepsOn(history, goal, per, ps[0], ps[1], vs[0]);
      forall i | 0 <= i < |vs| - 1 ensures StepsOn(history, goal, per, ps[1..][i], ps[1..][i + 1], vs[1..][i]) {
        assert StepsOn(history, goal, per, ps[i + 1], ps[i + 2], vs[i + 1]);
      }
      TransactionsLeft(history, goal, per, ps[1..], vs[1..]);
    }
  }

  lemma GoalIsPassed(history: seq<ObservedUtxo>, goal: CardanoPosition, per: nat, ps: seq<CardanoPosition>,
                     vs: seq<bool>)
    requires AllStepOn(history, goal, per, ps, vs)
    requires CountTrue(vs) * per > TxsBetween(history, ps[0], goal)
    ensures !Before(ps[|vs|], goal)
  {
    TakenIsProduct(vs, per);
    if Before(ps[|vs|], goal) {
      TransactionsLeft(history, goal, per, ps, vs);
    }
  }

  /**
   The follower catches up.  Once the tips have reached a goal, the pallet is past it after as many
   accepted blocks as it takes, at `capacity - 1` transactions each, to exceed the transactions with
   observable UTXOs that lie between.
   */
  lemma CatchesUp(host: Host, history: seq<ObservedUtxo>, st: PalletState, bs: seq<BlockInput>, goal: CardanoPosition)
    requires HonestRun(host, history, st, bs) && st.capacity >= 2
    requires forall b :: b in bs ==> !Before(Increment(b.tip), goal)
    requires AcceptedBlocks(host, st, bs) * (st.capacity - 1) > TxsBetween(history, st.position, goal)
    ensures !Before(Blocks(host, st, bs).position, goal)
  {
    var ps, vs := RunTrace(host, history, st, bs, goal);
    GoalIsPassed(history, goal, st.capacity - 1, ps, vs);
  }

  // Standing still

  /** A block that reads a database in which every row decodes. */
  ghost predicate Decoding(history: seq<ObservedUtxo>, b: BlockInput) {
    DecodingTable(b.table, history)
  }

  lemma StillTooLarge(history: seq<ObservedUtxo>, st: PalletState, b: BlockInput, later: BlockInput)
    requires Decoding(history, b) && Decoding(history, later) && !Before(Increment(later.tip), Increment(b.tip))
    ensures |WindowFor(st, b).utxos| <= |WindowFor(st, later).utxos|
  {
    WindowGrows(b.table, history, st.position, b.tip, later.tip, st.capacity);
    WindowSizeByHistory(b.table, later.table, history, st.position, later.tip, st.capacity);
  }

  lemma TooLargeIsRejected(host: Host, st: PalletState, b: BlockInput)
    requires !st.executed && st.capacity < 0x100_0000 && |WindowFor(st, b).utxos| > 64 * st.capacity
    ensures Block(host, st, b) == st
  {
    WindowAtMost(st, b);
    SizeGuard(|WindowFor(st, b).utxos|, st.capacity);
  }

  /**
   A window refused as too large is refused for good.  Where every row decodes, whatever order the
   database gives to the rows of a transaction, no later block with a tip not behind that of the
   refused one changes the pallet at all.
   */
  lemma {:induction false} RefusedForGood(host: Host, history: seq<ObservedUtxo>, st: PalletState, b: BlockInput,
                                          bs: seq<BlockInput>)
    requires Decoding(history, b) && !st.executed
    requires st.capacity < 0x100_0000 && !FitsTheCall(|WindowFor(st, b).utxos|, st.capacity)
    requires forall c :: c in bs ==> Decoding(history, c) && !Before(Increment(c.tip), Increment(b.tip))
    ensures Blocks(host, st, bs) == st
    decreases |bs|
  {
    if bs != [] {
      assert bs[0] in bs;
      WindowAtMost(st, b);
      SizeGuard(|WindowFor(st, b).utxos|, st.capacity);
      StillTooLarge(history, st, b, bs[0]);
      TooLargeIsRejected(host, st, bs[0]);
      RefusedForGood(host, history, st, b, bs[1..]);
    }
  }
}

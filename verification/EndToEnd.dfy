/**
 Cardano history to pallet state.  Fed block after block by the follower's windows, the pallet holds
 what one pass over the history up to its position makes of genesis, as long as no window that it
 accepted ran into the limit of a query too early.
 */
module EndToEnd {
  import opened Common
  import opened CnightTypes
  import opened CnightStep
  import opened CnightChain
  import opened FollowerRows
  import opened Ordering
  import opened Sorting
  import W = ObservationWindow

  /** What one block adds from outside: the Cardano tip, the database, and the ledger's verdict. */
  datatype BlockInput = BlockInput(tip: CardanoPosition, table: seq<Row>, systemTx: SystemTx)

  function WindowFor(st: PalletState, b: BlockInput): (w: W.Window) {
    W.WindowOf(b.table, st.position, b.tip, st.capacity)
  }

  /** The inherent the node builds for a block. */
  function InherentFor(st: PalletState, b: BlockInput): (call: Call) {
    Call(NoOrigin, WindowFor(st, b).utxos, WindowFor(st, b).end, b.systemTx)
  }

  function Block(host: Host, st: PalletState, b: BlockInput): (st': PalletState) {
    Next(host, Dispatch(host, st, InherentFor(st, b)), BlockFinalized)
  }

  function Blocks(host: Host, st: PalletState, bs: seq<BlockInput>): (st': PalletState)
    decreases |bs|
  {
    if bs == [] then st else Blocks(host, Block(host, st, bs[0]), bs[1..])
  }

  /** Every block reads a database of the one history; a window below two transactions needs a next position. */
  ghost predicate Honest(history: seq<ObservedUtxo>, st: PalletState, b: BlockInput) {
    TableOf(b.table, history) && (st.capacity <= 1 ==> Incrementable(st.position))
  }

  ghost predicate HonestRun(host: Host, history: seq<ObservedUtxo>, st: PalletState, bs: seq<BlockInput>)
    decreases |bs|
  {
    bs == [] || (Honest(history, st, bs[0]) && HonestRun(host, history, Block(host, st, bs[0]), bs[1..]))
  }

  // The guards

  /** The cast and the saturating product of the size guard, written out. */
  predicate FitsTheCall(count: nat, capacity: U32) {
    count % 0x1_0000_0000 <= if capacity * 64 < 0x1_0000_0000 then capacity * 64 else 0xFFFF_FFFF
  }

  /**
   The follower's inherent passes the guards exactly when the tip is not behind the pallet and the
   window fits the call.  For capacities below 2^24 neither the cast nor the product overflows, and
   the window fits exactly when it has at most 64 UTXOs per transaction of capacity; from 2^26 on
   every window fits.
   */
  lemma InherentPassesGuardsIff(history: seq<ObservedUtxo>, st: PalletState, b: BlockInput)
    requires Honest(history, st, b) && st.capacity >= 2 && !st.executed
    ensures var n := |WindowFor(st, b).utxos|;
            && (Guard(st, InherentFor(st, b)).None? <==>
                !Before(W.Increment(b.tip), st.position) && FitsTheCall(n, st.capacity))
            && (st.capacity < 0x100_0000 ==> (FitsTheCall(n, st.capacity) <==> n <= 64 * st.capacity))
            && (st.capacity >= 0x400_0000 ==> FitsTheCall(n, st.capacity))
  {
    var call := InherentFor(st, b);
    assert Before(call.position, st.position) <==> Before(W.Increment(b.tip), st.position) by {
      W.CompleteIffInReach(b.table, history, st.position, b.tip, st.capacity);
    }
    WindowAtMost(st, b);
    SizeGuard(|call.utxos|, st.capacity);
  }

  lemma SizeGuard(count: nat, capacity: U32)
    ensures AsU32(count) <= SaturatingMul32(capacity, UTXO_PER_TX_OVERESTIMATE) <==> FitsTheCall(count, capacity)
    ensures capacity < 0x100_0000 && count <= 256 * capacity ==>
            (FitsTheCall(count, capacity) <==> count <= 64 * capacity)
    ensures capacity >= 0x400_0000 ==> FitsTheCall(count, capacity)
  {
    assert UTXO_PER_TX_OVERESTIMATE == 64;
  }

  lemma {:induction false} DecodedIsShorter(rows: seq<Row>)
    ensures |Decoded(rows)| <= |rows|
  {
    if rows != [] {
      DecodedIsShorter(rows[1..]);
    }
  }

  /** Four queries of 64 rows per transaction of capacity bound every window. */
  lemma WindowAtMost(st: PalletState, b: BlockInput)
    ensures |WindowFor(st, b).utxos| <= 256 * st.capacity
  {
    var end, limit := W.Increment(b.tip), st.capacity * W.UTXOS_PER_TX;
    forall k: Kind ensures |Decoded(Query(b.table, k, st.position, end, limit))| <= limit {
      DecodedIsShorter(Query(b.table, k, st.position, end, limit));
    }
    SortPermutes(UtxoLe, Fetched(b.table, st.position, end, limit));
  }

  // What a run processes

  /** The window of a block covers the history it claims to. */
  ghost predicate Suffices(history: seq<ObservedUtxo>, st: PalletState, b: BlockInput) {
    if st.capacity >= 2 then W.LimitsSuffice(b.table, st.position, b.tip, st.capacity)
    else W.SmallSuffices(b.table, history, st.position, b.tip, st.capacity)
  }

  /** No window that was accepted ran into a limit too early. */
  ghost predicate LimitsNeverHit(host: Host, history: seq<ObservedUtxo>, st: PalletState, bs: seq<BlockInput>)
    decreases |bs|
  {
    bs == [] ||
    ((Accepts(host, st, InherentFor(st, bs[0])) ==> Suffices(history, st, bs[0])) &&
     LimitsNeverHit(host, history, Block(host, st, bs[0]), bs[1..]))
  }

  lemma WindowIsPart(history: seq<ObservedUtxo>, st: PalletState, b: BlockInput)
    requires Honest(history, st, b)
    ensures var w := WindowFor(st, b);
            && |w.utxos| <= |Slice(history, st.position, w.end)|
            && (w.utxos == Slice(history, st.position, w.end) <==> Suffices(history, st, b))
            && (|w.utxos| == |Slice(history, st.position, w.end)| ==> w.utxos == Slice(history, st.position, w.end))
  {
    var w := WindowFor(st, b);
    FilterStrictlySorted(history, UtxoIn(st.position, w.end));
    if st.capacity >= 2 {
      W.CompleteIffInReach(b.table, history, st.position, b.tip, st.capacity);
      W.WindowIsCompleteIff(b.table, history, st.position, b.tip, st.capacity);
      PartIsShorter(w.utxos, Slice(history, st.position, w.end));
    } else {
      W.SmallWindowIsCompleteIff(b.table, history, st.position, b.tip, st.capacity);
    }
  }

  /** What every block keeps: the pallet has moved forward and processed no more than the history holds. */
  ghost predicate InStep(history: seq<ObservedUtxo>, g: PalletState, st: PalletState) {
    && StrictlySorted(history) && !st.executed && !Before(st.position, g.position)
    && |st.processed| <= |Slice(history, g.position, st.position)|
  }

  ghost predicate NothingLost(history: seq<ObservedUtxo>, g: PalletState, st: PalletState) {
    st.processed == Slice(history, g.position, st.position)
  }

  lemma BlockLosesNothingIff(host: Host, history: seq<ObservedUtxo>, g: PalletState, st: PalletState, b: BlockInput)
    requires InStep(history, g, st) && Honest(history, st, b)
    ensures var st' := Block(host, st, b);
            && InStep(history, g, st')
            && (NothingLost(history, g, st') <==>
                NothingLost(history, g, st) && (Accepts(host, st, InherentFor(st, b)) ==> Suffices(history, st, b)))
  {
    var call := InherentFor(st, b);
    if Accepts(host, st, call) {
      WindowIsPart(history, st, b);
      SliceConcat(history, g.position, st.position, call.position);
      var seen, next := Slice(history, g.position, st.position), Slice(history, st.position, call.position);
      if st.processed + call.utxos == seen + next {
        assert |st.processed| + |call.utxos| == |seen| + |next|;
        ConcatSplit(st.processed, call.utxos, seen, next);
      }
    }
  }

  lemma {:induction false} BlocksLoseNothingIff(host: Host, history: seq<ObservedUtxo>, g: PalletState, st: PalletState,
                                                bs: seq<BlockInput>)
    requires InStep(history, g, st) && HonestRun(host, history, st, bs)
    ensures NothingLost(history, g, Blocks(host, st, bs)) <==>
            NothingLost(history, g, st) && LimitsNeverHit(host, history, st, bs)
    decreases |bs|
  {
    if bs != [] {
      BlockLosesNothingIff(host, history, g, st, bs[0]);
      BlocksLoseNothingIff(host, history, g, Block(host, st, bs[0]), bs[1..]);
    }
  }

  lemma {:induction false} BlocksKeepOnePass(host: Host, g: PalletState, st: PalletState, bs: seq<BlockInput>)
    requires OnePass(host, g, st)
    ensures OnePass(host, g, Blocks(host, st, bs))
    decreases |bs|
  {
    if bs != [] {
      NextKeepsOnePass(host, g, st, Dispatched(InherentFor(st, bs[0])));
      NextKeepsOnePass(host, g, Dispatch(host, st, InherentFor(st, bs[0])), BlockFinalized);
      BlocksKeepOnePass(host, g, Block(host, st, bs[0]), bs[1..]);
    }
  }

  /**
   Over any number of blocks, whatever was rejected, the pallet has processed exactly the observable
   history from genesis to its position if and only if no accepted window ran into a limit too early.
   Later blocks never make up for one that did.
   */
  lemma NothingLostIff(host: Host, history: seq<ObservedUtxo>, g: PalletState, bs: seq<BlockInput>)
    requires StrictlySorted(history) && IsGenesis(g) && HonestRun(host, history, g, bs)
    ensures NothingLost(history, g, Blocks(host, g, bs)) <==> LimitsNeverHit(host, history, g, bs)
  {
    FilterEmpty(history, UtxoIn(g.position, g.position));
    BlocksLoseNothingIff(host, history, g, g, bs);
  }

  /**
   Then no UTXO of the history is lost, repeated or moved: the mappings, the owners, the registration
   log and the ledger events are those of one pass over the history from genesis to the stored position.
   */
  lemma StateIsOnePassOverHistory(host: Host, history: seq<ObservedUtxo>, g: PalletState, bs: seq<BlockInput>)
    requires StrictlySorted(history) && IsGenesis(g) && HonestRun(host, history, g, bs)
    requires LimitsNeverHit(host, history, g, bs)
    ensures var st := Blocks(host, g, bs);
            Observed(st) == Run(host, g.storage, Slice(history, g.position, st.position))
  {
    NothingLostIff(host, history, g, bs);
    GenesisIsOnePass(host, g);
    BlocksKeepOnePass(host, g, g, bs);
  }
}

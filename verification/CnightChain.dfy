/** The `process_tokens` call, block by block: checks, commit or roll back, and whole runs of blocks. */
module CnightChain {
  import opened Common
  import opened CnightTypes
  import opened CnightStep

  datatype Origin = NoOrigin | SignedOrigin | RootOrigin

  /** What became of the system transaction built from a batch of ledger events. */
  datatype SystemTx = NotBuilt | Refused | Executed(txHash: Hash32)

  datatype Call = Call(origin: Origin, utxos: seq<ObservedUtxo>, position: CardanoPosition, systemTx: SystemTx)

  datatype CallError =
    | BadOrigin
    | TooManyUtxos
    | InherentAlreadyExecuted
    | CardanoPositionRegression
    | ExecutionRefused

  /**
   Pallet storage, the events deposited so far and the ledger events applied so far.  The last two
   fields are history: the UTXOs of accepted calls, and the ledger events built from them.
   */
  datatype PalletState = PalletState(
    storage: Storage,
    position: CardanoPosition,
    executed: bool,
    capacity: U32,
    events: seq<PalletEvent>,
    applied: seq<LedgerEvent>,
    processed: seq<ObservedUtxo>,
    built: seq<LedgerEvent>)

  const UTXO_PER_TX_OVERESTIMATE: U32 := 64

  /** The first guard a call fails, if any. */
  function Guard(st: PalletState, call: Call): (e: Option<CallError>) {
    if call.origin != NoOrigin then Some(BadOrigin)
    else if AsU32(|call.utxos|) > SaturatingMul32(st.capacity, UTXO_PER_TX_OVERESTIMATE) then Some(TooManyUtxos)
    else if st.executed then Some(InherentAlreadyExecuted)
    else if Before(call.position, st.position) then Some(CardanoPositionRegression)
    else None
  }

  /** The system transaction's own event; only a transaction the ledger executed leaves one. */
  function SystemTxLog(call: Call, ledger: seq<LedgerEvent>): (log: seq<PalletEvent>) {
    if ledger != [] && call.systemTx.Executed?
    then [SystemTransactionApplied(call.position.blockHash, call.position.txIndex, call.systemTx.txHash)]
    else []
  }

  /** The state an accepted call commits. */
  function Commit(host: Host, st: PalletState, call: Call): (st': PalletState) {
    var e := Run(host, st.storage, call.utxos);
    PalletState(
      e.storage, call.position, true, st.capacity,
      st.events + e.log + SystemTxLog(call, e.ledger),
      if call.systemTx.Executed? then st.applied + e.ledger else st.applied,
      st.processed + call.utxos,
      st.built + e.ledger)
  }

  /** Why a call is rejected, if it is: a failed guard, or a system transaction the ledger refuses. */
  function Rejection(host: Host, st: PalletState, call: Call): (e: Option<CallError>) {
    if Guard(st, call).Some? then Guard(st, call)
    else if Run(host, st.storage, call.utxos).ledger != [] && call.systemTx.Refused? then Some(ExecutionRefused)
    else None
  }

  predicate Accepts(host: Host, st: PalletState, call: Call) {
    Rejection(host, st, call).None?
  }

  /** A dispatched call either commits or leaves everything as it was. */
  function Dispatch(host: Host, st: PalletState, call: Call): (st': PalletState) {
    if Accepts(host, st, call) then Commit(host, st, call) else st
  }

  datatype Event = Dispatched(call: Call) | BlockFinalized

  function Next(host: Host, st: PalletState, e: Event): (st': PalletState) {
    match e
    case Dispatched(call) => Dispatch(host, st, call)
    case BlockFinalized => st.(executed := false)
  }

  /** Any run: calls, accepted or rejected, and block ends in any order. */
  function Execute(host: Host, st: PalletState, es: seq<Event>): (st': PalletState)
    decreases |es|
  {
    if es == [] then st else Execute(host, Next(host, st, es[0]), es[1..])
  }

  /** A state as genesis leaves it: mappings, owners and position from the chain specification. */
  predicate IsGenesis(st: PalletState) {
    st.events == [] && st.applied == [] && st.processed == [] && st.built == [] && !st.executed
  }

  predicate FromUtxo(e: PalletEvent) {
    !e.SystemTransactionApplied?
  }

  /** The log without the system-transaction events: one per batch, so it depends on the batching. */
  function RegistrationLog(log: seq<PalletEvent>): (r: seq<PalletEvent>) {
    Filter(log, FromUtxo)
  }

  /** All that a stream of UTXOs determines in a state. */
  function Observed(st: PalletState): (e: Effect) {
    Effect(st.storage, RegistrationLog(st.events), st.built)
  }

  lemma {:induction false} StepLogIsRegistrationLog(host: Host, s: Storage, us: seq<ObservedUtxo>)
    ensures RegistrationLog(Run(host, s, us).log) == Run(host, s, us).log
    decreases |us|
  {
    if us != [] {
      var first := Step(host, s, us[0]);
      var rest := Run(host, first.storage, us[1..]);
      StepLogIsRegistrationLog(host, first.storage, us[1..]);
      StepLogsUtxoEvents(host, s, us[0]);
      KeptWhole(first.log, rest.log);
    }
  }

  lemma StepLogsUtxoEvents(host: Host, s: Storage, u: ObservedUtxo)
    ensures forall e :: e in Step(host, s, u).log ==> FromUtxo(e)
  {
  }

  lemma KeptWhole(a: seq<PalletEvent>, b: seq<PalletEvent>)
    requires (forall e :: e in a ==> FromUtxo(e)) && RegistrationLog(b) == b
    ensures RegistrationLog(a + b) == a + b
  {
    FilterConcat(a, b, FromUtxo);
    FilterAll(a, FromUtxo);
  }

  lemma CommitObserved(host: Host, st: PalletState, call: Call)
    ensures Observed(Commit(host, st, call)) == Then(Observed(st), Run(host, st.storage, call.utxos))
  {
    var e := Run(host, st.storage, call.utxos);
    var tail := SystemTxLog(call, e.ledger);
    FilterConcat(st.events + e.log, tail, FromUtxo);
    FilterConcat(st.events, e.log, FromUtxo);
    StepLogIsRegistrationLog(host, st.storage, call.utxos);
    assert Filter(tail, FromUtxo) == [] by {
      if tail != [] { assert tail[1..] == []; }
    }
  }

  /** `st` holds what one pass over the accepted UTXOs makes of `g`. */
  ghost predicate OnePass(host: Host, g: PalletState, st: PalletState) {
    Observed(st) == Run(host, g.storage, st.processed)
  }

  lemma NextKeepsOnePass(host: Host, g: PalletState, st: PalletState, e: Event)
    requires OnePass(host, g, st)
    ensures OnePass(host, g, Next(host, st, e))
  {
    if e.Dispatched? && Accepts(host, st, e.call) {
      CommitObserved(host, st, e.call);
      RunConcat(host, g.storage, st.processed, e.call.utxos);
    }
  }

  /**
   Whatever the batching, the rejected calls and the block boundaries, a run leaves the mappings,
   the owners, the registration log and the ledger events of one pass over the accepted UTXOs.
   */
  lemma {:induction false} EveryRunIsOnePass(host: Host, g: PalletState, st: PalletState, es: seq<Event>)
    requires OnePass(host, g, st)
    ensures OnePass(host, g, Execute(host, st, es))
    decreases |es|
  {
    if es != [] {
      NextKeepsOnePass(host, g, st, es[0]);
      EveryRunIsOnePass(host, g, Next(host, st, es[0]), es[1..]);
    }
  }

  lemma GenesisIsOnePass(host: Host, g: PalletState)
    requires IsGenesis(g)
    ensures OnePass(host, g, g)
  {
  }

  /** Two runs from the same genesis that accepted the same UTXOs, however batched, agree. */
  lemma BatchingIsInvisible(host: Host, g: PalletState, es: seq<Event>, fs: seq<Event>)
    requires IsGenesis(g)
    requires Execute(host, g, es).processed == Execute(host, g, fs).processed
    ensures Observed(Execute(host, g, es)) == Observed(Execute(host, g, fs))
  {
    GenesisIsOnePass(host, g);
    EveryRunIsOnePass(host, g, g, es);
    EveryRunIsOnePass(host, g, g, fs);
  }

  /** One call per block. */
  function InBlocks(calls: seq<Call>): (es: seq<Event>) {
    if calls == [] then [] else [Dispatched(calls[0]), BlockFinalized] + InBlocks(calls[1..])
  }

  function Joined(calls: seq<Call>): (us: seq<ObservedUtxo>) {
    if calls == [] then [] else calls[0].utxos + Joined(calls[1..])
  }

  predicate AllAccepted(host: Host, st: PalletState, calls: seq<Call>)
    decreases |calls|
  {
    calls == [] ||
    (Accepts(host, st, calls[0]) &&
     AllAccepted(host, Next(host, Dispatch(host, st, calls[0]), BlockFinalized), calls[1..]))
  }

  lemma {:induction false} AcceptedCallsAreProcessed(host: Host, st: PalletState, calls: seq<Call>)
    requires AllAccepted(host, st, calls)
    ensures Execute(host, st, InBlocks(calls)).processed == st.processed + Joined(calls)
    decreases |calls|
  {
    if calls != [] {
      var st1 := Next(host, Dispatch(host, st, calls[0]), BlockFinalized);
      ExecuteBlock(host, st, calls[0], InBlocks(calls[1..]));
      AcceptedCallsAreProcessed(host, st1, calls[1..]);
      AcceptedBlock(host, st, calls[0]);
      ConcatAssociative(st.processed, calls[0].utxos, Joined(calls[1..]));
    } else {
      assert st.processed + [] == st.processed;
    }
  }

  lemma AcceptedBlock(host: Host, st: PalletState, call: Call)
    requires Accepts(host, st, call)
    ensures Next(host, Dispatch(host, st, call), BlockFinalized).processed == st.processed + call.utxos
  {
  }

  lemma ExecuteBlock(host: Host, st: PalletState, call: Call, rest: seq<Event>)
    ensures Execute(host, st, [Dispatched(call), BlockFinalized] + rest) ==
            Execute(host, Next(host, Dispatch(host, st, call), BlockFinalized), rest)
  {
    var es := [Dispatched(call), BlockFinalized] + rest;
    assert es[1..] == [BlockFinalized] + rest && es[1..][1..] == rest;
    assert Execute(host, Dispatch(host, st, call), es[1..]) ==
           Execute(host, Next(host, Dispatch(host, st, call), BlockFinalized), es[1..][1..]);
  }

  /** A stream cut into calls over successive blocks, all accepted, ends where the whole stream in one call does. */
  lemma CutStreamIsOneBatch(host: Host, g: PalletState, calls: seq<Call>, whole: Call)
    requires IsGenesis(g) && AllAccepted(host, g, calls)
    requires whole.utxos == Joined(calls) && Accepts(host, g, whole)
    ensures Observed(Execute(host, g, InBlocks(calls))) == Observed(Dispatch(host, g, whole))
  {
    AcceptedCallsAreProcessed(host, g, calls);
    assert [Dispatched(whole)][1..] == [];
    assert Execute(host, g, [Dispatched(whole)]) == Dispatch(host, g, whole);
    BatchingIsInvisible(host, g, InBlocks(calls), [Dispatched(whole)]);
  }
}

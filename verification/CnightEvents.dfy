/**
 Where every event comes from.  Ledger events and mapping events are traced back to the observed UTXOs
 of the stream, with what each carries, and every UTXO that left no event is accounted for.
 */
module CnightEvents {
  import opened Common
  import opened CnightTypes
  import opened CnightStep
  import opened CnightChain

  // Ledger events

  /**
   The nonce of an output, written out: hash of `asset_create`, the transaction hash and the index, high
   byte first.
   */
  predicate IsNonceOf(host: Host, n: Nonce, output: OutPoint) {
    n == host.hash([97, 115, 115, 101, 116, 95, 99, 114, 101, 97, 116, 101] + output.txHash +
                   [output.index / 256, output.index % 256])
  }

  /** A time in whole seconds, for block times from 1970 on. */
  predicate IsSecondsOf(t: U64, millis: I64) {
    millis >= 0 ==> 1000 * t <= millis < 1000 * t + 1000
  }

  /** Exactly one mapping is stored for `a`, and it has this key. */
  predicate RegisteredWith(s: Storage, a: Address, key: DustKey) {
    a in s.mappings && |s.mappings[a]| == 1 && s.mappings[a][0].key == key
  }

  /** `e` is the event of `u` in the storage it met: value, nonce, time and key. */
  predicate EventOf(host: Host, s: Storage, u: ObservedUtxo, e: LedgerEvent) {
    && IsSecondsOf(e.time, u.header.position.timestamp)
    && host.builds(e)
    && match u.data
       case AssetCreate(value, owner, output) =>
         e.action.Create? && e.value == value && IsNonceOf(host, e.nonce, output) && RegisteredWith(s, owner, e.key)
       case AssetSpend(value, _, output, _) =>
         && e.action.Destroy? && e.value == value && IsNonceOf(host, e.nonce, output)
         && e.nonce in s.owners && s.owners[e.nonce] == e.key
       case _ => false
  }

  /** Why `u` left no event: it is no asset, nothing is registered or stored for it, or its event does not build. */
  ghost predicate LeavesNoEvent(host: Host, s: Storage, u: ObservedUtxo) {
    match u.data
    case AssetCreate(value, owner, output) =>
      forall key :: RegisteredWith(s, owner, key) ==>
        !host.builds(LedgerEvent(Create, value, key, Seconds(u.header), NonceOf(host, output)))
    case AssetSpend(value, _, output, _) =>
      var n := NonceOf(host, output);
      n in s.owners ==> !host.builds(LedgerEvent(Destroy, value, s.owners[n], Seconds(u.header), n))
    case _ => true
  }

  lemma NonceWrittenOut(host: Host, output: OutPoint)
    ensures IsNonceOf(host, NonceOf(host, output), output)
  {
  }

  lemma StepTraced(host: Host, s: Storage, u: ObservedUtxo)
    ensures var es := Step(host, s, u).ledger;
            if es == [] then LeavesNoEvent(host, s, u) else |es| == 1 && EventOf(host, s, u, es[0])
  {
    if u.data.AssetCreate? || u.data.AssetSpend? {
      NonceWrittenOut(host, u.data.output);
    }
  }

  /** The storage a UTXO of the stream meets. */
  function Met(host: Host, s: Storage, us: seq<ObservedUtxo>, i: nat): (t: Storage)
    requires i <= |us|
  {
    Run(host, s, us[..i]).storage
  }

  /**
   The ledger events `es` of the first `n` UTXOs stand at the ascending positions `at` of the stream,
   each the event of the UTXO there; at every other position there is a reason for none.
   */
  ghost predicate TracedTo(host: Host, s: Storage, us: seq<ObservedUtxo>, n: nat, es: seq<LedgerEvent>, at: seq<nat>) {
    && n <= |us| && |at| == |es|
    && (forall j :: 0 <= j < |at| ==> at[j] < n && EventOf(host, Met(host, s, us, at[j]), us[at[j]], es[j]))
    && (forall i, j :: 0 <= i < j < |at| ==> at[i] < at[j])
    && (forall i :: 0 <= i < n && i !in at ==> LeavesNoEvent(host, Met(host, s, us, i), us[i]))
  }

  lemma TraceOneMore(host: Host, s: Storage, us: seq<ObservedUtxo>, n: nat, es: seq<LedgerEvent>, at: seq<nat>,
                     e: LedgerEvent)
    requires n < |us| && TracedTo(host, s, us, n, es, at) && EventOf(host, Met(host, s, us, n), us[n], e)
    ensures TracedTo(host, s, us, n + 1, es + [e], at + [n])
  {
    forall i | 0 <= i < n + 1 && i !in at + [n] ensures LeavesNoEvent(host, Met(host, s, us, i), us[i]) {
      assert (at + [n])[|at|] == n;
      assert i in at ==> i in at + [n];
    }
  }

  lemma {:induction false} TraceLedger(host: Host, s: Storage, us: seq<ObservedUtxo>, n: nat) returns (at: seq<nat>)
    requires n <= |us|
    ensures TracedTo(host, s, us, n, Run(host, s, us[..n]).ledger, at)
    decreases n
  {
    if n == 0 {
      at := [];
    } else {
      var before := TraceLedger(host, s, us, n - 1);
      var done := Run(host, s, us[..n - 1]);
      RunSnoc(host, s, us, n - 1);
      StepTraced(host, done.storage, us[n - 1]);
      at := TraceNext(host, s, us, n - 1, done.ledger, before, Step(host, done.storage, us[n - 1]).ledger);
    }
  }

  lemma TraceNext(host: Host, s: Storage, us: seq<ObservedUtxo>, n: nat, es: seq<LedgerEvent>, at: seq<nat>,
                  more: seq<LedgerEvent>)
    returns (longer: seq<nat>)
    requires n < |us| && TracedTo(host, s, us, n, es, at)
    requires if more == [] then LeavesNoEvent(host, Met(host, s, us, n), us[n])
             else |more| == 1 && EventOf(host, Met(host, s, us, n), us[n], more[0])
    ensures TracedTo(host, s, us, n + 1, es + more, longer)
  {
    if more == [] {
      assert es + more == es;
      longer := at;
    } else {
      assert more == [more[0]];
      TraceOneMore(host, s, us, n, es, at, more[0]);
      longer := at + [n];
    }
  }

  ghost predicate Traced(host: Host, s: Storage, us: seq<ObservedUtxo>, es: seq<LedgerEvent>) {
    exists at :: TracedTo(host, s, us, |us|, es, at)
  }

  /** Every ledger event of a stream is that of one UTXO, in order, and every other UTXO has a reason for none. */
  lemma LedgerEventsAreTraced(host: Host, s: Storage, us: seq<ObservedUtxo>)
    ensures Traced(host, s, us, Run(host, s, us).ledger)
  {
    var at := TraceLedger(host, s, us, |us|);
    assert us[..|us|] == us;
  }

  /** The same over every run from genesis, for the events built from all the UTXOs it accepted. */
  lemma BuiltEventsAreTraced(host: Host, g: PalletState, es: seq<Event>)
    requires IsGenesis(g)
    ensures var st := Execute(host, g, es);
            Traced(host, g.storage, st.processed, st.built)
  {
    var st := Execute(host, g, es);
    GenesisIsOnePass(host, g);
    EveryRunIsOnePass(host, g, g, es);
    assert st.built == Observed(st).ledger;
    LedgerEventsAreTraced(host, g.storage, st.processed);
  }

  // Mapping events

  predicate IsMappingEvent(e: PalletEvent) {
    e.MappingAdded? || e.MappingRemoved?
  }

  /** What a stream must log about mappings: one event for each registration and removal, with its own output. */
  function MappingEventsOf(us: seq<ObservedUtxo>): (log: seq<PalletEvent>) {
    if us == [] then []
    else
      var utxo := us[0].header.utxo;
      (match us[0].data
       case Register(a, key) => [MappingAdded(MappingEntry(a, key, utxo))]
       case Deregister(a, key) => [MappingRemoved(MappingEntry(a, key, utxo))]
       case _ => []) + MappingEventsOf(us[1..])
  }

  lemma StepMappingEvents(host: Host, s: Storage, u: ObservedUtxo)
    ensures Filter(Step(host, s, u).log, IsMappingEvent) == MappingEventsOf([u])
  {
    assert [u][1..] == [];
    match u.data
    case Register(a, key) =>
      var entry := EntryOf(u.header, a, key);
      SetEntriesLogs(s, a, EntriesOf(s.mappings, a) + [entry], MappingAdded(entry));
    case Deregister(a, key) =>
      var entry := EntryOf(u.header, a, key);
      SetEntriesLogs(s, a, RemoveFirst(EntriesOf(s.mappings, a), entry), MappingRemoved(entry));
    case _ =>
  }

  lemma SetEntriesLogs(s: Storage, a: Address, entries: seq<MappingEntry>, event: PalletEvent)
    requires IsMappingEvent(event)
    ensures Filter(SetEntries(s, a, entries, event).log, IsMappingEvent) == [event]
  {
    var m := StoreEntries(s.mappings, a, entries);
    var change := Transition(a, GetRegistration(s.mappings, a), GetRegistration(m, a));
    FilterConcat(change, [event], IsMappingEvent);
    FilterNone(change, IsMappingEvent);
    FilterAll([event], IsMappingEvent);
  }

  /** The mapping events of a stream are those its registrations and removals call for, in order. */
  lemma {:induction false} MappingEventsFollowTheStream(host: Host, s: Storage, us: seq<ObservedUtxo>)
    ensures Filter(Run(host, s, us).log, IsMappingEvent) == MappingEventsOf(us)
    decreases |us|
  {
    if us != [] {
      var first := Step(host, s, us[0]);
      var rest := Run(host, first.storage, us[1..]);
      StepMappingEvents(host, s, us[0]);
      MappingEventsFollowTheStream(host, first.storage, us[1..]);
      FilterConcat(first.log, rest.log, IsMappingEvent);
      assert [us[0]][1..] == [];
    }
  }

  /** Every registration event stands directly before the mapping event, of the same address, that caused it. */
  ghost predicate CauseFollows(log: seq<PalletEvent>) {
    forall j :: 0 <= j < |log| && (log[j].Registration? || log[j].Deregistration?) ==>
      j + 1 < |log| && IsMappingEvent(log[j + 1]) && log[j + 1].entry.address == log[j].address
  }

  lemma CauseFollowsConcat(a: seq<PalletEvent>, b: seq<PalletEvent>)
    requires CauseFollows(a) && CauseFollows(b)
    ensures CauseFollows(a + b)
  {
    forall j | 0 <= j < |a + b| && ((a + b)[j].Registration? || (a + b)[j].Deregistration?)
      ensures j + 1 < |a + b| && IsMappingEvent((a + b)[j + 1]) && (a + b)[j + 1].entry.address == (a + b)[j].address
    {
      if j < |a| {
        assert (a + b)[j] == a[j] && (a + b)[j + 1] == a[j + 1];
      } else {
        assert (a + b)[j] == b[j - |a|] && (a + b)[j + 1] == b[j - |a| + 1];
      }
    }
  }

  lemma {:induction false} RegistrationEventsHaveTheirCause(host: Host, s: Storage, us: seq<ObservedUtxo>)
    ensures CauseFollows(Run(host, s, us).log)
    decreases |us|
  {
    if us != [] {
      var first := Step(host, s, us[0]);
      StepHasItsCause(host, s, us[0]);
      RegistrationEventsHaveTheirCause(host, first.storage, us[1..]);
      CauseFollowsConcat(first.log, Run(host, first.storage, us[1..]).log);
    }
  }

  lemma StepHasItsCause(host: Host, s: Storage, u: ObservedUtxo)
    ensures CauseFollows(Step(host, s, u).log)
  {
  }

  // System transactions and rejections

  predicate IsSystemTx(e: PalletEvent) {
    e.SystemTransactionApplied?
  }

  /** What a call must report: an event if it is accepted and the ledger executed what it built. */
  function ReportOf(host: Host, st: PalletState, e: Event): (log: seq<PalletEvent>) {
    match e
    case Dispatched(Call(_, utxos, position, Executed(txHash))) =>
      if Accepts(host, st, e.call) && Run(host, st.storage, utxos).ledger != []
      then [SystemTransactionApplied(position.blockHash, position.txIndex, txHash)] else []
    case _ => []
  }

  function ReportsOf(host: Host, st: PalletState, es: seq<Event>): (log: seq<PalletEvent>)
    decreases |es|
  {
    if es == [] then [] else ReportOf(host, st, es[0]) + ReportsOf(host, Next(host, st, es[0]), es[1..])
  }

  lemma NoSystemTxInStream(host: Host, s: Storage, us: seq<ObservedUtxo>)
    ensures Filter(Run(host, s, us).log, IsSystemTx) == []
  {
    StepLogIsRegistrationLog(host, s, us);
    var log := Run(host, s, us).log;
    forall e | e in log ensures !IsSystemTx(e) {
      FilterMember(log, FromUtxo, e);
    }
    FilterNone(log, IsSystemTx);
  }

  lemma CommitReports(host: Host, st: PalletState, call: Call)
    ensures var ledger := Run(host, st.storage, call.utxos).ledger;
            Filter(Commit(host, st, call).events, IsSystemTx) ==
            Filter(st.events, IsSystemTx) +
            if call.systemTx.Executed? && ledger != []
            then [SystemTransactionApplied(call.position.blockHash, call.position.txIndex, call.systemTx.txHash)]
              else []
  {
    var e := Run(host, st.storage, call.utxos);
    var tail := SystemTxLog(call, e.ledger);
    FilterConcat(st.events + e.log, tail, IsSystemTx);
    FilterConcat(st.events, e.log, IsSystemTx);
    NoSystemTxInStream(host, st.storage, call.utxos);
    assert tail == [] || tail[1..] == [];
  }

  /** The report of an executed batch is the last event of its call. */
  lemma ReportComesLast(host: Host, st: PalletState, call: Call)
    requires Accepts(host, st, call) && call.systemTx.Executed? && Run(host, st.storage, call.utxos).ledger != []
    ensures var events := Dispatch(host, st, call).events;
            events != [] && events[|events| - 1].SystemTransactionApplied?
  {
  }

  /** In every run the system-transaction events are exactly those of the executed batches, with the call's position. */
  lemma {:induction false} ExecutedBatchesAreReported(host: Host, st: PalletState, es: seq<Event>)
    ensures Filter(Execute(host, st, es).events, IsSystemTx) == Filter(st.events, IsSystemTx) + ReportsOf(host, st, es)
    decreases |es|
  {
    if es == [] {
      assert Filter(st.events, IsSystemTx) + [] == Filter(st.events, IsSystemTx);
    } else {
      var st1 := Next(host, st, es[0]);
      ExecutedBatchesAreReported(host, st1, es[1..]);
      NextReports(host, st, es[0]);
      ConcatAssociative(Filter(st.events, IsSystemTx), ReportOf(host, st, es[0]), ReportsOf(host, st1, es[1..]));
    }
  }

  lemma NextReports(host: Host, st: PalletState, e: Event)
    ensures Filter(Next(host, st, e).events, IsSystemTx) == Filter(st.events, IsSystemTx) + ReportOf(host, st, e)
  {
    if e.Dispatched? {
      CommitReports(host, st, e.call);
    }
  }

  predicate FromOutside(e: Event) {
    e.Dispatched? && e.call.origin != NoOrigin
  }

  predicate NotFromOutside(e: Event) {
    !FromOutside(e)
  }

  /** Only inherents count: calls with any other origin can be struck from a run without a trace. */
  lemma {:induction false} OnlyInherentsCount(host: Host, st: PalletState, es: seq<Event>)
    ensures Execute(host, st, es) == Execute(host, st, Filter(es, NotFromOutside))
    decreases |es|
  {
    if es != [] {
      var st1, rest := Next(host, st, es[0]), Filter(es[1..], NotFromOutside);
      OnlyInherentsCount(host, st1, es[1..]);
      if FromOutside(es[0]) {
        assert [] + rest == rest;
      } else {
        assert ([es[0]] + rest)[1..] == rest;
      }
    }
  }

  /**
   Why a call is refused, in full: another origin, more than 64 UTXOs for each transaction of capacity
   in 32 bits, a call already accepted in the block, a position behind the stored one, and, if there is
   anything for the ledger, a refusal there.  Each is reported only if nothing before it applies.
   */
  lemma RefusedFor(host: Host, st: PalletState, call: Call)
    ensures var r := Rejection(host, st, call);
            var crowded := |call.utxos| % 0x1_0000_0000 >
                           (if 64 * st.capacity < 0x1_0000_0000 then 64 * st.capacity else 0xFFFF_FFFF);
            && (r == Some(BadOrigin) <==> call.origin != NoOrigin)
            && (r == Some(TooManyUtxos) <==> call.origin == NoOrigin && crowded)
            && (r == Some(InherentAlreadyExecuted) <==> call.origin == NoOrigin && !crowded && st.executed)
            && (r == Some(CardanoPositionRegression) <==>
                call.origin == NoOrigin && !crowded && !st.executed && Before(call.position, st.position))
            && (r == Some(ExecutionRefused) <==>
                && call.origin == NoOrigin && !crowded && !st.executed && !Before(call.position, st.position)
                && call.systemTx == Refused && Run(host, st.storage, call.utxos).ledger != [])
  {
    assert UTXO_PER_TX_OVERESTIMATE == 64;
  }
}

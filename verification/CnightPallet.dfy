/** The pallet itself: storage updated in place by the four handlers and by `process_tokens`. */
module CnightPallet {
  import opened Common
  import opened CnightTypes
  import opened CnightStep
  import opened CnightChain

  /** A removal that ends a registration removes the one entry there is, so the key it names is the registered one. */
  lemma RemovalTransition(m: Mappings, a: Address, entry: MappingEntry)
    ensures var m' := StoreEntries(m, a, RemoveFirst(EntriesOf(m, a), entry));
            var before, after := GetRegistration(m, a), GetRegistration(m', a);
            Transition(a, before, after) ==
            (if before.None? && after.Some? then [Registration(a, after.value)] else []) +
            (if before.Some? && after.None? then [Deregistration(a, entry.key)] else [])
  {
    RemoveFirstIsRemoveAt(EntriesOf(m, a), entry);
  }

  class Pallet {
    const host: Host
    var mappings: Mappings
    var utxoOwners: Owners
    var nextPosition: CardanoPosition
    var inherentExecuted: bool
    var txCapacity: U32
    var events: seq<PalletEvent>
    var applied: seq<LedgerEvent>
    ghost var processed: seq<ObservedUtxo>
    ghost var built: seq<LedgerEvent>

    function Stored(): (s: Storage)
      reads this
    {
      Storage(mappings, utxoOwners)
    }

    ghost function State(): (st: PalletState)
      reads this
    {
      PalletState(Stored(), nextPosition, inherentExecuted, txCapacity, events, applied, processed, built)
    }

    constructor (host: Host, mappings: Mappings, utxoOwners: Owners, position: CardanoPosition, txCapacity: U32)
      ensures this.host == host && IsGenesis(State())
      ensures Stored() == Storage(mappings, utxoOwners) && nextPosition == position && this.txCapacity == txCapacity
    {
      this.host, this.mappings, this.utxoOwners := host, mappings, utxoOwners;
      nextPosition, inherentExecuted, this.txCapacity := position, false, txCapacity;
      events, applied, processed, built := [], [], [], [];
    }

    function Registered(a: Address): (r: Option<DustKey>)
      reads this
      ensures r.Some? <==> |EntriesOf(mappings, a)| == 1
      ensures r.Some? ==>
              EntriesOf(mappings, a) == [EntriesOf(mappings, a)[0]] && r.value == EntriesOf(mappings, a)[0].key
    {
      GetRegistration(mappings, a)
    }

    method HandleRegistration(header: Header, address: Address, key: DustKey)
      modifies this`mappings, this`events
      ensures var e := Step(host, old(Stored()), ObservedUtxo(header, Register(address, key)));
              Stored() == e.storage && events == old(events) + e.log && e.ledger == []
    {
      var newEntry := EntryOf(header, address, key);
      var previous := Registered(address);
      var entries := EntriesOf(mappings, address) + [newEntry];
      mappings := mappings[address := entries];
      var isRegistered := |EntriesOf(mappings, address)| == 1;
      if previous.None? && isRegistered {
        events := events + [Registration(address, key)];
      }
      if previous.Some? && !isRegistered {
        events := events + [Deregistration(address, previous.value)];
      }
      events := events + [MappingAdded(newEntry)];
    }

    method HandleRegistrationRemoval(header: Header, address: Address, key: DustKey)
      modifies this`mappings, this`events
      ensures var e := Step(host, old(Stored()), ObservedUtxo(header, Deregister(address, key)));
              Stored() == e.storage && events == old(events) + e.log && e.ledger == []
    {
      var entry := EntryOf(header, address, key);
      var wasRegistered := |EntriesOf(mappings, address)| == 1;
      var entries := EntriesOf(mappings, address);
      RemoveFirstIsRemoveAt(entries, entry);
      RemovalTransition(mappings, address, entry);
      match Position(entries, entry) {
        case Some(i) => entries := RemoveAt(entries, i);
        case None =>
      }
      if entries == [] {
        mappings := mappings - {address};
      } else {
        mappings := mappings[address := entries];
      }
      var registration := Registered(address);
      if !wasRegistered && registration.Some? {
        events := events + [Registration(address, registration.value)];
      }
      if wasRegistered && registration.None? {
        events := events + [Deregistration(address, key)];
      }
      events := events + [MappingRemoved(entry)];
    }

    method HandleCreate(now: U64, value: nat, owner: Address, output: OutPoint) returns (event: Option<LedgerEvent>)
      modifies this`utxoOwners
      ensures event.Some? ==>
                && old(Registered(owner)).Some?
                && event.value == LedgerEvent(Create, value, old(Registered(owner)).value, now, NonceOf(host, output))
                && host.builds(event.value)
                && utxoOwners == old(utxoOwners)[NonceOf(host, output) := event.value.key]
      ensures event.None? ==>
                && utxoOwners == old(utxoOwners)
                && forall key :: old(Registered(owner)) == Some(key) ==>
                     !host.builds(LedgerEvent(Create, value, key, now, NonceOf(host, output)))
    {
      match Registered(owner) {
        case None => return None;
        case Some(key) =>
          var nonce := NonceOf(host, output);
          var e := LedgerEvent(Create, value, key, now, nonce);
          if host.builds(e) {
            utxoOwners := utxoOwners[nonce := key];
            return Some(e);
          }
          return None;
      }
    }

    method HandleSpend(now: U64, value: nat, output: OutPoint) returns (event: Option<LedgerEvent>)
      modifies this`utxoOwners
      ensures utxoOwners == old(utxoOwners) - {NonceOf(host, output)}
      ensures event.Some? ==>
                && NonceOf(host, output) in old(utxoOwners)
                && event.value ==
                   LedgerEvent(Destroy, value, old(utxoOwners)[NonceOf(host, output)], now, NonceOf(host, output))
                && host.builds(event.value)
      ensures event.None? && NonceOf(host, output) in old(utxoOwners) ==>
                !host.builds(LedgerEvent(Destroy, value, old(utxoOwners)[NonceOf(host, output)], now,
                                         NonceOf(host, output)))
    {
      var nonce := NonceOf(host, output);
      if nonce !in utxoOwners {
        return None;
      }
      var key := utxoOwners[nonce];
      utxoOwners := utxoOwners - {nonce};
      var e := LedgerEvent(Destroy, value, key, now, nonce);
      return if host.builds(e) then Some(e) else None;
    }

    method HandleUtxo(u: ObservedUtxo) returns (ledger: seq<LedgerEvent>)
      modifies this`mappings, this`utxoOwners, this`events
      ensures var e := Step(host, old(Stored()), u);
              Stored() == e.storage && events == old(events) + e.log && ledger == e.ledger
    {
      ledger := [];
      var now := Seconds(u.header);
      match u.data {
        case Register(address, key) => HandleRegistration(u.header, address, key);
        case Deregister(address, key) => HandleRegistrationRemoval(u.header, address, key);
        case AssetCreate(value, owner, output) =>
          var event := HandleCreate(now, value, owner, output);
          if event.Some? { ledger := [event.value]; }
        case AssetSpend(value, _, output, _) =>
          var event := HandleSpend(now, value, output);
          if event.Some? { ledger := [event.value]; }
      }
    }

    /** The loop over a batch: the storage, the deposited events and the pending ledger events of one pass. */
    method HandleUtxos(utxos: seq<ObservedUtxo>) returns (pending: seq<LedgerEvent>)
      modifies this`mappings, this`utxoOwners, this`events
      ensures var e := Run(host, old(Stored()), utxos);
              Stored() == e.storage && events == old(events) + e.log && pending == e.ledger
    {
      pending := [];
      ghost var s0, events0 := Stored(), events;
      ghost var done := Effect(s0, [], []);
      for i := 0 to |utxos|
        invariant done == Run(host, s0, utxos[..i])
        invariant Stored() == done.storage && events == events0 + done.log && pending == done.ledger
      {
        ghost var step := Step(host, done.storage, utxos[i]);
        var ledger := HandleUtxo(utxos[i]);
        pending := pending + ledger;
        RunSnocParts(host, s0, utxos, i, done, step, events0);
        done := Run(host, s0, utxos[..i + 1]);
      }
      assert utxos[..|utxos|] == utxos;
    }

    /** The body of the call.  A returned error leaves changes behind; `Dispatch` rolls them back. */
    method ProcessTokens(call: Call) returns (r: Option<CallError>)
      modifies this
      ensures r == Rejection(host, old(State()), call)
      ensures r.None? ==> State() == Commit(host, old(State()), call)
    {
      if call.origin != NoOrigin { return Some(BadOrigin); }
      var count := AsU32(|call.utxos|);
      if count > SaturatingMul32(txCapacity, UTXO_PER_TX_OVERESTIMATE) { return Some(TooManyUtxos); }
      if inherentExecuted { return Some(InherentAlreadyExecuted); }
      inherentExecuted := true;
      if Before(call.position, nextPosition) { return Some(CardanoPositionRegression); }

      var pending := HandleUtxos(call.utxos);
      nextPosition := call.position;
      if pending != [] {
        match call.systemTx {
          case NotBuilt =>
          case Refused => return Some(ExecutionRefused);
          case Executed(txHash) =>
            applied := applied + pending;
            events := events + [SystemTransactionApplied(call.position.blockHash, call.position.txIndex, txHash)];
        }
      }
      processed := processed + call.utxos;
      built := built + pending;
      r := None;
    }

    /** A call in its storage layer: on an error everything is as it was before the call. */
    method Dispatch(call: Call) returns (r: Option<CallError>)
      modifies this
      ensures r == Rejection(host, old(State()), call)
      ensures State() == CnightChain.Dispatch(host, old(State()), call)
    {
      var m, o, p, x, c, ev, ap := mappings, utxoOwners, nextPosition, inherentExecuted, txCapacity, events, applied;
      ghost var pr, bu := processed, built;
      r := ProcessTokens(call);
      if r.Some? {
        mappings, utxoOwners, nextPosition, inherentExecuted, txCapacity, events, applied := m, o, p, x, c, ev, ap;
        processed, built := pr, bu;
      }
    }

    method OnFinalize()
      modifies this`inherentExecuted
      ensures State() == old(State()).(executed := false)
    {
      inherentExecuted := false;
    }
  }
}

/**
 What one observed UTXO, and a stream of them, do to the pallet.  The specification speaks of the
 registration an address has before and after; CnightPallet shows that the handlers compute it.
 */
module CnightStep {
  import opened Common
  import opened CnightTypes

  type Mappings = map<Address, seq<MappingEntry>>
  type Owners = map<Nonce, DustKey>

  datatype Storage = Storage(mappings: Mappings, owners: Owners)

  /** New storage, pallet events in order, and ledger events in order. */
  datatype Effect = Effect(storage: Storage, log: seq<PalletEvent>, ledger: seq<LedgerEvent>)

  /** The mapping list of an address; an absent key reads as the empty list. */
  function EntriesOf(m: Mappings, a: Address): (s: seq<MappingEntry>) {
    if a in m then m[a] else []
  }

  /** The registration an address has: the key of its mapping when exactly one is stored. */
  function GetRegistration(m: Mappings, a: Address): (r: Option<DustKey>) {
    var entries := EntriesOf(m, a);
    if |entries| == 1 then Some(entries[0].key) else None
  }

  function StoreEntries(m: Mappings, a: Address, entries: seq<MappingEntry>): (r: Mappings) {
    if entries == [] then m - {a} else m[a := entries]
  }

  /** The event an indexer must see when the registration of `a` goes from `before` to `after`. */
  function Transition(a: Address, before: Option<DustKey>, after: Option<DustKey>): (log: seq<PalletEvent>) {
    if before.None? && after.Some? then [Registration(a, after.value)]
    else if before.Some? && after.None? then [Deregistration(a, before.value)]
    else []
  }

  function SetEntries(s: Storage, a: Address, entries: seq<MappingEntry>, event: PalletEvent): (e: Effect) {
    var m := StoreEntries(s.mappings, a, entries);
    Effect(s.(mappings := m),
           Transition(a, GetRegistration(s.mappings, a), GetRegistration(m, a)) + [event],
           [])
  }

  /** A ledger event reaches the batch only if the ledger can build it. */
  function Built(host: Host, e: LedgerEvent): (r: seq<LedgerEvent>) {
    if host.builds(e) then [e] else []
  }

  function Step(host: Host, s: Storage, u: ObservedUtxo): (e: Effect) {
    match u.data
    case Register(a, key) =>
      var entry := EntryOf(u.header, a, key);
      SetEntries(s, a, EntriesOf(s.mappings, a) + [entry], MappingAdded(entry))
    case Deregister(a, key) =>
      var entry := EntryOf(u.header, a, key);
      SetEntries(s, a, RemoveFirst(EntriesOf(s.mappings, a), entry), MappingRemoved(entry))
    case AssetCreate(value, owner, output) =>
      (match GetRegistration(s.mappings, owner)
       case None => Effect(s, [], [])
       case Some(key) =>
         var n := NonceOf(host, output);
         var event := LedgerEvent(Create, value, key, Seconds(u.header), n);
         Effect(if host.builds(event) then s.(owners := s.owners[n := key]) else s, [], Built(host, event)))
    case AssetSpend(value, _, output, _) =>
      var n := NonceOf(host, output);
      if n !in s.owners then Effect(s, [], [])
      else
        Effect(s.(owners := s.owners - {n}), [],
               Built(host, LedgerEvent(Destroy, value, s.owners[n], Seconds(u.header), n)))
  }

  /** One effect followed by another. */
  function Then(a: Effect, b: Effect): (e: Effect) {
    Effect(b.storage, a.log + b.log, a.ledger + b.ledger)
  }

  lemma ThenAssociative(a: Effect, b: Effect, c: Effect)
    ensures Then(a, Then(b, c)) == Then(Then(a, b), c)
  {
    assert a.log + (b.log + c.log) == (a.log + b.log) + c.log;
    assert a.ledger + (b.ledger + c.ledger) == (a.ledger + b.ledger) + c.ledger;
  }

  /** A stream of UTXOs processed in order. */
  function Run(host: Host, s: Storage, us: seq<ObservedUtxo>): (e: Effect)
    decreases |us|
  {
    if us == [] then Effect(s, [], [])
    else
      var first := Step(host, s, us[0]);
      Then(first, Run(host, first.storage, us[1..]))
  }

  /** Processing `us` and then `vs` is processing `us + vs`: the stream may be cut anywhere. */
  lemma {:induction false} RunConcat(host: Host, s: Storage, us: seq<ObservedUtxo>, vs: seq<ObservedUtxo>)
    ensures var a := Run(host, s, us);
            Run(host, s, us + vs) == Then(a, Run(host, a.storage, vs))
    decreases |us|
  {
    if us == [] {
      assert us + vs == vs;
    } else {
      assert (us + vs)[1..] == us[1..] + vs;
      var first := Step(host, s, us[0]);
      var rest := Run(host, first.storage, us[1..]);
      RunConcat(host, first.storage, us[1..], vs);
      ThenAssociative(first, rest, Run(host, rest.storage, vs));
    }
  }

  lemma RunOne(host: Host, s: Storage, u: ObservedUtxo)
    ensures Run(host, s, [u]) == Step(host, s, u)
  {
    var e := Step(host, s, u);
    assert Run(host, e.storage, [u][1..]) == Effect(e.storage, [], []);
  }

  lemma RunSnoc(host: Host, s: Storage, us: seq<ObservedUtxo>, i: nat)
    requires i < |us|
    ensures var a := Run(host, s, us[..i]);
            Run(host, s, us[..i + 1]) == Then(a, Step(host, a.storage, us[i]))
  {
    assert us[..i + 1] == us[..i] + [us[i]];
    RunConcat(host, s, us[..i], [us[i]]);
    RunOne(host, Run(host, s, us[..i]).storage, us[i]);
  }

  /** The same, part by part, for a log that has grown from `start`. */
  lemma RunSnocParts(host: Host, s: Storage, us: seq<ObservedUtxo>, i: nat, done: Effect, step: Effect,
                     start: seq<PalletEvent>)
    requires i < |us| && done == Run(host, s, us[..i]) && step == Step(host, done.storage, us[i])
    ensures var e := Run(host, s, us[..i + 1]);
            && e == Then(done, step)
            && e.storage == step.storage && e.ledger == done.ledger + step.ledger
            && start + e.log == (start + done.log) + step.log
  {
    RunSnoc(host, s, us, i);
    ConcatAssociative(start, done.log, step.log);
  }
}

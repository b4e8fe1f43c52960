/** What holds in every run of blocks from genesis: the theorems of the other modules, over whole runs. */
module CnightRuns {
  import opened Common
  import opened CnightTypes
  import opened CnightStep
  import opened CnightChain
  import opened CnightLogs
  import opened CnightOwners

  lemma BeforeIsTransitive(p: CardanoPosition, q: CardanoPosition, r: CardanoPosition)
    requires !Before(q, p) && !Before(r, q)
    ensures !Before(r, p)
  {
  }

  lemma {:induction false} PositionNeverDecreases(host: Host, st: PalletState, es: seq<Event>)
    ensures !Before(Execute(host, st, es).position, st.position)
    decreases |es|
  {
    if es != [] {
      var st1 := Next(host, st, es[0]);
      PositionNeverDecreases(host, st1, es[1..]);
      BeforeIsTransitive(st.position, st1.position, Execute(host, st1, es[1..]).position);
    }
  }

  /** How many calls of a run are accepted. */
  function AcceptedCalls(host: Host, st: PalletState, es: seq<Event>): (n: nat)
    decreases |es|
  {
    if es == [] then 0
    else (if es[0].Dispatched? && Accepts(host, st, es[0].call) then 1 else 0) +
         AcceptedCalls(host, Next(host, st, es[0]), es[1..])
  }

  /** Within a block at most one call is accepted, and none once one has been. */
  lemma {:induction false} OncePerBlock(host: Host, st: PalletState, es: seq<Event>)
    requires BlockFinalized !in es
    ensures AcceptedCalls(host, st, es) <= if st.executed then 0 else 1
    decreases |es|
  {
    if es != [] {
      assert es[0] in es;
      OncePerBlock(host, Next(host, st, es[0]), es[1..]);
    }
  }

  lemma {:induction false} ReplayIgnoresSystemTx(r: Registrations, log: seq<PalletEvent>)
    ensures Replay(r, RegistrationLog(log)) == Replay(r, log)
    decreases |log|
  {
    if log != [] {
      var kept := RegistrationLog(log[1..]);
      assert ([log[0]] + kept)[1..] == kept;
      match log[0]
      case Registration(a, key) => ReplayIgnoresSystemTx(r[a := key], log[1..]);
      case Deregistration(a, _) => ReplayIgnoresSystemTx(r - {a}, log[1..]);
      case SystemTransactionApplied(_, _, _) =>
        assert RegistrationLog(log) == kept;
        ReplayIgnoresSystemTx(r, log[1..]);
      case _ => ReplayIgnoresSystemTx(r, log[1..]);
    }
  }

  /** In every run, replaying the deposited events from genesis gives exactly the stored registrations. */
  lemma EventsReplay(host: Host, g: PalletState, es: seq<Event>)
    requires IsGenesis(g)
    ensures var st := Execute(host, g, es);
            Replay(RegistrationsOf(g.storage.mappings), st.events) == Some(RegistrationsOf(st.storage.mappings))
  {
    var st := Execute(host, g, es);
    GenesisIsOnePass(host, g);
    EveryRunIsOnePass(host, g, g, es);
    RunReplays(host, g.storage, st.processed);
    ReplayIgnoresSystemTx(RegistrationsOf(g.storage.mappings), st.events);
  }

  /**
   In every run an address is registered, and with which key, is what the last registration event that
   names it says; if none names it, it is as at genesis.
   */
  lemma RegisteredAsLastEventSays(host: Host, g: PalletState, es: seq<Event>, a: Address)
    requires IsGenesis(g)
    ensures var st := Execute(host, g, es);
            GetRegistration(st.storage.mappings, a) ==
            LastRegistration(GetRegistration(g.storage.mappings, a), st.events, a)
  {
    EventsReplay(host, g, es);
    LastEventDecides(RegistrationsOf(g.storage.mappings), Execute(host, g, es).events, a);
  }

  /**
   In every run the registration events of an address strictly alternate.  A Deregistration carries the
   key of the Registration it ends; the first event of an address ends its genesis registration, with
   its key, or starts one where there was none.
   */
  lemma EventsAlternateInEveryRun(host: Host, g: PalletState, es: seq<Event>, i: int, j: nat, a: Address)
    requires IsGenesis(g)
    requires var log := Execute(host, g, es).events;
             && -1 <= i < j < |log| && Names(log[j], a) && QuietBetween(log, i, j, a)
             && (i >= 0 ==> Names(log[i], a))
    ensures var log := Execute(host, g, es).events;
            var before := if i < 0 then GetRegistration(g.storage.mappings, a)
                          else if log[i].Registration? then Some(log[i].key) else None;
            && (log[j].Registration? <==> before.None?)
            && (log[j].Deregistration? ==> before == Some(log[j].key))
  {
    EventsReplay(host, g, es);
    var r, log := RegistrationsOf(g.storage.mappings), Execute(host, g, es).events;
    if i < 0 {
      FirstRegistrationEvent(r, log, j, a);
    } else {
      RegistrationEventsAlternate(r, log, i, j, a);
    }
  }

  /**
   In every run that creates no output twice, the ledger events built match up, and the stored
   owners are the open Creates exactly when no owner was lost.
   */
  lemma LedgerMatchesInEveryRun(host: Host, g: PalletState, es: seq<Event>)
    requires IsGenesis(g) && Injective(host.hash)
    requires CreatedOnce(Execute(host, g, es).processed)
    requires CreatedAnew(host, g.storage, Execute(host, g, es).processed)
    ensures var st := Execute(host, g, es);
            var open := ReplayOwners(true, g.storage.owners, st.built);
            && open.Some?
            && Within(st.storage.owners, open.value)
            && (open.value == st.storage.owners <==> !SomeOwnerLost(host, g.storage, st.processed))
  {
    GenesisIsOnePass(host, g);
    EveryRunIsOnePass(host, g, g, es);
    LedgerEventsMatch(host, g.storage, Execute(host, g, es).processed);
  }

  /** The call commits its storage but its ledger events never reach the ledger. */
  predicate DropsEvents(host: Host, st: PalletState, call: Call) {
    Accepts(host, st, call) && call.systemTx.NotBuilt? && Run(host, st.storage, call.utxos).ledger != []
  }

  predicate NothingDropped(host: Host, st: PalletState, es: seq<Event>)
    decreases |es|
  {
    es == [] ||
    (!(es[0].Dispatched? && DropsEvents(host, st, es[0].call)) && NothingDropped(host, Next(host, st, es[0]), es[1..]))
  }

  lemma {:induction false} BuiltAtLeastApplied(host: Host, st: PalletState, es: seq<Event>)
    ensures var st' := Execute(host, st, es);
            && |st'.built| - |st'.applied| >= |st.built| - |st.applied|
            && (!NothingDropped(host, st, es) ==> |st'.built| - |st'.applied| > |st.built| - |st.applied|)
            && (NothingDropped(host, st, es) && st.applied == st.built ==> st'.applied == st'.built)
    decreases |es|
  {
    if es != [] {
      BuiltAtLeastApplied(host, Next(host, st, es[0]), es[1..]);
    }
  }

  /** The ledger has applied every event built exactly when no system transaction failed to build. */
  lemma AppliedIffNothingDropped(host: Host, g: PalletState, es: seq<Event>)
    requires IsGenesis(g)
    ensures var st := Execute(host, g, es);
            st.applied == st.built <==> NothingDropped(host, g, es)
  {
    BuiltAtLeastApplied(host, g, es);
  }

  /**
   A run in which the applied events do not match up.  A Create whose system transaction did not
   build leaves its owner stored, and the later Destroy reaches the ledger alone.
   */
  lemma DroppedCreateOrphansItsDestroy(host: Host, g: PalletState, h: Header, a: Address, key: DustKey,
                                       output: OutPoint, txHash: Hash32)
    requires IsGenesis(g) && g.storage == Storage(map[], map[]) && g.capacity == 200
    requires g.position == h.position && forall e :: host.builds(e)
    ensures var register := ObservedUtxo(h, Register(a, key));
            var create := ObservedUtxo(h, AssetCreate(7, a, output));
            var spend := ObservedUtxo(h, AssetSpend(7, a, output, txHash));
            var es := [Dispatched(Call(NoOrigin, [register, create], h.position, NotBuilt)), BlockFinalized,
                       Dispatched(Call(NoOrigin, [spend], h.position, Executed(txHash)))];
            var st := Execute(host, g, es);
            && st.applied == [LedgerEvent(Destroy, 7, key, Seconds(h), NonceOf(host, output))]
            && ReplayOwners(false, g.storage.owners, st.applied).None?
  {
    var register := ObservedUtxo(h, Register(a, key));
    var create := ObservedUtxo(h, AssetCreate(7, a, output));
    var spend := ObservedUtxo(h, AssetSpend(7, a, output, txHash));
    var first := Dispatched(Call(NoOrigin, [register, create], h.position, NotBuilt));
    var second := Dispatched(Call(NoOrigin, [spend], h.position, Executed(txHash)));
    var destroy := LedgerEvent(Destroy, 7, key, Seconds(h), NonceOf(host, output));
    RegisterAndCreate(host, h, a, key, output);
    var st1 := Next(host, g, first);
    assert st1.storage.owners == map[NonceOf(host, output) := key] && st1.applied == [] && st1.position == h.position;
    var st2 := Next(host, st1, BlockFinalized);
    RunOne(host, st2.storage, spend);
    assert Next(host, st2, second).applied == [] + [destroy];
    ExecuteThree(host, g, first, BlockFinalized, second);
  }

  lemma RegisterAndCreate(host: Host, h: Header, a: Address, key: DustKey, output: OutPoint)
    requires forall e :: host.builds(e)
    ensures var us := [ObservedUtxo(h, Register(a, key)), ObservedUtxo(h, AssetCreate(7, a, output))];
            Run(host, Storage(map[], map[]), us).storage.owners == map[NonceOf(host, output) := key]
  {
    var register, create := ObservedUtxo(h, Register(a, key)), ObservedUtxo(h, AssetCreate(7, a, output));
    var s1 := Step(host, Storage(map[], map[]), register).storage;
    assert [] + [EntryOf(h, a, key)] == [EntryOf(h, a, key)];
    assert GetRegistration(s1.mappings, a) == Some(key);
    RunOne(host, s1, create);
    assert [register, create][1..] == [create];
  }

  lemma ExecuteThree(host: Host, st: PalletState, x: Event, y: Event, z: Event)
    ensures Execute(host, st, [x, y, z]) == Next(host, Next(host, Next(host, st, x), y), z)
  {
    var st1 := Next(host, st, x);
    var st2 := Next(host, st1, y);
    assert [x, y, z][1..] == [y, z] && [y, z][1..] == [z] && [z][1..] == [];
    assert Execute(host, st2, [z]) == Next(host, st2, z);
    assert Execute(host, st1, [y, z]) == Execute(host, st2, [z]);
  }
}

/**
 The ledger events that reach the ledger.  A call whose system transaction cannot be built keeps its
 storage and loses its events, so a Destroy may reach the ledger whose Create never did.
 */
module CnightApplied {
  import opened Common
  import opened CnightTypes
  import opened CnightStep
  import opened CnightChain
  import opened CnightOwners

  function CreatedBy(es: seq<LedgerEvent>): (ns: set<Nonce>) {
    set e | e in es && e.action.Create? :: e.nonce
  }

  predicate DestroysNone(es: seq<LedgerEvent>, ns: set<Nonce>) {
    forall e :: e in es && e.action.Destroy? ==> e.nonce !in ns
  }

  function OutputsOf(host: Host, us: seq<ObservedUtxo>): (ns: set<Nonce>) {
    set u | u in us && u.data.AssetCreate? :: NonceOf(host, u.data.output)
  }

  /**
   The stored owners as the ledger can know them: each is open there with its key, unless its Create
   was dropped, and nothing whose Create was dropped is open there.
   */
  ghost predicate Tracks(owners: Owners, open: Owners, dropped: set<Nonce>) {
    && (forall n :: n in owners ==> n in dropped || (n in open && open[n] == owners[n]))
    && (forall n :: n in open ==> n !in dropped)
  }

  lemma StepApplied(host: Host, s: Storage, open: Owners, dropped: set<Nonce>, u: ObservedUtxo)
    requires Tracks(s.owners, open, dropped)
    requires u.data.AssetCreate? ==> NonceOf(host, u.data.output) !in open && NonceOf(host, u.data.output) !in dropped
    ensures var e := Step(host, s, u);
            var open' := ReplayOwners(true, open, e.ledger);
            && (open'.Some? <==> DestroysNone(e.ledger, dropped))
            && (open'.Some? ==> Tracks(e.storage.owners, open'.value, dropped))
            && (open'.Some? ==> open'.value.Keys <= open.Keys + OutputsOf(host, [u]))
  {
    var e := Step(host, s, u);
    if e.ledger != [] {
      var event := e.ledger[0];
      assert e.ledger == [event] && e.ledger[1..] == [];
      assert u in [u];
      if event.action.Create? {
        assert ReplayOwners(true, open, [event]) == Some(open[event.nonce := event.key]);
      } else {
        assert event in e.ledger;
        assert event.nonce !in dropped ==> ReplayOwners(true, open, [event]) == Some(open - {event.nonce});
      }
    }
  }

  lemma {:induction false} ReplayOwnersFails(open: Owners, a: seq<LedgerEvent>, b: seq<LedgerEvent>)
    requires ReplayOwners(true, open, a).None?
    ensures ReplayOwners(true, open, a + b).None?
    decreases |a|
  {
    assert (a + b)[1..] == a[1..] + b;
    var LedgerEvent(action, _, key, _, n) := a[0];
    if action.Create? && n !in open {
      ReplayOwnersFails(open[n := key], a[1..], b);
    } else if action.Destroy? && n in open && open[n] == key {
      ReplayOwnersFails(open - {n}, a[1..], b);
    }
  }

  lemma OutputsCons(host: Host, us: seq<ObservedUtxo>)
    requires us != []
    ensures OutputsOf(host, us) == OutputsOf(host, [us[0]]) + OutputsOf(host, us[1..])
  {
    assert us == [us[0]] + us[1..];
    assert forall u :: u in us <==> u in [us[0]] || u in us[1..];
  }

  lemma DestroysNoneConcat(a: seq<LedgerEvent>, b: seq<LedgerEvent>, ns: set<Nonce>)
    ensures DestroysNone(a + b, ns) <==> DestroysNone(a, ns) && DestroysNone(b, ns)
  {
    assert forall e :: e in a + b <==> e in a || e in b;
  }

  /** A batch that reaches the ledger is accepted there exactly when it destroys nothing whose Create was dropped. */
  lemma {:induction false} RunApplied(host: Host, s: Storage, open: Owners, dropped: set<Nonce>, taken: set<Nonce>,
                                      us: seq<ObservedUtxo>)
    requires Tracks(s.owners, open, dropped) && open.Keys + dropped <= taken && FreshCreates(host, taken, us)
    ensures var e := Run(host, s, us);
            var open' := ReplayOwners(true, open, e.ledger);
            && (open'.Some? <==> DestroysNone(e.ledger, dropped))
            && (open'.Some? ==> Tracks(e.storage.owners, open'.value, dropped))
            && (open'.Some? ==> open'.value.Keys <= taken + OutputsOf(host, us))
    decreases |us|
  {
    if us != [] {
      var first := Step(host, s, us[0]);
      var rest := Run(host, first.storage, us[1..]);
      StepApplied(host, s, open, dropped, us[0]);
      DestroysNoneConcat(first.ledger, rest.ledger, dropped);
      OutputsCons(host, us);
      var open1 := ReplayOwners(true, open, first.ledger);
      if open1.None? {
        ReplayOwnersFails(open, first.ledger, rest.ledger);
      } else {
        FreshHead(host, taken, us);
        RunApplied(host, first.storage, open1.value, dropped, taken + OutputsOf(host, [us[0]]), us[1..]);
        ReplayOwnersConcat(true, open, first.ledger, rest.ledger);
      }
    }
  }

  lemma FreshHead(host: Host, taken: set<Nonce>, us: seq<ObservedUtxo>)
    requires us != [] && FreshCreates(host, taken, us)
    ensures FreshCreates(host, taken + OutputsOf(host, [us[0]]), us[1..])
  {
    var u := us[0];
    if u.data.AssetCreate? {
      assert u in [u];
      assert OutputsOf(host, [u]) == {NonceOf(host, u.data.output)};
    } else {
      assert taken + OutputsOf(host, [u]) == taken;
    }
  }

  lemma StepDropped(host: Host, s: Storage, open: Owners, dropped: set<Nonce>, u: ObservedUtxo)
    requires Tracks(s.owners, open, dropped)
    requires u.data.AssetCreate? ==> NonceOf(host, u.data.output) !in open
    ensures var e := Step(host, s, u);
            && Tracks(e.storage.owners, open, dropped + CreatedBy(e.ledger))
            && CreatedBy(e.ledger) <= OutputsOf(host, [u])
  {
    var e := Step(host, s, u);
    assert u in [u];
    if e.ledger != [] {
      assert e.ledger == [e.ledger[0]];
      assert e.ledger[0] in e.ledger;
    }
  }

  lemma CreatedByConcat(a: seq<LedgerEvent>, b: seq<LedgerEvent>)
    ensures CreatedBy(a + b) == CreatedBy(a) + CreatedBy(b)
  {
    assert forall e :: e in a + b <==> e in a || e in b;
  }

  /** A batch that is dropped changes nothing at the ledger; its Creates are known as dropped. */
  lemma {:induction false} RunDropped(host: Host, s: Storage, open: Owners, dropped: set<Nonce>, taken: set<Nonce>,
                                      us: seq<ObservedUtxo>)
    requires Tracks(s.owners, open, dropped) && open.Keys <= taken && FreshCreates(host, taken, us)
    ensures var e := Run(host, s, us);
            && Tracks(e.storage.owners, open, dropped + CreatedBy(e.ledger))
            && CreatedBy(e.ledger) <= OutputsOf(host, us)
    decreases |us|
  {
    if us == [] {
      assert dropped + CreatedBy([]) == dropped;
    } else {
      var first := Step(host, s, us[0]);
      var rest := Run(host, first.storage, us[1..]);
      StepDropped(host, s, open, dropped, us[0]);
      FreshHead(host, taken, us);
      RunDropped(host, first.storage, open, dropped + CreatedBy(first.ledger),
                 taken + OutputsOf(host, [us[0]]), us[1..]);
      CreatedByConcat(first.ledger, rest.ledger);
      OutputsCons(host, us);
      assert dropped + CreatedBy(first.ledger) + CreatedBy(rest.ledger) ==
             dropped + CreatedBy(first.ledger + rest.ledger);
    }
  }

  lemma {:induction false} FreshConcat(host: Host, taken: set<Nonce>, us: seq<ObservedUtxo>, vs: seq<ObservedUtxo>)
    requires FreshCreates(host, taken, us + vs)
    ensures FreshCreates(host, taken, us) && FreshCreates(host, taken + OutputsOf(host, us), vs)
    decreases |us|
  {
    if us == [] {
      assert us + vs == vs && taken + OutputsOf(host, []) == taken;
    } else {
      assert (us + vs)[1..] == us[1..] + vs && (us + vs)[0] == us[0];
      FreshHead(host, taken, us + vs);
      FreshConcat(host, taken + OutputsOf(host, [us[0]]), us[1..], vs);
      OutputsCons(host, us);
      assert taken + OutputsOf(host, [us[0]]) + OutputsOf(host, us[1..]) == taken + OutputsOf(host, us);
      FreshBack(host, taken, us);
    }
  }

  lemma FreshBack(host: Host, taken: set<Nonce>, us: seq<ObservedUtxo>)
    requires us != [] && FreshCreates(host, taken + OutputsOf(host, [us[0]]), us[1..])
    requires us[0].data.AssetCreate? ==> NonceOf(host, us[0].data.output) !in taken
    ensures FreshCreates(host, taken, us)
  {
    var u := us[0];
    if u.data.AssetCreate? {
      assert u in [u];
      assert OutputsOf(host, [u]) == {NonceOf(host, u.data.output)};
    } else {
      assert taken + OutputsOf(host, [u]) == taken;
    }
  }

  // Whole runs

  predicate Accepted(host: Host, st: PalletState, e: Event) {
    e.Dispatched? && Accepts(host, st, e.call)
  }

  /** The UTXOs of the calls a run accepts. */
  function AcceptedUtxos(host: Host, st: PalletState, es: seq<Event>): (us: seq<ObservedUtxo>)
    decreases |es|
  {
    if es == [] then []
    else (if Accepted(host, st, es[0]) then es[0].call.utxos else []) +
         AcceptedUtxos(host, Next(host, st, es[0]), es[1..])
  }

  lemma {:induction false} ProcessedIsAccepted(host: Host, st: PalletState, es: seq<Event>)
    ensures Execute(host, st, es).processed == st.processed + AcceptedUtxos(host, st, es)
    decreases |es|
  {
    if es == [] {
      assert st.processed + [] == st.processed;
    } else {
      var st1 := Next(host, st, es[0]);
      var head, rest := if Accepted(host, st, es[0]) then es[0].call.utxos else [], AcceptedUtxos(host, st1, es[1..]);
      ProcessedIsAccepted(host, st1, es[1..]);
      assert st1.processed == st.processed + head;
      assert (st.processed + head) + rest == st.processed + (head + rest);
    }
  }

  lemma {:induction false} AppliedGrows(host: Host, st: PalletState, es: seq<Event>)
    ensures st.applied <= Execute(host, st, es).applied
    decreases |es|
  {
    if es != [] {
      AppliedGrows(host, Next(host, st, es[0]), es[1..]);
    }
  }

  /** What `call` adds to the nonces whose Create was dropped. */
  function Drops(host: Host, st: PalletState, call: Call): (ns: set<Nonce>) {
    if call.systemTx.Executed? then {} else CreatedBy(Run(host, st.storage, call.utxos).ledger)
  }

  /**
   No executed call builds a Destroy for a nonce whose Create was in a dropped call; `dropped` holds
   the nonces dropped so far.
   */
  predicate NoOrphan(host: Host, st: PalletState, dropped: set<Nonce>, es: seq<Event>)
    decreases |es|
  {
    if es == [] then true
    else if !Accepted(host, st, es[0]) then NoOrphan(host, Next(host, st, es[0]), dropped, es[1..])
    else
      var call := es[0].call;
      && (call.systemTx.Executed? ==> DestroysNone(Run(host, st.storage, call.utxos).ledger, dropped))
      && NoOrphan(host, Next(host, st, es[0]), dropped + Drops(host, st, call), es[1..])
  }

  lemma NextApplied(host: Host, start: Owners, st: PalletState, call: Call, dropped: set<Nonce>, taken: set<Nonce>)
    requires Accepts(host, st, call) && FreshCreates(host, taken, call.utxos)
    requires var open := ReplayOwners(true, start, st.applied);
             open.Some? && Tracks(st.storage.owners, open.value, dropped) && open.value.Keys + dropped <= taken
    ensures var st' := Commit(host, st, call);
            var open' := ReplayOwners(true, start, st'.applied);
            var dropped' := dropped + Drops(host, st, call);
            && (open'.Some? <==>
               (call.systemTx.Executed? ==> DestroysNone(Run(host, st.storage, call.utxos).ledger, dropped)))
            && (open'.Some? ==> && Tracks(st'.storage.owners, open'.value, dropped')
                                && open'.value.Keys + dropped' <= taken + OutputsOf(host, call.utxos))
  {
    var open := ReplayOwners(true, start, st.applied).value;
    var ledger := Run(host, st.storage, call.utxos).ledger;
    if call.systemTx.Executed? {
      RunApplied(host, st.storage, open, dropped, taken, call.utxos);
      ReplayOwnersConcat(true, start, st.applied, ledger);
      assert dropped + {} == dropped;
    } else {
      RunDropped(host, st.storage, open, dropped, taken, call.utxos);
    }
  }

  lemma {:induction false} AppliedRun(host: Host, start: Owners, st: PalletState, dropped: set<Nonce>,
                                      taken: set<Nonce>, es: seq<Event>)
    requires FreshCreates(host, taken, AcceptedUtxos(host, st, es))
    requires var open := ReplayOwners(true, start, st.applied);
             open.Some? && Tracks(st.storage.owners, open.value, dropped) && open.value.Keys + dropped <= taken
    ensures ReplayOwners(true, start, Execute(host, st, es).applied).Some? <==> NoOrphan(host, st, dropped, es)
    decreases |es|
  {
    if es != [] {
      var st' := Next(host, st, es[0]);
      var rest := AcceptedUtxos(host, st', es[1..]);
      if Accepted(host, st, es[0]) {
        var call := es[0].call;
        FreshConcat(host, taken, call.utxos, rest);
        NextApplied(host, start, st, call, dropped, taken);
        if ReplayOwners(true, start, st'.applied).Some? {
          AppliedRun(host, start, st', dropped + Drops(host, st, call), taken + OutputsOf(host, call.utxos), es[1..]);
        } else {
          StaysUnmatched(host, start, st', es[1..]);
        }
      } else {
        assert [] + rest == rest;
        AppliedRun(host, start, st', dropped, taken, es[1..]);
      }
    }
  }

  lemma StaysUnmatched(host: Host, start: Owners, st: PalletState, es: seq<Event>)
    requires ReplayOwners(true, start, st.applied).None?
    ensures ReplayOwners(true, start, Execute(host, st, es).applied).None?
  {
    AppliedGrows(host, st, es);
    var all := Execute(host, st, es).applied;
    ReplayOwnersFails(start, st.applied, all[|st.applied|..]);
    assert st.applied + all[|st.applied|..] == all;
  }

  /**
   In every run that creates no output twice, the events applied at the ledger match up exactly when
   no executed call destroys an output whose Create was dropped.  A dropped Create that is never
   spent does no harm, nor does a dropped Destroy.
   */
  lemma AppliedMatchIff(host: Host, g: PalletState, es: seq<Event>)
    requires IsGenesis(g) && Injective(host.hash)
    requires CreatedOnce(Execute(host, g, es).processed)
    requires CreatedAnew(host, g.storage, Execute(host, g, es).processed)
    ensures ReplayOwners(true, g.storage.owners, Execute(host, g, es).applied).Some? <==> NoOrphan(host, g, {}, es)
  {
    ProcessedIsAccepted(host, g, es);
    assert g.processed + AcceptedUtxos(host, g, es) == AcceptedUtxos(host, g, es);
    CreatedOnceIsFresh(host, g.storage.owners.Keys, AcceptedUtxos(host, g, es));
    AppliedRun(host, g.storage.owners, g, {}, g.storage.owners.Keys, es);
  }
}

/**
 The ledger events of a stream.  Every Destroy ends one earlier Create, or one genesis owner, with
 the same nonce and dust key; the stored owners are the Creates not yet destroyed.
 */
module CnightOwners {
  import opened Common
  import opened CnightTypes
  import opened CnightStep

  /**
   The Creates not yet destroyed, as the ledger counts them.  A Destroy of a nonce that is not open
   with its key is refused, and under `strict` so is a Create of a nonce that is still open.
   */
  function ReplayOwners(strict: bool, open: Owners, es: seq<LedgerEvent>): (out: Option<Owners>)
    decreases |es|
  {
    if es == [] then Some(open)
    else
      var LedgerEvent(action, _, key, _, n) := es[0];
      match action
      case Create => if strict && n in open then None else ReplayOwners(strict, open[n := key], es[1..])
      case Destroy => if n in open && open[n] == key then ReplayOwners(strict, open - {n}, es[1..]) else None
  }

  lemma {:induction false} ReplayOwnersConcat(strict: bool, open: Owners, a: seq<LedgerEvent>, b: seq<LedgerEvent>)
    requires ReplayOwners(strict, open, a).Some?
    ensures ReplayOwners(strict, open, a + b) == ReplayOwners(strict, ReplayOwners(strict, open, a).value, b)
    decreases |a|
  {
    if a == [] {
      assert a + b == b;
    } else {
      assert (a + b)[1..] == a[1..] + b;
      if a[0].action.Create? {
        ReplayOwnersConcat(strict, open[a[0].nonce := a[0].key], a[1..], b);
      } else {
        ReplayOwnersConcat(strict, open - {a[0].nonce}, a[1..], b);
      }
    }
  }

  /** The spend takes an owner and then fails to build its Destroy, so the owner is forgotten silently. */
  predicate LosesOwner(host: Host, s: Storage, u: ObservedUtxo) {
    u.data.AssetSpend? &&
    var n := NonceOf(host, u.data.output);
    n in s.owners && !host.builds(LedgerEvent(Destroy, u.data.value, s.owners[n], Seconds(u.header), n))
  }

  predicate SomeOwnerLost(host: Host, s: Storage, us: seq<ObservedUtxo>)
    decreases |us|
  {
    us != [] &&
    (LosesOwner(host, s, us[0]) || SomeOwnerLost(host, Step(host, s, us[0]).storage, us[1..]))
  }

  /** No create names a nonce in `taken`, nor one an earlier create named. */
  predicate FreshCreates(host: Host, taken: set<Nonce>, us: seq<ObservedUtxo>)
    decreases |us|
  {
    us == [] ||
    if us[0].data.AssetCreate? then
      var n := NonceOf(host, us[0].data.output);
      n !in taken && FreshCreates(host, taken + {n}, us[1..])
    else FreshCreates(host, taken, us[1..])
  }

  ghost predicate Within(m: Owners, n: Owners) {
    forall k :: k in m ==> k in n && m[k] == n[k]
  }

  lemma StepOpen(host: Host, strict: bool, s: Storage, open: Owners, u: ObservedUtxo)
    requires Within(s.owners, open)
    requires strict && u.data.AssetCreate? ==> NonceOf(host, u.data.output) !in open
    ensures var e := Step(host, s, u);
            var open' := ReplayOwners(strict, open, e.ledger);
            && open'.Some?
            && Within(e.storage.owners, open'.value)
            && open'.value.Keys <= open.Keys + (if u.data.AssetCreate? then {NonceOf(host, u.data.output)} else {})
            && (strict ==> (open'.value == e.storage.owners <==> open == s.owners && !LosesOwner(host, s, u)))
  {
    var e := Step(host, s, u);
    if e.ledger != [] {
      var event := e.ledger[0];
      assert e.ledger[1..] == [];
      if event.action.Create? {
        assert ReplayOwners(strict, open, e.ledger) == Some(open[event.nonce := event.key]);
      } else {
        assert ReplayOwners(strict, open, e.ledger) == Some(open - {event.nonce});
      }
      if strict && open != s.owners {
        var n :| n in open && n !in s.owners;
        assert n in ReplayOwners(strict, open, e.ledger).value && n !in e.storage.owners;
      }
    } else if LosesOwner(host, s, u) {
      assert NonceOf(host, u.data.output) in open;
    }
  }

  /** The stored owners stay among the open Creates, and stay all of them until an owner is lost. */
  lemma {:induction false} RunOpen(host: Host, strict: bool, s: Storage, open: Owners, taken: set<Nonce>,
                                   us: seq<ObservedUtxo>)
    requires Within(s.owners, open)
    requires strict ==> open.Keys <= taken && FreshCreates(host, taken, us)
    ensures var e := Run(host, s, us);
            var open' := ReplayOwners(strict, open, e.ledger);
            && open'.Some?
            && Within(e.storage.owners, open'.value)
            && (strict ==> (open'.value == e.storage.owners <==> open == s.owners && !SomeOwnerLost(host, s, us)))
    decreases |us|
  {
    if us != [] {
      var first := Step(host, s, us[0]);
      StepOpen(host, strict, s, open, us[0]);
      var open1 := ReplayOwners(strict, open, first.ledger).value;
      var taken1 := if us[0].data.AssetCreate? then taken + {NonceOf(host, us[0].data.output)} else taken;
      RunOpen(host, strict, first.storage, open1, taken1, us[1..]);
      ReplayOwnersConcat(strict, open, first.ledger, Run(host, first.storage, us[1..]).ledger);
    }
  }

  ghost predicate CreatedOnce(us: seq<ObservedUtxo>) {
    forall i, j :: 0 <= i < j < |us| && us[i].data.AssetCreate? && us[j].data.AssetCreate? ==>
      us[i].data.output != us[j].data.output
  }

  /** No created output already has an owner at the start. */
  ghost predicate CreatedAnew(host: Host, s: Storage, us: seq<ObservedUtxo>) {
    forall i :: 0 <= i < |us| && us[i].data.AssetCreate? ==> NonceOf(host, us[i].data.output) !in s.owners
  }

  lemma {:induction false} CreatedOnceIsFresh(host: Host, taken: set<Nonce>, us: seq<ObservedUtxo>)
    requires Injective(host.hash) && CreatedOnce(us)
    requires forall i :: 0 <= i < |us| && us[i].data.AssetCreate? ==> NonceOf(host, us[i].data.output) !in taken
    ensures FreshCreates(host, taken, us)
    decreases |us|
  {
    if us != [] {
      var rest := us[1..];
      forall i | 0 <= i < |rest| && us[0].data.AssetCreate? && rest[i].data.AssetCreate?
        ensures NonceOf(host, rest[i].data.output) != NonceOf(host, us[0].data.output)
      {
        assert rest[i] == us[i + 1];
        NonceIdentifiesOutput(host, rest[i].data.output, us[0].data.output);
      }
      CreatedOnceIsFresh(host,
        if us[0].data.AssetCreate? then taken + {NonceOf(host, us[0].data.output)} else taken, rest);
    }
  }

  /**
   If no output is created twice, the ledger events of a stream match up: each Destroy ends an open
   Create with its nonce and key.  The stored owners are among the open Creates, and they are all
   of them exactly when every spend that took an owner could build its Destroy.
   */
  lemma LedgerEventsMatch(host: Host, s: Storage, us: seq<ObservedUtxo>)
    requires Injective(host.hash) && CreatedOnce(us) && CreatedAnew(host, s, us)
    ensures var e := Run(host, s, us);
            var open := ReplayOwners(true, s.owners, e.ledger);
            && open.Some?
            && Within(e.storage.owners, open.value)
            && (open.value == e.storage.owners <==> !SomeOwnerLost(host, s, us))
  {
    CreatedOnceIsFresh(host, s.owners.Keys, us);
    RunOpen(host, true, s, s.owners, s.owners.Keys, us);
  }

  /** A spend whose Destroy cannot be built: the owner is gone from storage, the Create stays open. */
  lemma LostOwnerStaysOpen(host: Host, s: Storage, h: Header, a: Address, key: DustKey, output: OutPoint, tx: Hash32)
    requires s.owners == map[] && GetRegistration(s.mappings, a) == Some(key)
    requires forall e :: host.builds(e) <==> e.action.Create?
    ensures var us := [ObservedUtxo(h, AssetCreate(7, a, output)), ObservedUtxo(h, AssetSpend(7, a, output, tx))];
            var e := Run(host, s, us);
            && e.storage.owners == map[]
            && ReplayOwners(true, s.owners, e.ledger) == Some(map[NonceOf(host, output) := key])
  {
    var create, spend := ObservedUtxo(h, AssetCreate(7, a, output)), ObservedUtxo(h, AssetSpend(7, a, output, tx));
    var first := Step(host, s, create);
    RunConcat(host, s, [create], [spend]);
    RunOne(host, s, create);
    RunOne(host, first.storage, spend);
    assert [create] + [spend] == [create, spend];
    var event := LedgerEvent(Create, 7, key, Seconds(h), NonceOf(host, output));
    assert Run(host, s, [create, spend]).ledger == [event];
    assert [event][1..] == [];
  }

  /** Nothing touches nonce `n` strictly between `i` and `j`. */
  ghost predicate Untouched(es: seq<LedgerEvent>, i: int, j: int, n: Nonce)
    requires -1 <= i <= j <= |es|
  {
    forall k :: i < k < j ==> es[k].nonce != n
  }

  /** In events that match up, an open nonce was opened by the last event that touched it. */
  lemma {:induction false} OpenedBy(strict: bool, open: Owners, es: seq<LedgerEvent>, j: nat, n: Nonce)
    requires j <= |es| && ReplayOwners(strict, open, es).Some?
    ensures ReplayOwners(strict, open, es[..j]).Some?
    ensures var now := ReplayOwners(strict, open, es[..j]).value;
            n in now ==>
              || (Untouched(es, -1, j, n) && n in open && open[n] == now[n])
              || exists i :: 0 <= i < j && es[i].action.Create? && es[i].nonce == n &&
                             es[i].key == now[n] && Untouched(es, i, j, n)
    decreases j
  {
    if j == 0 {
      assert es[..0] == [];
    } else {
      OpenedBy(strict, open, es, j - 1, n);
      var prev := ReplayOwners(strict, open, es[..j - 1]).value;
      assert es == es[..j - 1] + es[j - 1..];
      ReplayOwnersConcat(strict, open, es[..j - 1], es[j - 1..]);
      assert es[..j] == es[..j - 1] + [es[j - 1]];
      ReplayOwnersConcat(strict, open, es[..j - 1], [es[j - 1]]);
      var now := ReplayOwners(strict, open, es[..j]).value;
      if n in now && es[j - 1].nonce != n {
        assert n in prev && prev[n] == now[n];
        if !(Untouched(es, -1, j - 1, n) && n in open && open[n] == prev[n]) {
          var i :| 0 <= i < j - 1 && es[i].action.Create? && es[i].nonce == n &&
                   es[i].key == prev[n] && Untouched(es, i, j - 1, n);
          assert Untouched(es, i, j, n);
        }
      } else if n in now {
        assert es[j - 1].action.Create? && Untouched(es, j - 1, j, n);
      }
    }
  }

  /**
   The partner of each Destroy, by position: the Create (or genesis owner) with the same nonce and
   key, with no event of that nonce between the two.
   */
  lemma DestroyHasPartner(strict: bool, open: Owners, es: seq<LedgerEvent>, j: nat)
    requires ReplayOwners(strict, open, es).Some?
    requires j < |es| && es[j].action.Destroy?
    ensures || (es[j].nonce in open && open[es[j].nonce] == es[j].key && Untouched(es, -1, j, es[j].nonce))
            || exists i :: 0 <= i < j && es[i].action.Create? && es[i].nonce == es[j].nonce &&
                           es[i].key == es[j].key && Untouched(es, i, j, es[j].nonce)
  {
    OpenedBy(strict, open, es, j, es[j].nonce);
    assert es == es[..j] + es[j..];
    ReplayOwnersConcat(strict, open, es[..j], es[j..]);
  }

  /** That holds in every stream, even one that creates an output twice or re-registers its owner. */
  lemma EveryDestroyHasPartner(host: Host, s: Storage, us: seq<ObservedUtxo>, j: nat)
    requires j < |Run(host, s, us).ledger| && Run(host, s, us).ledger[j].action.Destroy?
    ensures var es := Run(host, s, us).ledger;
            var destroyed := es[j];
            || (destroyed.nonce in s.owners && s.owners[destroyed.nonce] == destroyed.key &&
                Untouched(es, -1, j, destroyed.nonce))
            || exists i :: 0 <= i < j && es[i].action.Create? && es[i].nonce == destroyed.nonce &&
                           es[i].key == destroyed.key && Untouched(es, i, j, destroyed.nonce)
  {
    RunOpen(host, false, s, s.owners, {}, us);
    DestroyHasPartner(false, s.owners, Run(host, s, us).ledger, j);
  }
}

/**
 Which UTXOs can affect which part of the storage.  An address or a nonce depends only on its own
 part of the stream, and only UTXOs that conflict need to keep their order.
 */
module CnightOrder {
  import opened Common
  import opened CnightTypes
  import opened CnightStep

  /** The one key a UTXO changes, with its new contents. */
  datatype Change =
    | Unchanged
    | SetMapping(a: Address, entries: seq<MappingEntry>)
    | SetOwner(n: Nonce, owner: Option<DustKey>)

  function Apply(s: Storage, c: Change): (t: Storage) {
    match c
    case Unchanged => s
    case SetMapping(a, entries) => s.(mappings := StoreEntries(s.mappings, a, entries))
    case SetOwner(n, owner) =>
      s.(owners := if owner.Some? then s.owners[n := owner.value] else s.owners - {n})
  }

  function ChangeOf(host: Host, s: Storage, u: ObservedUtxo): (c: Change) {
    match u.data
    case Register(a, key) => SetMapping(a, EntriesOf(s.mappings, a) + [EntryOf(u.header, a, key)])
    case Deregister(a, key) => SetMapping(a, RemoveFirst(EntriesOf(s.mappings, a), EntryOf(u.header, a, key)))
    case AssetCreate(_, owner, output) =>
      if Step(host, s, u).ledger == [] then Unchanged
      else SetOwner(NonceOf(host, output), GetRegistration(s.mappings, owner))
    case AssetSpend(_, _, output, _) => SetOwner(NonceOf(host, output), None)
  }

  lemma StepApplies(host: Host, s: Storage, u: ObservedUtxo)
    ensures Step(host, s, u).storage == Apply(s, ChangeOf(host, s, u))
  {
    if u.data.AssetSpend? {
      var n := NonceOf(host, u.data.output);
      assert n !in s.owners ==> s.owners - {n} == s.owners;
    }
  }

  function OwnerOf(s: Storage, n: Nonce): (r: Option<DustKey>) {
    if n in s.owners then Some(s.owners[n]) else None
  }

  ghost predicate Agree(s: Storage, t: Storage, addresses: set<Address>, nonces: set<Nonce>) {
    && (forall a :: a in addresses ==> EntriesOf(s.mappings, a) == EntriesOf(t.mappings, a))
    && (forall n :: n in nonces ==> OwnerOf(s, n) == OwnerOf(t, n))
  }

  /** The mappings a UTXO changes. */
  function Maps(u: ObservedUtxo): (r: set<Address>) {
    if u.data.Register? || u.data.Deregister? then {u.data.address} else {}
  }

  /** The mappings a UTXO changes or reads. */
  function Uses(u: ObservedUtxo): (r: set<Address>) {
    if u.data.AssetCreate? then {u.data.owner} else Maps(u)
  }

  /** The owners a UTXO changes or reads. */
  function Touches(host: Host, u: ObservedUtxo): (r: set<Nonce>) {
    if u.data.AssetCreate? || u.data.AssetSpend? then {NonceOf(host, u.data.output)} else {}
  }

  /** What a UTXO does and emits depends only on what it uses. */
  lemma StepIsLocal(host: Host, s: Storage, t: Storage, u: ObservedUtxo)
    requires Agree(s, t, Uses(u), Touches(host, u))
    ensures var e, f := Step(host, s, u), Step(host, t, u);
            e.log == f.log && e.ledger == f.ledger && ChangeOf(host, s, u) == ChangeOf(host, t, u)
  {
    match u.data
    case Register(a, key) =>
      assert EntriesOf(s.mappings, a) == EntriesOf(t.mappings, a);
    case Deregister(a, key) =>
      assert EntriesOf(s.mappings, a) == EntriesOf(t.mappings, a);
    case AssetCreate(_, owner, _) =>
      assert EntriesOf(s.mappings, owner) == EntriesOf(t.mappings, owner);
    case AssetSpend(_, _, output, _) =>
      assert OwnerOf(s, NonceOf(host, output)) == OwnerOf(t, NonceOf(host, output));
  }

  lemma ChangeStaysLocal(host: Host, s: Storage, u: ObservedUtxo)
    ensures var c := ChangeOf(host, s, u);
            (c.SetMapping? ==> Maps(u) == {c.a}) && (c.SetOwner? ==> Touches(host, u) == {c.n})
  {
  }

  lemma ApplyElsewhere(s: Storage, c: Change, addresses: set<Address>, nonces: set<Nonce>)
    requires c.SetMapping? ==> c.a !in addresses
    requires c.SetOwner? ==> c.n !in nonces
    ensures Agree(Apply(s, c), s, addresses, nonces)
  {
  }

  lemma ApplyAgrees(s: Storage, t: Storage, c: Change, addresses: set<Address>, nonces: set<Nonce>)
    requires Agree(s, t, addresses, nonces)
    ensures Agree(Apply(s, c), Apply(t, c), addresses, nonces)
  {
  }

  lemma ApplyCommutes(s: Storage, c: Change, d: Change)
    requires c.SetMapping? && d.SetMapping? ==> c.a != d.a
    requires c.SetOwner? && d.SetOwner? ==> c.n != d.n
    ensures Apply(Apply(s, c), d) == Apply(Apply(s, d), c)
  {
    if c.SetMapping? && d.SetMapping? {
      assert Apply(Apply(s, c), d).mappings == Apply(Apply(s, d), c).mappings;
    } else if c.SetOwner? && d.SetOwner? {
      assert Apply(Apply(s, c), d).owners == Apply(Apply(s, d), c).owners;
    }
  }

  /** The part of the stream that can touch the mappings of `addresses` or the owners of `nonces`. */
  predicate Relevant(host: Host, u: ObservedUtxo, addresses: set<Address>, nonces: set<Nonce>) {
    match u.data
    case Register(a, _) => a in addresses
    case Deregister(a, _) => a in addresses
    case AssetCreate(_, _, output) => NonceOf(host, output) in nonces
    case AssetSpend(_, _, output, _) => NonceOf(host, output) in nonces
  }

  /** The owner of every output created under one of `nonces` is one of `addresses`. */
  predicate Closed(host: Host, us: seq<ObservedUtxo>, addresses: set<Address>, nonces: set<Nonce>) {
    forall i :: 0 <= i < |us| && us[i].data.AssetCreate? && NonceOf(host, us[i].data.output) in nonces ==>
      us[i].data.owner in addresses
  }

  function RelevantOnly(host: Host, us: seq<ObservedUtxo>, addresses: set<Address>,
                        nonces: set<Nonce>): (vs: seq<ObservedUtxo>)
  {
    if us == [] then []
    else (if Relevant(host, us[0], addresses, nonces) then [us[0]] else []) +
         RelevantOnly(host, us[1..], addresses, nonces)
  }

  predicate AboutAddresses(e: PalletEvent, addresses: set<Address>) {
    match e
    case Registration(a, _) => a in addresses
    case Deregistration(a, _) => a in addresses
    case MappingAdded(entry) => entry.address in addresses
    case MappingRemoved(entry) => entry.address in addresses
    case SystemTransactionApplied(_, _, _) => false
  }

  function LogAbout(log: seq<PalletEvent>, addresses: set<Address>): (r: seq<PalletEvent>) {
    Filter(log, x => AboutAddresses(x, addresses))
  }

  function LedgerAbout(ledger: seq<LedgerEvent>, nonces: set<Nonce>): (r: seq<LedgerEvent>) {
    Filter(ledger, (x: LedgerEvent) => x.nonce in nonces)
  }

  lemma StepsAgree(host: Host, s: Storage, t: Storage, u: ObservedUtxo, addresses: set<Address>, nonces: set<Nonce>)
    requires Agree(s, t, addresses, nonces) && Relevant(host, u, addresses, nonces)
    requires u.data.AssetCreate? ==> u.data.owner in addresses
    ensures var e, f := Step(host, s, u), Step(host, t, u);
            Agree(e.storage, f.storage, addresses, nonces) && e.log == f.log && e.ledger == f.ledger
  {
    StepIsLocal(host, s, t, u);
    StepApplies(host, s, u);
    StepApplies(host, t, u);
    ApplyAgrees(s, t, ChangeOf(host, s, u), addresses, nonces);
  }

  lemma IrrelevantStep(host: Host, s: Storage, u: ObservedUtxo, addresses: set<Address>, nonces: set<Nonce>)
    requires !Relevant(host, u, addresses, nonces)
    ensures var e := Step(host, s, u);
            && Agree(e.storage, s, addresses, nonces)
            && LogAbout(e.log, addresses) == []
            && LedgerAbout(e.ledger, nonces) == []
  {
    var e := Step(host, s, u);
    StepApplies(host, s, u);
    ChangeStaysLocal(host, s, u);
    ApplyElsewhere(s, ChangeOf(host, s, u), addresses, nonces);
    FilterNone(e.log, x => AboutAddresses(x, addresses));
    FilterNone(e.ledger, (x: LedgerEvent) => x.nonce in nonces);
  }

  /**
   Cone of influence.  For any addresses and nonces closed in this sense, their mappings, owners,
   pallet events and ledger events are those of the relevant part of the stream alone.
   */
  lemma {:induction false} ConeOfInfluence(host: Host, s: Storage, t: Storage, us: seq<ObservedUtxo>,
                                           addresses: set<Address>, nonces: set<Nonce>)
    requires Agree(s, t, addresses, nonces) && Closed(host, us, addresses, nonces)
    ensures var e, f := Run(host, s, us), Run(host, t, RelevantOnly(host, us, addresses, nonces));
            && Agree(e.storage, f.storage, addresses, nonces)
            && LogAbout(e.log, addresses) == LogAbout(f.log, addresses)
            && LedgerAbout(e.ledger, nonces) == LedgerAbout(f.ledger, nonces)
    decreases |us|
  {
    if us != [] {
      var u := us[0];
      var first := Step(host, s, u);
      var rest := Run(host, first.storage, us[1..]);
      var vs := RelevantOnly(host, us[1..], addresses, nonces);
      SplitAbout(first, rest, addresses, nonces);
      if Relevant(host, u, addresses, nonces) {
        var first' := Step(host, t, u);
        StepsAgree(host, s, t, u, addresses, nonces);
        ConeOfInfluence(host, first.storage, first'.storage, us[1..], addresses, nonces);
        assert ([u] + vs)[1..] == vs && ([u] + vs)[0] == u;
        SplitAbout(first', Run(host, first'.storage, vs), addresses, nonces);
      } else {
        IrrelevantStep(host, s, u, addresses, nonces);
        ConeOfInfluence(host, first.storage, t, us[1..], addresses, nonces);
        assert [] + vs == vs;
      }
    }
  }

  lemma SplitAbout(a: Effect, b: Effect, addresses: set<Address>, nonces: set<Nonce>)
    ensures LogAbout(Then(a, b).log, addresses) == LogAbout(a.log, addresses) + LogAbout(b.log, addresses)
    ensures LedgerAbout(Then(a, b).ledger, nonces) == LedgerAbout(a.ledger, nonces) + LedgerAbout(b.ledger, nonces)
  {
    FilterConcat(a.log, b.log, x => AboutAddresses(x, addresses));
    FilterConcat(a.ledger, b.ledger, (x: LedgerEvent) => x.nonce in nonces);
  }

  predicate NamesAddress(u: ObservedUtxo, a: Address) {
    (u.data.Register? || u.data.Deregister?) && u.data.address == a
  }

  /** Non-interference: an address's mapping list comes from the registrations and removals that name it. */
  lemma MappingsOfOneAddress(host: Host, s: Storage, us: seq<ObservedUtxo>, a: Address)
    ensures EntriesOf(Run(host, s, us).storage.mappings, a) ==
            EntriesOf(Run(host, s, Filter(us, u => NamesAddress(u, a))).storage.mappings, a)
  {
    ConeOfInfluence(host, s, s, us, {a}, {});
    NamingIsRelevant(host, us, a);
  }

  lemma {:induction false} NamingIsRelevant(host: Host, us: seq<ObservedUtxo>, a: Address)
    ensures RelevantOnly(host, us, {a}, {}) == Filter(us, u => NamesAddress(u, a))
  {
    if us != [] {
      NamingIsRelevant(host, us[1..], a);
    }
  }

  /** Both touch one nonce, or one changes mappings the other uses. */
  predicate Conflict(host: Host, u: ObservedUtxo, v: ObservedUtxo) {
    !(Touches(host, u) !! Touches(host, v) && Maps(u) !! Uses(v) && Uses(u) !! Maps(v))
  }

  /** `v` does and emits the same with and without `u` before it. */
  lemma StepUnaffected(host: Host, s: Storage, u: ObservedUtxo, v: ObservedUtxo)
    requires !Conflict(host, u, v)
    ensures var t := Step(host, s, u).storage;
            var e, f := Step(host, s, v), Step(host, t, v);
            e.log == f.log && e.ledger == f.ledger && ChangeOf(host, s, v) == ChangeOf(host, t, v)
  {
    StepApplies(host, s, u);
    ChangeStaysLocal(host, s, u);
    var c := ChangeOf(host, s, u);
    assert c.SetMapping? ==> c.a in Maps(u);
    assert c.SetOwner? ==> c.n in Touches(host, u);
    ApplyElsewhere(s, c, Uses(v), Touches(host, v));
    StepIsLocal(host, Apply(s, c), s, v);
  }

  /** UTXOs that do not conflict commute, and each still emits what it would have emitted. */
  lemma StepsCommute(host: Host, s: Storage, u: ObservedUtxo, v: ObservedUtxo)
    requires !Conflict(host, u, v)
    ensures var uFirst, vFirst := Step(host, s, u), Step(host, s, v);
            var vNext, uNext := Step(host, uFirst.storage, v), Step(host, vFirst.storage, u);
            && vNext.storage == uNext.storage
            && uNext.log == uFirst.log && uNext.ledger == uFirst.ledger
            && vNext.log == vFirst.log && vNext.ledger == vFirst.ledger
  {
    var s1, s2 := Step(host, s, u).storage, Step(host, s, v).storage;
    var c, d := ChangeOf(host, s, u), ChangeOf(host, s, v);
    StepUnaffected(host, s, u, v);
    StepUnaffected(host, s, v, u);
    StepApplies(host, s, u);
    StepApplies(host, s, v);
    StepApplies(host, s1, v);
    StepApplies(host, s2, u);
    KeysDiffer(host, s, u, v);
    ApplyCommutes(s, c, d);
  }

  lemma KeysDiffer(host: Host, s: Storage, u: ObservedUtxo, v: ObservedUtxo)
    requires !Conflict(host, u, v)
    ensures var c, d := ChangeOf(host, s, u), ChangeOf(host, s, v);
            && (c.SetMapping? && d.SetMapping? ==> c.a != d.a)
            && (c.SetOwner? && d.SetOwner? ==> c.n != d.n)
  {
    ChangeStaysLocal(host, s, u);
    ChangeStaysLocal(host, s, v);
    var c, d := ChangeOf(host, s, u), ChangeOf(host, s, v);
    assert c.SetMapping? && d.SetMapping? ==> c.a in Maps(u) && d.a in Uses(v);
    assert c.SetOwner? && d.SetOwner? ==> c.n in Touches(host, u) && d.n in Touches(host, v);
  }

  lemma SwapNeighbours(host: Host, s: Storage, before: seq<ObservedUtxo>, u: ObservedUtxo, v: ObservedUtxo,
                       after: seq<ObservedUtxo>)
    requires !Conflict(host, u, v)
    ensures Run(host, s, before + [u, v] + after).storage == Run(host, s, before + [v, u] + after).storage
  {
    var t := Run(host, s, before).storage;
    RunConcat(host, s, before + [u, v], after);
    RunConcat(host, s, before + [v, u], after);
    RunConcat(host, s, before, [u, v]);
    RunConcat(host, s, before, [v, u]);
    RunTwo(host, t, u, v);
    RunTwo(host, t, v, u);
    StepsCommute(host, t, u, v);
  }

  lemma RunTwo(host: Host, s: Storage, u: ObservedUtxo, v: ObservedUtxo)
    ensures Run(host, s, [u, v]).storage == Step(host, Step(host, s, u).storage, v).storage
  {
    assert [u, v][1..] == [v];
    RunOne(host, Step(host, s, u).storage, v);
  }

  function Fronted(us: seq<ObservedUtxo>, k: nat): (vs: seq<ObservedUtxo>)
    requires k < |us|
  {
    [us[k]] + RemoveAt(us, k)
  }

  lemma FrontAfterSwap(us: seq<ObservedUtxo>, k: nat)
    requires 0 < k < |us|
    ensures us == us[..k - 1] + [us[k - 1], us[k]] + us[k + 1..]
    ensures var vs := us[..k - 1] + [us[k], us[k - 1]] + us[k + 1..];
            && |vs| == |us| && vs[k - 1] == us[k] && (forall i :: 0 <= i < k - 1 ==> vs[i] == us[i])
            && Fronted(vs, k - 1) == Fronted(us, k)
  {
    var vs := us[..k - 1] + [us[k], us[k - 1]] + us[k + 1..];
    assert vs[..k - 1] == us[..k - 1];
    assert vs[k..] == [us[k - 1]] + us[k + 1..];
    assert us[..k] == us[..k - 1] + [us[k - 1]];
  }

  lemma {:induction false} MoveToFront(host: Host, s: Storage, us: seq<ObservedUtxo>, k: nat)
    requires k < |us|
    requires forall i :: 0 <= i < k ==> !Conflict(host, us[i], us[k])
    ensures Run(host, s, us).storage == Run(host, s, Fronted(us, k)).storage
    decreases k
  {
    if k == 0 {
      assert us == Fronted(us, 0);
    } else {
      FrontAfterSwap(us, k);
      SwapNeighbours(host, s, us[..k - 1], us[k - 1], us[k], us[k + 1..]);
      MoveToFront(host, s, us[..k - 1] + [us[k], us[k - 1]] + us[k + 1..], k - 1);
    }
  }

  /**
   `vs` is `us` in another order: the UTXO at `i` has moved to `at[i]`.  Two that conflict keep their
   order.  A stream may hold equal UTXOs; they are told apart by where they stand.
   */
  ghost predicate Reorders(host: Host, us: seq<ObservedUtxo>, vs: seq<ObservedUtxo>, at: seq<nat>) {
    && MovesTo(us, vs, at)
    && forall i, j :: 0 <= i < j < |us| && Conflict(host, us[i], us[j]) ==> at[i] < at[j]
  }

  ghost predicate MovesTo<T>(us: seq<T>, vs: seq<T>, at: seq<nat>) {
    && |at| == |us| == |vs|
    && (forall i :: 0 <= i < |at| ==> at[i] < |vs| && vs[at[i]] == us[i])
    && (forall i, j :: 0 <= i < j < |at| ==> at[i] != at[j])
    && (forall p :: 0 <= p < |vs| ==> p in at)
  }

  /** Only conflicts matter: every such reordering of a stream ends in the same storage. */
  lemma {:induction false} ReorderingIsInvisible(host: Host, s: Storage, us: seq<ObservedUtxo>, vs: seq<ObservedUtxo>,
                                                 at: seq<nat>)
    requires Reorders(host, us, vs, at)
    ensures Run(host, s, us).storage == Run(host, s, vs).storage
    decreases |us|
  {
    if us != [] {
      var u, k := us[0], at[0];
      forall i | 0 <= i < k ensures !Conflict(host, vs[i], u) {
        FirstIsBeforeAll(host, us, vs, at, i);
      }
      MoveToFront(host, s, vs, k);
      DropFirst(host, us, vs, at);
      ReorderingIsInvisible(host, Step(host, s, u).storage, us[1..], RemoveAt(vs, k), WithoutFirst(at));
      assert Fronted(vs, k)[1..] == RemoveAt(vs, k);
    }
  }

  lemma FirstIsBeforeAll(host: Host, us: seq<ObservedUtxo>, vs: seq<ObservedUtxo>, at: seq<nat>, i: nat)
    requires Reorders(host, us, vs, at) && us != [] && i < at[0]
    ensures !Conflict(host, vs[i], us[0])
  {
    assert i in at;
    var j :| 0 <= j < |at| && at[j] == i;
    assert j > 0 && vs[i] == us[j];
    assert Conflict(host, us[0], us[j]) <==> Conflict(host, us[j], us[0]);
  }

  /** A place once the place `k` is taken out. */
  function Shifted(p: nat, k: nat): (q: nat) {
    if p > k then p - 1 else p
  }

  function WithoutFirst(at: seq<nat>): (r: seq<nat>)
    requires at != []
    ensures |r| == |at| - 1
  {
    seq(|at| - 1, i requires 0 <= i < |at| - 1 => Shifted(at[i + 1], at[0]))
  }

  lemma DropFirst(host: Host, us: seq<ObservedUtxo>, vs: seq<ObservedUtxo>, at: seq<nat>)
    requires Reorders(host, us, vs, at) && us != []
    ensures Reorders(host, us[1..], RemoveAt(vs, at[0]), WithoutFirst(at))
  {
    DropFirstMove(us, vs, at);
    var us', at' := us[1..], WithoutFirst(at);
    forall i, j | 0 <= i < j < |us'| && Conflict(host, us'[i], us'[j]) ensures at'[i] < at'[j] {
      assert us'[i] == us[i + 1] && us'[j] == us[j + 1];
      ShiftsKeepOrder(at[i + 1], at[j + 1], at[0]);
    }
  }

  lemma DropFirstMove<T>(us: seq<T>, vs: seq<T>, at: seq<nat>)
    requires MovesTo(us, vs, at) && us != []
    ensures MovesTo(us[1..], RemoveAt(vs, at[0]), WithoutFirst(at))
  {
    var k, us', vs', at' := at[0], us[1..], RemoveAt(vs, at[0]), WithoutFirst(at);
    forall i | 0 <= i < |at'| ensures at'[i] < |vs'| && vs'[at'[i]] == us'[i] {
      ShiftedElement(vs, k, at[i + 1]);
    }
    forall i, j | 0 <= i < j < |at'| ensures at'[i] != at'[j] {
      ShiftsKeepOrder(at[i + 1], at[j + 1], k);
    }
    forall p | 0 <= p < |vs'| ensures p in at' {
      ShiftedPlace(at, p);
    }
  }

  lemma ShiftedElement<T>(vs: seq<T>, k: nat, p: nat)
    requires k < |vs| && p < |vs| && p != k
    ensures Shifted(p, k) < |RemoveAt(vs, k)| && RemoveAt(vs, k)[Shifted(p, k)] == vs[p]
  {
  }

  lemma ShiftsKeepOrder(p: nat, q: nat, k: nat)
    requires p != k && q != k
    ensures Shifted(p, k) < Shifted(q, k) <==> p < q
    ensures p != q ==> Shifted(p, k) != Shifted(q, k)
  {
  }

  lemma ShiftedPlace(at: seq<nat>, p: nat)
    requires at != [] && (if p < at[0] then p else p + 1) in at
    ensures p in WithoutFirst(at)
  {
    var q := if p < at[0] then p else p + 1;
    var j :| 0 <= j < |at| && at[j] == q;
    assert WithoutFirst(at)[j - 1] == p;
  }
}

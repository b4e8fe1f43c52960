/**
 BEEFY stakes from the runtime through the node's payload to the relay: three components build the
 same Merkle leaves on their own, and they agree.
 */
module Beefy {
  import opened Common
  import opened Ordering
  import opened Sorting

  /** A compressed ECDSA public key. */
  type BeefyId = k: seq<Byte> | |k| == 33 witness seq(33, i => 0)

  datatype BeefyStake = BeefyStake(id: BeefyId, stake: U64)

  datatype CommitteeMember = Permissioned(id: BeefyId) | Registered(id: BeefyId)

  datatype AuthoritySet = AuthoritySet(id: U64, len: U32, commitment: Hash32)

  /** Keccak-256, and the Merkle root over leaf hashes. */
  datatype Crypto = Crypto(keccak: seq<Byte> -> Hash32, root: seq<Hash32> -> Hash32)

  // Stakes (runtime)

  function IdsOf(committee: seq<CommitteeMember>): (ids: seq<BeefyId>)
    ensures |ids| == |committee| && forall i :: 0 <= i < |ids| ==> ids[i] == committee[i].id
  {
    if committee == [] then [] else [committee[0].id] + IdsOf(committee[1..])
  }

  lemma {:induction false} IdsOfRemoveAt(committee: seq<CommitteeMember>, i: nat)
    requires i < |committee|
    ensures IdsOf(RemoveAt(committee, i)) == RemoveAt(IdsOf(committee), i)
  {
  }

  function StakeOne(validators: seq<BeefyId>): (stakes: seq<BeefyStake>)
    ensures |stakes| == |validators|
    ensures forall i :: 0 <= i < |stakes| ==> stakes[i] == BeefyStake(validators[i], 1)
  {
    seq(|validators|, i requires 0 <= i < |validators| => BeefyStake(validators[i], 1))
  }

  lemma RemoveAtMultiset<T>(s: seq<T>, i: nat)
    requires i < |s|
    ensures multiset(RemoveAt(s, i)) == multiset(s) - multiset{s[i]}
  {
    assert s == s[..i] + [s[i]] + s[i + 1..];
  }

  lemma OneMoreSeen<T>(all: multiset<T>, seen: multiset<T>, v: T)
    ensures all - (seen + multiset{v}) == (all - seen) - multiset{v}
    ensures v in all - seen ==> (seen + multiset{v}) - all == seen - all
    ensures v !in all - seen ==>
              all - (seen + multiset{v}) == all - seen && (seen + multiset{v}) - all == (seen - all) + multiset{v}
  {
  }

  /** The search for a validator's committee entry, which removes the first match. */
  method RemoveMatch(left: seq<CommitteeMember>, v: BeefyId) returns (rest: seq<CommitteeMember>, found: bool)
    ensures found <==> v in multiset(IdsOf(left))
    ensures multiset(IdsOf(rest)) == multiset(IdsOf(left)) - multiset{v}
  {
    var ids := IdsOf(left);
    var position := Position(ids, v);
    assert v in ids <==> v in multiset(ids);
    found := position.Some?;
    if found {
      RemoveAtMultiset(ids, position.value);
      IdsOfRemoveAt(left, position.value);
      rest := RemoveAt(left, position.value);
    } else {
      rest := left;
    }
  }

  /**
   Every validator keeps its place and gets stake one, whatever the committee.  The search leaves
   the committee ids minus the validators, and warns of the validators minus the committee ids,
   both counted with multiplicity.
   */
  method ComputeBeefyStakes(validators: seq<BeefyId>, committee: seq<CommitteeMember>)
    returns (stakes: seq<BeefyStake>, left: seq<CommitteeMember>, warned: seq<BeefyId>)
    ensures stakes == StakeOne(validators)
    ensures multiset(IdsOf(left)) == multiset(IdsOf(committee)) - multiset(validators)
    ensures multiset(warned) == multiset(validators) - multiset(IdsOf(committee))
  {
    stakes, left, warned := [], committee, [];
    ghost var all, seen := multiset(IdsOf(committee)), multiset(validators[..0]);
    for i := 0 to |validators|
      invariant stakes == StakeOne(validators[..i])
      invariant seen == multiset(validators[..i])
      invariant multiset(IdsOf(left)) == all - seen
      invariant multiset(warned) == seen - all
    {
      var v := validators[i];
      OneMoreSeen(all, seen, v);
      OneMoreValidator(validators, i);
      seen := seen + multiset{v};
      var found;
      left, found := RemoveMatch(left, v);
      if !found {
        warned := warned + [v];
      }
      stakes := stakes + [BeefyStake(v, 1)];
    }
    assert validators[..|validators|] == validators;
  }

  lemma OneMoreValidator(validators: seq<BeefyId>, i: nat)
    requires i < |validators|
    ensures multiset(validators[..i + 1]) == multiset(validators[..i]) + multiset{validators[i]}
    ensures StakeOne(validators[..i + 1]) == StakeOne(validators[..i]) + [BeefyStake(validators[i], 1)]
  {
    assert validators[..i + 1] == validators[..i] + [validators[i]];
  }

  // Leaves

  /** The runtime's leaf: the raw key followed by the stake in little-endian. */
  function LeafBytes(s: BeefyStake): (bytes: seq<Byte>)
    ensures |bytes| == 41
  {
    s.id + LittleEndian(s.stake, 8)
  }

  /** The leaf encoding is injective, so no two stakes share a leaf. */
  lemma LeafBytesInjective(x: BeefyStake, y: BeefyStake)
    requires LeafBytes(x) == LeafBytes(y)
    ensures x == y
  {
    ConcatSplit(x.id, LittleEndian(x.stake, 8), y.id, LittleEndian(y.stake, 8));
    Pow256Is64Bits();
    LittleEndianRoundTrip(x.stake, 8);
    LittleEndianRoundTrip(y.stake, 8);
  }

  lemma Pow256Is64Bits()
    ensures Pow256(8) == 0x1_0000_0000_0000_0000
  {
    assert Pow256(2) == 0x1_0000;
    assert Pow256(4) == 0x1_0000_0000;
    assert Pow256(6) == 0x1_0000_0000_0000;
  }

  function Leaves(stakes: seq<BeefyStake>): (leaves: seq<seq<Byte>>) {
    if stakes == [] then [] else [LeafBytes(stakes[0])] + Leaves(stakes[1..])
  }

  function HashAll(crypto: Crypto, leaves: seq<seq<Byte>>): (hashes: seq<Hash32>) {
    if leaves == [] then [] else [crypto.keccak(leaves[0])] + HashAll(crypto, leaves[1..])
  }

  /** The runtime: the tree library hashes the leaves it is given. */
  function ComputeAuthoritySet(crypto: Crypto, id: U64, stakes: seq<BeefyStake>): (a: AuthoritySet) {
    AuthoritySet(id, AsU32(|stakes|), crypto.root(HashAll(crypto, Leaves(stakes))))
  }

  /**
   The set the runtime announces: the id it was given, the number of stakes, and the root over one leaf
   for each stake in order, hashed from the 33 bytes of the key and the 8 of the stake, lowest first.
   */
  lemma RuntimeAuthoritySet(crypto: Crypto, id: U64, stakes: seq<BeefyStake>, hashes: seq<Hash32>)
    requires |hashes| == |stakes|
    requires forall i :: 0 <= i < |stakes| ==>
               hashes[i] == crypto.keccak(stakes[i].id + LittleEndian(stakes[i].stake, 8))
    ensures var a := ComputeAuthoritySet(crypto, id, stakes);
            && a.id == id && a.commitment == crypto.root(hashes)
            && a.len == |stakes| % 0x1_0000_0000 && (|stakes| < 0x1_0000_0000 ==> a.len == |stakes|)
  {
    RelayLeavesAreRuntimeLeaves(crypto, stakes);
    assert PrepMerkleLeaves(crypto, stakes) == hashes;
  }

  /** The relay: hash of key and stake, appended in place. */
  function PrepLeafHash(crypto: Crypto, s: BeefyStake): (h: Hash32) {
    var data := s.id;
    var stakeBytes := LittleEndian(s.stake, 8);
    crypto.keccak(data + stakeBytes)
  }

  function PrepMerkleLeaves(crypto: Crypto, stakes: seq<BeefyStake>): (hashes: seq<Hash32>)
    ensures |hashes| == |stakes|
    ensures forall i :: 0 <= i < |stakes| ==> hashes[i] == PrepLeafHash(crypto, stakes[i])
  {
    seq(|stakes|, i requires 0 <= i < |stakes| => PrepLeafHash(crypto, stakes[i]))
  }

  /** The relay's tree has no root when it has no leaf. */
  function RelayRoot(crypto: Crypto, stakes: seq<BeefyStake>): (r: Option<Hash32>) {
    var leaves := PrepMerkleLeaves(crypto, stakes);
    if leaves == [] then None else Some(crypto.root(leaves))
  }

  /** Position by position, the relay hashes the runtime's leaf bytes. */
  lemma {:induction false} RelayLeavesAreRuntimeLeaves(crypto: Crypto, stakes: seq<BeefyStake>)
    ensures PrepMerkleLeaves(crypto, stakes) == HashAll(crypto, Leaves(stakes))
  {
    if stakes != [] {
      RelayLeavesAreRuntimeLeaves(crypto, stakes[1..]);
      assert PrepMerkleLeaves(crypto, stakes) ==
             [PrepLeafHash(crypto, stakes[0])] + PrepMerkleLeaves(crypto, stakes[1..]);
      assert Leaves(stakes)[1..] == Leaves(stakes[1..]);
    }
  }

  // The payload (node)

  datatype Data = RootData(root: Hash32) | StakesData(stakes: seq<BeefyStake>) | SetData(authorities: AuthoritySet)

  datatype Entry = Entry(id: seq<Byte>, data: Data)

  const MMR_ROOT_ID: seq<Byte> := [109, 104]
  const CURRENT_STAKES_ID: seq<Byte> := [99, 115]
  const CURRENT_SET_ID: seq<Byte> := [99, 98]
  const NEXT_STAKES_ID: seq<Byte> := [110, 115]
  const NEXT_SET_ID: seq<Byte> := [110, 98]

  predicate EntryLe(x: Entry, y: Entry) {
    LexLe(x.id, y.id)
  }

  /** The payload keeps its entries in id order. */
  function PushRaw(p: seq<Entry>, id: seq<Byte>, data: Data): (q: seq<Entry>) {
    Sort(EntryLe, p + [Entry(id, data)])
  }

  function GetRaw(p: seq<Entry>, id: seq<Byte>): (r: Option<Data>) {
    if p == [] then None else if p[0].id == id then Some(p[0].data) else GetRaw(p[1..], id)
  }

  lemma EntryLeIsTotalPreorder()
    ensures TotalPreorder(EntryLe)
    ensures forall x: Entry, y: Entry :: Tied(EntryLe, x, y) <==> x.id == y.id
  {
    forall x: Entry, y: Entry ensures EntryLe(x, y) || EntryLe(y, x) { LexTotal(x.id, y.id); }
    forall x: Entry, y: Entry, z: Entry | EntryLe(x, y) && EntryLe(y, z) ensures EntryLe(x, z) {
      LexTransitive(x.id, y.id, z.id);
    }
    forall x: Entry, y: Entry ensures Tied(EntryLe, x, y) <==> x.id == y.id {
      if Tied(EntryLe, x, y) { LexAntisymmetric(x.id, y.id); }
      LexTotal(x.id, x.id);
    }
  }

  /** A lookup sees only the entries of its id, in order. */
  lemma {:induction false} GetRawByFilter(p: seq<Entry>, probe: Entry)
    requires forall x: Entry, y: Entry :: Tied(EntryLe, x, y) <==> x.id == y.id
    ensures GetRaw(p, probe.id) ==
            var same := Filter(p, TiedWith(EntryLe, probe));
            if same == [] then None else Some(same[0].data)
  {
    if p != [] {
      GetRawByFilter(p[1..], probe);
      assert Tied(EntryLe, probe, p[0]) <==> probe.id == p[0].id;
    }
  }

  /** Sorting the payload does not disturb lookups: an entry is found unless an earlier one has its id. */
  lemma GetAfterPush(p: seq<Entry>, id: seq<Byte>, data: Data, wanted: seq<Byte>)
    ensures GetRaw(PushRaw(p, id, data), wanted) ==
            if GetRaw(p, wanted).Some? then GetRaw(p, wanted)
            else if wanted == id then Some(data) else None
  {
    var probe := Entry(wanted, data);
    var added := p + [Entry(id, data)];
    EntryLeIsTotalPreorder();
    SortStable(EntryLe, added, probe);
    GetRawByFilter(Sort(EntryLe, added), probe);
    GetRawByFilter(p, probe);
    FilterConcat(p, [Entry(id, data)], TiedWith(EntryLe, probe));
    assert [Entry(id, data)][1..] == [];
    assert Tied(EntryLe, probe, Entry(id, data)) <==> wanted == id;
  }

  /** A payload in id order stays in id order, with one entry more. */
  lemma PushKeepsOrder(p: seq<Entry>, id: seq<Byte>, data: Data)
    ensures var q := PushRaw(p, id, data);
            SortedBy(EntryLe, q) && multiset(q) == multiset(p) + multiset{Entry(id, data)}
  {
    EntryLeIsTotalPreorder();
    SortSorts(EntryLe, p + [Entry(id, data)]);
    SortPermutes(EntryLe, p + [Entry(id, data)]);
  }

  /** What the node can look up for a block; any lookup may fail. */
  datatype NodeView = NodeView(
    mmrRoot: Option<Hash32>,
    currentStakes: Option<seq<BeefyStake>>,
    currentSet: seq<BeefyStake> -> Option<AuthoritySet>,
    nextStakes: Option<seq<BeefyStake>>,
    nextSet: seq<BeefyStake> -> Option<AuthoritySet>)

  function CurrentPart(root: Hash32, stakes: seq<BeefyStake>, authorities: AuthoritySet): (p: seq<Entry>) {
    PushRaw(PushRaw([Entry(MMR_ROOT_ID, RootData(root))], CURRENT_STAKES_ID, StakesData(stakes)),
            CURRENT_SET_ID, SetData(authorities))
  }

  function NodePayload(view: NodeView): (p: Option<seq<Entry>>) {
    if view.mmrRoot.None? || view.currentStakes.None? then None
    else
      var current := view.currentStakes.value;
      match view.currentSet(current)
      case None => None
      case Some(set') =>
        var base := CurrentPart(view.mmrRoot.value, current, set');
        match view.nextStakes
        case None => Some(base)
        case Some(next) =>
          match view.nextSet(next)
          case None => None
          case Some(nextSet) =>
            Some(PushRaw(PushRaw(base, NEXT_STAKES_ID, StakesData(next)), NEXT_SET_ID, SetData(nextSet)))
  }

  // The relay reads it

  datatype RelayError =
    | NoMatchingSignature
    | MissingCurrentBeefyStakes
    | MissingCurrentAuthoritySet
    | MissingNextBeefyStakes
    | MissingNextAuthoritySet
    | InvalidAuthoritiesProofCreation

  datatype StakesInfo = StakesInfo(currentStakes: seq<BeefyStake>, currentSet: AuthoritySet,
                                   nextStakes: seq<BeefyStake>, nextSet: AuthoritySet)

  function GetStakes(p: seq<Entry>, id: seq<Byte>): (r: Option<seq<BeefyStake>>) {
    match GetRaw(p, id) case Some(StakesData(stakes)) => Some(stakes) case _ => None
  }

  function GetSet(p: seq<Entry>, id: seq<Byte>): (r: Option<AuthoritySet>) {
    match GetRaw(p, id) case Some(SetData(authorities)) => Some(authorities) case _ => None
  }

  function ReadStakesInfo(p: seq<Entry>): (r: Result<StakesInfo, RelayError>) {
    if GetStakes(p, CURRENT_STAKES_ID).None? then Err(MissingCurrentBeefyStakes)
    else if GetSet(p, CURRENT_SET_ID).None? then Err(MissingCurrentAuthoritySet)
    else if GetStakes(p, NEXT_STAKES_ID).None? then Err(MissingNextBeefyStakes)
    else if GetSet(p, NEXT_SET_ID).None? then Err(MissingNextAuthoritySet)
    else Ok(StakesInfo(GetStakes(p, CURRENT_STAKES_ID).value, GetSet(p, CURRENT_SET_ID).value,
                       GetStakes(p, NEXT_STAKES_ID).value, GetSet(p, NEXT_SET_ID).value))
  }

  lemma IdsDiffer()
    ensures MMR_ROOT_ID != CURRENT_STAKES_ID && MMR_ROOT_ID != CURRENT_SET_ID
    ensures MMR_ROOT_ID != NEXT_STAKES_ID && MMR_ROOT_ID != NEXT_SET_ID
    ensures CURRENT_STAKES_ID != CURRENT_SET_ID && CURRENT_STAKES_ID != NEXT_STAKES_ID &&
            CURRENT_STAKES_ID != NEXT_SET_ID
    ensures CURRENT_SET_ID != NEXT_STAKES_ID && CURRENT_SET_ID != NEXT_SET_ID && NEXT_STAKES_ID != NEXT_SET_ID
  {
    assert MMR_ROOT_ID[0] == 109 && CURRENT_STAKES_ID[0] == 99 && CURRENT_SET_ID[0] == 99;
    assert NEXT_STAKES_ID[0] == 110 && NEXT_SET_ID[0] == 110;
    assert CURRENT_STAKES_ID[1] == 115 && CURRENT_SET_ID[1] == 98;
    assert NEXT_STAKES_ID[1] == 115 && NEXT_SET_ID[1] == 98;
  }

  lemma LookupCurrentPart(root: Hash32, stakes: seq<BeefyStake>, authorities: AuthoritySet, id: seq<Byte>)
    ensures GetRaw(CurrentPart(root, stakes, authorities), id) ==
            if id == MMR_ROOT_ID then Some(RootData(root))
            else if id == CURRENT_STAKES_ID then Some(StakesData(stakes))
            else if id == CURRENT_SET_ID then Some(SetData(authorities))
            else None
  {
    var first := [Entry(MMR_ROOT_ID, RootData(root))];
    IdsDiffer();
    assert first[1..] == [];
    GetAfterPush(first, CURRENT_STAKES_ID, StakesData(stakes), id);
    GetAfterPush(PushRaw(first, CURRENT_STAKES_ID, StakesData(stakes)), CURRENT_SET_ID, SetData(authorities), id);
  }

  /**
   The relay parses a payload the node built exactly when the next stakes were available, and then
   it recovers the stakes and authority sets the node put in; otherwise it reports the next stakes
   as missing and nothing else.
   */
  lemma RelayReadsNodePayload(view: NodeView)
    requires NodePayload(view).Some?
    ensures var current := view.currentStakes.value;
            ReadStakesInfo(NodePayload(view).value) ==
            if view.nextStakes.None? then Err(MissingNextBeefyStakes)
            else Ok(StakesInfo(current, view.currentSet(current).value,
                               view.nextStakes.value, view.nextSet(view.nextStakes.value).value))
  {
    var current := view.currentStakes.value;
    var root, currentSet := view.mmrRoot.value, view.currentSet(current).value;
    var base := CurrentPart(root, current, currentSet);
    ReadsCurrentPart(root, current, currentSet);
    if view.nextStakes.Some? {
      ReadsNextPart(base, view.nextStakes.value, view.nextSet(view.nextStakes.value).value);
    }
  }

  lemma ReadsCurrentPart(root: Hash32, stakes: seq<BeefyStake>, authorities: AuthoritySet)
    ensures var p := CurrentPart(root, stakes, authorities);
            && GetRaw(p, CURRENT_STAKES_ID) == Some(StakesData(stakes))
            && GetRaw(p, CURRENT_SET_ID) == Some(SetData(authorities))
            && GetRaw(p, NEXT_STAKES_ID) == None && GetRaw(p, NEXT_SET_ID) == None
  {
    IdsDiffer();
    LookupCurrentPart(root, stakes, authorities, CURRENT_STAKES_ID);
    LookupCurrentPart(root, stakes, authorities, CURRENT_SET_ID);
    LookupCurrentPart(root, stakes, authorities, NEXT_STAKES_ID);
    LookupCurrentPart(root, stakes, authorities, NEXT_SET_ID);
  }

  lemma ReadsNextPart(base: seq<Entry>, stakes: seq<BeefyStake>, authorities: AuthoritySet)
    requires GetRaw(base, CURRENT_STAKES_ID).Some? && GetRaw(base, CURRENT_SET_ID).Some?
    requires GetRaw(base, NEXT_STAKES_ID).None? && GetRaw(base, NEXT_SET_ID).None?
    ensures var p := PushRaw(PushRaw(base, NEXT_STAKES_ID, StakesData(stakes)), NEXT_SET_ID, SetData(authorities));
            && GetRaw(p, CURRENT_STAKES_ID) == GetRaw(base, CURRENT_STAKES_ID)
            && GetRaw(p, CURRENT_SET_ID) == GetRaw(base, CURRENT_SET_ID)
            && GetRaw(p, NEXT_STAKES_ID) == Some(StakesData(stakes))
            && GetRaw(p, NEXT_SET_ID) == Some(SetData(authorities))
  {
    IdsDiffer();
    LookupNextPart(base, StakesData(stakes), SetData(authorities), CURRENT_STAKES_ID);
    LookupNextPart(base, StakesData(stakes), SetData(authorities), CURRENT_SET_ID);
    LookupNextPart(base, StakesData(stakes), SetData(authorities), NEXT_STAKES_ID);
    LookupNextPart(base, StakesData(stakes), SetData(authorities), NEXT_SET_ID);
  }

  lemma LookupNextPart(base: seq<Entry>, stakes: Data, authorities: Data, id: seq<Byte>)
    ensures GetRaw(PushRaw(PushRaw(base, NEXT_STAKES_ID, stakes), NEXT_SET_ID, authorities), id) ==
            if GetRaw(base, id).Some? then GetRaw(base, id)
            else if id == NEXT_STAKES_ID then Some(stakes)
            else if id == NEXT_SET_ID then Some(authorities)
            else None
  {
    IdsDiffer();
    GetAfterPush(base, NEXT_STAKES_ID, stakes, id);
    GetAfterPush(PushRaw(base, NEXT_STAKES_ID, stakes), NEXT_SET_ID, authorities, id);
  }

  /**
   The node builds a payload exactly when the root, the current stakes and their set are there, and the
   set of the next stakes if these are.  Under `mh` it carries the root, and under `cs`, `cb`, `ns` and
   `nb` the stakes and sets.
   */
  lemma NodePayloadIff(view: NodeView)
    ensures NodePayload(view).Some? <==>
            && view.mmrRoot.Some? && view.currentStakes.Some? && view.currentSet(view.currentStakes.value).Some?
            && (view.nextStakes.Some? ==> view.nextSet(view.nextStakes.value).Some?)
    ensures NodePayload(view).Some? ==>
              var p, current := NodePayload(view).value, view.currentStakes.value;
              && GetRaw(p, [109, 104]) == Some(RootData(view.mmrRoot.value))
              && GetRaw(p, [99, 115]) == Some(StakesData(current))
              && GetRaw(p, [99, 98]) == Some(SetData(view.currentSet(current).value))
              && (view.nextStakes.Some? ==>
                    && GetRaw(p, [110, 115]) == Some(StakesData(view.nextStakes.value))
                    && GetRaw(p, [110, 98]) == Some(SetData(view.nextSet(view.nextStakes.value).value)))
  {
    if NodePayload(view).Some? {
      var current := view.currentStakes.value;
      var root, currentSet := view.mmrRoot.value, view.currentSet(current).value;
      ReadsCurrentPart(root, current, currentSet);
      LookupCurrentPart(root, current, currentSet, MMR_ROOT_ID);
      if view.nextStakes.Some? {
        var next, nextSet := view.nextStakes.value, view.nextSet(view.nextStakes.value).value;
        var base := CurrentPart(root, current, currentSet);
        ReadsNextPart(base, next, nextSet);
        LookupNextPart(base, StakesData(next), SetData(nextSet), MMR_ROOT_ID);
      }
    }
  }

  /** What is reported missing: the first of current stakes, current set, next stakes and next set that is not there. */
  lemma ReadReports(p: seq<Entry>)
    ensures var r := ReadStakesInfo(p);
            var cs, cb := GetStakes(p, [99, 115]), GetSet(p, [99, 98]);
            var ns, nb := GetStakes(p, [110, 115]), GetSet(p, [110, 98]);
            && (r == Err(MissingCurrentBeefyStakes) <==> cs.None?)
            && (r == Err(MissingCurrentAuthoritySet) <==> cs.Some? && cb.None?)
            && (r == Err(MissingNextBeefyStakes) <==> cs.Some? && cb.Some? && ns.None?)
            && (r == Err(MissingNextAuthoritySet) <==> cs.Some? && cb.Some? && ns.Some? && nb.None?)
            && (r.Ok? ==> && cs == Some(r.value.currentStakes) && cb == Some(r.value.currentSet)
                          && ns == Some(r.value.nextStakes) && nb == Some(r.value.nextSet))
  {
  }

  /**
   From runtime to relay: when the node's sets are the runtime's, the root the relay computes from
   the stakes it read is the commitment in the authority set it read, unless there is no stake at
   all; then the relay has no root.
   */
  lemma RelayRootIsCommitment(crypto: Crypto, view: NodeView, id: U64)
    requires NodePayload(view).Some? && view.nextStakes.Some?
    requires view.currentSet(view.currentStakes.value) ==
             Some(ComputeAuthoritySet(crypto, id, view.currentStakes.value))
    ensures var info := ReadStakesInfo(NodePayload(view).value);
            && info.Ok?
            && (RelayRoot(crypto, info.value.currentStakes).None? <==> info.value.currentStakes == [])
            && (info.value.currentStakes != [] ==>
                  RelayRoot(crypto, info.value.currentStakes) == Some(info.value.currentSet.commitment))
  {
    RelayReadsNodePayload(view);
    RelayLeavesAreRuntimeLeaves(crypto, view.currentStakes.value);
  }
}

/** The relay's proof for Cardano: votes, the authorities' proof tree, and their Plutus encoding. */
module RelayProof {
  import opened Common
  import opened Beefy

  // Votes

  datatype Vote = Vote(signature: seq<Byte>, authorityIndex: U64, publicKey: seq<Byte>)

  type Signatures = seq<Option<seq<Byte>>>

  /** `Vec::pop`: the extra byte Substrate appends is dropped. */
  function Pop(s: seq<Byte>): (r: seq<Byte>) {
    if s == [] then [] else s[..|s| - 1]
  }

  /** `enumerate`, `zip` with the validators, keep the signed ones; from index `i` on. */
  function VotesFrom(sigs: Signatures, validators: seq<BeefyId>, i: nat): (votes: seq<Vote>)
    requires |sigs| < 0x1_0000_0000_0000_0000
    decreases |sigs| - i
  {
    if i >= |sigs| || i >= |validators| then []
    else (if sigs[i].Some? then [Vote(Pop(sigs[i].value), i, validators[i])] else []) +
         VotesFrom(sigs, validators, i + 1)
  }

  function CollectSignatureIndices(sigs: Signatures, i: nat): (indices: seq<nat>)
    decreases |sigs| - i
  {
    if i >= |sigs| then []
    else (if sigs[i].Some? then [i] else []) + CollectSignatureIndices(sigs, i + 1)
  }

  function IndicesOf(votes: seq<Vote>): (r: seq<nat>) {
    if votes == [] then [] else [votes[0].authorityIndex as nat] + IndicesOf(votes[1..])
  }

  /** Some signature stands where there is no validator. */
  predicate StraySignature(sigs: Signatures, n: nat) {
    exists i :: n <= i < |sigs| && sigs[i].Some?
  }

  lemma IndicesOfCons(vote: Vote, rest: seq<Vote>)
    ensures IndicesOf([vote] + rest) == [vote.authorityIndex as nat] + IndicesOf(rest)
  {
    assert ([vote] + rest)[1..] == rest;
  }

  lemma {:induction false} NoneCollected(sigs: Signatures, i: nat)
    ensures CollectSignatureIndices(sigs, i) == [] <==> !StraySignature(sigs, i)
    decreases |sigs| - i
  {
    if i < |sigs| {
      NoneCollected(sigs, i + 1);
    }
  }

  /**
   The votes carry the collected indices exactly when no signature lies beyond the validators, in
   particular when the two lists have one length.
   */
  lemma {:induction false} VoteIndicesIff(sigs: Signatures, validators: seq<BeefyId>, i: nat)
    requires |sigs| < 0x1_0000_0000_0000_0000 && i <= |validators|
    ensures IndicesOf(VotesFrom(sigs, validators, i)) == CollectSignatureIndices(sigs, i) <==>
            !StraySignature(sigs, |validators|)
    decreases |sigs| - i
  {
    if i >= |sigs| {
    } else if i >= |validators| {
      NoneCollected(sigs, i);
    } else {
      VoteIndicesIff(sigs, validators, i + 1);
      OneSlotMore(sigs, validators, i);
    }
  }

  /** A slot adds the same index on both sides, or none. */
  lemma OneSlotMore(sigs: Signatures, validators: seq<BeefyId>, i: nat)
    requires |sigs| < 0x1_0000_0000_0000_0000 && i < |sigs| && i < |validators|
    ensures IndicesOf(VotesFrom(sigs, validators, i)) == CollectSignatureIndices(sigs, i) <==>
            IndicesOf(VotesFrom(sigs, validators, i + 1)) == CollectSignatureIndices(sigs, i + 1)
  {
    var votes, indices := VotesFrom(sigs, validators, i + 1), CollectSignatureIndices(sigs, i + 1);
    if sigs[i].Some? {
      SameWithHead(Vote(Pop(sigs[i].value), i, validators[i]), votes, indices);
    } else {
      assert VotesFrom(sigs, validators, i) == votes;
      assert CollectSignatureIndices(sigs, i) == indices;
    }
  }

  lemma SameWithHead(vote: Vote, votes: seq<Vote>, indices: seq<nat>)
    ensures IndicesOf([vote] + votes) == [vote.authorityIndex] + indices <==> IndicesOf(votes) == indices
  {
    IndicesOfCons(vote, votes);
    if [vote.authorityIndex as nat] + IndicesOf(votes) == [vote.authorityIndex as nat] + indices {
      PrependInjective([vote.authorityIndex as nat], IndicesOf(votes), indices);
    }
  }

  /** Two signatures for one validator: the second is collected but casts no vote. */
  lemma StraySignatureCastsNoVote(validator: BeefyId, x: seq<Byte>, y: seq<Byte>)
    ensures var sigs: Signatures := [Some(x), Some(y)];
            && VotesFrom(sigs, [validator], 0) == [Vote(Pop(x), 0, validator)]
            && CollectSignatureIndices(sigs, 0) == [0, 1]
  {
    var sigs: Signatures := [Some(x), Some(y)];
    assert VotesFrom(sigs, [validator], 1) == [];
    assert CollectSignatureIndices(sigs, 2) == [];
    assert CollectSignatureIndices(sigs, 1) == [1] + [];
  }

  /** Votes in index order, each within the list, carrying the key and the signature at its index. */
  ghost predicate WellPlaced(votes: seq<Vote>, sigs: Signatures, validators: seq<BeefyId>, from: nat) {
    && (forall v :: v in votes ==>
          && from <= v.authorityIndex < |sigs| && v.authorityIndex < |validators|
          && sigs[v.authorityIndex].Some?
          && v == Vote(Pop(sigs[v.authorityIndex].value), v.authorityIndex, validators[v.authorityIndex]))
    && (forall a, b :: 0 <= a < b < |votes| ==> votes[a].authorityIndex < votes[b].authorityIndex)
  }

  lemma PrependVote(vote: Vote, rest: seq<Vote>, sigs: Signatures, validators: seq<BeefyId>, i: nat)
    requires i < |sigs| && i < |validators| && sigs[i].Some? && i < 0x1_0000_0000_0000_0000
    requires vote == Vote(Pop(sigs[i].value), i, validators[i])
    requires WellPlaced(rest, sigs, validators, i + 1)
    ensures WellPlaced([vote] + rest, sigs, validators, i)
  {
    var votes := [vote] + rest;
    assert forall v :: v in votes <==> v == vote || v in rest;
    forall a, b | 0 <= a < b < |votes| ensures votes[a].authorityIndex < votes[b].authorityIndex {
      assert votes[b] == rest[b - 1];
      if a > 0 { assert votes[a] == rest[a - 1]; } else { assert rest[b - 1] in rest; }
    }
  }

  lemma {:induction false} VotesAreWellPlaced(sigs: Signatures, validators: seq<BeefyId>, i: nat)
    requires |sigs| < 0x1_0000_0000_0000_0000
    ensures WellPlaced(VotesFrom(sigs, validators, i), sigs, validators, i)
    decreases |sigs| - i
  {
    if i < |sigs| && i < |validators| {
      VotesAreWellPlaced(sigs, validators, i + 1);
      VotesOfSlot(sigs, validators, i);
      var rest := VotesFrom(sigs, validators, i + 1);
      if sigs[i].Some? {
        PrependVote(Vote(Pop(sigs[i].value), i, validators[i]), rest, sigs, validators, i);
      }
    }
  }

  lemma VotesOfSlot(sigs: Signatures, validators: seq<BeefyId>, i: nat)
    requires |sigs| < 0x1_0000_0000_0000_0000 && i < |sigs| && i < |validators|
    ensures var rest := VotesFrom(sigs, validators, i + 1);
            VotesFrom(sigs, validators, i) ==
            if sigs[i].Some? then [Vote(Pop(sigs[i].value), i, validators[i])] + rest else rest
  {
  }

  /** Every validator that signed has its vote. */
  lemma {:induction false} EverySignerVotes(sigs: Signatures, validators: seq<BeefyId>, i: nat, j: nat)
    requires |sigs| < 0x1_0000_0000_0000_0000
    requires i <= j < |sigs| && j < |validators| && sigs[j].Some?
    ensures Vote(Pop(sigs[j].value), j, validators[j]) in VotesFrom(sigs, validators, i)
    decreases |sigs| - i
  {
    if i < j {
      EverySignerVotes(sigs, validators, i + 1, j);
    }
  }

  // Generation

  datatype ProofNode = Leaf(hash: Hash32) | Node(children: seq<ProofNode>)

  datatype AuthoritiesProof = AuthoritiesProof(root: Hash32, totalLeaves: U32, tree: ProofNode)

  datatype PayloadItem = PayloadItem(id: seq<Byte>, data: seq<Byte>)

  datatype Commitment = Commitment(payloads: seq<PayloadItem>, blockNumber: U64, validatorSetId: U64)

  datatype SignedCommitment = SignedCommitment(commitment: Commitment, votes: seq<Vote>)

  datatype RelayChainProof = RelayChainProof(signed: SignedCommitment, proof: AuthoritiesProof)

  /** A BEEFY justification: the payload, the MMR roots in it as raw bytes, and the signature slots. */
  datatype Justification = Justification(
    payload: seq<Entry>, roots: seq<seq<Byte>>, blockNumber: U32, validatorSetId: U64, signatures: Signatures)

  /** The cryptography behind a proof: the tree library's proof for chosen leaves, and the signature check. */
  datatype Prover = Prover(
    crypto: Crypto,
    proofTree: (seq<Hash32>, seq<nat>) -> ProofNode,
    verifies: (Justification, seq<BeefyId>) -> bool)

  /** The proof over the leaves of `stakes`; there is none without leaves. */
  function ProveStakes(p: Prover, stakes: seq<BeefyStake>, indices: seq<nat>,
                       total: U32): (r: Result<AuthoritiesProof, RelayError>) {
    match RelayRoot(p.crypto, stakes)
    case None => Err(InvalidAuthoritiesProofCreation)
    case Some(root) => Ok(AuthoritiesProof(root, total, p.proofTree(PrepMerkleLeaves(p.crypto, stakes), indices)))
  }

  function TryNewProof(p: Prover, j: Justification,
                       validators: seq<BeefyId>): (r: Result<AuthoritiesProof, RelayError>) {
    if !p.verifies(j, validators) then Err(NoMatchingSignature)
    else match ReadStakesInfo(j.payload)
      case Err(e) => Err(e)
      case Ok(info) =>
        ProveStakes(p, info.currentStakes, CollectSignatureIndices(j.signatures, 0), AsU32(|validators|))
  }

  function PayloadItems(roots: seq<seq<Byte>>): (r: seq<PayloadItem>) {
    if roots == [] then [] else [PayloadItem(MMR_ROOT_ID, roots[0])] + PayloadItems(roots[1..])
  }

  function Generate(p: Prover, j: Justification, validators: seq<BeefyId>): (r: Result<RelayChainProof, RelayError>)
    requires |j.signatures| < 0x1_0000_0000_0000_0000
  {
    match TryNewProof(p, j, validators)
    case Err(e) => Err(e)
    case Ok(proof) =>
      Ok(RelayChainProof(
           SignedCommitment(Commitment(PayloadItems(j.roots), j.blockNumber, j.validatorSetId),
                            VotesFrom(j.signatures, validators, 0)),
           proof))
  }

  /** The payload's current stakes are the runtime's for these validators. */
  predicate CarriesStakesOf(payload: seq<Entry>, validators: seq<BeefyId>) {
    match ReadStakesInfo(payload) case Ok(info) => info.currentStakes == StakeOne(validators) case _ => false
  }

  /**
   A generated proof hangs together.  With one signature slot per validator, the votes name the
   leaves the tree proves, in ascending order and below the leaf count, each with the key at its
   index.  And when the payload carries the runtime's stakes for these validators, the leaf at a
   vote's index is the hash of that vote's key with stake one.
   */
  lemma GeneratedProofHangsTogether(p: Prover, j: Justification, validators: seq<BeefyId>)
    requires |j.signatures| == |validators| < 0x1_0000_0000
    requires Generate(p, j, validators).Ok? && CarriesStakesOf(j.payload, validators)
    ensures var g := Generate(p, j, validators).value;
            var leaves := PrepMerkleLeaves(p.crypto, StakeOne(validators));
            && g.proof == AuthoritiesProof(p.crypto.root(leaves), |leaves|,
                                           p.proofTree(leaves, IndicesOf(g.signed.votes)))
            && WellPlaced(g.signed.votes, j.signatures, validators, 0)
            && LeavesMatch(p.crypto, leaves, g.signed.votes)
  {
    var g := Generate(p, j, validators).value;
    var indices := CollectSignatureIndices(j.signatures, 0);
    GeneratedParts(p, j, validators);
    assert IndicesOf(g.signed.votes) == indices by { VoteIndicesIff(j.signatures, validators, 0); }
    assert WellPlaced(g.signed.votes, j.signatures, validators, 0) by {
      VotesAreWellPlaced(j.signatures, validators, 0);
    }
    PlacedVotesMatch(p.crypto, j.signatures, validators, g.signed.votes);
  }

  lemma GeneratedParts(p: Prover, j: Justification, validators: seq<BeefyId>)
    requires |validators| < 0x1_0000_0000 && |j.signatures| < 0x1_0000_0000_0000_0000
    requires Generate(p, j, validators).Ok? && CarriesStakesOf(j.payload, validators)
    ensures var g := Generate(p, j, validators).value;
            var leaves := PrepMerkleLeaves(p.crypto, StakeOne(validators));
            && g.signed.votes == VotesFrom(j.signatures, validators, 0)
            && |leaves| == |validators|
            && g.proof == AuthoritiesProof(p.crypto.root(leaves), |validators|,
                                           p.proofTree(leaves, CollectSignatureIndices(j.signatures, 0)))
  {
    var g := Generate(p, j, validators).value;
    assert Ok(g.proof) ==
           ProveStakes(p, StakeOne(validators), CollectSignatureIndices(j.signatures, 0), AsU32(|validators|));
  }

  /** `short` is `full` without its last byte, or both are empty. */
  predicate IsShortened(short: seq<Byte>, full: seq<Byte>) {
    if full == [] then short == [] else short + [full[|full| - 1]] == full
  }

  lemma {:induction false} PayloadsOfRoots(roots: seq<seq<Byte>>)
    ensures |PayloadItems(roots)| == |roots|
    ensures forall i :: 0 <= i < |roots| ==>
            PayloadItems(roots)[i].id == [109, 104] && PayloadItems(roots)[i].data == roots[i]
  {
    if roots != [] {
      PayloadsOfRoots(roots[1..]);
    }
  }

  /**
   What a generated proof says.  Its commitment is the justification's: block, validator set and, one
   payload each under the id `mh`, the roots.  Every vote carries the signature at its index without
   the last byte.
   */
  lemma GeneratedCommitment(p: Prover, j: Justification, validators: seq<BeefyId>)
    requires |j.signatures| < 0x1_0000_0000_0000_0000 && Generate(p, j, validators).Ok?
    ensures var signed := Generate(p, j, validators).value.signed;
            && signed.commitment.blockNumber == j.blockNumber
            && signed.commitment.validatorSetId == j.validatorSetId
            && |signed.commitment.payloads| == |j.roots|
            && (forall i :: 0 <= i < |j.roots| ==>
                  signed.commitment.payloads[i].id == [109, 104] && signed.commitment.payloads[i].data == j.roots[i])
            && (forall v :: v in signed.votes ==>
                  && v.authorityIndex < |j.signatures| && v.authorityIndex < |validators|
                  && j.signatures[v.authorityIndex].Some?
                  && IsShortened(v.signature, j.signatures[v.authorityIndex].value)
                  && v.publicKey == validators[v.authorityIndex])
  {
    PayloadsOfRoots(j.roots);
    VotesAreWellPlaced(j.signatures, validators, 0);
    forall s: seq<Byte> ensures IsShortened(Pop(s), s) { }
  }

  /** Why no proof is generated: signatures that do not verify, a payload that cannot be read, or no stakes. */
  lemma GenerateFailsIff(p: Prover, j: Justification, validators: seq<BeefyId>)
    requires |j.signatures| < 0x1_0000_0000_0000_0000
    ensures var r, info := Generate(p, j, validators), ReadStakesInfo(j.payload);
            && (r == Err(NoMatchingSignature) <==> !p.verifies(j, validators))
            && (r.Err? && p.verifies(j, validators) ==>
                  if info.Err? then r.error == info.error
                  else info.value.currentStakes == [] && r.error == InvalidAuthoritiesProofCreation)
            && (r.Ok? <==> p.verifies(j, validators) && info.Ok? && info.value.currentStakes != [])
  {
  }

  /** The signature check refuses a justification that does not have one slot per validator. */
  ghost predicate ChecksSlots(p: Prover) {
    forall j, validators :: p.verifies(j, validators) ==> |j.signatures| == |validators|
  }

  /** Behind such a check, no signature lies beyond the validators: every collected index casts its vote. */
  lemma GeneratedProofHasNoStray(p: Prover, j: Justification, validators: seq<BeefyId>)
    requires ChecksSlots(p) && |j.signatures| < 0x1_0000_0000_0000_0000 && Generate(p, j, validators).Ok?
    ensures IndicesOf(Generate(p, j, validators).value.signed.votes) == CollectSignatureIndices(j.signatures, 0)
  {
    assert p.verifies(j, validators);
    VoteIndicesIff(j.signatures, validators, 0);
  }

  /** The leaf at each vote's index belongs to the key that vote carries. */
  ghost predicate LeavesMatch(crypto: Crypto, leaves: seq<Hash32>, votes: seq<Vote>) {
    forall v :: v in votes ==>
      v.authorityIndex < |leaves| && leaves[v.authorityIndex] == crypto.keccak(v.publicKey + LittleEndian(1, 8))
  }

  lemma PlacedVotesMatch(crypto: Crypto, sigs: Signatures, validators: seq<BeefyId>, votes: seq<Vote>)
    requires WellPlaced(votes, sigs, validators, 0)
    ensures LeavesMatch(crypto, PrepMerkleLeaves(crypto, StakeOne(validators)), votes)
  {
    forall v | v in votes ensures v.authorityIndex < |validators| && v.publicKey == validators[v.authorityIndex] { }
  }

  // Plutus encoding

  datatype Plutus =
    | PConstr(tag: nat, fields: seq<Plutus>)
    | PBytes(bytes: seq<Byte>)
    | PInt(value: I64)
    | PArray(items: seq<Plutus>)

  const TAG := 121

  function EncodeVote(v: Vote): (d: Plutus) {
    PConstr(TAG, [PBytes(v.signature), PInt(AsI64(v.authorityIndex)), PBytes(v.publicKey)])
  }

  function EncodePayload(x: PayloadItem): (d: Plutus) {
    PConstr(TAG, [PBytes(x.id), PBytes(x.data)])
  }

  function EncodeAll<T>(encode: T -> Plutus, xs: seq<T>): (ds: seq<Plutus>) {
    if xs == [] then [] else [encode(xs[0])] + EncodeAll(encode, xs[1..])
  }

  function EncodeCommitment(c: Commitment): (d: Plutus) {
    PConstr(TAG, [PArray(EncodeAll(EncodePayload, c.payloads)), PInt(AsI64(c.blockNumber)),
                  PInt(AsI64(c.validatorSetId))])
  }

  function EncodeSigned(s: SignedCommitment): (d: Plutus) {
    PConstr(TAG, [EncodeCommitment(s.commitment), PArray(EncodeAll(EncodeVote, s.votes))])
  }

  function EncodeNode(n: ProofNode): (d: Plutus) {
    match n
    case Leaf(hash) => PBytes(hash)
    case Node(children) => PArray(EncodeNodes(children))
  }

  function EncodeNodes(ns: seq<ProofNode>): (ds: seq<Plutus>) {
    if ns == [] then [] else [EncodeNode(ns[0])] + EncodeNodes(ns[1..])
  }

  function EncodeAuthorities(a: AuthoritiesProof): (d: Plutus) {
    PConstr(TAG, [PBytes(a.root), PInt(a.totalLeaves), EncodeNode(a.tree)])
  }

  function EncodeProof(r: RelayChainProof): (d: Plutus) {
    PConstr(TAG, [EncodeSigned(r.signed), EncodeAuthorities(r.proof)])
  }

  /** The numbers Cardano reads are the numbers meant exactly below 2^63; above, they turn negative. */
  lemma EncodedNumberIff(n: U64)
    ensures AsI64(n) == n <==> n < 0x8000_0000_0000_0000
    ensures AsU64(AsI64(n)) == n
  {
  }

  /** The field at a path of field numbers. */
  function AtPath(d: Plutus, path: seq<nat>): (r: Option<Plutus>) {
    if path == [] then Some(d)
    else match d
      case PConstr(_, fields) => if path[0] < |fields| then AtPath(fields[path[0]], path[1..]) else None
      case PArray(items) => if path[0] < |items| then AtPath(items[path[0]], path[1..]) else None
      case _ => None
  }

  lemma {:induction false} EncodeAllAt<T>(encode: T -> Plutus, xs: seq<T>, i: nat)
    requires i < |xs|
    ensures |EncodeAll(encode, xs)| == |xs| && EncodeAll(encode, xs)[i] == encode(xs[i])
  {
    if i == 0 {
      if |xs| > 1 { EncodeAllAt(encode, xs[1..], 0); }
    } else {
      EncodeAllAt(encode, xs[1..], i - 1);
    }
  }

  lemma Paths(a: Plutus, b: Plutus, c: Plutus, tag: nat, path: seq<nat>)
    ensures AtPath(PConstr(tag, [a, b]), [0] + path) == AtPath(a, path)
    ensures AtPath(PConstr(tag, [a, b]), [1] + path) == AtPath(b, path)
    ensures AtPath(PConstr(tag, [a, b, c]), [0] + path) == AtPath(a, path)
    ensures AtPath(PConstr(tag, [a, b, c]), [1] + path) == AtPath(b, path)
    ensures AtPath(PConstr(tag, [a, b, c]), [2] + path) == AtPath(c, path)
  {
    assert ([0] + path)[1..] == path && ([1] + path)[1..] == path && ([2] + path)[1..] == path;
  }

  /** Where Cardano finds the numbers and the root of a proof. */
  lemma ProofPaths(r: RelayChainProof)
    ensures var d := EncodeProof(r);
            && AtPath(d, [0, 0, 1]) == Some(PInt(AsI64(r.signed.commitment.blockNumber)))
            && AtPath(d, [0, 0, 2]) == Some(PInt(AsI64(r.signed.commitment.validatorSetId)))
            && AtPath(d, [1, 0]) == Some(PBytes(r.proof.root))
            && AtPath(d, [1, 1]) == Some(PInt(r.proof.totalLeaves))
            && AtPath(d, [1, 2]) == Some(EncodeNode(r.proof.tree))
  {
    var d, s, c, a :=
      EncodeProof(r), EncodeSigned(r.signed), EncodeCommitment(r.signed.commitment), EncodeAuthorities(r.proof);
    assert AtPath(c, [1]) == Some(c.fields[1]) && AtPath(c, [2]) == Some(c.fields[2]);
    assert AtPath(a, [0]) == Some(a.fields[0]) && AtPath(a, [1]) == Some(a.fields[1]) && AtPath(a, [2]) ==
           Some(a.fields[2]);
    Paths(c, s.fields[1], c, TAG, [1]);
    Paths(c, s.fields[1], c, TAG, [2]);
    Paths(s, a, a, TAG, [0, 1]);
    Paths(s, a, a, TAG, [0, 2]);
    Paths(s, a, a, TAG, [0]);
    Paths(s, a, a, TAG, [1]);
    Paths(s, a, a, TAG, [2]);
    assert [0] + [0, 1] == [0, 0, 1] && [0] + [0, 2] == [0, 0, 2];
    assert [0] + [1] == [0, 1] && [0] + [2] == [0, 2] && [1] + [0] == [1, 0] && [1] + [1] == [1, 1] && [1] + [2] ==
           [1, 2];
  }

  /** Where it finds the payloads and the votes: in their order, each with its fields in the order of the record. */
  lemma ListPaths(r: RelayChainProof)
    ensures var d := EncodeProof(r);
            && IsRecord(d, 2) && IsRecord(d.fields[0], 2) && IsRecord(d.fields[0].fields[0], 3)
            && var payloads, votes := d.fields[0].fields[0].fields[0], d.fields[0].fields[1];
            && payloads.PArray? && |payloads.items| == |r.signed.commitment.payloads|
            && (forall i :: 0 <= i < |payloads.items| ==>
                  payloads.items[i] == PConstr(121, [PBytes(r.signed.commitment.payloads[i].id),
                                                     PBytes(r.signed.commitment.payloads[i].data)]))
            && votes.PArray? && |votes.items| == |r.signed.votes|
            && (forall i :: 0 <= i < |votes.items| ==>
                  votes.items[i] == PConstr(121, [PBytes(r.signed.votes[i].signature),
                                                  PInt(AsI64(r.signed.votes[i].authorityIndex)),
                                                  PBytes(r.signed.votes[i].publicKey)]))
  {
    var ps, vs := r.signed.commitment.payloads, r.signed.votes;
    EncodeAllLength(EncodePayload, ps);
    EncodeAllLength(EncodeVote, vs);
    forall i | 0 <= i < |ps| ensures EncodeAll(EncodePayload, ps)[i] == EncodePayload(ps[i]) {
      EncodeAllAt(EncodePayload, ps, i);
    }
    forall i | 0 <= i < |vs| ensures EncodeAll(EncodeVote, vs)[i] == EncodeVote(vs[i]) {
      EncodeAllAt(EncodeVote, vs, i);
    }
  }

  lemma {:induction false} EncodeAllLength<T>(encode: T -> Plutus, xs: seq<T>)
    ensures |EncodeAll(encode, xs)| == |xs|
  {
    if xs != [] {
      EncodeAllLength(encode, xs[1..]);
    }
  }

  // A decoder

  predicate IsRecord(d: Plutus, n: nat) {
    d.PConstr? && d.tag == TAG && |d.fields| == n
  }

  function DecodeVote(d: Plutus): (r: Option<Vote>) {
    if IsRecord(d, 3) && d.fields[0].PBytes? && d.fields[1].PInt? && d.fields[2].PBytes?
    then Some(Vote(d.fields[0].bytes, AsU64(d.fields[1].value), d.fields[2].bytes)) else None
  }

  function DecodePayload(d: Plutus): (r: Option<PayloadItem>) {
    if IsRecord(d, 2) && d.fields[0].PBytes? && d.fields[1].PBytes?
    then Some(PayloadItem(d.fields[0].bytes, d.fields[1].bytes)) else None
  }

  function DecodeAll<T>(decode: Plutus -> Option<T>, ds: seq<Plutus>): (r: Option<seq<T>>) {
    if ds == [] then Some([])
    else match (decode(ds[0]), DecodeAll(decode, ds[1..]))
      case (Some(x), Some(xs)) => Some([x] + xs)
      case _ => None
  }

  function DecodeCommitment(d: Plutus): (r: Option<Commitment>) {
    if !(IsRecord(d, 3) && d.fields[0].PArray? && d.fields[1].PInt? && d.fields[2].PInt?) then None
    else match DecodeAll(DecodePayload, d.fields[0].items)
      case None => None
      case Some(payloads) => Some(Commitment(payloads, AsU64(d.fields[1].value), AsU64(d.fields[2].value)))
  }

  function DecodeSigned(d: Plutus): (r: Option<SignedCommitment>) {
    if !(IsRecord(d, 2) && d.fields[1].PArray?) then None
    else match (DecodeCommitment(d.fields[0]), DecodeAll(DecodeVote, d.fields[1].items))
      case (Some(c), Some(votes)) => Some(SignedCommitment(c, votes))
      case _ => None
  }

  function DecodeNode(d: Plutus): (r: Option<ProofNode>) {
    match d
    case PBytes(bytes) => if |bytes| == 32 then Some(Leaf(bytes)) else None
    case PArray(items) => (match DecodeNodes(items) case None => None case Some(children) => Some(Node(children)))
    case _ => None
  }

  function DecodeNodes(ds: seq<Plutus>): (r: Option<seq<ProofNode>>) {
    if ds == [] then Some([])
    else match (DecodeNode(ds[0]), DecodeNodes(ds[1..]))
      case (Some(n), Some(ns)) => Some([n] + ns)
      case _ => None
  }

  function DecodeAuthorities(d: Plutus): (r: Option<AuthoritiesProof>) {
    if !(IsRecord(d, 3) && d.fields[0].PBytes? && |d.fields[0].bytes| == 32 && d.fields[1].PInt?) then None
    else if !(0 <= d.fields[1].value < 0x1_0000_0000) then None
    else match DecodeNode(d.fields[2])
      case None => None
      case Some(tree) => Some(AuthoritiesProof(d.fields[0].bytes, d.fields[1].value, tree))
  }

  function DecodeProof(d: Plutus): (r: Option<RelayChainProof>) {
    if !IsRecord(d, 2) then None
    else match (DecodeSigned(d.fields[0]), DecodeAuthorities(d.fields[1]))
      case (Some(s), Some(p)) => Some(RelayChainProof(s, p))
      case _ => None
  }

  lemma {:induction false} DecodeEncodeAll<T>(encode: T -> Plutus, decode: Plutus -> Option<T>, xs: seq<T>)
    requires forall x :: x in xs ==> decode(encode(x)) == Some(x)
    ensures DecodeAll(decode, EncodeAll(encode, xs)) == Some(xs)
  {
    if xs != [] {
      DecodeEncodeAll(encode, decode, xs[1..]);
      assert EncodeAll(encode, xs)[1..] == EncodeAll(encode, xs[1..]);
      assert xs == [xs[0]] + xs[1..];
    }
  }

  lemma {:induction false} DecodeEncodeNode(n: ProofNode)
    ensures DecodeNode(EncodeNode(n)) == Some(n)
    decreases n, 1
  {
    match n
    case Leaf(hash) =>
    case Node(children) => DecodeEncodeNodes(children);
  }

  lemma {:induction false} DecodeEncodeNodes(ns: seq<ProofNode>)
    ensures DecodeNodes(EncodeNodes(ns)) == Some(ns)
    decreases ns, 0
  {
    if ns != [] {
      DecodeEncodeNode(ns[0]);
      DecodeEncodeNodes(ns[1..]);
      assert EncodeNodes(ns)[1..] == EncodeNodes(ns[1..]);
      assert ns == [ns[0]] + ns[1..];
    }
  }

  lemma DecodeEncodeSigned(s: SignedCommitment)
    ensures DecodeSigned(EncodeSigned(s)) == Some(s)
  {
    DecodeEncodeAll(EncodePayload, DecodePayload, s.commitment.payloads);
    forall v: Vote ensures DecodeVote(EncodeVote(v)) == Some(v) { EncodedNumberIff(v.authorityIndex); }
    DecodeEncodeAll(EncodeVote, DecodeVote, s.votes);
    EncodedNumberIff(s.commitment.blockNumber);
    EncodedNumberIff(s.commitment.validatorSetId);
  }

  /** The whole proof, tree included, can be read back from its encoding, for every 64-bit set id. */
  lemma DecodeEncodeProof(r: RelayChainProof)
    ensures DecodeProof(EncodeProof(r)) == Some(r)
  {
    DecodeEncodeSigned(r.signed);
    DecodeEncodeNode(r.proof.tree);
  }

  lemma EncodeProofInjective(r: RelayChainProof, s: RelayChainProof)
    requires EncodeProof(r) == EncodeProof(s)
    ensures r == s
  {
    DecodeEncodeProof(r);
    DecodeEncodeProof(s);
  }
}

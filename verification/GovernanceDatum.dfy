/** Decoding the on-chain datum that lists the members of a governance body. */
module GovernanceDatum {
  import opened Common
  import F = FederatedAuthority

  /** Plutus data as the decoder meets it; a map gives each key a list of values. */
  datatype PlutusData =
    | List(items: seq<PlutusData>)
    | Map(entries: seq<(PlutusData, seq<PlutusData>)>)
    | Bytes(bytes: seq<Byte>)
    | Int(value: int)
    | Constr(tag: nat, fields: seq<PlutusData>)

  datatype DatumError =
    | NotAList
    | VersionedTooShort
    | MultisigNotAList
    | MultisigTooShort
    | RoundNotInteger
    | RoundNotU64
    | RoundNotU8
    | MembersNotAMap
    | BadCardanoKeyLength
    | BadSr25519KeyLength

  datatype Authorities = Authorities(authorities: seq<F.Authority>, round: U8)

  /** What one map key contributes. */
  datatype Verdict = Skip | Fail(error: DatumError) | Take(authority: F.Authority)

  /** `PlutusMap::get`. */
  function Get(entries: seq<(PlutusData, seq<PlutusData>)>, key: PlutusData): (r: Option<seq<PlutusData>>) {
    if entries == [] then None
    else if entries[0].0 == key then Some(entries[0].1)
    else Get(entries[1..], key)
  }

  function Judge(entries: seq<(PlutusData, seq<PlutusData>)>, key: PlutusData): (v: Verdict) {
    if !key.Bytes? then Skip
    else if |key.bytes| != 32 then Fail(BadCardanoKeyLength)
    else match Get(entries, key)
      case None => Skip
      case Some(values) =>
        if values == [] || !values[0].Bytes? then Skip
        else if |values[0].bytes| != 32 then Fail(BadSr25519KeyLength)
        else Take(F.Authority(values[0].bytes, key.bytes[4..32]))
  }

  /** The authorities taken from the first `n` keys, or the error of the first key that fails. */
  function TakeUpTo(entries: seq<(PlutusData, seq<PlutusData>)>, n: nat): (r: Result<seq<F.Authority>, DatumError>)
    requires n <= |entries|
  {
    if n == 0 then Ok([])
    else match TakeUpTo(entries, n - 1)
      case Err(e) => Err(e)
      case Ok(before) =>
        match Judge(entries, entries[n - 1].0)
        case Skip => Ok(before)
        case Fail(e) => Err(e)
        case Take(authority) => Ok(before + [authority])
  }

  /** The first check of the datum's shape that fails, if any. */
  function ShapeError(datum: PlutusData): (e: Option<DatumError>) {
    if !datum.List? then Some(NotAList)
    else if |datum.items| < 2 then Some(VersionedTooShort)
    else if !datum.items[0].List? then Some(MultisigNotAList)
    else if |datum.items[0].items| < 2 then Some(MultisigTooShort)
    else if !datum.items[1].Int? then Some(RoundNotInteger)
    else if !(0 <= datum.items[1].value < 0x1_0000_0000_0000_0000) then Some(RoundNotU64)
    else if datum.items[1].value > 255 then Some(RoundNotU8)
    else if !datum.items[0].items[1].Map? then Some(MembersNotAMap)
    else None
  }

  method DecodeGovernanceDatum(datum: PlutusData) returns (r: Result<Authorities, DatumError>)
    ensures ShapeError(datum).Some? ==> r == Err(ShapeError(datum).value)
    ensures ShapeError(datum).None? ==>
              var entries := datum.items[0].items[1].entries;
              r == match TakeUpTo(entries, |entries|)
                   case Err(e) => Err(e)
                   case Ok(authorities) => Ok(Authorities(authorities, datum.items[1].value))
  {
    if !datum.List? { return Err(NotAList); }
    var versioned := datum.items;
    if |versioned| < 2 { return Err(VersionedTooShort); }
    if !versioned[0].List? { return Err(MultisigNotAList); }
    var data := versioned[0].items;
    if |data| < 2 { return Err(MultisigTooShort); }
    if !versioned[1].Int? { return Err(RoundNotInteger); }
    var round := versioned[1].value;
    if !(0 <= round < 0x1_0000_0000_0000_0000) { return Err(RoundNotU64); }
    if round > 255 { return Err(RoundNotU8); }
    if !data[1].Map? { return Err(MembersNotAMap); }

    var entries := data[1].entries;
    var members: seq<F.Authority> := [];
    for i := 0 to |entries|
      invariant TakeUpTo(entries, i) == Ok(members)
    {
      var key := entries[i].0;
      if !key.Bytes? { StopsAt(entries, i + 1); continue; }
      if |key.bytes| != 32 { StopsAt(entries, i + 1); return Err(BadCardanoKeyLength); }
      var mainchain := key.bytes[4..32];
      var values := Get(entries, key);
      if values.None? { continue; }
      if values.value == [] { continue; }
      if !values.value[0].Bytes? { continue; }
      var sr25519 := values.value[0].bytes;
      if |sr25519| != 32 { StopsAt(entries, i + 1); return Err(BadSr25519KeyLength); }
      members := members + [F.Authority(sr25519, mainchain)];
    }
    return Ok(Authorities(members, round));
  }

  /** An error found at some key is the final result: no later key is looked at. */
  lemma {:induction false} StopsAt(entries: seq<(PlutusData, seq<PlutusData>)>, n: nat)
    requires n <= |entries|
    ensures TakeUpTo(entries, n).Err? ==> TakeUpTo(entries, |entries|) == TakeUpTo(entries, n)
    decreases |entries| - n
  {
    if n < |entries| {
      StopsAt(entries, n + 1);
    }
  }

  /** `xs` are the authorities at an ascending choice of the first `n` positions; the others are skipped. */
  ghost predicate TakenFrom(entries: seq<(PlutusData, seq<PlutusData>)>, n: nat, xs: seq<F.Authority>, at: seq<nat>) {
    && n <= |entries| && |at| == |xs|
    && (forall i :: 0 <= i < |at| ==> at[i] < n && Judge(entries, entries[at[i]].0) == Take(xs[i]))
    && (forall i, j :: 0 <= i < j < |at| ==> at[i] < at[j])
    && (forall p :: 0 <= p < n && p !in at ==> Judge(entries, entries[p].0) == Skip)
  }

  lemma TakeOneMore(entries: seq<(PlutusData, seq<PlutusData>)>, n: nat, xs: seq<F.Authority>, at: seq<nat>,
                    x: F.Authority)
    requires n < |entries| && TakenFrom(entries, n, xs, at) && Judge(entries, entries[n].0) == Take(x)
    ensures TakenFrom(entries, n + 1, xs + [x], at + [n])
  {
    forall p | 0 <= p < n + 1 && p !in at + [n] ensures Judge(entries, entries[p].0) == Skip {
      assert (at + [n])[|at|] == n;
      assert p in at ==> p in at + [n];
    }
  }

  lemma {:induction false} TakenInOrder(entries: seq<(PlutusData, seq<PlutusData>)>, n: nat) returns (at: seq<nat>)
    requires n <= |entries| && TakeUpTo(entries, n).Ok?
    ensures TakenFrom(entries, n, TakeUpTo(entries, n).value, at)
    decreases n
  {
    if n == 0 {
      at := [];
    } else {
      at := TakenInOrder(entries, n - 1);
      var v := Judge(entries, entries[n - 1].0);
      if v.Take? {
        TakeOneMore(entries, n - 1, TakeUpTo(entries, n - 1).value, at, v.authority);
        at := at + [n - 1];
      }
    }
  }

  // The same, in terms of the bytes

  /** The value bytes stored first under the key at `p`: the first entry with that key, its first value. */
  ghost predicate StoredFirst(entries: seq<(PlutusData, seq<PlutusData>)>, p: nat, q: nat)
    requires p < |entries|
  {
    q <= p && entries[q].0 == entries[p].0 && forall i :: 0 <= i < q ==> entries[i].0 != entries[p].0
  }

  predicate HasFirstBytes(values: seq<PlutusData>) {
    values != [] && values[0].Bytes?
  }

  /** A member: a key of 32 bytes, of which the first 4 are dropped, and a value of 32 bytes. */
  ghost predicate IsMember(entries: seq<(PlutusData, seq<PlutusData>)>, p: nat, q: nat, x: F.Authority)
    requires p < |entries|
  {
    && StoredFirst(entries, p, q)
    && entries[p].0.Bytes? && |entries[p].0.bytes| == 32 && entries[p].0.bytes[4..] == x.mainchain
    && HasFirstBytes(entries[q].1) && entries[q].1[0] == Bytes(x.key) && |x.key| == 32
  }

  /** No member: a key that is not bytes, or one of 32 bytes whose value is missing or not bytes. */
  ghost predicate IsPassedOver(entries: seq<(PlutusData, seq<PlutusData>)>, p: nat, q: nat)
    requires p < |entries|
  {
    && StoredFirst(entries, p, q)
    && (!entries[p].0.Bytes? || (|entries[p].0.bytes| == 32 && !HasFirstBytes(entries[q].1)))
  }

  /** Malformed: a key of another length, or else a value of another length. */
  ghost predicate IsMalformed(entries: seq<(PlutusData, seq<PlutusData>)>, p: nat, q: nat, e: DatumError)
    requires p < |entries|
  {
    && StoredFirst(entries, p, q) && entries[p].0.Bytes?
    && if |entries[p].0.bytes| != 32 then e == BadCardanoKeyLength
       else HasFirstBytes(entries[q].1) && |entries[q].1[0].bytes| != 32 && e == BadSr25519KeyLength
  }

  lemma {:induction false} GetFinds(entries: seq<(PlutusData, seq<PlutusData>)>, p: nat) returns (q: nat)
    requires p < |entries|
    ensures StoredFirst(entries, p, q) && Get(entries, entries[p].0) == Some(entries[q].1)
  {
    if entries[0].0 == entries[p].0 {
      q := 0;
    } else {
      var i := GetFinds(entries[1..], p - 1);
      q := i + 1;
    }
  }

  lemma JudgedByBytes(entries: seq<(PlutusData, seq<PlutusData>)>, p: nat) returns (q: nat)
    requires p < |entries|
    ensures match Judge(entries, entries[p].0)
            case Skip => IsPassedOver(entries, p, q)
            case Take(x) => IsMember(entries, p, q, x)
            case Fail(e) => IsMalformed(entries, p, q, e)
  {
    q := GetFinds(entries, p);
  }

  ghost predicate StandsAt(entries: seq<(PlutusData, seq<PlutusData>)>, p: nat, x: F.Authority)
    requires p < |entries|
  {
    exists q :: IsMember(entries, p, q, x)
  }

  ghost predicate NoneStandsAt(entries: seq<(PlutusData, seq<PlutusData>)>, p: nat)
    requires p < |entries|
  {
    exists q :: IsPassedOver(entries, p, q)
  }

  /** The members of a decoded list: where each stands, where its value is stored, and that the rest is passed over. */
  ghost predicate MembersAre(entries: seq<(PlutusData, seq<PlutusData>)>, xs: seq<F.Authority>, at: seq<nat>) {
    && |at| == |xs|
    && (forall i, j :: 0 <= i < j < |at| ==> at[i] < at[j])
    && (forall i :: 0 <= i < |at| ==> at[i] < |entries| && StandsAt(entries, at[i], xs[i]))
    && (forall p :: 0 <= p < |entries| && p !in at ==> NoneStandsAt(entries, p))
  }

  lemma TakenAreMembers(entries: seq<(PlutusData, seq<PlutusData>)>, xs: seq<F.Authority>, at: seq<nat>)
    requires TakenFrom(entries, |entries|, xs, at)
    ensures MembersAre(entries, xs, at)
  {
    forall i | 0 <= i < |at| ensures at[i] < |entries| && StandsAt(entries, at[i], xs[i]) {
      var q := JudgedByBytes(entries, at[i]);
      assert IsMember(entries, at[i], q, xs[i]);
    }
    forall p | 0 <= p < |entries| && p !in at ensures NoneStandsAt(entries, p) {
      var q := JudgedByBytes(entries, p);
      assert IsPassedOver(entries, p, q);
    }
  }

  /**
   Which bytes become which authority.  Each comes from one key of 32 bytes, in map order; its mainchain
   id is that key without the first 4 bytes and its account key is the value stored first under it.
   Every other key is passed over.
   */
  lemma DecodedBytes(entries: seq<(PlutusData, seq<PlutusData>)>)
    requires TakeUpTo(entries, |entries|).Ok?
    ensures exists at :: MembersAre(entries, TakeUpTo(entries, |entries|).value, at)
  {
    var xs := TakeUpTo(entries, |entries|).value;
    var at := TakenInOrder(entries, |entries|);
    TakenAreMembers(entries, xs, at);
  }

  /** A list that does not decode has a malformed entry, reports its error, and no earlier entry is malformed. */
  lemma {:induction false} FirstMalformedDecides(entries: seq<(PlutusData, seq<PlutusData>)>, n: nat)
    returns (p: nat, q: nat)
    requires n <= |entries| && TakeUpTo(entries, n).Err?
    ensures p < n && IsMalformed(entries, p, q, TakeUpTo(entries, n).error)
    ensures TakeUpTo(entries, p).Ok?
    decreases n
  {
    if TakeUpTo(entries, n - 1).Err? {
      p, q := FirstMalformedDecides(entries, n - 1);
    } else {
      p := n - 1;
      q := JudgedByBytes(entries, p);
    }
  }

  /** Malformed in either way. */
  ghost predicate SomewhereMalformed(entries: seq<(PlutusData, seq<PlutusData>)>, p: nat)
    requires p < |entries|
  {
    exists q, e :: IsMalformed(entries, p, q, e)
  }

  lemma MalformedIsJudged(entries: seq<(PlutusData, seq<PlutusData>)>, p: nat)
    requires p < |entries|
    ensures SomewhereMalformed(entries, p) <==> Judge(entries, entries[p].0).Fail?
  {
    var q := JudgedByBytes(entries, p);
    if SomewhereMalformed(entries, p) {
      var r, e :| IsMalformed(entries, p, r, e);
      assert r == q;
    }
  }

  /** Decoding fails exactly when some entry is malformed. */
  lemma MalformedFailsIff(entries: seq<(PlutusData, seq<PlutusData>)>)
    ensures TakeUpTo(entries, |entries|).Err? <==> exists p :: 0 <= p < |entries| && SomewhereMalformed(entries, p)
  {
    DecodeFailsIff(entries, |entries|);
    forall p | 0 <= p < |entries| ensures SomewhereMalformed(entries, p) <==> Judge(entries, entries[p].0).Fail? {
      MalformedIsJudged(entries, p);
    }
  }

  /**
   A datum with the right shape: a list whose first item is a list with a map second, and whose second
   is the round.
   */
  predicate WellShaped(datum: PlutusData) {
    match datum
    case List(items) =>
      && |items| >= 2 && items[0].List? && |items[0].items| >= 2 && items[0].items[1].Map?
      && items[1].Int? && 0 <= items[1].value <= 255
    case _ => false
  }

  /** The shape is accepted exactly then; a round out of range is told apart by how far out it is. */
  lemma ShapeAcceptedIff(datum: PlutusData)
    ensures ShapeError(datum).None? <==> WellShaped(datum)
    ensures ShapeError(datum) == Some(MembersNotAMap) ==>
              !datum.items[0].items[1].Map? && 0 <= datum.items[1].value <= 255
    ensures ShapeError(datum) == Some(RoundNotU8) ==> 256 <= datum.items[1].value < 0x1_0000_0000_0000_0000
    ensures ShapeError(datum) == Some(RoundNotU64) ==>
              datum.items[1].value < 0 || datum.items[1].value >= 0x1_0000_0000_0000_0000
    ensures ShapeError(datum) == Some(RoundNotInteger) ==> !datum.items[1].Int? && datum.items[0].List?
    ensures ShapeError(datum) == Some(MultisigTooShort) ==> |datum.items[0].items| < 2
    ensures ShapeError(datum) == Some(MultisigNotAList) ==> !datum.items[0].List?
    ensures ShapeError(datum) == Some(VersionedTooShort) ==> |datum.items| < 2
    ensures ShapeError(datum) == Some(NotAList) ==> !datum.List?
  {
  }

  /** Every authority of a decoded datum has a 32-byte key and a 28-byte mainchain id. */
  lemma {:induction false} AuthorityWidths(entries: seq<(PlutusData, seq<PlutusData>)>, n: nat)
    requires n <= |entries| && TakeUpTo(entries, n).Ok?
    ensures var xs := TakeUpTo(entries, n).value;
            forall i :: 0 <= i < |xs| ==> |xs[i].key| == 32 && |xs[i].mainchain| == 28
    decreases n
  {
    if n > 0 {
      AuthorityWidths(entries, n - 1);
    }
  }

  /** A datum that decodes gives, in map order, one authority for each key that is not skipped. */
  lemma DecodedAuthorities(entries: seq<(PlutusData, seq<PlutusData>)>)
    requires TakeUpTo(entries, |entries|).Ok?
    ensures exists at :: TakenFrom(entries, |entries|, TakeUpTo(entries, |entries|).value, at)
  {
    var at := TakenInOrder(entries, |entries|);
  }

  /** Decoding fails at a key exactly when some key before which nothing failed is malformed. */
  lemma {:induction false} DecodeFailsIff(entries: seq<(PlutusData, seq<PlutusData>)>, n: nat)
    requires n <= |entries|
    ensures TakeUpTo(entries, n).Err? <==> exists p :: 0 <= p < n && Judge(entries, entries[p].0).Fail?
    decreases n
  {
    if n > 0 {
      DecodeFailsIff(entries, n - 1);
    }
  }

  /**
   Data that came from a datum never fails to decode in the pallet: every key is an account as it
   stands, so the inherent can only be refused for its size.
   */
  lemma DatumKeysAlwaysDecode(entries: seq<(PlutusData, seq<PlutusData>)>, max: nat)
    requires TakeUpTo(entries, |entries|).Ok?
    ensures var xs := TakeUpTo(entries, |entries|).value;
            var decoded := F.DecodeAuthMembers(xs, max);
            && (decoded == Err(F.TooManyMembers) <==> |xs| > max)
            && (|xs| <= max ==>
                  && decoded.Ok? && |decoded.value| == |xs|
                  && forall i :: 0 <= i < |xs| ==>
                       decoded.value[i].account == xs[i].key && decoded.value[i].mainchain == xs[i].mainchain)
  {
    AuthorityWidths(entries, |entries|);
    F.DecodedMembers(TakeUpTo(entries, |entries|).value);
  }

  /** Some key occurs twice. */
  predicate RepeatsKey(xs: seq<F.Authority>) {
    exists i, j :: 0 <= i < j < |xs| && xs[i].key == xs[j].key
  }

  lemma DecodedRepeats(entries: seq<(PlutusData, seq<PlutusData>)>)
    requires TakeUpTo(entries, |entries|).Ok?
    ensures var xs := TakeUpTo(entries, |entries|).value;
            && F.DecodeKeys(xs).Some? && |F.DecodeKeys(xs).value| == |xs|
            && (F.HasDuplicatedMembers(F.DecodeKeys(xs).value) <==> RepeatsKey(xs))
  {
    var xs := TakeUpTo(entries, |entries|).value;
    DatumKeysAlwaysDecode(entries, |xs|);
    var ms := F.DecodeKeys(xs).value;
    F.DuplicatedIff(ms);
    if RepeatsKey(xs) {
      var i, j :| 0 <= i < j < |xs| && xs[i].key == xs[j].key;
      assert ms[i].account == ms[j].account;
    }
    if i, j :| 0 <= i < j < |ms| && ms[i].account == ms[j].account {
      assert xs[i].key == xs[j].key;
    }
  }

  /** A decoded list that can be installed: not empty, within the limit, no key twice. */
  predicate Installable(xs: seq<F.Authority>, max: nat) {
    0 < |xs| <= max && !RepeatsKey(xs)
  }

  /**
   From two datums to the stored bodies: the pallet creates an inherent exactly when both lists are
   installable, and dispatched in a fresh block it installs exactly those authorities.
   */
  lemma DatumsInstallIff(council: seq<(PlutusData, seq<PlutusData>)>, committee: seq<(PlutusData, seq<PlutusData>)>,
                         limits: F.Limits, st: F.State)
    requires TakeUpTo(council, |council|).Ok? && TakeUpTo(committee, |committee|).Ok? && !st.executed
    ensures var xs, ys := TakeUpTo(council, |council|).value, TakeUpTo(committee, |committee|).value;
            var call := F.CreateInherent(limits, F.Present(xs, ys));
            && (call.Some? <==> Installable(xs, limits.council) && Installable(ys, limits.committee))
            && (call.Some? ==>
                  && call.value.ResetCall?
                  && F.DecodeKeys(xs) == Some(call.value.council) && F.DecodeKeys(ys) == Some(call.value.committee)
                  && F.Installs(F.Reset(st, call.value.council, call.value.committee).council, call.value.council)
                  && F.Installs(F.Reset(st, call.value.council, call.value.committee).committee, call.value.committee))
  {
    var xs, ys := TakeUpTo(council, |council|).value, TakeUpTo(committee, |committee|).value;
    DecodedRepeats(council);
    DecodedRepeats(committee);
    var ms, ns := F.DecodeKeys(xs).value, F.DecodeKeys(ys).value;
    F.CreatesIff(limits, F.Present(xs, ys), ms, ns);
    if F.Acceptable(ms, limits.council) && F.Acceptable(ns, limits.committee) {
      F.InstallsBoth(st, ms, ns);
    }
  }
}

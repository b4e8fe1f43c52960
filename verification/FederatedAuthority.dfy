/**
 The observed governance bodies: `reset_members` installs a council and a technical committee, and
 the inherent that carries them is built and checked from the same data.
 */
module FederatedAuthority {
  import opened Common
  import opened Ordering
  import opened Sorting

  type AccountId = Hash32
  type MainchainMember = seq<Byte>

  datatype Member = Member(account: AccountId, mainchain: MainchainMember)

  /** A governance body as stored: two lists kept position by position. */
  datatype Body = Body(accounts: seq<AccountId>, mainchain: seq<MainchainMember>)

  datatype BodyKind = Council | TechnicalCommittee

  datatype ResetEvent = MembersReset(kind: BodyKind, body: Body)

  datatype State = State(council: Body, committee: Body, executed: bool, events: seq<ResetEvent>)

  datatype Origin = NoOrigin | OtherOrigin

  datatype ResetError = BadOrigin | InherentAlreadyExecuted

  predicate AccountLe(a: AccountId, b: AccountId) {
    LexLe(a, b)
  }

  predicate MemberLe(x: Member, y: Member) {
    AccountLe(x.account, y.account)
  }

  lemma MemberLeIsTotalPreorder()
    ensures TotalPreorder(MemberLe)
  {
    forall x: Member, y: Member ensures MemberLe(x, y) || MemberLe(y, x) { LexTotal(x.account, y.account); }
    forall x: Member, y: Member, z: Member | MemberLe(x, y) && MemberLe(y, z) ensures MemberLe(x, z) {
      LexTransitive(x.account, y.account, z.account);
    }
  }

  function Accounts(ms: seq<Member>): (r: seq<AccountId>)
    ensures |r| == |ms| && forall i :: 0 <= i < |ms| ==> r[i] == ms[i].account
  {
    if ms == [] then [] else [ms[0].account] + Accounts(ms[1..])
  }

  function MainchainIds(ms: seq<Member>): (r: seq<MainchainMember>)
    ensures |r| == |ms| && forall i :: 0 <= i < |ms| ==> r[i] == ms[i].mainchain
  {
    if ms == [] then [] else [ms[0].mainchain] + MainchainIds(ms[1..])
  }

  function Unzip(ms: seq<Member>): (b: Body) {
    Body(Accounts(ms), MainchainIds(ms))
  }

  /** The pairs a stored body stands for. */
  function Zip(b: Body): (ms: seq<Member>)
    requires |b.accounts| == |b.mainchain|
    ensures |ms| == |b.accounts|
    ensures forall i :: 0 <= i < |ms| ==> ms[i] == Member(b.accounts[i], b.mainchain[i])
  {
    seq(|b.accounts|, i requires 0 <= i < |b.accounts| => Member(b.accounts[i], b.mainchain[i]))
  }

  lemma ZipUnzip(ms: seq<Member>)
    ensures Zip(Unzip(ms)) == ms
  {
  }

  /** The body a list of pairs installs. */
  function Sorted(ms: seq<Member>): (b: Body) {
    Unzip(Sort(MemberLe, ms))
  }

  function Changed(kind: BodyKind, before: Body, after: Body): (es: seq<ResetEvent>) {
    if before == after then [] else [MembersReset(kind, after)]
  }

  function Rejection(st: State, origin: Origin): (e: Option<ResetError>) {
    if origin != NoOrigin then Some(BadOrigin)
    else if st.executed then Some(InherentAlreadyExecuted)
    else None
  }

  function Reset(st: State, council: seq<Member>, committee: seq<Member>): (st': State) {
    if council == [] || committee == [] then st.(executed := true)
    else
      var c, t := Sorted(council), Sorted(committee);
      State(c, t, true,
            st.events + Changed(Council, st.council, c) + Changed(TechnicalCommittee, st.committee, t))
  }

  /** `BTreeSet` size against list length. */
  predicate HasDuplicatedMembers(ms: seq<Member>) {
    |Elements(Accounts(ms))| != |ms|
  }

  function Elements<T(==)>(s: seq<T>): (r: set<T>) {
    set x | x in s
  }

  class Pallet {
    var councilAccounts: seq<AccountId>
    var councilMainchain: seq<MainchainMember>
    var committeeAccounts: seq<AccountId>
    var committeeMainchain: seq<MainchainMember>
    var inherentExecuted: bool
    var events: seq<ResetEvent>

    function Stored(): (st: State)
      reads this
    {
      State(Body(councilAccounts, councilMainchain), Body(committeeAccounts, committeeMainchain),
            inherentExecuted, events)
    }

    method ResetMembers(origin: Origin, council: seq<Member>, committee: seq<Member>) returns (r: Option<ResetError>)
      modifies this
      ensures r == Rejection(old(Stored()), origin)
      ensures Stored() == if r.Some? then old(Stored()) else Reset(old(Stored()), council, committee)
    {
      if origin != NoOrigin { return Some(BadOrigin); }
      if inherentExecuted { return Some(InherentAlreadyExecuted); }
      inherentExecuted := true;
      r := None;

      var councilPairs := Sort(MemberLe, council);
      var newCouncilAccounts, newCouncilMainchain := Accounts(councilPairs), MainchainIds(councilPairs);
      var committeePairs := Sort(MemberLe, committee);
      var newCommitteeAccounts, newCommitteeMainchain := Accounts(committeePairs), MainchainIds(committeePairs);
      SortPermutes(MemberLe, council);
      SortPermutes(MemberLe, committee);

      // Validation: an empty body on either side leaves both as they are; duplicates are only logged.
      if newCouncilAccounts == [] { return; }
      if newCouncilMainchain == [] { return; }
      if newCommitteeAccounts == [] { return; }
      if newCommitteeMainchain == [] { return; }

      ResetCouncil(newCouncilAccounts, newCouncilMainchain);
      ResetCommittee(newCommitteeAccounts, newCommitteeMainchain);
    }

    method ResetCouncil(accounts: seq<AccountId>, mainchain: seq<MainchainMember>)
      modifies this`councilAccounts, this`councilMainchain, this`events
      ensures var b := Body(accounts, mainchain);
              && Stored().council == b
              && events == old(events) + Changed(Council, old(Stored()).council, b)
    {
      var accountsChanged := councilAccounts != accounts;
      if accountsChanged { councilAccounts := accounts; }
      var mainchainChanged := councilMainchain != mainchain;
      if mainchainChanged { councilMainchain := mainchain; }
      if accountsChanged || mainchainChanged {
        events := events + [MembersReset(Council, Body(accounts, mainchain))];
      }
    }

    method ResetCommittee(accounts: seq<AccountId>, mainchain: seq<MainchainMember>)
      modifies this`committeeAccounts, this`committeeMainchain, this`events
      ensures var b := Body(accounts, mainchain);
              && Stored().committee == b
              && events == old(events) + Changed(TechnicalCommittee, old(Stored()).committee, b)
    {
      var accountsChanged := committeeAccounts != accounts;
      if accountsChanged { committeeAccounts := accounts; }
      var mainchainChanged := committeeMainchain != mainchain;
      if mainchainChanged { committeeMainchain := mainchain; }
      if accountsChanged || mainchainChanged {
        events := events + [MembersReset(TechnicalCommittee, Body(accounts, mainchain))];
      }
    }

    method OnFinalize()
      modifies this`inherentExecuted
      ensures Stored() == old(Stored()).(executed := false)
    {
      inherentExecuted := false;
    }
  }

  lemma AccountsOfSorted(ss: seq<Member>)
    requires SortedBy(MemberLe, ss)
    ensures SortedBy(AccountLe, Accounts(ss))
  {
    var accounts := Accounts(ss);
    forall i, j | 0 <= i < j < |accounts| ensures AccountLe(accounts[i], accounts[j]) {
      assert MemberLe(ss[i], ss[j]);
      assert accounts[i] == ss[i].account && accounts[j] == ss[j].account;
    }
  }

  lemma AccountsAscend(ms: seq<Member>)
    ensures SortedBy(AccountLe, Sorted(ms).accounts)
  {
    MemberLeIsTotalPreorder();
    SortSorts(MemberLe, ms);
    AccountsOfSorted(Sort(MemberLe, ms));
  }

  /**
   An installed body holds the input pairs and no others: position by position the two lists are a
   permutation of the input, in account order, and pairs of one account keep their input order.
   */
  lemma InstalledPairs(ms: seq<Member>, m: Member)
    ensures var b := Sorted(ms);
            && |b.accounts| == |b.mainchain| == |ms|
            && multiset(Zip(b)) == multiset(ms)
            && SortedBy(AccountLe, b.accounts)
            && Filter(Zip(b), TiedWith(MemberLe, m)) == Filter(ms, TiedWith(MemberLe, m))
  {
    MemberLeIsTotalPreorder();
    SortPermutes(MemberLe, ms);
    SortStable(MemberLe, ms, m);
    ZipUnzip(Sort(MemberLe, ms));
    AccountsAscend(ms);
  }

  /** Two pairs with one account are one pair. */
  ghost predicate AccountsIdentifyPairs(ms: seq<Member>) {
    forall x, y :: x in ms && y in ms && x.account == y.account ==> x == y
  }

  /**
   What a list of pairs installs is independent of its order exactly when no account comes with two
   different mainchain ids.
   */
  lemma InputOrderIrrelevantIff(ms: seq<Member>)
    ensures (forall ns :: multiset(ns) == multiset(ms) ==> Sorted(ns) == Sorted(ms)) <==> AccountsIdentifyPairs(ms)
  {
    MemberLeIsTotalPreorder();
    OrderIrrelevantIff(MemberLe, ms);
    forall x: Member, y: Member ensures Tied(MemberLe, x, y) <==> x.account == y.account {
      if Tied(MemberLe, x, y) { LexAntisymmetric(x.account, y.account); }
      LexTotal(x.account, x.account);
    }
    forall ns: seq<Member> ensures Sorted(ns) == Sorted(ms) <==> Sort(MemberLe, ns) == Sort(MemberLe, ms) {
      ZipUnzip(Sort(MemberLe, ns));
      ZipUnzip(Sort(MemberLe, ms));
    }
    assert OrderIrrelevant(MemberLe, ms) <==>
           forall ns :: multiset(ns) == multiset(ms) ==> Sorted(ns) == Sorted(ms);
    assert NoTies(MemberLe, ms) <==> AccountsIdentifyPairs(ms);
  }

  /** One account with two mainchain ids: the two orders install different lists. */
  lemma InputOrderMatters(account: AccountId, x: MainchainMember, y: MainchainMember)
    requires x != y
    ensures Sorted([Member(account, x), Member(account, y)]) != Sorted([Member(account, y), Member(account, x)])
  {
    SortedPair(account, x, y);
    SortedPair(account, y, x);
  }

  lemma SortedPair(account: AccountId, x: MainchainMember, y: MainchainMember)
    ensures Sorted([Member(account, x), Member(account, y)]).mainchain == [x, y]
  {
    var a, b := Member(account, x), Member(account, y);
    LexTotal(account, account);
    assert [a, b][1..] == [b] && [b][1..] == [];
    assert Sort(MemberLe, [b]) == [b];
    assert Sort(MemberLe, [a, b]) == [a, b];
  }

  /** Repeating a call in the next block changes nothing and emits nothing. */
  lemma RepeatIsSilent(st: State, council: seq<Member>, committee: seq<Member>)
    ensures var once := Reset(st, council, committee);
            Reset(once.(executed := false), council, committee) == once
  {
    var once := Reset(st, council, committee);
    assert once.events + [] + [] == once.events;
  }

  /** Both bodies change together or neither does. */
  lemma EmptyBodyChangesNothing(st: State, council: seq<Member>, committee: seq<Member>)
    ensures council == [] || committee == [] ==> Reset(st, council, committee) == st.(executed := true)
    ensures council != [] && committee != [] ==>
              && Reset(st, council, committee).council == Sorted(council)
              && Reset(st, council, committee).committee == Sorted(committee)
  {
  }

  // Whole runs

  datatype Event = Called(origin: Origin, council: seq<Member>, committee: seq<Member>) | Finalized

  function Next(st: State, e: Event): (st': State) {
    match e
    case Called(origin, council, committee) =>
      if Rejection(st, origin).Some? then st else Reset(st, council, committee)
    case Finalized => st.(executed := false)
  }

  function Execute(st: State, es: seq<Event>): (st': State)
    decreases |es|
  {
    if es == [] then st else Execute(Next(st, es[0]), es[1..])
  }

  /** How many calls of a run are accepted. */
  function AcceptedCalls(st: State, es: seq<Event>): (n: nat)
    decreases |es|
  {
    if es == [] then 0
    else (if es[0].Called? && Rejection(st, es[0].origin).None? then 1 else 0) + AcceptedCalls(Next(st, es[0]), es[1..])
  }

  /** Within a block at most one call is accepted, and none once one has been. */
  lemma {:induction false} OncePerBlock(st: State, es: seq<Event>)
    requires Finalized !in es
    ensures AcceptedCalls(st, es) <= if st.executed then 0 else 1
    decreases |es|
  {
    if es != [] {
      assert es[0] in es;
      OncePerBlock(Next(st, es[0]), es[1..]);
    }
  }

  /** Once a call has been accepted, nothing changes until the block ends. */
  lemma {:induction false} NothingAfterTheFirst(st: State, es: seq<Event>)
    requires st.executed && Finalized !in es
    ensures Execute(st, es) == st
    decreases |es|
  {
    if es != [] {
      assert es[0] in es;
      NothingAfterTheFirst(Next(st, es[0]), es[1..]);
    }
  }

  /**
   The first inherent of a block decides: with two non-empty lists it installs both, and both stay as
   it left them, whatever is called before the block ends.
   */
  lemma FirstInherentDecides(st: State, council: seq<Member>, committee: seq<Member>, es: seq<Event>)
    requires !st.executed && council != [] && committee != [] && Finalized !in es
    ensures var st' := Execute(st, [Called(NoOrigin, council, committee)] + es);
            st'.council == Sorted(council) && st'.committee == Sorted(committee) && st'.executed
  {
    var e := Called(NoOrigin, council, committee);
    assert ([e] + es)[1..] == es;
    NothingAfterTheFirst(Next(st, e), es);
  }

  /** Only inherents count: a call with another origin can be struck from a run without a trace. */
  lemma {:induction false} OnlyInherentsCount(st: State, es: seq<Event>)
    ensures Execute(st, es) == Execute(st, Filter(es, NotFromOutside))
    decreases |es|
  {
    if es != [] {
      var rest := Filter(es[1..], NotFromOutside);
      OnlyInherentsCount(Next(st, es[0]), es[1..]);
      if NotFromOutside(es[0]) {
        assert ([es[0]] + rest)[1..] == rest;
      } else {
        assert [] + rest == rest;
      }
    }
  }

  predicate NotFromOutside(e: Event) {
    e.Called? ==> e.origin == NoOrigin
  }

  /** An indexer's view: each event sets a body, and an event that would change nothing is refused. */
  function ReplayBodies(council: Body, committee: Body, events: seq<ResetEvent>): (r: Option<(Body, Body)>)
    decreases |events|
  {
    if events == [] then Some((council, committee))
    else match events[0].kind
      case Council =>
        if events[0].body == council then None else ReplayBodies(events[0].body, committee, events[1..])
      case TechnicalCommittee =>
        if events[0].body == committee then None else ReplayBodies(council, events[0].body, events[1..])
  }

  lemma {:induction false} ReplayBodiesConcat(council: Body, committee: Body, a: seq<ResetEvent>, b: seq<ResetEvent>)
    requires ReplayBodies(council, committee, a).Some?
    ensures var (c, t) := ReplayBodies(council, committee, a).value;
            ReplayBodies(council, committee, a + b) == ReplayBodies(c, t, b)
    decreases |a|
  {
    if a == [] {
      assert a + b == b;
    } else {
      assert (a + b)[1..] == a[1..] + b;
      match a[0].kind
      case Council => ReplayBodiesConcat(a[0].body, committee, a[1..], b);
      case TechnicalCommittee => ReplayBodiesConcat(council, a[0].body, a[1..], b);
    }
  }

  lemma ResetReplays(st: State, council: seq<Member>, committee: seq<Member>)
    ensures var st' := Reset(st, council, committee);
            && st.events <= st'.events
            && ReplayBodies(st.council, st.committee, st'.events[|st.events|..]) == Some((st'.council, st'.committee))
  {
    EmptyBodyChangesNothing(st, council, committee);
    var st' := Reset(st, council, committee);
    var c, t := Changed(Council, st.council, st'.council), Changed(TechnicalCommittee, st.committee, st'.committee);
    if council != [] && committee != [] {
      assert st'.events[|st.events|..] == c + t;
      ChangesReplay(st.council, st.committee, st'.council, st'.committee);
    }
  }

  lemma ChangesReplay(council: Body, committee: Body, council': Body, committee': Body)
    ensures ReplayBodies(council, committee,
                         Changed(Council, council, council') + Changed(TechnicalCommittee, committee, committee')) ==
            Some((council', committee'))
  {
    var c, t := Changed(Council, council, council'), Changed(TechnicalCommittee, committee, committee');
    assert c == [] || c[1..] == [];
    assert t == [] || t[1..] == [];
    assert ReplayBodies(council, committee, c) == Some((council', committee));
    ReplayBodiesConcat(council, committee, c, t);
  }

  /** Of the events of one call, the council's comes first. */
  lemma CouncilIsReportedFirst(st: State, council: seq<Member>, committee: seq<Member>, i: nat, j: nat)
    requires var events := Reset(st, council, committee).events;
             |st.events| <= i < j < |events| && events[i].kind != events[j].kind
    ensures var events := Reset(st, council, committee).events;
            events[i].kind == Council && events[j].kind == TechnicalCommittee
  {
  }

  /**
   In every run the events tell an indexer exactly what is stored: replaying those deposited gives
   both bodies, and no event repeats what already was.
   */
  lemma {:induction false} EventsReplayBodies(g: State, st: State, es: seq<Event>)
    requires ReplayBodies(g.council, g.committee, st.events) == Some((st.council, st.committee))
    ensures var st' := Execute(st, es);
            ReplayBodies(g.council, g.committee, st'.events) == Some((st'.council, st'.committee))
    decreases |es|
  {
    if es != [] {
      var st1 := Next(st, es[0]);
      if es[0].Called? && Rejection(st, es[0].origin).None? {
        ResetReplays(st, es[0].council, es[0].committee);
        var added := st1.events[|st.events|..];
        assert st.events + added == st1.events;
        ReplayBodiesConcat(g.council, g.committee, st.events, added);
      }
      EventsReplayBodies(g, st1, es[1..]);
    }
  }

  /** Both bodies are those that one and the same call of the run carried, neither of them empty. */
  ghost predicate FromOneCall(st: State, es: seq<Event>) {
    exists e :: e in es && e.Called? && e.origin == NoOrigin && e.council != [] && e.committee != [] &&
                st.council == Sorted(e.council) && st.committee == Sorted(e.committee)
  }

  /**
   In every run the two bodies change together: they are still the first ones, or they come from one
   call.  A call with an empty body on either side, however valid the other, never shows.
   */
  lemma {:induction false} BodiesComeTogether(st: State, es: seq<Event>)
    ensures var st' := Execute(st, es);
            (st'.council == st.council && st'.committee == st.committee) || FromOneCall(st', es)
    decreases |es|
  {
    if es != [] {
      var e, st1, st' := es[0], Next(st, es[0]), Execute(st, es);
      BodiesComeTogether(st1, es[1..]);
      assert e in es && forall x :: x in es[1..] ==> x in es;
      if e.Called? { EmptyBodyChangesNothing(st, e.council, e.committee); }
      assert (st1.council == st.council && st1.committee == st.committee) || FromOneCall(st1, [e]);
      if st'.council == st1.council && st'.committee == st1.committee && FromOneCall(st1, [e]) {
        assert FromOneCall(st', es);
      } else if FromOneCall(st', es[1..]) {
        assert FromOneCall(st', es);
      }
    }
  }

  // Duplicates

  ghost predicate AllDifferent<T>(s: seq<T>) {
    forall i, j :: 0 <= i < j < |s| ==> s[i] != s[j]
  }

  lemma {:induction false} ElementsCount<T>(s: seq<T>)
    ensures |Elements(s)| <= |s|
    ensures |Elements(s)| == |s| <==> AllDifferent(s)
  {
    if s == [] {
      assert Elements(s) == {};
    } else {
      ElementsCount(s[1..]);
      assert Elements(s) == {s[0]} + Elements(s[1..]);
      if s[0] in s[1..] {
        assert Elements(s) == Elements(s[1..]);
        var j :| 0 <= j < |s[1..]| && s[1..][j] == s[0];
        assert s[j + 1] == s[0];
      } else {
        assert AllDifferent(s[1..]) ==> AllDifferent(s) by {
          forall i, j | 0 <= i < j < |s| && AllDifferent(s[1..]) ensures s[i] != s[j] {
            assert s[j] == s[1..][j - 1];
            if i > 0 { assert s[i] == s[1..][i - 1]; }
          }
        }
      }
    }
  }

  /** The size comparison finds a duplicate exactly when two positions hold one account. */
  lemma DuplicatedIff(ms: seq<Member>)
    ensures HasDuplicatedMembers(ms) <==> exists i, j :: 0 <= i < j < |ms| && ms[i].account == ms[j].account
  {
    var accounts := Accounts(ms);
    ElementsCount(accounts);
    if i, j :| 0 <= i < j < |ms| && ms[i].account == ms[j].account {
      assert accounts[i] == accounts[j];
    }
    if !AllDifferent(accounts) {
      var i, j :| 0 <= i < j < |accounts| && accounts[i] == accounts[j];
      assert ms[i].account == ms[j].account;
    }
  }

  // The inherent

  datatype Authority = Authority(key: seq<Byte>, mainchain: MainchainMember)

  datatype InherentData = Undecodable | Absent | Present(council: seq<Authority>, committee: seq<Authority>)

  datatype InherentError = DecodeFailed | TooManyMembers | CouncilMembersMismatch | TechnicalCommitteeMembersMismatch

  datatype Limits = Limits(council: nat, committee: nat)

  datatype InherentCall = ResetCall(council: seq<Member>, committee: seq<Member>) | OtherCall

  /** An account is the first 32 bytes of a key; a shorter key does not decode. */
  function DecodeKeys(auths: seq<Authority>): (r: Option<seq<Member>>) {
    if auths == [] then Some([])
    else if |auths[0].key| < 32 then None
    else match DecodeKeys(auths[1..])
      case None => None
      case Some(rest) => Some([Member(auths[0].key[..32], auths[0].mainchain)] + rest)
  }

  function DecodeAuthMembers(auths: seq<Authority>, max: nat): (r: Result<seq<Member>, InherentError>) {
    match DecodeKeys(auths)
    case None => Err(DecodeFailed)
    case Some(members) => if |members| > max then Err(TooManyMembers) else Ok(members)
  }

  function CreateInherent(limits: Limits, data: InherentData): (call: Option<InherentCall>) {
    if !data.Present? then None
    else
      match (DecodeAuthMembers(data.council, limits.council), DecodeAuthMembers(data.committee, limits.committee))
      case (Ok(council), Ok(committee)) =>
        if council == [] || committee == [] then None
        else if HasDuplicatedMembers(council) || HasDuplicatedMembers(committee) then None
        else Some(ResetCall(council, committee))
      case _ => None
  }

  function CheckInherent(limits: Limits, call: InherentCall, data: InherentData): (r: Result<(), InherentError>) {
    match data
    case Undecodable => Err(DecodeFailed)
    case Absent => Ok(())
    case Present(councilData, committeeData) =>
      var council := DecodeAuthMembers(councilData, limits.council);
      if council.Err? then Err(council.error)
      else
        var committee := DecodeAuthMembers(committeeData, limits.committee);
        if committee.Err? then Err(committee.error)
        else match call
          case OtherCall => Ok(())
          case ResetCall(c, t) =>
            if council.value != c then Err(CouncilMembersMismatch)
            else if committee.value != t then Err(TechnicalCommitteeMembersMismatch)
            else Ok(())
  }

  /** Each decoded member is the authority at its position. */
  lemma {:induction false} DecodedMembers(auths: seq<Authority>)
    ensures DecodeKeys(auths).Some? <==> forall i :: 0 <= i < |auths| ==> |auths[i].key| >= 32
    ensures DecodeKeys(auths).Some? ==>
              && |DecodeKeys(auths).value| == |auths|
              && forall i :: 0 <= i < |auths| ==>
                   DecodeKeys(auths).value[i] == Member(auths[i].key[..32], auths[i].mainchain)
  {
    if auths != [] {
      DecodedMembers(auths[1..]);
      if DecodeKeys(auths).Some? {
        forall i | 0 <= i < |auths| ensures |auths[i].key| >= 32 {
          if i > 0 { assert auths[i] == auths[1..][i - 1]; }
        }
      }
    }
  }

  /** `b` holds exactly the pairs `ms`, each once, in strictly ascending account order. */
  ghost predicate Installs(b: Body, ms: seq<Member>) {
    && |b.accounts| == |b.mainchain|
    && multiset(Zip(b)) == multiset(ms)
    && StrictlyAscending(b.accounts)
  }

  lemma DistinctInstalls(ms: seq<Member>)
    requires ms != [] && !HasDuplicatedMembers(ms)
    ensures Installs(Sorted(ms), ms)
  {
    InstalledPairs(ms, ms[0]);
    DistinctAccountsAscend(ms);
  }

  /** A call the pallet creates is its data, decoded, and passes the check on that data. */
  lemma CreatedInherentPassesCheck(limits: Limits, data: InherentData)
    requires CreateInherent(limits, data).Some?
    ensures var call := CreateInherent(limits, data).value;
            && call.ResetCall?
            && CheckInherent(limits, call, data) == Ok(())
            && DecodeKeys(data.council) == Some(call.council) && DecodeKeys(data.committee) == Some(call.committee)
            && call.council != [] && !HasDuplicatedMembers(call.council)
            && call.committee != [] && !HasDuplicatedMembers(call.committee)
  {
    var council := DecodeAuthMembers(data.council, limits.council);
    var committee := DecodeAuthMembers(data.committee, limits.committee);
    assert council.Ok? && committee.Ok?;
    assert CreateInherent(limits, data).value == ResetCall(council.value, committee.value);
  }

  /** Whether an inherent is created, once the keys decode. */
  predicate Acceptable(ms: seq<Member>, max: nat) {
    0 < |ms| <= max && !HasDuplicatedMembers(ms)
  }

  lemma CreatesIff(limits: Limits, data: InherentData, council: seq<Member>, committee: seq<Member>)
    requires data.Present? && DecodeKeys(data.council) == Some(council) && DecodeKeys(data.committee) == Some(committee)
    ensures CreateInherent(limits, data) ==
            if Acceptable(council, limits.council) && Acceptable(committee, limits.committee)
            then Some(ResetCall(council, committee)) else None
  {
    assert DecodeAuthMembers(data.council, limits.council) ==
           if |council| > limits.council then Err(TooManyMembers) else Ok(council);
    assert DecodeAuthMembers(data.committee, limits.committee) ==
           if |committee| > limits.committee then Err(TooManyMembers) else Ok(committee);
  }

  /** Dispatched in a fresh block, it installs exactly those members, whatever was stored before. */
  lemma CreatedInherentInstallsItsData(limits: Limits, data: InherentData, st: State)
    requires CreateInherent(limits, data).Some? && !st.executed
    ensures var call := CreateInherent(limits, data).value;
            && call.ResetCall? && Rejection(st, NoOrigin).None?
            && Installs(Reset(st, call.council, call.committee).council, call.council)
            && Installs(Reset(st, call.council, call.committee).committee, call.committee)
  {
    CreatedInherentPassesCheck(limits, data);
    var call := CreateInherent(limits, data).value;
    InstallsBoth(st, call.council, call.committee);
  }

  lemma InstallsBoth(st: State, council: seq<Member>, committee: seq<Member>)
    requires council != [] && !HasDuplicatedMembers(council)
    requires committee != [] && !HasDuplicatedMembers(committee)
    ensures Installs(Reset(st, council, committee).council, council)
    ensures Installs(Reset(st, council, committee).committee, committee)
  {
    DistinctInstalls(council);
    DistinctInstalls(committee);
    EmptyBodyChangesNothing(st, council, committee);
  }

  ghost predicate StrictlyAscending(accounts: seq<AccountId>) {
    forall i, j :: 0 <= i < j < |accounts| ==> AccountLe(accounts[i], accounts[j]) && accounts[i] != accounts[j]
  }

  lemma {:induction false} AccountMember(ms: seq<Member>, a: AccountId)
    ensures a in Accounts(ms) <==> exists m :: m in multiset(ms) && m.account == a
  {
    if a in Accounts(ms) {
      var i :| 0 <= i < |ms| && Accounts(ms)[i] == a;
      assert ms[i] in multiset(ms) && ms[i].account == a;
    }
    if m :| m in multiset(ms) && m.account == a {
      var i :| 0 <= i < |ms| && ms[i] == m;
      assert Accounts(ms)[i] == a;
    }
  }

  lemma RearrangedAccounts(ms: seq<Member>, ns: seq<Member>)
    requires multiset(ms) == multiset(ns)
    ensures Elements(Accounts(ms)) == Elements(Accounts(ns))
  {
    forall a ensures a in Accounts(ms) <==> a in Accounts(ns) {
      AccountMember(ms, a);
      AccountMember(ns, a);
    }
  }

  lemma DistinctAccountsAscend(ms: seq<Member>)
    requires !HasDuplicatedMembers(ms)
    ensures StrictlyAscending(Sorted(ms).accounts)
  {
    var ss := Sort(MemberLe, ms);
    SortPermutes(MemberLe, ms);
    RearrangedAccounts(ms, ss);
    ElementsCount(Accounts(ss));
    AccountsAscend(ms);
  }

  /** A reset call passes the check exactly when it carries the decoded data, in the data's own order. */
  lemma CheckedCallIsTheData(limits: Limits, council: seq<Member>, committee: seq<Member>, data: InherentData)
    requires data.Present?
    ensures CheckInherent(limits, ResetCall(council, committee), data) == Ok(()) <==>
            DecodeAuthMembers(data.council, limits.council) == Ok(council) &&
            DecodeAuthMembers(data.committee, limits.committee) == Ok(committee)
  {
  }

  /** Every key of the list is long enough for an account. */
  predicate KeysAreLong(auths: seq<Authority>) {
    forall i :: 0 <= i < |auths| ==> |auths[i].key| >= 32
  }

  /** `ms` is the list, account by account and id by id. */
  ghost predicate Carries(ms: seq<Member>, auths: seq<Authority>) {
    && |ms| == |auths|
    && forall i :: 0 <= i < |ms| ==>
         |auths[i].key| >= 32 && ms[i].account == auths[i].key[..32] && ms[i].mainchain == auths[i].mainchain
  }

  lemma DecodesTo(auths: seq<Authority>, max: nat, ms: seq<Member>)
    ensures DecodeAuthMembers(auths, max) == Err(DecodeFailed) <==> !KeysAreLong(auths)
    ensures DecodeAuthMembers(auths, max) == Err(TooManyMembers) <==> KeysAreLong(auths) && |auths| > max
    ensures DecodeAuthMembers(auths, max) == Ok(ms) <==> Carries(ms, auths) && |auths| <= max
  {
    DecodedMembers(auths);
    if Carries(ms, auths) {
      assert KeysAreLong(auths);
      assert DecodeKeys(auths).value == ms;
    }
  }

  /**
   What the check reports, in full, for a reset call on present data: a key too short, a list too long
   (the council's first), then the first list that is not the data's.  Without a call or without data
   it lets the rest through.
   */
  lemma CheckReports(limits: Limits, c: seq<Member>, t: seq<Member>, cs: seq<Authority>, ts: seq<Authority>)
    ensures CheckInherent(limits, OtherCall, Absent) == CheckInherent(limits, ResetCall(c, t), Absent) == Ok(())
    ensures CheckInherent(limits, ResetCall(c, t), Undecodable) == Err(DecodeFailed)
    ensures var r := CheckInherent(limits, ResetCall(c, t), Present(cs, ts));
            var councilFits := KeysAreLong(cs) && |cs| <= limits.council;
            var fits := councilFits && KeysAreLong(ts) && |ts| <= limits.committee;
            && (r == Err(DecodeFailed) <==> !KeysAreLong(cs) || (councilFits && !KeysAreLong(ts)))
            && (r == Err(TooManyMembers) <==>
                if !councilFits then KeysAreLong(cs) else KeysAreLong(ts) && |ts| > limits.committee)
            && (r == Err(CouncilMembersMismatch) <==> fits && !Carries(c, cs))
            && (r == Err(TechnicalCommitteeMembersMismatch) <==> fits && Carries(c, cs) && !Carries(t, ts))
            && (r == Ok(()) <==> fits && Carries(c, cs) && Carries(t, ts))
  {
    DecodesTo(cs, limits.council, c);
    DecodesTo(ts, limits.committee, t);
  }

  /** The data admits one reset call at most. */
  lemma CheckAdmitsOneCall(limits: Limits, x: InherentCall, y: InherentCall, data: InherentData)
    requires data.Present? && x.ResetCall? && y.ResetCall?
    requires CheckInherent(limits, x, data) == Ok(()) && CheckInherent(limits, y, data) == Ok(())
    ensures x == y
  {
    CheckedCallIsTheData(limits, x.council, x.committee, data);
    CheckedCallIsTheData(limits, y.council, y.committee, data);
  }

  /**
   The check admits calls that creation would not make.  A reset call that passes it installs both
   bodies, each member once, whatever was stored before, exactly when the pallet itself creates that
   call from the data; otherwise an empty body leaves the old ones or an account is installed twice.
   */
  lemma CheckedCallInstallsIff(limits: Limits, council: seq<Member>, committee: seq<Member>, data: InherentData)
    requires data.Present? && CheckInherent(limits, ResetCall(council, committee), data) == Ok(())
    ensures (forall st: State :: InstallsFrom(st, council, committee)) <==>
            CreateInherent(limits, data) == Some(ResetCall(council, committee))
    ensures forall call: InherentCall ::
              call.ResetCall? && CheckInherent(limits, call, data) == Ok(()) ==> call == ResetCall(council, committee)
  {
    forall call: InherentCall | call.ResetCall? && CheckInherent(limits, call, data) == Ok(())
      ensures call == ResetCall(council, committee)
    {
      CheckAdmitsOneCall(limits, call, ResetCall(council, committee), data);
    }
    CheckedCallIsTheData(limits, council, committee, data);
    var created :=
      council != [] && committee != [] && !HasDuplicatedMembers(council) && !HasDuplicatedMembers(committee);
    assert created <==> CreateInherent(limits, data) == Some(ResetCall(council, committee));
    if created {
      forall st: State ensures InstallsFrom(st, council, committee) { InstallsBoth(st, council, committee); }
    } else if council == [] || committee == [] {
      NothingInstalled(council, committee);
    } else {
      var st := State(Body([], []), Body([], []), false, []);
      if HasDuplicatedMembers(council) { DuplicateNotInstalled(council); } else { DuplicateNotInstalled(committee); }
      assert !InstallsFrom(st, council, committee);
    }
  }

  ghost predicate InstallsFrom(st: State, council: seq<Member>, committee: seq<Member>) {
    && Installs(Reset(st, council, committee).council, council)
    && Installs(Reset(st, council, committee).committee, committee)
  }

  /** With an empty list, a body of another size stays. */
  lemma NothingInstalled(council: seq<Member>, committee: seq<Member>)
    requires council == [] || committee == []
    ensures exists st: State :: !InstallsFrom(st, council, committee)
  {
    var m: Hash32 := seq(32, i => 0);
    var other := if council == [] then Body([m], [[]]) else Body([], []);
    var st := State(other, other, false, []);
    assert |Zip(other)| == |multiset(Zip(other))|;
    assert |council| == |multiset(council)|;
    assert !Installs(other, council);
    assert !InstallsFrom(st, council, committee);
  }

  lemma DuplicateNotInstalled(ms: seq<Member>)
    requires HasDuplicatedMembers(ms)
    ensures !Installs(Sorted(ms), ms)
  {
    var ss := Sort(MemberLe, ms);
    SortPermutes(MemberLe, ms);
    RearrangedAccounts(ms, ss);
    ElementsCount(Accounts(ss));
    assert !AllDifferent(Accounts(ss));
  }
}

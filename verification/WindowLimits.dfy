/** Histories at which the limits of the follower's queries matter. */
module WindowLimits {
  import opened Common
  import opened CnightTypes
  import opened CnightChain
  import opened FollowerRows
  import opened ObservationWindow
  import opened Ordering
  import opened Sorting

  function AsRows(us: seq<ObservedUtxo>): (rows: seq<Row>)
    ensures |rows| == |us|
  {
    seq(|us|, i requires 0 <= i < |us| => Decodes(us[i]))
  }

  lemma {:induction false} DecodedAsRows(us: seq<ObservedUtxo>)
    ensures Decoded(AsRows(us)) == us
  {
    if us != [] {
      assert AsRows(us)[1..] == AsRows(us[1..]);
      DecodedAsRows(us[1..]);
    }
  }

  lemma {:induction false} NoneDecode(rows: seq<Row>)
    requires forall r :: r in rows ==> r.Fails?
    ensures Decoded(rows) == []
  {
    if rows != [] {
      assert rows[0] in rows;
      NoneDecode(rows[1..]);
    }
  }

  /** What is fetched when only creates and spends match. */
  lemma FetchedFrom(table: seq<Row>, start: CardanoPosition, end: CardanoPosition, limit: nat, creates: seq<Row>,
                    spends: seq<Row>)
    requires Matching(table, RegisterKind, start, end) == [] && Matching(table, DeregisterKind, start, end) == []
    requires Matching(table, CreateKind, start, end) == creates && Matching(table, SpendKind, start, end) == spends
    requires |spends| <= limit
    ensures Fetched(table, start, end, limit) ==
            Decoded(if |creates| <= limit then creates else creates[..limit]) + Decoded(spends)
  {
    assert Query(table, RegisterKind, start, end, limit) == [] && Query(table, DeregisterKind, start, end, limit) == [];
    assert Decoded([]) == [];
  }

  /** If all rows are creates in the range, one query brings the first of them and the others nothing. */
  lemma OnlyCreates(table: seq<Row>, start: CardanoPosition, end: CardanoPosition, limit: nat)
    requires forall r :: r in table ==> RowKind(r) == CreateKind && InRange(RowPosition(r), start, end)
    ensures Fetched(table, start, end, limit) == Decoded(if |table| <= limit then table else table[..limit])
  {
    FilterAll(table, RowIn(CreateKind, start, end));
    FilterNone(table, RowIn(RegisterKind, start, end));
    FilterNone(table, RowIn(DeregisterKind, start, end));
    FilterNone(table, RowIn(SpendKind, start, end));
    FetchedFrom(table, start, end, limit, table, []);
  }

  lemma SliceOfOne(u: ObservedUtxo, start: CardanoPosition, end: CardanoPosition)
    requires InRange(u.header.position, start, end)
    ensures Slice([u], start, end) == [u]
  {
    FilterAll([u], UtxoIn(start, end));
  }

  /** Merged rows of fewer transactions than the capacity are kept whole, and the window reaches the tip. */
  lemma AllIsKept(table: seq<Row>, start: CardanoPosition, tip: CardanoPosition, capacity: nat, us: seq<ObservedUtxo>)
    requires Merged(table, start, tip, capacity) == us && InPositionOrder(us) && CountTxs(us, |us|) < capacity
    ensures WindowOf(table, start, tip, capacity) == Window(Increment(tip), us)
  {
    forall i | 0 < i <= |us| ensures CountTxs(us, i) < capacity {
      CountsRise(us, i, |us|);
    }
    assert IsCut(us, capacity, |us|);
    CutUnique(us, capacity, |us|);
  }

  // Rows that do not decode

  /**
   Rows that do not decode use up the limit.  With a full load of them ahead, in any transactions, an
   ordinary create is not fetched, and the window still ends after it: it is never seen.
   */
  lemma UndecodableRowsHideACreate(junk: seq<Row>, start: CardanoPosition, u: ObservedUtxo, capacity: nat)
    requires capacity >= 1 && |junk| == capacity * UTXOS_PER_TX && RowsInOrder(junk)
    requires forall r :: r in junk ==> r.Fails? && r.kind.CreateKind? && !Before(r.header.position, start) &&
                                       !Before(u.header.position, r.header.position)
    requires u.data.AssetCreate? && !Before(u.header.position, start) && Incrementable(u.header.position)
    ensures var table, tip := junk + [Decodes(u)], u.header.position;
            && TableOf(table, [u])
            && WindowOf(table, start, tip, capacity) == Window(Increment(tip), [])
            && Slice([u], start, Increment(tip)) == [u]
  {
    var tip := u.header.position;
    forall p ensures Before(p, Increment(tip)) <==> !Before(tip, p) { IncrementIsNext(tip, p); }
    NothingFetched(junk, u, start, Increment(tip), capacity * UTXOS_PER_TX);
    HistoryOfOne(junk, u);
    SliceOfOne(u, start, Increment(tip));
  }

  lemma NothingFetched(junk: seq<Row>, u: ObservedUtxo, start: CardanoPosition, end: CardanoPosition, limit: nat)
    requires |junk| == limit && u.data.AssetCreate? && InRange(u.header.position, start, end)
    requires forall r :: r in junk ==> r.Fails? && r.kind.CreateKind? && InRange(r.header.position, start, end)
    ensures Fetched(junk + [Decodes(u)], start, end, limit) == []
  {
    OnlyCreates(junk + [Decodes(u)], start, end, limit);
    assert (junk + [Decodes(u)])[..|junk|] == junk;
    NoneDecode(junk);
  }

  lemma HistoryOfOne(junk: seq<Row>, u: ObservedUtxo)
    requires Incrementable(u.header.position) && RowsInOrder(junk)
    requires forall r :: r in junk ==> r.Fails? && !Before(u.header.position, r.header.position)
    ensures TableOf(junk + [Decodes(u)], [u])
  {
    var table := junk + [Decodes(u)];
    NoneDecode(junk);
    DecodedConcat(junk, [Decodes(u)]);
    assert [Decodes(u)][1..] == [];
    forall i, j | 0 <= i < j < |table| ensures !Before(RowPosition(table[j]), RowPosition(table[i])) {
      assert junk[i] in junk;
    }
  }

  // Large transactions

  const CROWD := 129

  function At(p: CardanoPosition, i: U32): (q: CardanoPosition) {
    p.(txIndex := i)
  }

  /** The `j`-th create of a row of transactions with 129 creates each. */
  function CrowdMember(p: CardanoPosition, tx: nat -> Hash32, owner: Address, j: nat): (u: ObservedUtxo)
    requires j / CROWD < 0xFFFF_FFFF
  {
    var output := OutPoint(tx(j / CROWD), j % CROWD);
    ObservedUtxo(Header(At(p, j / CROWD), tx(j / CROWD), output), AssetCreate(1, owner, output))
  }

  /** The first `n` creates of such transactions in one block. */
  function Crowd(p: CardanoPosition, tx: nat -> Hash32, owner: Address, n: nat): (us: seq<ObservedUtxo>)
    requires n <= CROWD * 0xFFFF_FFFF
    ensures |us| == n
  {
    seq(n, j requires 0 <= j < n => CrowdMember(p, tx, owner, j))
  }

  lemma CrowdMembersInOrder(p: CardanoPosition, tx: nat -> Hash32, owner: Address, i: nat, j: nat)
    requires i < j && j / CROWD < 0xFFFF_FFFF
    ensures var x, y := CrowdMember(p, tx, owner, i), CrowdMember(p, tx, owner, j);
            && UtxoLe(x, y) && !UtxoLe(y, x) && !Before(y.header.position, x.header.position)
            && (j == i + 1 ==> (Before(x.header.position, y.header.position) <==> j % CROWD == 0))
  {
    assert i / CROWD <= j / CROWD;
    assert i / CROWD == j / CROWD ==> i % CROWD < j % CROWD;
  }

  lemma CrowdIsStrict(p: CardanoPosition, tx: nat -> Hash32, owner: Address, n: nat)
    requires n <= CROWD * 0xFFFF_FFFF
    ensures var us := Crowd(p, tx, owner, n);
            StrictlySorted(us) && SortedBy(UtxoLe, us) && InPositionOrder(us)
  {
    var us := Crowd(p, tx, owner, n);
    forall i, j | 0 <= i < j < n
      ensures UtxoLe(us[i], us[j]) && !UtxoLe(us[j], us[i]) && !Before(us[j].header.position, us[i].header.position)
    {
      CrowdMembersInOrder(p, tx, owner, i, j);
    }
  }

  /** The first `i` creates run through one transaction for every 129 or part of it. */
  lemma {:induction false} CrowdCount(p: CardanoPosition, tx: nat -> Hash32, owner: Address, n: nat, i: nat)
    requires i <= n <= CROWD * 0xFFFF_FFFF
    ensures CountTxs(Crowd(p, tx, owner, n), i) == (i + CROWD - 1) / CROWD
    decreases i
  {
    if i > 0 {
      CrowdCount(p, tx, owner, n, i - 1);
      OneMoreCreate(i);
      if i > 1 {
        CrowdMembersInOrder(p, tx, owner, i - 2, i - 1);
      }
    }
  }

  lemma OneMoreCreate(i: nat)
    requires i > 0
    ensures (i + CROWD - 1) / CROWD == (i - 1 + CROWD - 1) / CROWD + if (i - 1) % CROWD == 0 then 1 else 0
  {
  }

  lemma CrowdTxs(capacity: nat, n: nat)
    requires capacity >= 2 && n == capacity * UTXOS_PER_TX
    ensures n < CROWD * (capacity - 1) && (n + CROWD - 1) / CROWD < capacity
  {
  }

  lemma CrowdInRange(p: CardanoPosition, tx: nat -> Hash32, owner: Address, n: nat, last: U32)
    requires last < 0xFFFF_FFFF && n <= CROWD * (last + 1)
    ensures forall u :: u in Crowd(p, tx, owner, n) ==>
              && u.data.AssetCreate? && IsCreate(u.header) && Incrementable(u.header.position)
              && InRange(u.header.position, At(p, 0), Increment(At(p, last)))
              && !Before(At(p, last), u.header.position)
  {
    forall u | u in Crowd(p, tx, owner, n) ensures u.header.position.txIndex <= last {
      var j :| 0 <= j < n && CrowdMember(p, tx, owner, j) == u;
    }
  }

  lemma TableOfRows(us: seq<ObservedUtxo>)
    requires StrictlySorted(us) && forall u :: u in us ==> Incrementable(u.header.position)
    ensures TableOf(AsRows(us), us)
  {
    DecodedAsRows(us);
    var table := AsRows(us);
    forall i, j | 0 <= i < j < |table| ensures !Before(RowPosition(table[j]), RowPosition(table[i])) {
      assert UtxoLe(us[i], us[j]);
    }
  }

  lemma FirstCreatesFetched(us: seq<ObservedUtxo>, start: CardanoPosition, end: CardanoPosition, limit: nat)
    requires limit < |us|
    requires forall u :: u in us ==> u.data.AssetCreate? && InRange(u.header.position, start, end)
    ensures Fetched(AsRows(us), start, end, limit) == us[..limit]
  {
    forall r | r in AsRows(us) ensures RowKind(r) == CreateKind && InRange(RowPosition(r), start, end) {
      var i :| 0 <= i < |us| && Decodes(us[i]) == r;
      assert us[i] in us;
    }
    OnlyCreates(AsRows(us), start, end, limit);
    assert AsRows(us)[..limit] == AsRows(us[..limit]);
    DecodedAsRows(us[..limit]);
  }

  /**
   Nothing holds transactions to 64 UTXOs.  At every capacity, transactions of 129 creates, one fewer
   than the capacity, make the follower lose all but 64 for each transaction of capacity.
   */
  lemma LargeTransactionsLoseCreates(p: CardanoPosition, tx: nat -> Hash32, owner: Address, capacity: U32)
    requires capacity >= 2
    ensures var history := Crowd(p, tx, owner, CROWD * (capacity - 1));
            var start, tip := At(p, 0), At(p, capacity - 2);
            && TableOf(AsRows(history), history) && |history| > capacity * UTXOS_PER_TX
            && Slice(history, start, Increment(tip)) == history
            && WindowOf(AsRows(history), start, tip, capacity) ==
               Window(Increment(tip), history[..capacity * UTXOS_PER_TX])
  {
    var limit := capacity * UTXOS_PER_TX;
    var history, kept := Crowd(p, tx, owner, CROWD * (capacity - 1)), Crowd(p, tx, owner, limit);
    var start, tip := At(p, 0), At(p, capacity - 2);
    CrowdTxs(capacity, limit);
    CrowdIsStrict(p, tx, owner, CROWD * (capacity - 1));
    CrowdIsStrict(p, tx, owner, limit);
    CrowdInRange(p, tx, owner, CROWD * (capacity - 1), capacity - 2);
    assert history[..limit] == kept;
    TableOfRows(history);
    FilterAll(history, UtxoIn(start, Increment(tip)));
    FirstCreatesFetched(history, start, Increment(tip), limit);
    SortKeepsSorted(UtxoLe, kept);
    CrowdCount(p, tx, owner, limit, limit);
    AllIsKept(AsRows(history), start, tip, capacity, kept);
  }

  // Windows too large for the call

  lemma RowsOfCreates(us: seq<ObservedUtxo>, start: CardanoPosition, end: CardanoPosition, k: Kind)
    requires forall u :: u in us ==> u.data.AssetCreate? && InRange(u.header.position, start, end)
    ensures Filter(AsRows(us), RowIn(k, start, end)) == if k.CreateKind? then AsRows(us) else []
  {
    forall r | r in AsRows(us) ensures RowKind(r) == CreateKind && InRange(RowPosition(r), start, end) {
      var i :| 0 <= i < |us| && Decodes(us[i]) == r;
      assert us[i] in us;
    }
    if k.CreateKind? {
      FilterAll(AsRows(us), RowIn(k, start, end));
    } else {
      FilterNone(AsRows(us), RowIn(k, start, end));
    }
  }

  lemma CreatesAndASpend(us: seq<ObservedUtxo>, s: ObservedUtxo, start: CardanoPosition, end: CardanoPosition,
                         limit: nat)
    requires (forall u :: u in us ==> u.data.AssetCreate? && InRange(u.header.position, start, end)) && |us| <= limit
    requires s.data.AssetSpend? && InRange(s.header.position, start, end) && limit >= 1
    ensures Fetched(AsRows(us) + [Decodes(s)], start, end, limit) == us + [s]
  {
    var table := AsRows(us) + [Decodes(s)];
    assert [Decodes(s)][1..] == [];
    forall k: Kind ensures Matching(table, k, start, end) ==
                           (if k.CreateKind? then AsRows(us) else []) + (if k.SpendKind? then [Decodes(s)] else [])
    {
      FilterConcat(AsRows(us), [Decodes(s)], RowIn(k, start, end));
      RowsOfCreates(us, start, end, k);
    }
    FetchedFrom(table, start, end, limit, AsRows(us), [Decodes(s)]);
    DecodedAsRows(us);
  }

  lemma SpendComesLast(us: seq<ObservedUtxo>, s: ObservedUtxo)
    requires StrictlySorted(us) && !IsCreate(s.header)
    requires forall u :: u in us ==> IsCreate(u.header) && !Before(s.header.position, u.header.position)
    ensures StrictlySorted(us + [s]) && SortedBy(UtxoLe, us + [s])
  {
    var all := us + [s];
    forall i, j | 0 <= i < j < |all| ensures UtxoLe(all[i], all[j]) && !UtxoLe(all[j], all[i]) {
      assert us[i] in us;
    }
  }

  lemma {:induction false} CountOfFirst(us: seq<ObservedUtxo>, s: ObservedUtxo, i: nat)
    requires i <= |us|
    ensures CountTxs(us + [s], i) == CountTxs(us, i)
    decreases i
  {
    if i > 0 {
      CountOfFirst(us, s, i - 1);
    }
  }

  /** Creates up to the tip, in order, and a spend in the last of their transactions. */
  ghost predicate SpendAtTip(us: seq<ObservedUtxo>, s: ObservedUtxo, start: CardanoPosition, tip: CardanoPosition) {
    && us != [] && StrictlySorted(us) && Incrementable(tip)
    && (forall u :: u in us ==> && u.data.AssetCreate? && IsCreate(u.header) && Incrementable(u.header.position)
                                && !Before(u.header.position, start) && !Before(tip, u.header.position))
    && s.data.AssetSpend? && !IsCreate(s.header) && s.header.position == tip == us[|us| - 1].header.position
  }

  lemma MergedCreatesAndASpend(us: seq<ObservedUtxo>, s: ObservedUtxo, start: CardanoPosition, tip: CardanoPosition,
                               capacity: nat)
    requires SpendAtTip(us, s, start, tip) && |us| <= capacity * UTXOS_PER_TX
    ensures StrictlySorted(us + [s]) && InPositionOrder(us + [s])
    ensures Merged(AsRows(us) + [Decodes(s)], start, tip, capacity) == us + [s]
  {
    assert us[|us| - 1] in us;
    forall p ensures Before(p, Increment(tip)) <==> !Before(tip, p) { IncrementIsNext(tip, p); }
    CreatesAndASpend(us, s, start, Increment(tip), capacity * UTXOS_PER_TX);
    SpendComesLast(us, s);
    SortKeepsSorted(UtxoLe, us + [s]);
    SortedInPositionOrder(us + [s]);
  }

  lemma CountWithSpend(us: seq<ObservedUtxo>, s: ObservedUtxo)
    requires us != [] && s.header.position == us[|us| - 1].header.position
    ensures CountTxs(us + [s], |us| + 1) == CountTxs(us, |us|)
  {
    CountOfFirst(us, s, |us|);
  }

  lemma WindowOfCreatesAndASpend(us: seq<ObservedUtxo>, s: ObservedUtxo, start: CardanoPosition, tip: CardanoPosition,
                                 capacity: nat)
    requires SpendAtTip(us, s, start, tip) && |us| <= capacity * UTXOS_PER_TX && CountTxs(us, |us|) < capacity
    ensures WindowOf(AsRows(us) + [Decodes(s)], start, tip, capacity) == Window(Increment(tip), us + [s])
  {
    MergedCreatesAndASpend(us, s, start, tip, capacity);
    CountWithSpend(us, s);
    AllIsKept(AsRows(us) + [Decodes(s)], start, tip, capacity, us + [s]);
  }

  lemma HistoryOfCreatesAndASpend(us: seq<ObservedUtxo>, s: ObservedUtxo, start: CardanoPosition, tip: CardanoPosition)
    requires SpendAtTip(us, s, start, tip)
    ensures TableOf(AsRows(us) + [Decodes(s)], us + [s]) && Slice(us + [s], start, Increment(tip)) == us + [s]
  {
    var all := us + [s];
    assert us[|us| - 1] in us;
    forall p ensures Before(p, Increment(tip)) <==> !Before(tip, p) { IncrementIsNext(tip, p); }
    SpendComesLast(us, s);
    TableOfRows(all);
    assert AsRows(all) == AsRows(us) + [Decodes(s)];
    FilterAll(all, UtxoIn(start, Increment(tip)));
  }

  /** A spend of output 0 of another transaction. */
  function SpendIn(p: CardanoPosition, tx: Hash32, owner: Address, other: Hash32): (s: ObservedUtxo) {
    ObservedUtxo(Header(p, tx, OutPoint(other, 0)), AssetSpend(1, owner, OutPoint(other, 0), tx))
  }

  lemma CrowdAndSpend(p: CardanoPosition, tx: nat -> Hash32, owner: Address, other: Hash32, n: nat)
    requires 0 < n <= CROWD * 0xFFFF_FFFF && other != tx((n - 1) / CROWD)
    ensures var last := (n - 1) / CROWD;
            SpendAtTip(Crowd(p, tx, owner, n), SpendIn(At(p, last), tx(last), owner, other), At(p, 0), At(p, last))
  {
    CrowdIsStrict(p, tx, owner, n);
    CrowdInRange(p, tx, owner, n, (n - 1) / CROWD);
    assert Crowd(p, tx, owner, n)[n - 1] == CrowdMember(p, tx, owner, n - 1);
  }

  /**
   A complete window can be too large for the call.  At every capacity from 2 up to 2^26, a window of
   64 creates for each transaction of capacity and one spend is complete and refused.
   */
  lemma CompleteWindowIsRejected(st: PalletState, p: CardanoPosition, tx: nat -> Hash32, owner: Address, other: Hash32,
                                 systemTx: SystemTx)
    requires 2 <= st.capacity < 0x400_0000 && st.position == At(p, 0)
    requires other != tx((st.capacity * UTXOS_PER_TX - 1) / CROWD)
    ensures var n := st.capacity * UTXOS_PER_TX;
            var last := (n - 1) / CROWD;
            var tip, creates := At(p, last), Crowd(p, tx, owner, n);
            var spend := SpendIn(tip, tx(last), owner, other);
            var history, table := creates + [spend], AsRows(creates) + [Decodes(spend)];
            && TableOf(table, history)
            && WindowOf(table, st.position, tip, st.capacity) == Window(Increment(tip), history)
            && Slice(history, st.position, Increment(tip)) == history
            && Guard(st, Call(NoOrigin, history, Increment(tip), systemTx)) == Some(TooManyUtxos)
  {
    var n := st.capacity * UTXOS_PER_TX;
    var last := (n - 1) / CROWD;
    var tip, creates := At(p, last), Crowd(p, tx, owner, n);
    var spend := SpendIn(tip, tx(last), owner, other);
    CrowdTxs(st.capacity, n);
    CrowdCount(p, tx, owner, n, n);
    CrowdAndSpend(p, tx, owner, other, n);
    WindowOfCreatesAndASpend(creates, spend, st.position, tip, st.capacity);
    HistoryOfCreatesAndASpend(creates, spend, st.position, tip);
    OneTooMany(st, Call(NoOrigin, creates + [spend], Increment(tip), systemTx));
  }

  lemma OneTooMany(st: PalletState, call: Call)
    requires st.capacity < 0x400_0000 && |call.utxos| == st.capacity * 64 + 1 && call.origin == NoOrigin
    ensures Guard(st, call) == Some(TooManyUtxos)
  {
    assert UTXO_PER_TX_OVERESTIMATE == 64;
  }

  // Small windows

  /** With room for one transaction the window steps over that transaction: here, a lone create. */
  lemma OneTxWindowSkips(u: ObservedUtxo)
    requires u.data.AssetCreate? && Incrementable(u.header.position)
    ensures var p := u.header.position;
            && TableOf([Decodes(u)], [u])
            && WindowOf([Decodes(u)], p, p, 1) == Window(Increment(p), [])
            && Slice([u], p, Increment(p)) == [u]
  {
    var p := u.header.position;
    IncrementIsNext(p, p);
    OnlyCreates([Decodes(u)], p, Increment(p), UTXOS_PER_TX);
    DecodedAsRows([u]);
    assert AsRows([u]) == [Decodes(u)];
    TableOfRows([u]);
    SortKeepsSorted(UtxoLe, [u]);
    SmallCut(p, p, 1, [u]);
    SliceOfOne(u, p, Increment(p));
  }
}

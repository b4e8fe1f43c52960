/**
 How the follower cuts the Cardano history into one batch per block: it merges what the queries
 brought and keeps whole transactions up to a capacity.  The row limits of the queries decide whether
 the batch is all of the history between the positions it claims to cover.
 */
module ObservationWindow {
  import opened Common
  import opened CnightTypes
  import opened FollowerRows
  import opened Ordering
  import opened Sorting

  datatype Window = Window(end: CardanoPosition, utxos: seq<ObservedUtxo>)

  const UTXOS_PER_TX: nat := 64

  predicate SamePlace(p: CardanoPosition, q: CardanoPosition) {
    p.blockNumber == q.blockNumber && p.txIndex == q.txIndex
  }

  /** The position after `p`'s transaction (`increment`, with the wrap of a `u32`). */
  function Increment(p: CardanoPosition): (q: CardanoPosition) {
    p.(txIndex := AsU32(p.txIndex + 1))
  }

  /** How many transactions the first `i` UTXOs of a list in position order run through. */
  function CountTxs(us: seq<ObservedUtxo>, i: nat): (n: nat)
    requires i <= |us|
  {
    if i == 0 then 0
    else CountTxs(us, i - 1) +
         if i == 1 || Before(us[i - 2].header.position, us[i - 1].header.position) then 1 else 0
  }

  /** The cut: all of `us` if it holds fewer transactions than `capacity`, else what precedes the `capacity`-th. */
  ghost predicate IsCut(us: seq<ObservedUtxo>, capacity: nat, k: nat) {
    && k <= |us|
    && (forall i :: 0 < i <= k ==> CountTxs(us, i) != capacity)
    && (k < |us| ==> CountTxs(us, k + 1) == capacity)
  }

  function CutFrom(us: seq<ObservedUtxo>, capacity: nat, i: nat): (k: nat)
    requires i <= |us|
    ensures i <= k <= |us|
    decreases |us| - i
  {
    if i == |us| || CountTxs(us, i + 1) == capacity then i else CutFrom(us, capacity, i + 1)
  }

  lemma {:induction false} CutFromIsCut(us: seq<ObservedUtxo>, capacity: nat, i: nat)
    requires i <= |us| && forall j :: 0 < j <= i ==> CountTxs(us, j) != capacity
    ensures IsCut(us, capacity, CutFrom(us, capacity, i))
    decreases |us| - i
  {
    if !(i == |us| || CountTxs(us, i + 1) == capacity) {
      CutFromIsCut(us, capacity, i + 1);
    }
  }

  lemma CutUnique(us: seq<ObservedUtxo>, capacity: nat, k: nat)
    requires IsCut(us, capacity, k)
    ensures k == CutFrom(us, capacity, 0)
  {
    CutFromIsCut(us, capacity, 0);
  }

  ghost predicate InPositionOrder(us: seq<ObservedUtxo>) {
    forall i :: 0 < i < |us| ==> !Before(us[i].header.position, us[i - 1].header.position)
  }

  /** The loop that keeps whole transactions up to the capacity. */
  method Truncate(utxos: seq<ObservedUtxo>, capacity: nat) returns (truncated: seq<ObservedUtxo>, numTxs: nat)
    requires InPositionOrder(utxos)
    ensures var k := |truncated|;
            && IsCut(utxos, capacity, k) && truncated == utxos[..k]
            && numTxs == if k < |utxos| then capacity else CountTxs(utxos, |utxos|)
  {
    truncated, numTxs := [], 0;
    var current: Option<CardanoPosition> := None;
    for i := 0 to |utxos|
      invariant truncated == utxos[..i] && numTxs == CountTxs(utxos, i)
      invariant current.None? <==> i == 0
      invariant i > 0 ==> SamePlace(current.value, utxos[i - 1].header.position)
      invariant forall j :: 0 < j <= i ==> CountTxs(utxos, j) != capacity
    {
      if current.None? || Before(current.value, utxos[i].header.position) {
        numTxs := numTxs + 1;
        current := Some(utxos[i].header.position);
      }
      if numTxs == capacity {
        return;
      }
      truncated := truncated + [utxos[i]];
    }
  }

  lemma SortedInPositionOrder(us: seq<ObservedUtxo>)
    requires SortedBy(UtxoLe, us)
    ensures InPositionOrder(us)
  {
    forall i | 0 < i < |us| ensures !Before(us[i].header.position, us[i - 1].header.position) {
      assert UtxoLe(us[i - 1], us[i]);
    }
  }

  /** What the window is, given where the cut falls. */
  function WindowAt(start: CardanoPosition, tip: CardanoPosition, capacity: nat, us: seq<ObservedUtxo>,
                    k: nat): (w: Window)
    requires k <= |us|
  {
    Window(if k == |us| && CountTxs(us, k) < capacity then Increment(tip)
           else if k == 0 then Increment(start)
           else Increment(us[k - 1].header.position),
           us[..k])
  }

  /** The fetched UTXOs up to the tip, merged. */
  function Merged(table: seq<Row>, start: CardanoPosition, tip: CardanoPosition,
                  capacity: nat): (us: seq<ObservedUtxo>) {
    Sort(UtxoLe, Fetched(table, start, Increment(tip), capacity * UTXOS_PER_TX))
  }

  /** The observable UTXOs up to the tip that stand past their query's limit. */
  function OutOfReach(table: seq<Row>, start: CardanoPosition, tip: CardanoPosition,
                      capacity: nat): (us: seq<ObservedUtxo>) {
    Missed(table, start, Increment(tip), capacity * UTXOS_PER_TX)
  }

  function WindowOf(table: seq<Row>, start: CardanoPosition, tip: CardanoPosition, capacity: nat): (w: Window) {
    var us := Merged(table, start, tip, capacity);
    WindowAt(start, tip, capacity, us, CutFrom(us, capacity, 0))
  }

  method GetUtxosUpToCapacity(table: seq<Row>, start: CardanoPosition, tip: CardanoPosition, capacity: nat)
    returns (w: Window)
    ensures w == WindowOf(table, start, tip, capacity)
  {
    var end := Increment(tip);
    var limit := capacity * UTXOS_PER_TX;
    var registers := DecodeRows(Query(table, RegisterKind, start, end, limit));
    var deregisters := DecodeRows(Query(table, DeregisterKind, start, end, limit));
    var creates := DecodeRows(Query(table, CreateKind, start, end, limit));
    var spends := DecodeRows(Query(table, SpendKind, start, end, limit));
    var utxos := Sort(UtxoLe, registers + deregisters + creates + spends);
    SortsIntoPositionOrder(registers + deregisters + creates + spends);
    w := CutWindow(start, tip, capacity, utxos);
  }

  lemma SortsIntoPositionOrder(us: seq<ObservedUtxo>)
    ensures InPositionOrder(Sort(UtxoLe, us))
  {
    UtxoLeIsTotalPreorder();
    SortSorts(UtxoLe, us);
    SortedInPositionOrder(Sort(UtxoLe, us));
  }

  /** The end of the function: truncate, and say how far the window reaches. */
  method CutWindow(start: CardanoPosition, tip: CardanoPosition, capacity: nat, utxos: seq<ObservedUtxo>)
    returns (w: Window)
    requires InPositionOrder(utxos)
    ensures w == WindowAt(start, tip, capacity, utxos, CutFrom(utxos, capacity, 0))
  {
    var truncated, numTxs := Truncate(utxos, capacity);
    CutUnique(utxos, capacity, |truncated|);
    if numTxs < capacity {
      w := Window(Increment(tip), truncated);
    } else {
      w := Window(Increment(if truncated == [] then start else truncated[|truncated| - 1].header.position), truncated);
    }
  }

  // Counting transactions

  lemma {:induction false} CountStaysBelow(us: seq<ObservedUtxo>, capacity: nat, k: nat, i: nat)
    requires capacity >= 1 && IsCut(us, capacity, k) && i <= k
    ensures CountTxs(us, i) < capacity
    decreases i
  {
    if i > 0 {
      CountStaysBelow(us, capacity, k, i - 1);
    }
  }

  /** Counts never fall, and where they do not rise the transaction is the same. */
  lemma {:induction false} CountsRise(us: seq<ObservedUtxo>, i: nat, j: nat)
    requires InPositionOrder(us) && 0 < i <= j <= |us|
    ensures CountTxs(us, i) <= CountTxs(us, j)
    ensures !Before(us[j - 1].header.position, us[i - 1].header.position)
    ensures CountTxs(us, i) == CountTxs(us, j) ==> SamePlace(us[i - 1].header.position, us[j - 1].header.position)
    decreases j
  {
    if i < j {
      CountsRise(us, i, j - 1);
    }
  }

  /** Everything from the cut on lies after the transaction before it. */
  lemma AfterTheCut(us: seq<ObservedUtxo>, capacity: nat, k: nat, i: nat)
    requires InPositionOrder(us) && capacity >= 2 && IsCut(us, capacity, k)
    requires k <= i < |us|
    ensures k > 0 && CountTxs(us, k) == capacity - 1
    ensures Before(us[k - 1].header.position, us[i].header.position)
  {
    CountStaysBelow(us, capacity, k, k);
    assert k > 0;
    CountsRise(us, k + 1, i + 1);
  }

  lemma IncrementIsNext(p: CardanoPosition, q: CardanoPosition)
    requires Incrementable(p)
    ensures Before(q, Increment(p)) <==> !Before(p, q)
    ensures Before(p, Increment(p))
  {
  }

  // When a window is complete

  /** The fetched UTXOs hold `capacity - 1` transactions before `p`. */
  ghost predicate FullBefore(us: seq<ObservedUtxo>, capacity: nat, p: CardanoPosition) {
    exists j :: 0 < j <= |us| && CountTxs(us, j) >= capacity - 1 && Before(us[j - 1].header.position, p)
  }

  /**
   Where the cut comes, seen from a position: it lies past the window exactly when the transactions
   before it fill one.
   */
  lemma PastTheWindowIff(start: CardanoPosition, tip: CardanoPosition, capacity: nat, us: seq<ObservedUtxo>, k: nat,
                         p: CardanoPosition)
    requires capacity >= 2 && IsCut(us, capacity, k) && InPositionOrder(us)
    requires forall u :: u in us ==> Incrementable(u.header.position)
    requires Before(p, Increment(tip))
    ensures !Before(p, WindowAt(start, tip, capacity, us, k).end) <==>
            CountTxs(us, |us|) >= capacity && FullBefore(us, capacity, p)
  {
    CountStaysBelow(us, capacity, k, k);
    if k < |us| {
      AfterTheCut(us, capacity, k, k);
      CountsRise(us, k + 1, |us|);
      assert us[k - 1] in us;
      IncrementIsNext(us[k - 1].header.position, p);
      if FullBefore(us, capacity, p) {
        var j :| 0 < j <= |us| && CountTxs(us, j) >= capacity - 1 && Before(us[j - 1].header.position, p);
        if j < k { CountsRise(us, j, k); } else { CountsRise(us, k, j); }
      }
    }
  }

  /** Where a fetched UTXO stands: before the end exactly when it is kept. */
  lemma KeptIffBeforeEnd(start: CardanoPosition, tip: CardanoPosition, capacity: nat, us: seq<ObservedUtxo>, k: nat,
                         i: nat)
    requires capacity >= 2 && IsCut(us, capacity, k) && InPositionOrder(us) && i < |us|
    requires forall u :: u in us ==> Incrementable(u.header.position) && Before(u.header.position, Increment(tip))
    ensures i < k <==> Before(us[i].header.position, WindowAt(start, tip, capacity, us, k).end)
  {
    CountStaysBelow(us, capacity, k, k);
    assert us[i] in us;
    if k < |us| {
      AfterTheCut(us, capacity, k, if i < k then k else i);
      assert us[k - 1] in us;
      IncrementIsNext(us[k - 1].header.position, us[i].header.position);
      if i < k { CountsRise(us, i + 1, k); }
    }
  }

  lemma EndWithinTip(start: CardanoPosition, tip: CardanoPosition, capacity: nat, us: seq<ObservedUtxo>, k: nat,
                     p: CardanoPosition)
    requires capacity >= 2 && IsCut(us, capacity, k) && InPositionOrder(us)
    requires forall u :: u in us ==>
             Incrementable(u.header.position) && InRange(u.header.position, start, Increment(tip))
    ensures var end := WindowAt(start, tip, capacity, us, k).end;
            && (Before(p, end) ==> Before(p, Increment(tip)))
            && (Before(end, start) <==> Before(Increment(tip), start))
  {
    CountStaysBelow(us, capacity, k, k);
    if k < |us| {
      AfterTheCut(us, capacity, k, k);
      assert us[k - 1] in us && us[k] in us;
      IncrementIsNext(us[k - 1].header.position, p);
      IncrementIsNext(us[k - 1].header.position, start);
    }
  }

  /** Where `x` stands in `us`, in the first `k` places if it stands there at all. */
  lemma PlaceOf<T>(us: seq<T>, k: nat, x: T) returns (i: nat)
    requires x in us && k <= |us|
    ensures i < |us| && us[i] == x && (i < k <==> x in us[..k])
  {
    assert us == us[..k] + us[k..];
    if x in us[..k] {
      i :| 0 <= i < k && us[i] == x;
    } else {
      i :| k <= i < |us| && us[i] == x;
    }
  }

  /** The window holds the history it covers, but for what the queries missed. */
  lemma WindowMember(history: seq<ObservedUtxo>, start: CardanoPosition, tip: CardanoPosition, capacity: nat,
                     us: seq<ObservedUtxo>, missed: seq<ObservedUtxo>, k: nat, x: ObservedUtxo)
    requires CutOf(history, start, tip, capacity, us, missed, k) && capacity >= 2
    ensures var end := WindowAt(start, tip, capacity, us, k).end;
            x in us[..k] <==> x in Slice(history, start, end) && x !in missed
  {
    var end := WindowAt(start, tip, capacity, us, k).end;
    SliceMember(history, start, end, x);
    EndWithinTip(start, tip, capacity, us, k, x.header.position);
    if x in us {
      var i := PlaceOf(us, k, x);
      KeptIffBeforeEnd(start, tip, capacity, us, k, i);
    }
  }

  /** Complete: exactly when nothing the queries missed lies before the end. */
  lemma CompleteIffNoneMissed(history: seq<ObservedUtxo>, start: CardanoPosition, tip: CardanoPosition, capacity: nat,
                              us: seq<ObservedUtxo>, missed: seq<ObservedUtxo>, k: nat)
    requires CutOf(history, start, tip, capacity, us, missed, k) && capacity >= 2
    ensures var end := WindowAt(start, tip, capacity, us, k).end;
            && (forall x :: x in us[..k] ==> x in Slice(history, start, end))
            && (us[..k] == Slice(history, start, end) <==> forall x :: x in missed ==> !Before(x.header.position, end))
  {
    var end := WindowAt(start, tip, capacity, us, k).end;
    var whole := Slice(history, start, end);
    forall x ensures x in us[..k] <==> x in whole && x !in missed {
      WindowMember(history, start, tip, capacity, us, missed, k, x);
    }
    forall x | x in missed ensures x in whole <==> Before(x.header.position, end) {
      SliceMember(history, start, end, x);
    }
    if forall x :: x in missed ==> !Before(x.header.position, end) {
      FilterStrictlySorted(history, UtxoIn(start, end));
      StrictlySortedUnique(us[..k], whole);
    }
  }

  /**
   The condition, on what the database holds before the call.  Nothing observable stands past its
   query's limit; or the fetched rows reach the capacity, and already before the first observable
   row past a limit they hold all the transactions the window can keep.
   */
  ghost predicate LimitsSuffice(table: seq<Row>, start: CardanoPosition, tip: CardanoPosition, capacity: nat) {
    var us, missed := Merged(table, start, tip, capacity), OutOfReach(table, start, tip, capacity);
    missed == [] ||
    (CountTxs(us, |us|) >= capacity && forall x :: x in missed ==> FullBefore(us, capacity, x.header.position))
  }

  /** What the window is made of: the merged rows, cut. */
  ghost predicate CutOf(history: seq<ObservedUtxo>, start: CardanoPosition, tip: CardanoPosition, capacity: nat,
                        us: seq<ObservedUtxo>, missed: seq<ObservedUtxo>, k: nat)
  {
    && Splits(history, start, Increment(tip), us, missed) && InPositionOrder(us) && IsCut(us, capacity, k)
    && (forall u :: u in us || u in missed ==>
       Incrementable(u.header.position) && InRange(u.header.position, start, Increment(tip)))
  }

  lemma WindowIsCut(table: seq<Row>, history: seq<ObservedUtxo>, start: CardanoPosition, tip: CardanoPosition,
                    capacity: nat)
    requires TableOf(table, history)
    ensures var us, missed := Merged(table, start, tip, capacity), OutOfReach(table, start, tip, capacity);
            CutOf(history, start, tip, capacity, us, missed, CutFrom(us, capacity, 0))
  {
    var us := Merged(table, start, tip, capacity);
    MergedRows(table, history, start, Increment(tip), capacity * UTXOS_PER_TX);
    SortedInPositionOrder(us);
    CutFromIsCut(us, capacity, 0);
  }

  /**
   With room for two transactions or more, a window is the whole observable history between its two
   positions exactly when no observable row before its end stands past the limit of its query.
   */
  lemma CompleteIffInReach(table: seq<Row>, history: seq<ObservedUtxo>, start: CardanoPosition, tip: CardanoPosition,
                           capacity: nat)
    requires TableOf(table, history) && capacity >= 2
    ensures var w := WindowOf(table, start, tip, capacity);
            && (w.utxos == Slice(history, start, w.end) <==>
                forall x :: x in OutOfReach(table, start, tip, capacity) ==> !Before(x.header.position, w.end))
            && (forall x :: x in w.utxos ==> x in Slice(history, start, w.end)) && StrictlySorted(w.utxos)
            && !Before(Increment(tip), w.end)
            && (Before(w.end, start) <==> Before(Increment(tip), start))
  {
    var us, missed := Merged(table, start, tip, capacity), OutOfReach(table, start, tip, capacity);
    var k := CutFrom(us, capacity, 0);
    WindowIsCut(table, history, start, tip, capacity);
    CutFacts(history, start, tip, capacity, us, missed, k);
  }

  lemma CutFacts(history: seq<ObservedUtxo>, start: CardanoPosition, tip: CardanoPosition, capacity: nat,
                 us: seq<ObservedUtxo>, missed: seq<ObservedUtxo>, k: nat)
    requires CutOf(history, start, tip, capacity, us, missed, k) && capacity >= 2
    ensures var w := WindowAt(start, tip, capacity, us, k);
            && (w.utxos == Slice(history, start, w.end) <==>
               forall x :: x in missed ==> !Before(x.header.position, w.end))
            && (forall x :: x in w.utxos ==> x in Slice(history, start, w.end)) && StrictlySorted(w.utxos)
            && !Before(Increment(tip), w.end)
            && (Before(w.end, start) <==> Before(Increment(tip), start))
  {
    EndWithinTip(start, tip, capacity, us, k, Increment(tip));
    CompleteIffNoneMissed(history, start, tip, capacity, us, missed, k);
  }

  /** The same, on the database alone: exactly when the limits suffice. */
  lemma WindowIsCompleteIff(table: seq<Row>, history: seq<ObservedUtxo>, start: CardanoPosition, tip: CardanoPosition,
                            capacity: nat)
    requires TableOf(table, history) && capacity >= 2
    ensures var w := WindowOf(table, start, tip, capacity);
            w.utxos == Slice(history, start, w.end) <==> LimitsSuffice(table, start, tip, capacity)
  {
    var us, missed := Merged(table, start, tip, capacity), OutOfReach(table, start, tip, capacity);
    WindowIsCut(table, history, start, tip, capacity);
    CompleteIffInReach(table, history, start, tip, capacity);
    MissedPastTheWindow(start, tip, capacity, us, missed, CutFrom(us, capacity, 0));
  }

  lemma MissedPastTheWindow(start: CardanoPosition, tip: CardanoPosition, capacity: nat, us: seq<ObservedUtxo>,
                            missed: seq<ObservedUtxo>, k: nat)
    requires capacity >= 2 && IsCut(us, capacity, k) && InPositionOrder(us)
    requires forall u :: u in us ==> Incrementable(u.header.position)
    requires forall x :: x in missed ==> Before(x.header.position, Increment(tip))
    ensures (forall x :: x in missed ==> !Before(x.header.position, WindowAt(start, tip, capacity, us, k).end)) <==>
            (missed == [] ||
             (CountTxs(us, |us|) >= capacity &&
              forall x :: x in missed ==> FullBefore(us, capacity, x.header.position)))
  {
    forall x | x in missed
      ensures !Before(x.header.position, WindowAt(start, tip, capacity, us, k).end) <==>
              CountTxs(us, |us|) >= capacity && FullBefore(us, capacity, x.header.position)
    {
      PastTheWindowIff(start, tip, capacity, us, k, x.header.position);
    }
    assert missed == [] || missed[0] in missed;
  }

  // Conditions on row counts

  lemma {:induction false} FilterKeepsOrder(table: seq<Row>, p: Row -> bool)
    requires RowsInOrder(table)
    ensures RowsInOrder(Filter(table, p))
  {
    if table != [] {
      var rest := Filter(table[1..], p);
      FilterKeepsOrder(table[1..], p);
      forall j | 0 <= j < |rest| ensures !Before(RowPosition(rest[j]), RowPosition(table[0])) {
        FilterMember(table[1..], p, rest[j]);
        assert rest[j] in table[1..];
        var i :| 0 < i < |table| && table[i] == rest[j];
      }
    }
  }

  lemma {:induction false} MatchingEarlier(table: seq<Row>, k: Kind, start: CardanoPosition, end: CardanoPosition,
                                           later: CardanoPosition)
    requires !Before(later, end)
    ensures Matching(table, k, start, end) == Filter(Matching(table, k, start, later), RowIn(k, start, end))
  {
    if table != [] {
      var rest := table[1..];
      MatchingEarlier(rest, k, start, end, later);
      var head := if RowIn(k, start, later)(table[0]) then [table[0]] else [];
      FilterConcat(head, Matching(rest, k, start, later), RowIn(k, start, end));
      assert [table[0]][1..] == [];
    }
  }

  /** A missed row is preceded by a full query: more rows of its kind than the limit stand before any later end. */
  lemma MissedMeansManyRows(table: seq<Row>, start: CardanoPosition, end: CardanoPosition, later: CardanoPosition,
                            limit: nat, x: ObservedUtxo)
    requires RowsInOrder(table) && !Before(later, end)
    requires x in Missed(table, start, later, limit) && Before(x.header.position, end)
    ensures |Matching(table, KindOf(x), start, end)| > limit
  {
    var k := KindOf(x);
    var all := Matching(table, k, start, later);
    MissedRow(table, start, later, limit, x);
    assert Decodes(x) in all[limit..];
    var i :| limit <= i < |all| && all[i] == Decodes(x);
    FilterKeepsOrder(table, RowIn(k, start, later));
    forall j | 0 <= j < |all| ensures RowIn(k, start, later)(all[j]) {
      FilterMember(table, RowIn(k, start, later), all[j]);
    }
    RowsUpTo(all, k, start, end, later, i);
    MatchingEarlier(table, k, start, end, later);
  }

  lemma RowsUpTo(all: seq<Row>, k: Kind, start: CardanoPosition, end: CardanoPosition, later: CardanoPosition, i: nat)
    requires RowsInOrder(all) && forall j :: 0 <= j < |all| ==> RowIn(k, start, later)(all[j])
    requires i < |all| && Before(RowPosition(all[i]), end)
    ensures |Filter(all, RowIn(k, start, end))| > i
  {
    forall j | 0 <= j <= i ensures RowIn(k, start, end)(all[j]) {
      assert RowIn(k, start, later)(all[j]);
    }
    PrefixPasses(all, RowIn(k, start, end), i);
  }

  lemma PrefixPasses<T>(s: seq<T>, p: T -> bool, i: nat)
    requires i < |s| && forall j :: 0 <= j <= i ==> p(s[j])
    ensures |Filter(s, p)| > i
  {
    var first, rest := s[..i + 1], s[i + 1..];
    FilterAll(first, p);
    FilterConcat(first, rest, p);
    assert s == first + rest;
  }

  /** It is enough that no query has more rows than its limit before the end of the window. */
  lemma RowsBeforeTheEndFit(table: seq<Row>, history: seq<ObservedUtxo>, start: CardanoPosition, tip: CardanoPosition,
                            capacity: nat)
    requires TableOf(table, history) && capacity >= 2
    requires var w := WindowOf(table, start, tip, capacity);
             forall k: Kind :: |Matching(table, k, start, w.end)| <= capacity * UTXOS_PER_TX
    ensures var w := WindowOf(table, start, tip, capacity);
            w.utxos == Slice(history, start, w.end)
  {
    var end := WindowOf(table, start, tip, capacity).end;
    CompleteIffInReach(table, history, start, tip, capacity);
    forall x | x in OutOfReach(table, start, tip, capacity) ensures !Before(x.header.position, end) {
      assert |Matching(table, KindOf(x), start, end)| <= capacity * UTXOS_PER_TX;
      if Before(x.header.position, end) {
        MissedMeansManyRows(table, start, end, Increment(tip), capacity * UTXOS_PER_TX, x);
      }
    }
  }

  // Small capacities

  /** The observable UTXOs of the transaction at `p`. */
  function UtxosAt(history: seq<ObservedUtxo>, p: CardanoPosition): (r: seq<ObservedUtxo>) {
    Filter(history, (u: ObservedUtxo) => SamePlace(u.header.position, p))
  }

  /** From `start` to just after its transaction lies that transaction alone. */
  lemma OnlyTheFirstTx(history: seq<ObservedUtxo>, start: CardanoPosition)
    requires Incrementable(start)
    ensures Slice(history, start, Increment(start)) == [] <==> UtxosAt(history, start) == []
  {
    FilterEmpty(history, UtxoIn(start, Increment(start)));
    FilterEmpty(history, (u: ObservedUtxo) => SamePlace(u.header.position, start));
    forall u: ObservedUtxo ensures UtxoIn(start, Increment(start))(u) <==> SamePlace(u.header.position, start) {
      IncrementIsNext(start, u.header.position);
    }
  }

  lemma NoLimitNoRows(table: seq<Row>, start: CardanoPosition, end: CardanoPosition)
    ensures Fetched(table, start, end, 0) == []
  {
    forall k: Kind ensures Query(table, k, start, end, 0) == [] { }
  }

  lemma SmallCut(start: CardanoPosition, tip: CardanoPosition, capacity: nat, us: seq<ObservedUtxo>)
    requires capacity <= 1 && (capacity == 0 ==> us == [])
    ensures WindowAt(start, tip, capacity, us, CutFrom(us, capacity, 0)) ==
            Window(if capacity == 1 && us == [] then Increment(tip) else Increment(start), [])
  {
    if us != [] {
      assert CountTxs(us, 1) == 1;
    }
  }

  /**
   The condition below two transactions.  A window for one reaches the tip if no query brought
   anything, and nothing observable may then be out of reach; in all other cases it steps over the
   transaction it starts at, and nothing may be observable there.
   */
  ghost predicate SmallSuffices(table: seq<Row>, history: seq<ObservedUtxo>, start: CardanoPosition,
                                tip: CardanoPosition, capacity: nat) {
    if capacity == 1 && Merged(table, start, tip, 1) == [] then OutOfReach(table, start, tip, 1) == []
    else UtxosAt(history, start) == []
  }

  /** Below two transactions the window is always empty, and complete exactly under that condition. */
  lemma SmallWindowIsCompleteIff(table: seq<Row>, history: seq<ObservedUtxo>, start: CardanoPosition,
                                 tip: CardanoPosition, capacity: nat)
    requires TableOf(table, history) && Incrementable(start) && capacity <= 1
    ensures var w := WindowOf(table, start, tip, capacity);
            && w.utxos == []
            && (w.utxos == Slice(history, start, w.end) <==> SmallSuffices(table, history, start, tip, capacity))
            && (Before(w.end, start) ==> Before(Increment(tip), start))
  {
    var us, missed := Merged(table, start, tip, capacity), OutOfReach(table, start, tip, capacity);
    if capacity == 0 {
      NoLimitNoRows(table, start, Increment(tip));
    }
    SmallCut(start, tip, capacity, us);
    OnlyTheFirstTx(history, start);
    IncrementIsNext(start, start);
    if capacity == 1 && us == [] {
      NothingFetchedIsComplete(table, history, start, Increment(tip), capacity * UTXOS_PER_TX);
    }
  }

  /** If no query brought anything, the history in the range is what stands past the limits. */
  lemma NothingFetchedIsComplete(table: seq<Row>, history: seq<ObservedUtxo>, start: CardanoPosition,
                                 end: CardanoPosition, limit: nat)
    requires TableOf(table, history) && Sort(UtxoLe, Fetched(table, start, end, limit)) == []
    ensures Slice(history, start, end) == [] <==> Missed(table, start, end, limit) == []
  {
    var whole, missed := Slice(history, start, end), Missed(table, start, end, limit);
    forall x ensures x in missed <==> x in whole {
      MergedCount(table, history, start, end, limit, x);
      SliceMember(history, start, end, x);
    }
    assert whole == [] || whole[0] in whole;
    assert missed == [] || missed[0] in missed;
  }

  // Window sizes

  lemma {:induction false} UtxosAtSnoc(us: seq<ObservedUtxo>, p: CardanoPosition)
    requires us != []
    ensures |UtxosAt(us, p)| ==
            |UtxosAt(us[..|us| - 1], p)| + if SamePlace(us[|us| - 1].header.position, p) then 1 else 0
  {
    var n := |us| - 1;
    assert us == us[..n] + [us[n]];
    FilterConcat(us[..n], [us[n]], (u: ObservedUtxo) => SamePlace(u.header.position, p));
    assert [us[n]][1..] == [];
  }

  lemma SamePlaceSameUtxos(us: seq<ObservedUtxo>, p: CardanoPosition, q: CardanoPosition)
    requires SamePlace(p, q)
    ensures |UtxosAt(us, p)| == |UtxosAt(us, q)|
    decreases |us|
  {
    if us != [] {
      UtxosAtSnoc(us, p);
      UtxosAtSnoc(us, q);
      SamePlaceSameUtxos(us[..|us| - 1], p, q);
    }
  }

  lemma {:induction false} CountTxsBound(us: seq<ObservedUtxo>, i: nat, most: nat)
    requires 0 < i <= |us| && InPositionOrder(us)
    requires forall p :: |UtxosAt(us[..i], p)| <= most
    ensures CountTxs(us, i) >= 1
    ensures i <= most * (CountTxs(us, i) - 1) + |UtxosAt(us[..i], us[i - 1].header.position)|
    decreases i
  {
    var last := us[i - 1].header.position;
    assert us[..i][..i - 1] == us[..i - 1];
    UtxosAtSnoc(us[..i], last);
    if i > 1 {
      var prev := us[i - 2].header.position;
      var shorter := us[..i - 1];
      forall p ensures |UtxosAt(shorter, p)| <= most {
        UtxosAtSnoc(us[..i], p);
        assert |UtxosAt(us[..i], p)| <= most;
      }
      CountTxsBound(us, i - 1, most);
      assert |UtxosAt(shorter, prev)| <= most;
      if Before(prev, last) {
        OneMoreTx(most, CountTxs(us, i - 1));
      } else {
        SamePlaceSameUtxos(us[..i - 1], prev, last);
      }
    }
  }

  lemma OneMoreTx(most: nat, n: nat)
    requires n >= 1
    ensures most * (n - 1) + most == most * n
  {
  }

  lemma FewerUtxosAt(us: seq<ObservedUtxo>, history: seq<ObservedUtxo>, p: CardanoPosition)
    requires StrictlySorted(us) && forall x :: x in us ==> x in history
    ensures |UtxosAt(us, p)| <= |UtxosAt(history, p)|
  {
    var few, many := multiset(UtxosAt(us, p)), multiset(UtxosAt(history, p));
    forall x ensures few[x] <= many[x] {
      StrictMeansOnce(us, x);
      FilterMember(us, (u: ObservedUtxo) => SamePlace(u.header.position, p), x);
      FilterMember(history, (u: ObservedUtxo) => SamePlace(u.header.position, p), x);
      assert x in us ==> multiset(history)[x] >= 1;
    }
    assert few <= many;
    assert many == few + (many - few);
  }

  /** If no transaction has more than `most` observable UTXOs, the window has at most `most` for each it keeps. */
  lemma WindowSize(table: seq<Row>, history: seq<ObservedUtxo>, start: CardanoPosition, tip: CardanoPosition,
                   capacity: nat, most: nat)
    requires TableOf(table, history) && capacity >= 2 && forall p :: |UtxosAt(history, p)| <= most
    ensures |WindowOf(table, start, tip, capacity).utxos| <= most * (capacity - 1)
  {
    var us := Merged(table, start, tip, capacity);
    var k := CutFrom(us, capacity, 0);
    WindowIsCut(table, history, start, tip, capacity);
    CountStaysBelow(us, capacity, k, k);
    PrefixSize(us, history, k, most);
    MulMonotone(most, CountTxs(us, k), capacity - 1);
  }

  lemma PrefixSize(us: seq<ObservedUtxo>, history: seq<ObservedUtxo>, k: nat, most: nat)
    requires StrictlySorted(us) && InPositionOrder(us) && k <= |us| && forall x :: x in us ==> x in history
    requires forall p :: |UtxosAt(history, p)| <= most
    ensures k <= most * CountTxs(us, k)
  {
    if k > 0 {
      forall p ensures |UtxosAt(us[..k], p)| <= most {
        FewerUtxosAt(us[..k], history, p);
        assert |UtxosAt(history, p)| <= most;
      }
      CountTxsBound(us, k, most);
      assert |UtxosAt(us[..k], us[k - 1].header.position)| <= most;
      OneMoreTx(most, CountTxs(us, k));
    }
  }

  lemma MulMonotone(most: nat, n: nat, m: nat)
    requires n <= m
    ensures most * n <= most * m
  {
  }

  lemma {:induction false} AllDecode(rows: seq<Row>)
    requires forall r :: r in rows ==> r.Decodes?
    ensures |Decoded(rows)| == |rows|
  {
    if rows != [] {
      assert rows[0] in rows;
      AllDecode(rows[1..]);
    }
  }

  /** What a query with a row past its limit brought: a full load, none of it after that row. */
  lemma FullQuery(table: seq<Row>, start: CardanoPosition, end: CardanoPosition, limit: nat, x: ObservedUtxo)
    requires RowsInOrder(table) && (forall r :: r in table ==> r.Decodes?)
    requires x in Missed(table, start, end, limit)
    ensures var got := Decoded(Query(table, KindOf(x), start, end, limit));
            && |got| == limit
            && (forall y :: y in got ==> KindOf(y) == KindOf(x) && !Before(x.header.position, y.header.position))
  {
    var k := KindOf(x);
    var all, got := Matching(table, k, start, end), Query(table, k, start, end, limit);
    MissedRow(table, start, end, limit, x);
    assert Decodes(x) in all[limit..];
    var i :| limit <= i < |all| && all[i] == Decodes(x);
    FilterKeepsOrder(table, RowIn(k, start, end));
    forall r | r in got ensures r in table && RowKind(r) == k {
      assert r in all;
      FilterMember(table, RowIn(k, start, end), r);
    }
    AllDecode(got);
    forall y | y in Decoded(got) ensures KindOf(y) == k && !Before(x.header.position, y.header.position) {
      DecodedMember(got, y);
      var j :| 0 <= j < limit && all[j] == Decodes(y);
    }
  }

  /** What one query brought is part of the merged rows, each UTXO once. */
  lemma FetchedOfKind(table: seq<Row>, history: seq<ObservedUtxo>, start: CardanoPosition, end: CardanoPosition,
                      limit: nat, y: ObservedUtxo)
    requires TableOf(table, history)
    ensures var got := Decoded(Query(table, KindOf(y), start, end, limit));
            multiset(got)[y] <= 1 && (y in got ==> y in Sort(UtxoLe, Fetched(table, start, end, limit)))
  {
    QuerySplits(table, KindOf(y), start, end, limit, y);
    StrictMeansOnce(history, y);
    var a := Decoded(Query(table, RegisterKind, start, end, limit));
    var b := Decoded(Query(table, DeregisterKind, start, end, limit));
    var c := Decoded(Query(table, CreateKind, start, end, limit));
    var d := Decoded(Query(table, SpendKind, start, end, limit));
    var got := match KindOf(y) case RegisterKind => a case DeregisterKind => b case CreateKind => c case SpendKind => d;
    if y in got {
      assert y in a + b + c + d;
      SortPermutes(UtxoLe, a + b + c + d);
      assert y in multiset(a + b + c + d);
    }
  }

  /**
   If every row decodes, a window with fewer UTXOs than the limit of one query is complete: a query
   that missed something before the end has filled the window by itself.
   */
  lemma ShortWindowIsComplete(table: seq<Row>, history: seq<ObservedUtxo>, start: CardanoPosition,
                              tip: CardanoPosition, capacity: nat)
    requires TableOf(table, history) && capacity >= 2 && (forall r :: r in table ==> r.Decodes?)
    requires |WindowOf(table, start, tip, capacity).utxos| < capacity * UTXOS_PER_TX
    ensures var w := WindowOf(table, start, tip, capacity);
            w.utxos == Slice(history, start, w.end)
  {
    var w := WindowOf(table, start, tip, capacity);
    CompleteIffInReach(table, history, start, tip, capacity);
    forall x | x in OutOfReach(table, start, tip, capacity) ensures !Before(x.header.position, w.end) {
      if Before(x.header.position, w.end) {
        FullQueryFillsWindow(table, history, start, tip, capacity, x);
      }
    }
  }

  lemma FullQueryFillsWindow(table: seq<Row>, history: seq<ObservedUtxo>, start: CardanoPosition, tip: CardanoPosition,
                             capacity: nat, x: ObservedUtxo)
    requires TableOf(table, history) && capacity >= 2 && (forall r :: r in table ==> r.Decodes?)
    requires x in OutOfReach(table, start, tip, capacity)
    requires Before(x.header.position, WindowOf(table, start, tip, capacity).end)
    ensures |WindowOf(table, start, tip, capacity).utxos| >= capacity * UTXOS_PER_TX
  {
    var us, missed := Merged(table, start, tip, capacity), OutOfReach(table, start, tip, capacity);
    var k := CutFrom(us, capacity, 0);
    var end, limit := Increment(tip), capacity * UTXOS_PER_TX;
    var got := Decoded(Query(table, KindOf(x), start, end, limit));
    WindowIsCut(table, history, start, tip, capacity);
    FullQuery(table, start, end, limit, x);
    forall y | y in got ensures multiset(got)[y] <= 1 && y in us[..k] {
      FetchedOfKind(table, history, start, end, limit, y);
      KeptIfNotAfter(history, start, tip, capacity, us, missed, k, x, y);
    }
    FewerMembers(got, us[..k]);
  }

  lemma FewerMembers<T>(few: seq<T>, many: seq<T>)
    requires forall y :: y in few ==> multiset(few)[y] <= 1 && y in many
    ensures |few| <= |many|
  {
    forall y ensures multiset(few)[y] <= multiset(many)[y] {
      assert y in few <==> multiset(few)[y] > 0;
      assert y in many <==> multiset(many)[y] > 0;
    }
    assert multiset(many) == multiset(few) + (multiset(many) - multiset(few));
  }

  lemma KeptIfNotAfter(history: seq<ObservedUtxo>, start: CardanoPosition, tip: CardanoPosition, capacity: nat,
                       us: seq<ObservedUtxo>, missed: seq<ObservedUtxo>, k: nat, x: ObservedUtxo, y: ObservedUtxo)
    requires CutOf(history, start, tip, capacity, us, missed, k) && capacity >= 2
    requires Before(x.header.position, WindowAt(start, tip, capacity, us, k).end)
    requires y in us && !Before(x.header.position, y.header.position)
    ensures y in us[..k]
  {
    var end := WindowAt(start, tip, capacity, us, k).end;
    WindowMember(history, start, tip, capacity, us, missed, k, y);
    SliceMember(history, start, end, y);
  }

  /**
   What the factor of 64 is meant to be for: with no transaction above it, and every row decoding, no
   window loses anything.
   */
  lemma OverestimateSuffices(table: seq<Row>, history: seq<ObservedUtxo>, start: CardanoPosition,
                             tip: CardanoPosition, capacity: nat)
    requires TableOf(table, history) && capacity >= 2 && (forall r :: r in table ==> r.Decodes?)
    requires forall p :: |UtxosAt(history, p)| <= UTXOS_PER_TX
    ensures var w := WindowOf(table, start, tip, capacity);
            w.utxos == Slice(history, start, w.end) && |w.utxos| < capacity * UTXOS_PER_TX
  {
    WindowSize(table, history, start, tip, capacity, UTXOS_PER_TX);
    ShortWindowIsComplete(table, history, start, tip, capacity);
  }
}

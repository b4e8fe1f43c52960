/**
 A window by the places of its transactions.  How many transactions a list runs through is the number
 of places in it, later tips only add rows behind, and the order the database gives to the rows of one
 transaction does not change how large a window is.
 */
module WindowPlaces {
  import opened Common
  import opened CnightTypes
  import opened FollowerRows
  import opened ObservationWindow
  import opened Ordering
  import opened Sorting

  /** A position as a number, block first; hash and timestamp do not take part. */
  function Place(p: CardanoPosition): (n: nat) {
    p.blockNumber * 0x1_0000_0000 + p.txIndex
  }

  lemma PlaceOrder(p: CardanoPosition, q: CardanoPosition)
    ensures Before(p, q) <==> Place(p) < Place(q)
    ensures SamePlace(p, q) <==> Place(p) == Place(q)
  {
  }

  function Places(us: seq<ObservedUtxo>): (r: seq<nat>)
    ensures |r| == |us| && forall i :: 0 <= i < |us| ==> r[i] == Place(us[i].header.position)
  {
    seq(|us|, i requires 0 <= i < |us| => Place(us[i].header.position))
  }

  /** The transactions of a list, by place. */
  function PlaceSet(us: seq<ObservedUtxo>): (r: set<nat>) {
    set u | u in us :: Place(u.header.position)
  }

  // Counting

  lemma PlaceSetSnoc(us: seq<ObservedUtxo>, i: nat)
    requires i < |us|
    ensures PlaceSet(us[..i + 1]) == PlaceSet(us[..i]) + {Place(us[i].header.position)}
  {
    assert us[..i + 1] == us[..i] + [us[i]];
    assert forall u :: u in us[..i + 1] <==> u in us[..i] || u == us[i];
  }

  /** The count of transactions is the number of places. */
  lemma {:induction false} CountIsPlaces(us: seq<ObservedUtxo>, i: nat)
    requires InPositionOrder(us) && i <= |us|
    ensures CountTxs(us, i) == |PlaceSet(us[..i])|
    decreases i
  {
    if i == 0 {
      assert PlaceSet(us[..0]) == {};
    } else {
      CountIsPlaces(us, i - 1);
      PlaceSetSnoc(us, i - 1);
      LastPlace(us, i);
      OneMore(PlaceSet(us[..i - 1]), Place(us[i - 1].header.position));
    }
  }

  lemma OneMore(s: set<nat>, n: nat)
    ensures |s + {n}| == |s| + if n in s then 0 else 1
  {
    if n in s { assert s + {n} == s; }
  }

  /** In position order, a place was there before exactly when the neighbour has it. */
  lemma LastPlace(us: seq<ObservedUtxo>, i: nat)
    requires InPositionOrder(us) && 0 < i <= |us|
    ensures Place(us[i - 1].header.position) in PlaceSet(us[..i - 1]) <==>
            i > 1 && !Before(us[i - 2].header.position, us[i - 1].header.position)
  {
    var last := us[i - 1].header.position;
    if i > 1 {
      PlaceOrder(us[i - 2].header.position, last);
      if !Before(us[i - 2].header.position, last) {
        PlaceOrder(last, us[i - 2].header.position);
        assert us[..i - 1][i - 2] == us[i - 2];
      }
    }
    if u :| u in us[..i - 1] && Place(u.header.position) == Place(last) {
      var j :| 0 <= j < i - 1 && us[j] == u;
      CountsRise(us, j + 1, i - 1);
      PlaceOrder(us[i - 2].header.position, us[j].header.position);
    }
  }

  // A later tip

  /** Rows in order: those before a position come first. */
  lemma {:induction false} EarlierRowsFirst(rows: seq<Row>, k: Kind, start: CardanoPosition, end: CardanoPosition,
                                            i: nat)
    requires RowsInOrder(rows) && i < |rows|
    requires forall j :: 0 <= j < |rows| ==> RowKind(rows[j]) == k && !Before(RowPosition(rows[j]), start)
    ensures var first := Filter(rows, RowIn(k, start, end));
            first <= rows && (i < |first| <==> Before(RowPosition(rows[i]), end))
  {
    var tail := rows[1..];
    if Before(RowPosition(rows[0]), end) {
      if tail != [] {
        EarlierRowsFirst(tail, k, start, end, if i == 0 then 0 else i - 1);
      }
      assert rows == [rows[0]] + tail;
    } else {
      forall r | r in rows ensures !RowIn(k, start, end)(r) {
        var j :| 0 <= j < |rows| && rows[j] == r;
      }
      FilterNone(rows, RowIn(k, start, end));
    }
  }

  lemma MatchingFacts(table: seq<Row>, k: Kind, start: CardanoPosition, end: CardanoPosition)
    requires RowsInOrder(table)
    ensures var all := Matching(table, k, start, end);
            RowsInOrder(all) && forall j :: 0 <= j < |all| ==> RowIn(k, start, end)(all[j])
  {
    var all := Matching(table, k, start, end);
    FilterKeepsOrder(table, RowIn(k, start, end));
    forall j | 0 <= j < |all| ensures RowIn(k, start, end)(all[j]) {
      FilterMember(table, RowIn(k, start, end), all[j]);
    }
  }

  /** With a later end a query brings what it brought, and then only rows from the old end on. */
  lemma QueryGrows(table: seq<Row>, k: Kind, start: CardanoPosition, end: CardanoPosition, later: CardanoPosition,
                   limit: nat, r: Row)
    requires RowsInOrder(table) && !Before(later, end)
    ensures r in Query(table, k, start, end, limit) <==>
            r in Query(table, k, start, later, limit) && Before(RowPosition(r), end)
  {
    var few, all := Matching(table, k, start, end), Matching(table, k, start, later);
    MatchingFacts(table, k, start, later);
    MatchingEarlier(table, k, start, end, later);
    if all == [] {
      assert few == [];
    } else {
      EarlierRowsFirst(all, k, start, end, 0);
      forall i | 0 <= i < |all| ensures i < |few| <==> Before(RowPosition(all[i]), end) {
        EarlierRowsFirst(all, k, start, end, i);
      }
      CappedMember(few, all, end, limit, r);
    }
  }

  function Capped<T>(s: seq<T>, limit: nat): (r: seq<T>) {
    if |s| <= limit then s else s[..limit]
  }

  lemma CappedMember(few: seq<Row>, all: seq<Row>, end: CardanoPosition, limit: nat, r: Row)
    requires few <= all && forall i :: 0 <= i < |all| ==> (i < |few| <==> Before(RowPosition(all[i]), end))
    ensures r in Capped(few, limit) <==> r in Capped(all, limit) && Before(RowPosition(r), end)
  {
    var got, more := Capped(few, limit), Capped(all, limit);
    if r in got {
      var i :| 0 <= i < |got| && got[i] == r;
      assert more[i] == all[i] == r;
    }
    if r in more && Before(RowPosition(r), end) {
      var i :| 0 <= i < |more| && more[i] == r;
      assert got[i] == all[i] == r;
    }
  }

  lemma FetchedMember(table: seq<Row>, start: CardanoPosition, end: CardanoPosition, limit: nat, x: ObservedUtxo)
    ensures x in Sort(UtxoLe, Fetched(table, start, end, limit)) <==>
            Decodes(x) in Query(table, KindOf(x), start, end, limit)
  {
    var a := Decoded(Query(table, RegisterKind, start, end, limit));
    var b := Decoded(Query(table, DeregisterKind, start, end, limit));
    var c := Decoded(Query(table, CreateKind, start, end, limit));
    var d := Decoded(Query(table, SpendKind, start, end, limit));
    FetchedOnlyByKind(table, RegisterKind, start, end, limit, x);
    FetchedOnlyByKind(table, DeregisterKind, start, end, limit, x);
    FetchedOnlyByKind(table, CreateKind, start, end, limit, x);
    FetchedOnlyByKind(table, SpendKind, start, end, limit, x);
    InOneOfFour(a, b, c, d, x);
    SortedMember(a + b + c + d, x);
    DecodedMember(Query(table, KindOf(x), start, end, limit), x);
  }

  lemma FetchedOnlyByKind(table: seq<Row>, k: Kind, start: CardanoPosition, end: CardanoPosition, limit: nat,
                          x: ObservedUtxo)
    ensures x in Decoded(Query(table, k, start, end, limit)) ==> KindOf(x) == k
  {
    QuerySplits(table, k, start, end, limit, x);
    assert x in Decoded(Query(table, k, start, end, limit)) ==>
           x in multiset(Decoded(Query(table, k, start, end, limit)));
  }

  lemma InOneOfFour<T>(a: seq<T>, b: seq<T>, c: seq<T>, d: seq<T>, x: T)
    ensures x in a + b + c + d <==> x in a || x in b || x in c || x in d
  {
  }

  lemma SortedMember(us: seq<ObservedUtxo>, x: ObservedUtxo)
    ensures x in Sort(UtxoLe, us) <==> x in us
  {
    SortPermutes(UtxoLe, us);
    assert x in Sort(UtxoLe, us) <==> x in multiset(Sort(UtxoLe, us));
    assert x in us <==> x in multiset(us);
  }

  function UtxoBefore(end: CardanoPosition): (p: ObservedUtxo -> bool) {
    (u: ObservedUtxo) => Before(u.header.position, end)
  }

  lemma {:induction false} EarlierUtxosFirst(us: seq<ObservedUtxo>, end: CardanoPosition)
    requires SortedBy(UtxoLe, us)
    ensures Filter(us, UtxoBefore(end)) <= us
  {
    if us != [] {
      if Before(us[0].header.position, end) {
        EarlierUtxosFirst(us[1..], end);
        assert us == [us[0]] + us[1..];
      } else {
        forall u | u in us ensures !UtxoBefore(end)(u) {
          var j :| 0 <= j < |us| && us[j] == u;
          assert j == 0 || UtxoLe(us[0], us[j]);
        }
        FilterNone(us, UtxoBefore(end));
      }
    }
  }

  /** A later tip only adds UTXOs behind those already merged. */
  lemma MergedGrows(table: seq<Row>, history: seq<ObservedUtxo>, start: CardanoPosition, tip: CardanoPosition,
                    later: CardanoPosition, capacity: nat)
    requires TableOf(table, history) && !Before(Increment(later), Increment(tip))
    ensures Merged(table, start, tip, capacity) <= Merged(table, start, later, capacity)
  {
    var end, limit := Increment(tip), capacity * UTXOS_PER_TX;
    var us, us' := Merged(table, start, tip, capacity), Merged(table, start, later, capacity);
    MergedRows(table, history, start, end, limit);
    MergedRows(table, history, start, Increment(later), limit);
    forall x ensures x in us <==> x in Filter(us', UtxoBefore(end)) {
      FetchedMember(table, start, end, limit, x);
      FetchedMember(table, start, Increment(later), limit, x);
      QueryGrows(table, KindOf(x), start, end, Increment(later), limit, Decodes(x));
      FilterMember(us', UtxoBefore(end), x);
    }
    FilterStrictlySorted(us', UtxoBefore(end));
    StrictlySortedUnique(us, Filter(us', UtxoBefore(end)));
    EarlierUtxosFirst(us', end);
  }

  lemma {:induction false} CountOfPrefix(us: seq<ObservedUtxo>, more: seq<ObservedUtxo>, i: nat)
    requires us <= more && i <= |us|
    ensures CountTxs(us, i) == CountTxs(more, i)
    decreases i
  {
    if i > 0 {
      CountOfPrefix(us, more, i - 1);
    }
  }

  lemma CutGrows(us: seq<ObservedUtxo>, more: seq<ObservedUtxo>, capacity: nat)
    requires us <= more
    ensures CutFrom(us, capacity, 0) <= CutFrom(more, capacity, 0)
  {
    var k, m := CutFrom(us, capacity, 0), CutFrom(more, capacity, 0);
    CutFromIsCut(us, capacity, 0);
    CutFromIsCut(more, capacity, 0);
    if m < k {
      CountOfPrefix(us, more, m + 1);
    }
  }

  /** With a later tip a window never shrinks. */
  lemma WindowGrows(table: seq<Row>, history: seq<ObservedUtxo>, start: CardanoPosition, tip: CardanoPosition,
                    later: CardanoPosition, capacity: nat)
    requires TableOf(table, history) && !Before(Increment(later), Increment(tip))
    ensures |WindowOf(table, start, tip, capacity).utxos| <= |WindowOf(table, start, later, capacity).utxos|
  {
    MergedGrows(table, history, start, tip, later, capacity);
    CutGrows(Merged(table, start, tip, capacity), Merged(table, start, later, capacity), capacity);
  }

  // Rows of one transaction in another order

  lemma {:induction false} DecodedAt(rows: seq<Row>, i: nat)
    requires (forall r :: r in rows ==> r.Decodes?) && i < |rows|
    ensures |Decoded(rows)| == |rows| && rows[i] == Decodes(Decoded(rows)[i])
  {
    assert rows[0] in rows;
    AllDecode(rows[1..]);
    if i > 0 {
      DecodedAt(rows[1..], i - 1);
    }
  }

  lemma DecodedInOrder(rows: seq<Row>)
    requires RowsInOrder(rows) && forall r :: r in rows ==> r.Decodes?
    ensures SortedBy(NatLe, Places(Decoded(rows)))
  {
    var us := Decoded(rows);
    AllDecode(rows);
    forall i, j | 0 <= i < j < |us| ensures NatLe(Places(us)[i], Places(us)[j]) {
      DecodedAt(rows, i);
      DecodedAt(rows, j);
      PlaceOrder(us[j].header.position, us[i].header.position);
    }
  }

  predicate NatLe(m: nat, n: nat) {
    m <= n
  }

  /** Lists with the same UTXOs have the same places, whatever their order. */
  lemma {:induction false} SamePlaces(a: seq<ObservedUtxo>, b: seq<ObservedUtxo>)
    requires multiset(a) == multiset(b)
    ensures multiset(Places(a)) == multiset(Places(b))
  {
    if a == [] {
      assert |b| == |multiset(b)| == 0;
    } else {
      assert a[0] in multiset(b);
      var k :| 0 <= k < |b| && b[k] == a[0];
      TailMultiset(a);
      PlacesWithout(a, 0);
      PlacesWithout(b, k);
      assert RemoveAt(a, 0) == a[1..];
      SamePlaces(a[1..], RemoveAt(b, k));
    }
  }

  lemma PlacesWithout(us: seq<ObservedUtxo>, k: nat)
    requires k < |us|
    ensures multiset(RemoveAt(us, k)) == multiset(us) - multiset{us[k]}
    ensures multiset(Places(us)) == multiset(Places(RemoveAt(us, k))) + multiset{Place(us[k].header.position)}
  {
    RemoveAtMultiset(us, k);
    RemoveAtMultiset(Places(us), k);
    assert Places(RemoveAt(us, k)) == RemoveAt(Places(us), k);
  }

  lemma RemoveAtMultiset<T>(s: seq<T>, k: nat)
    requires k < |s|
    ensures multiset(s) == multiset(RemoveAt(s, k)) + multiset{s[k]}
  {
    assert s == s[..k] + [s[k]] + s[k + 1..];
  }

  /** In order of place, the places of equal collections are equal one by one. */
  lemma OrderedPlaces(a: seq<ObservedUtxo>, b: seq<ObservedUtxo>)
    requires multiset(a) == multiset(b) && SortedBy(NatLe, Places(a)) && SortedBy(NatLe, Places(b))
    ensures Places(a) == Places(b)
  {
    SamePlaces(a, b);
    SortedUnique(NatLe, Places(a), Places(b));
  }

  ghost predicate DecodingTable(table: seq<Row>, history: seq<ObservedUtxo>) {
    TableOf(table, history) && forall r :: r in table ==> r.Decodes?
  }

  lemma MatchingPlaces(t: seq<Row>, t': seq<Row>, history: seq<ObservedUtxo>, k: Kind, start: CardanoPosition,
                       end: CardanoPosition)
    requires DecodingTable(t, history) && DecodingTable(t', history)
    ensures Places(Decoded(Matching(t, k, start, end))) == Places(Decoded(Matching(t', k, start, end)))
  {
    var a, b := Decoded(Matching(t, k, start, end)), Decoded(Matching(t', k, start, end));
    MatchingDecodes(t, k, start, end);
    MatchingDecodes(t', k, start, end);
    DecodedInOrder(Matching(t, k, start, end));
    DecodedInOrder(Matching(t', k, start, end));
    DecodedMatching(t, k, start, end);
    DecodedMatching(t', k, start, end);
    forall x ensures multiset(a)[x] == multiset(b)[x] {
      FilterMember(Decoded(t), UtxoOf(k, start, end), x);
      FilterMember(Decoded(t'), UtxoOf(k, start, end), x);
    }
    OrderedPlaces(a, b);
  }

  lemma MatchingDecodes(t: seq<Row>, k: Kind, start: CardanoPosition, end: CardanoPosition)
    requires RowsInOrder(t) && forall r :: r in t ==> r.Decodes?
    ensures var all := Matching(t, k, start, end);
            RowsInOrder(all) && forall r :: r in all ==> r.Decodes?
  {
    FilterKeepsOrder(t, RowIn(k, start, end));
    forall r | r in Matching(t, k, start, end) ensures r.Decodes? {
      FilterMember(t, RowIn(k, start, end), r);
    }
  }

  lemma DecodedFirst(rows: seq<Row>, n: nat)
    requires (forall r :: r in rows ==> r.Decodes?) && n <= |rows|
    ensures |Decoded(rows)| == |rows| && Decoded(rows[..n]) == Decoded(rows)[..n]
  {
    AllDecode(rows);
    AllDecode(rows[..n]);
    assert rows == rows[..n] + rows[n..];
    DecodedConcat(rows[..n], rows[n..]);
  }

  lemma QueryPlaces(t: seq<Row>, t': seq<Row>, history: seq<ObservedUtxo>, k: Kind, start: CardanoPosition,
                    end: CardanoPosition, limit: nat)
    requires DecodingTable(t, history) && DecodingTable(t', history)
    ensures Places(Decoded(Query(t, k, start, end, limit))) == Places(Decoded(Query(t', k, start, end, limit)))
  {
    var all, all' := Matching(t, k, start, end), Matching(t', k, start, end);
    MatchingPlaces(t, t', history, k, start, end);
    MatchingDecodes(t, k, start, end);
    MatchingDecodes(t', k, start, end);
    AllDecode(all);
    AllDecode(all');
    assert |all| == |Places(Decoded(all))| == |all'|;
    if |all| > limit {
      DecodedFirst(all, limit);
      DecodedFirst(all', limit);
      FirstPlaces(Decoded(all), Decoded(all'), limit);
    }
  }

  lemma FirstPlaces(a: seq<ObservedUtxo>, b: seq<ObservedUtxo>, n: nat)
    requires Places(a) == Places(b) && n <= |a| && n <= |b|
    ensures Places(a[..n]) == Places(b[..n])
  {
    forall i | 0 <= i < n ensures Places(a[..n])[i] == Places(b[..n])[i] {
      assert Places(a)[i] == Places(b)[i];
    }
  }

  lemma FourPlaces(a: seq<ObservedUtxo>, b: seq<ObservedUtxo>, c: seq<ObservedUtxo>, d: seq<ObservedUtxo>)
    ensures Places(a + b + c + d) == Places(a) + Places(b) + Places(c) + Places(d)
  {
  }

  lemma FetchedPlaces(t: seq<Row>, t': seq<Row>, history: seq<ObservedUtxo>, start: CardanoPosition,
                      end: CardanoPosition, limit: nat)
    requires DecodingTable(t, history) && DecodingTable(t', history)
    ensures Places(Fetched(t, start, end, limit)) == Places(Fetched(t', start, end, limit))
  {
    QueryPlaces(t, t', history, RegisterKind, start, end, limit);
    QueryPlaces(t, t', history, DeregisterKind, start, end, limit);
    QueryPlaces(t, t', history, CreateKind, start, end, limit);
    QueryPlaces(t, t', history, SpendKind, start, end, limit);
    FourPlaces(Decoded(Query(t, RegisterKind, start, end, limit)), Decoded(Query(t, DeregisterKind, start, end, limit)),
               Decoded(Query(t, CreateKind, start, end, limit)), Decoded(Query(t, SpendKind, start, end, limit)));
    FourPlaces(Decoded(Query(t', RegisterKind, start, end, limit)),
               Decoded(Query(t', DeregisterKind, start, end, limit)),
               Decoded(Query(t', CreateKind, start, end, limit)), Decoded(Query(t', SpendKind, start, end, limit)));
  }

  lemma SortedPlaces(us: seq<ObservedUtxo>)
    ensures SortedBy(NatLe, Places(Sort(UtxoLe, us))) && multiset(Places(Sort(UtxoLe, us))) == multiset(Places(us))
  {
    var ss := Sort(UtxoLe, us);
    UtxoLeIsTotalPreorder();
    SortSorts(UtxoLe, us);
    SortPermutes(UtxoLe, us);
    SamePlaces(ss, us);
    forall i, j | 0 <= i < j < |ss| ensures NatLe(Places(ss)[i], Places(ss)[j]) {
      assert UtxoLe(ss[i], ss[j]);
      PlaceOrder(ss[j].header.position, ss[i].header.position);
    }
  }

  lemma {:induction false} CountByPlaces(us: seq<ObservedUtxo>, vs: seq<ObservedUtxo>, i: nat)
    requires Places(us) == Places(vs) && i <= |us| && |us| == |vs|
    ensures CountTxs(us, i) == CountTxs(vs, i)
    decreases i
  {
    if i > 0 {
      CountByPlaces(us, vs, i - 1);
      if i > 1 {
        assert Places(us)[i - 1] == Places(vs)[i - 1] && Places(us)[i - 2] == Places(vs)[i - 2];
        PlaceOrder(us[i - 2].header.position, us[i - 1].header.position);
        PlaceOrder(vs[i - 2].header.position, vs[i - 1].header.position);
      }
    }
  }

  lemma CutByPlaces(us: seq<ObservedUtxo>, vs: seq<ObservedUtxo>, capacity: nat)
    requires Places(us) == Places(vs) && |us| == |vs|
    ensures CutFrom(us, capacity, 0) == CutFrom(vs, capacity, 0)
  {
    var k := CutFrom(us, capacity, 0);
    CutFromIsCut(us, capacity, 0);
    forall i | 0 <= i <= |us| ensures CountTxs(us, i) == CountTxs(vs, i) {
      CountByPlaces(us, vs, i);
    }
    assert IsCut(vs, capacity, k);
    CutUnique(vs, capacity, k);
  }

  /** Where every row decodes, the size of a window is a matter of the history alone. */
  lemma WindowSizeByHistory(t: seq<Row>, t': seq<Row>, history: seq<ObservedUtxo>, start: CardanoPosition,
                            tip: CardanoPosition, capacity: nat)
    requires DecodingTable(t, history) && DecodingTable(t', history)
    ensures |WindowOf(t, start, tip, capacity).utxos| == |WindowOf(t', start, tip, capacity).utxos|
  {
    var end, limit := Increment(tip), capacity * UTXOS_PER_TX;
    var us, us' := Merged(t, start, tip, capacity), Merged(t', start, tip, capacity);
    FetchedPlaces(t, t', history, start, end, limit);
    SortedPlaces(Fetched(t, start, end, limit));
    SortedPlaces(Fetched(t', start, end, limit));
    SortedUnique(NatLe, Places(us), Places(us'));
    assert |us| == |Places(us)| == |us'|;
    CutByPlaces(us, us', capacity);
  }
}

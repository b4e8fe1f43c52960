/**
 What the follower reads from the database: four queries, each with a row limit that counts raw rows,
 and a decoding that silently skips rows whose datum or holder address it cannot use.
 */
module FollowerRows {
  import opened Common
  import opened CnightTypes
  import opened Ordering
  import opened Sorting

  datatype Kind = RegisterKind | DeregisterKind | CreateKind | SpendKind

  function KindOf(u: ObservedUtxo): (k: Kind) {
    match u.data
    case Register(_, _) => RegisterKind
    case Deregister(_, _) => DeregisterKind
    case AssetCreate(_, _, _) => CreateKind
    case AssetSpend(_, _, _, _) => SpendKind
  }

  /** A row of the database: what it decodes to, or which query it answers if it does not decode. */
  datatype Row = Decodes(utxo: ObservedUtxo) | Fails(kind: Kind, header: Header)

  function RowKind(r: Row): (k: Kind) {
    match r
    case Decodes(u) => KindOf(u)
    case Fails(k, _) => k
  }

  function RowPosition(r: Row): (p: CardanoPosition) {
    match r
    case Decodes(u) => u.header.position
    case Fails(_, h) => h.position
  }

  /** `start <= p < end`. */
  predicate InRange(p: CardanoPosition, start: CardanoPosition, end: CardanoPosition) {
    !Before(p, start) && Before(p, end)
  }

  function RowIn(k: Kind, start: CardanoPosition, end: CardanoPosition): (p: Row -> bool) {
    r => RowKind(r) == k && InRange(RowPosition(r), start, end)
  }

  function UtxoIn(start: CardanoPosition, end: CardanoPosition): (p: ObservedUtxo -> bool) {
    (u: ObservedUtxo) => InRange(u.header.position, start, end)
  }

  function UtxoOf(k: Kind, start: CardanoPosition, end: CardanoPosition): (p: ObservedUtxo -> bool) {
    (u: ObservedUtxo) => KindOf(u) == k && InRange(u.header.position, start, end)
  }

  /** The part of the observable history between two positions. */
  function Slice(history: seq<ObservedUtxo>, start: CardanoPosition, end: CardanoPosition): (r: seq<ObservedUtxo>) {
    Filter(history, UtxoIn(start, end))
  }

  function Matching(table: seq<Row>, k: Kind, start: CardanoPosition, end: CardanoPosition): (rows: seq<Row>) {
    Filter(table, RowIn(k, start, end))
  }

  /**
   A query: the first `limit` matching rows.  The table stands in the order the database yields its
   rows, which is fixed by position only, so rows of one transaction may come in any order.
   */
  function Query(table: seq<Row>, k: Kind, start: CardanoPosition, end: CardanoPosition, limit: nat): (rows: seq<Row>) {
    var all := Matching(table, k, start, end);
    if |all| <= limit then all else all[..limit]
  }

  /** The matching rows that the limit keeps from the follower. */
  function LeftOut(table: seq<Row>, k: Kind, start: CardanoPosition, end: CardanoPosition,
                   limit: nat): (rows: seq<Row>) {
    var all := Matching(table, k, start, end);
    if |all| <= limit then [] else all[limit..]
  }

  function Decoded(rows: seq<Row>): (us: seq<ObservedUtxo>) {
    if rows == [] then []
    else (match rows[0] case Decodes(u) => [u] case Fails(_, _) => []) + Decoded(rows[1..])
  }

  /** The loop over the rows of a query, which passes over rows that do not decode. */
  method DecodeRows(rows: seq<Row>) returns (utxos: seq<ObservedUtxo>)
    ensures utxos == Decoded(rows)
  {
    utxos := [];
    for i := 0 to |rows|
      invariant utxos == Decoded(rows[..i])
    {
      assert rows[..i + 1] == rows[..i] + [rows[i]];
      DecodedConcat(rows[..i], [rows[i]]);
      assert [rows[i]][1..] == [];
      if rows[i].Fails? { continue; }
      utxos := utxos + [rows[i].utxo];
    }
    assert rows[..|rows|] == rows;
  }

  lemma {:induction false} DecodedConcat(a: seq<Row>, b: seq<Row>)
    ensures Decoded(a + b) == Decoded(a) + Decoded(b)
  {
    if a == [] {
      assert a + b == b;
    } else {
      assert (a + b)[0] == a[0] && (a + b)[1..] == a[1..] + b;
      DecodedConcat(a[1..], b);
      var head, x, y := if a[0].Decodes? then [a[0].utxo] else [], Decoded(a[1..]), Decoded(b);
      assert Decoded(a) == head + x && Decoded(a + b) == head + Decoded(a[1..] + b);
      assert head + (x + y) == (head + x) + y;
    }
  }

  /** Decoding commutes with selecting by kind and position. */
  lemma {:induction false} DecodedMatching(table: seq<Row>, k: Kind, start: CardanoPosition, end: CardanoPosition)
    ensures Decoded(Matching(table, k, start, end)) == Filter(Decoded(table), UtxoOf(k, start, end))
  {
    if table != [] {
      var rest := table[1..];
      DecodedMatching(rest, k, start, end);
      var head := if RowIn(k, start, end)(table[0]) then [table[0]] else [];
      DecodedConcat(head, Matching(rest, k, start, end));
      var first := if table[0].Decodes? then [table[0].utxo] else [];
      FilterConcat(first, Decoded(rest), UtxoOf(k, start, end));
      assert [table[0]][1..] == [];
      assert table[0].Decodes? ==> [table[0].utxo][1..] == [];
      assert Decoded(head) == Filter(first, UtxoOf(k, start, end));
    }
  }

  /** What the four queries bring, decoded. */
  function Fetched(table: seq<Row>, start: CardanoPosition, end: CardanoPosition, limit: nat): (us: seq<ObservedUtxo>) {
    Decoded(Query(table, RegisterKind, start, end, limit)) + Decoded(Query(table, DeregisterKind, start, end, limit)) +
    Decoded(Query(table, CreateKind, start, end, limit)) + Decoded(Query(table, SpendKind, start, end, limit))
  }

  /** The observable UTXOs that stand past the limit of their query. */
  function Missed(table: seq<Row>, start: CardanoPosition, end: CardanoPosition, limit: nat): (us: seq<ObservedUtxo>) {
    Decoded(LeftOut(table, RegisterKind, start, end, limit)) +
    Decoded(LeftOut(table, DeregisterKind, start, end, limit)) +
    Decoded(LeftOut(table, CreateKind, start, end, limit)) +
    Decoded(LeftOut(table, SpendKind, start, end, limit))
  }

  lemma QuerySplits(table: seq<Row>, k: Kind, start: CardanoPosition, end: CardanoPosition, limit: nat, x: ObservedUtxo)
    ensures multiset(Decoded(Query(table, k, start, end, limit)))[x] +
            multiset(Decoded(LeftOut(table, k, start, end, limit)))[x] ==
            if KindOf(x) == k && InRange(x.header.position, start, end) then multiset(Decoded(table))[x] else 0
  {
    var got, left := Query(table, k, start, end, limit), LeftOut(table, k, start, end, limit);
    assert got + left == Matching(table, k, start, end);
    DecodedConcat(got, left);
    DecodedMatching(table, k, start, end);
    FilterMember(Decoded(table), UtxoOf(k, start, end), x);
    assert multiset(Decoded(got) + Decoded(left)) == multiset(Decoded(got)) + multiset(Decoded(left));
  }

  lemma CountOfFour<T>(a: seq<T>, b: seq<T>, c: seq<T>, d: seq<T>, x: T)
    ensures multiset(a + b + c + d)[x] == multiset(a)[x] + multiset(b)[x] + multiset(c)[x] + multiset(d)[x]
  {
  }

  /** Every observable UTXO in the range is either fetched or missed, and never both. */
  lemma FetchedOrMissed(table: seq<Row>, start: CardanoPosition, end: CardanoPosition, limit: nat, x: ObservedUtxo)
    ensures multiset(Fetched(table, start, end, limit))[x] + multiset(Missed(table, start, end, limit))[x] ==
            if InRange(x.header.position, start, end) then multiset(Decoded(table))[x] else 0
  {
    var a := Decoded(Query(table, RegisterKind, start, end, limit));
    var a' := Decoded(LeftOut(table, RegisterKind, start, end, limit));
    var b := Decoded(Query(table, DeregisterKind, start, end, limit));
    var b' := Decoded(LeftOut(table, DeregisterKind, start, end, limit));
    var c := Decoded(Query(table, CreateKind, start, end, limit));
    var c' := Decoded(LeftOut(table, CreateKind, start, end, limit));
    var d := Decoded(Query(table, SpendKind, start, end, limit));
    var d' := Decoded(LeftOut(table, SpendKind, start, end, limit));
    QuerySplits(table, RegisterKind, start, end, limit, x);
    QuerySplits(table, DeregisterKind, start, end, limit, x);
    QuerySplits(table, CreateKind, start, end, limit, x);
    QuerySplits(table, SpendKind, start, end, limit, x);
    CountOfFour(a, b, c, d, x);
    CountOfFour(a', b', c', d', x);
  }

  /** A missed UTXO is a row past the limit of its own query. */
  lemma MissedRow(table: seq<Row>, start: CardanoPosition, end: CardanoPosition, limit: nat, x: ObservedUtxo)
    requires x in Missed(table, start, end, limit)
    ensures Decodes(x) in LeftOut(table, KindOf(x), start, end, limit)
  {
    forall k: Kind | x in Decoded(LeftOut(table, k, start, end, limit)) ensures k == KindOf(x) {
      QuerySplits(table, k, start, end, limit, x);
      assert x in multiset(Decoded(LeftOut(table, k, start, end, limit)));
    }
    DecodedMember(LeftOut(table, KindOf(x), start, end, limit), x);
  }

  lemma {:induction false} DecodedMember(rows: seq<Row>, x: ObservedUtxo)
    ensures x in Decoded(rows) <==> Decodes(x) in rows
  {
    if rows != [] {
      DecodedMember(rows[1..], x);
      assert rows == [rows[0]] + rows[1..];
    }
  }

  lemma SliceMember(history: seq<ObservedUtxo>, start: CardanoPosition, end: CardanoPosition, x: ObservedUtxo)
    ensures x in Slice(history, start, end) <==> x in history && InRange(x.header.position, start, end)
  {
    FilterMember(history, UtxoIn(start, end), x);
  }

  // Strictly ordered lists

  ghost predicate StrictlySorted(s: seq<ObservedUtxo>) {
    forall i, j :: 0 <= i < j < |s| ==> UtxoLe(s[i], s[j]) && !UtxoLe(s[j], s[i])
  }

  lemma TailMember(s: seq<ObservedUtxo>, x: ObservedUtxo)
    requires s != [] && StrictlySorted(s)
    ensures x in s[1..] <==> x in s && x != s[0]
  {
    if x in s && x != s[0] {
      var i :| 0 <= i < |s| && s[i] == x;
      assert s[1..][i - 1] == x;
    }
  }

  /** Strictly ordered lists with the same members are the same list. */
  lemma {:induction false} StrictlySortedUnique(a: seq<ObservedUtxo>, b: seq<ObservedUtxo>)
    requires StrictlySorted(a) && StrictlySorted(b)
    requires forall x :: x in a <==> x in b
    ensures a == b
  {
    assert a == [] || a[0] in a;
    assert b == [] || b[0] in b;
    if a != [] && b != [] {
      assert a[0] in b && b[0] in a;
      assert a[0] == b[0];
      forall x ensures x in a[1..] <==> x in b[1..] {
        TailMember(a, x);
        TailMember(b, x);
      }
      StrictlySortedUnique(a[1..], b[1..]);
    }
  }

  lemma {:induction false} FilterStrictlySorted(s: seq<ObservedUtxo>, p: ObservedUtxo -> bool)
    requires StrictlySorted(s)
    ensures StrictlySorted(Filter(s, p))
  {
    if s != [] {
      var rest := Filter(s[1..], p);
      FilterStrictlySorted(s[1..], p);
      forall j | 0 <= j < |rest| ensures UtxoLe(s[0], rest[j]) && !UtxoLe(rest[j], s[0]) {
        FilterMember(s[1..], p, rest[j]);
        FirstIsBefore(s, rest[j]);
      }
    }
  }

  lemma FirstIsBefore(s: seq<ObservedUtxo>, x: ObservedUtxo)
    requires s != [] && StrictlySorted(s) && x in s[1..]
    ensures UtxoLe(s[0], x) && !UtxoLe(x, s[0])
  {
    var i :| 0 < i < |s| && s[i] == x;
  }

  lemma {:induction false} StrictMeansOnce(s: seq<ObservedUtxo>, x: ObservedUtxo)
    requires StrictlySorted(s)
    ensures multiset(s)[x] <= 1
  {
    if s != [] {
      assert s == [s[0]] + s[1..];
      StrictMeansOnce(s[1..], x);
      assert s[0] !in s[1..];
    }
  }

  /** A strictly ordered list within another is shorter, unless it is the same list. */
  lemma PartIsShorter(a: seq<ObservedUtxo>, b: seq<ObservedUtxo>)
    requires StrictlySorted(a) && StrictlySorted(b) && forall x :: x in a ==> x in b
    ensures |a| <= |b| && (|a| == |b| ==> a == b)
  {
    forall x ensures multiset(a)[x] <= multiset(b)[x] {
      StrictMeansOnce(a, x);
      assert x in a ==> x in multiset(b);
    }
    var more := multiset(b) - multiset(a);
    assert multiset(b) == multiset(a) + more;
    if |a| == |b| {
      assert |more| == 0;
      assert multiset(a) == multiset(b);
      forall x ensures x in a <==> x in b { assert x in multiset(a) <==> x in multiset(b); }
      StrictlySortedUnique(a, b);
    }
  }

  /** Two adjacent parts of the history make one. */
  lemma SliceConcat(history: seq<ObservedUtxo>, p: CardanoPosition, q: CardanoPosition, r: CardanoPosition)
    requires StrictlySorted(history) && !Before(q, p) && !Before(r, q)
    ensures Slice(history, p, q) + Slice(history, q, r) == Slice(history, p, r)
  {
    var a, b, c := Slice(history, p, q), Slice(history, q, r), Slice(history, p, r);
    FilterStrictlySorted(history, UtxoIn(p, q));
    FilterStrictlySorted(history, UtxoIn(q, r));
    FilterStrictlySorted(history, UtxoIn(p, r));
    forall x ensures x in a + b <==> x in c {
      SliceMember(history, p, q, x);
      SliceMember(history, q, r, x);
      SliceMember(history, p, r, x);
    }
    forall i, j | 0 <= i < |a| && 0 <= j < |b| ensures UtxoLe(a[i], b[j]) && !UtxoLe(b[j], a[i]) {
      SliceMember(history, p, q, a[i]);
      SliceMember(history, q, r, b[j]);
    }
    assert StrictlySorted(a + b);
    StrictlySortedUnique(a + b, c);
  }

  // Tables of a history

  predicate Incrementable(p: CardanoPosition) {
    p.txIndex < 0xFFFF_FFFF
  }

  ghost predicate RowsInOrder(table: seq<Row>) {
    forall i, j :: 0 <= i < j < |table| ==> !Before(RowPosition(table[j]), RowPosition(table[i]))
  }

  /**
   `table` is the database of the observable history: its rows come by position, and what decodes is
   the history, whose headers are distinct.  Rows that do not decode may stand anywhere.
   */
  ghost predicate TableOf(table: seq<Row>, history: seq<ObservedUtxo>) {
    && RowsInOrder(table) && StrictlySorted(history)
    && multiset(Decoded(table)) == multiset(history)
    && (forall u :: u in history ==> Incrementable(u.header.position))
  }

  lemma TwicePresent(s: seq<ObservedUtxo>, i: nat, j: nat)
    requires i < j < |s| && s[i] == s[j]
    ensures multiset(s)[s[i]] >= 2
  {
    assert s == s[..j] + [s[j]] + s[j + 1..];
    assert s[i] in s[..j] by { assert s[..j][i] == s[i]; }
  }

  lemma StrictAntisymmetric(history: seq<ObservedUtxo>, x: ObservedUtxo, y: ObservedUtxo)
    requires StrictlySorted(history) && x in history && y in history && x != y
    ensures !(UtxoLe(x, y) && UtxoLe(y, x))
  {
    var i :| 0 <= i < |history| && history[i] == x;
    var j :| 0 <= j < |history| && history[j] == y;
    assert i < j || j < i;
  }

  lemma SortedOnceIsStrict(history: seq<ObservedUtxo>, us: seq<ObservedUtxo>)
    requires StrictlySorted(history) && SortedBy(UtxoLe, us)
    requires forall x :: x in us ==> x in history && multiset(us)[x] <= 1
    ensures StrictlySorted(us)
  {
    forall i, j | 0 <= i < j < |us| ensures UtxoLe(us[i], us[j]) && !UtxoLe(us[j], us[i]) {
      assert us[i] in us && us[j] in us;
      assert us[i] != us[j] by {
        if us[i] == us[j] { TwicePresent(us, i, j); }
      }
      StrictAntisymmetric(history, us[i], us[j]);
    }
  }

  /** The history in a range, split into the merged rows `us` and the missed ones. */
  ghost predicate Splits(history: seq<ObservedUtxo>, start: CardanoPosition, end: CardanoPosition,
                         us: seq<ObservedUtxo>, missed: seq<ObservedUtxo>)
  {
    && StrictlySorted(history) && StrictlySorted(us) && SortedBy(UtxoLe, us)
    && (forall x :: x in us || x in missed <==> x in history && InRange(x.header.position, start, end))
    && (forall x :: !(x in us && x in missed))
  }

  lemma MergedCount(table: seq<Row>, history: seq<ObservedUtxo>, start: CardanoPosition, end: CardanoPosition,
                    limit: nat, x: ObservedUtxo)
    requires TableOf(table, history)
    ensures var us, missed := Sort(UtxoLe, Fetched(table, start, end, limit)), Missed(table, start, end, limit);
            && multiset(us)[x] <= 1
            && (x in us || x in missed <==> x in history && InRange(x.header.position, start, end))
            && !(x in us && x in missed)
  {
    var us, missed := Sort(UtxoLe, Fetched(table, start, end, limit)), Missed(table, start, end, limit);
    SortPermutes(UtxoLe, Fetched(table, start, end, limit));
    FetchedOrMissed(table, start, end, limit, x);
    StrictMeansOnce(history, x);
    assert x in us <==> multiset(us)[x] > 0;
    assert x in missed <==> multiset(missed)[x] > 0;
    assert x in history <==> multiset(history)[x] > 0;
  }

  /** Sorting what the queries brought gives the history in the range, in order, but for what they missed. */
  lemma MergedRows(table: seq<Row>, history: seq<ObservedUtxo>, start: CardanoPosition, end: CardanoPosition,
                   limit: nat)
    requires TableOf(table, history)
    ensures Splits(history, start, end, Sort(UtxoLe, Fetched(table, start, end, limit)),
                   Missed(table, start, end, limit))
  {
    var us, missed := Sort(UtxoLe, Fetched(table, start, end, limit)), Missed(table, start, end, limit);
    UtxoLeIsTotalPreorder();
    SortSorts(UtxoLe, Fetched(table, start, end, limit));
    forall x ensures multiset(us)[x] <= 1
             ensures x in us || x in missed <==> x in history && InRange(x.header.position, start, end)
             ensures !(x in us && x in missed)
    {
      MergedCount(table, history, start, end, limit, x);
    }
    SortedOnceIsStrict(history, us);
  }
}

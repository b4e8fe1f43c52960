/** Genesis state in the chain specification: maps whose byte-array keys are written as hex strings. */
module GenesisMaps {
  import opened Common
  import Hex
  import opened Ordering
  import opened Sorting

  type Key = seq<Byte>

  datatype KeyError = BadHex(error: Hex.HexError) | BadKeyLength

  ghost predicate KeysHaveWidth<V>(m: map<Key, V>, width: nat) {
    forall k :: k in m ==> |k| == width
  }

  /** `order` runs through the keys of `m`, each once. */
  ghost predicate Enumerates<V>(order: seq<Key>, m: map<Key, V>) {
    && (forall k :: k in order <==> k in m)
    && (forall i, j :: 0 <= i < j < |order| ==> order[i] != order[j])
  }

  /** The entries written when the keys come in this order. */
  function Written<V>(m: map<Key, V>, order: seq<Key>): (entries: seq<(string, V)>)
    requires forall k :: k in order ==> k in m
    ensures |entries| == |order|
  {
    seq(|order|, i requires 0 <= i < |order| => (Hex.Encode(order[i]), m[order[i]]))
  }

  /** A set of keys has a least one. */
  lemma {:induction false} LeastKey(ks: set<Key>)
    requires ks != {}
    ensures exists k :: k in ks && IsLeast(k, ks)
    decreases |ks|
  {
    var x :| x in ks;
    LexTotal(x, x);
    if ks == {x} {
      assert IsLeast(x, ks);
    } else {
      LeastKey(ks - {x});
      var y :| y in ks - {x} && IsLeast(y, ks - {x});
      LexTotal(x, y);
      if LexLe(y, x) {
        assert IsLeast(y, ks);
      } else {
        forall z | z in ks ensures LexLe(x, z) {
          if z != x { LexTransitive(x, y, z); }
        }
        assert IsLeast(x, ks);
      }
    }
  }

  predicate IsLeast(k: Key, ks: set<Key>) {
    forall x :: x in ks ==> LexLe(k, x)
  }

  /** The loop over the map, in ascending order of its keys. */
  method Serialize<V>(m: map<Key, V>) returns (entries: seq<(string, V)>, ghost order: seq<Key>)
    ensures Enumerates(order, m) && SortedBy(LexLe, order) && entries == Written(m, order)
  {
    entries, order := [], [];
    var rest := m.Keys;
    while rest != {}
      invariant forall k :: k in m <==> k in rest || k in order
      invariant forall k :: k in order ==> k !in rest
      invariant forall x, y :: x in order && y in rest ==> LexLe(x, y)
      invariant forall i, j :: 0 <= i < j < |order| ==> order[i] != order[j]
      invariant SortedBy(LexLe, order)
      invariant entries == Written(m, order)
      decreases rest
    {
      LeastKey(rest);
      var k :| k in rest && IsLeast(k, rest);
      entries := entries + [(Hex.Encode(k), m[k])];
      ghost var longer := order + [k];
      assert forall x :: x in longer <==> x in order || x == k;
      order := longer;
      rest := rest - {k};
    }
  }

  function ReadKey(s: string, width: nat): (r: Result<Key, KeyError>) {
    match Hex.Decode(s)
    case Err(e) => Err(BadHex(e))
    case Ok(bytes) => if |bytes| != width then Err(BadKeyLength) else Ok(bytes)
  }

  /** The map the first `n` entries build, or the error of the first bad key. */
  function Read<V>(entries: seq<(string, V)>, n: nat, width: nat): (r: Result<map<Key, V>, KeyError>)
    requires n <= |entries|
  {
    if n == 0 then Ok(map[])
    else match Read(entries, n - 1, width)
      case Err(e) => Err(e)
      case Ok(m) =>
        match ReadKey(entries[n - 1].0, width)
        case Err(e) => Err(e)
        case Ok(k) => Ok(m[k := entries[n - 1].1])
  }

  method Deserialize<V>(entries: seq<(string, V)>, width: nat) returns (r: Result<map<Key, V>, KeyError>)
    ensures r == Read(entries, |entries|, width)
  {
    var m: map<Key, V> := map[];
    for i := 0 to |entries|
      invariant Read(entries, i, width) == Ok(m)
    {
      var (key, value) := entries[i];
      var decoded := Hex.Decode(key);
      if decoded.Err? {
        ReadStops(entries, i + 1, width);
        return Err(BadHex(decoded.error));
      }
      if |decoded.value| != width {
        ReadStops(entries, i + 1, width);
        return Err(BadKeyLength);
      }
      m := m[decoded.value := value];
    }
    return Ok(m);
  }

  lemma {:induction false} ReadStops<V>(entries: seq<(string, V)>, n: nat, width: nat)
    requires n <= |entries|
    ensures Read(entries, n, width).Err? ==> Read(entries, |entries|, width) == Read(entries, n, width)
    decreases |entries| - n
  {
    if n < |entries| {
      ReadStops(entries, n + 1, width);
    }
  }

  /** Reading succeeds exactly when every key is hex of the right width. */
  lemma {:induction false} ReadSucceedsIff<V>(entries: seq<(string, V)>, n: nat, width: nat)
    requires n <= |entries|
    ensures Read(entries, n, width).Ok? <==> forall i :: 0 <= i < n ==> ReadKey(entries[i].0, width).Ok?
    decreases n
  {
    if n > 0 {
      ReadSucceedsIff(entries, n - 1, width);
    }
  }

  /** A key reads exactly when it has two digits of either case for each byte of the width. */
  lemma KeyReadsIff(s: string, width: nat)
    ensures ReadKey(s, width).Ok? <==> |s| == 2 * width && forall i :: 0 <= i < |s| ==> Hex.IsDigit(s[i])
    ensures ReadKey(s, width) == Err(BadKeyLength) <==>
            |s| % 2 == 0 && |s| != 2 * width && forall i :: 0 <= i < |s| ==> Hex.IsDigit(s[i])
  {
    Hex.DecodesIff(s);
  }

  /** The map read holds, under each key, the value of the last entry whose key reads as it, and nothing else. */
  lemma {:induction false} LastEntryWins<V>(entries: seq<(string, V)>, n: nat, width: nat, k: Key)
    requires n <= |entries| && Read(entries, n, width).Ok?
    ensures k in Read(entries, n, width).value <==>
            exists i :: 0 <= i < n && ReadKey(entries[i].0, width) == Ok(k)
    ensures forall i :: 0 <= i < n && ReadKey(entries[i].0, width) == Ok(k) &&
                        (forall j :: i < j < n ==> ReadKey(entries[j].0, width) != Ok(k)) ==>
              k in Read(entries, n, width).value && Read(entries, n, width).value[k] == entries[i].1
    decreases n
  {
    if n > 0 {
      LastEntryWins(entries, n - 1, width, k);
      assert ReadKey(entries[n - 1].0, width).Ok?;
      if ReadKey(entries[n - 1].0, width) != Ok(k) {
        forall i | 0 <= i < n && ReadKey(entries[i].0, width) == Ok(k) &&
                   (forall j :: i < j < n ==> ReadKey(entries[j].0, width) != Ok(k))
          ensures k in Read(entries, n, width).value && Read(entries, n, width).value[k] == entries[i].1
        {
          assert i < n - 1;
        }
      }
    }
  }

  /** The part of `m` at the keys `ks`. */
  function Part<V>(m: map<Key, V>, ks: seq<Key>): (r: map<Key, V>) {
    map k | k in m && k in ks :: m[k]
  }

  lemma PartSnoc<V>(m: map<Key, V>, ks: seq<Key>, k: Key)
    requires k in m
    ensures Part(m, ks + [k]) == Part(m, ks)[k := m[k]]
  {
    assert forall x :: x in ks + [k] <==> x in ks || x == k;
  }

  lemma WrittenKey<V>(m: map<Key, V>, order: seq<Key>, i: nat, width: nat)
    requires KeysHaveWidth(m, width) && Enumerates(order, m) && i < |order|
    ensures order[i] in m && Written(m, order)[i].1 == m[order[i]]
    ensures ReadKey(Written(m, order)[i].0, width) == Ok(order[i])
  {
    assert order[i] in order;
    Hex.DecodeEncode(order[i]);
  }

  /** Entries whose keys read as `order` build the part of `m` at those keys, one after the other. */
  lemma {:induction false} ReadInOrder<V>(m: map<Key, V>, order: seq<Key>, entries: seq<(string, V)>, n: nat,
                                          width: nat)
    requires |entries| == |order| && n <= |order|
    requires forall i :: 0 <= i < |order| ==> order[i] in m && entries[i].1 == m[order[i]]
    requires forall i :: 0 <= i < |order| ==> ReadKey(entries[i].0, width) == Ok(order[i])
    ensures Read(entries, n, width) == Ok(Part(m, order[..n]))
    decreases n
  {
    if n == 0 {
      assert Part(m, order[..0]) == map[];
    } else {
      ReadInOrder(m, order, entries, n - 1, width);
      PartSnoc(m, order[..n - 1], order[n - 1]);
      assert order[..n] == order[..n - 1] + [order[n - 1]];
    }
  }

  /** Whatever the order, reading back what was written is the original map: keys never collide. */
  lemma ReadWritten<V>(m: map<Key, V>, order: seq<Key>, width: nat)
    requires KeysHaveWidth(m, width) && Enumerates(order, m)
    ensures Read(Written(m, order), |order|, width) == Ok(m)
  {
    var entries := Written(m, order);
    forall i | 0 <= i < |order|
      ensures order[i] in m && entries[i].1 == m[order[i]] && ReadKey(entries[i].0, width) == Ok(order[i])
    {
      WrittenKey(m, order, i, width);
    }
    ReadInOrder(m, order, entries, |order|, width);
    assert order[..|order|] == order;
    WholePart(m, order);
  }

  lemma WholePart<V>(m: map<Key, V>, order: seq<Key>)
    requires Enumerates(order, m)
    ensures Part(m, order) == m
  {
    assert forall k :: k in m ==> k in order;
  }

  /** Serialising and deserialising a genesis map is the identity. */
  method SaveAndLoad<V>(m: map<Key, V>, width: nat) returns (r: Result<map<Key, V>, KeyError>)
    requires KeysHaveWidth(m, width)
    ensures r == Ok(m)
  {
    var entries, order := Serialize(m);
    ReadWritten(m, order, width);
    r := Deserialize(entries, width);
  }
}

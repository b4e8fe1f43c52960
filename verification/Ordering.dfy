/** Lexicographic order on byte arrays, as `Ord` derives it, and the order of observed UTXOs. */
module Ordering {
  import opened Common
  import opened CnightTypes
  import opened Sorting

  predicate LexLe(a: seq<Byte>, b: seq<Byte>) {
    a == [] || (b != [] && (a[0] < b[0] || (a[0] == b[0] && LexLe(a[1..], b[1..]))))
  }

  lemma {:induction false} LexTotal(a: seq<Byte>, b: seq<Byte>)
    ensures LexLe(a, b) || LexLe(b, a)
  {
    if a != [] && b != [] {
      LexTotal(a[1..], b[1..]);
    }
  }

  lemma {:induction false} LexTransitive(a: seq<Byte>, b: seq<Byte>, c: seq<Byte>)
    requires LexLe(a, b) && LexLe(b, c)
    ensures LexLe(a, c)
  {
    if a != [] && a[0] == b[0] && b[0] == c[0] {
      LexTransitive(a[1..], b[1..], c[1..]);
    }
  }

  lemma {:induction false} LexAntisymmetric(a: seq<Byte>, b: seq<Byte>)
    requires LexLe(a, b) && LexLe(b, a)
    ensures a == b
  {
    if a != [] {
      LexAntisymmetric(a[1..], b[1..]);
      assert a == [a[0]] + a[1..] && b == [b[0]] + b[1..];
    }
  }

  /** The observed transaction is the one that created the output. */
  predicate IsCreate(h: Header) {
    h.txHash == h.utxo.txHash
  }

  /** The order of observed UTXOs: position, creates first, then the output's hash and index. */
  predicate HeaderLe(x: Header, y: Header) {
    if Before(x.position, y.position) then true
    else if Before(y.position, x.position) then false
    else if IsCreate(x) != IsCreate(y) then IsCreate(x)
    else if x.utxo.txHash != y.utxo.txHash then LexLe(x.utxo.txHash, y.utxo.txHash)
    else x.utxo.index <= y.utxo.index
  }

  predicate UtxoLe(x: ObservedUtxo, y: ObservedUtxo) {
    HeaderLe(x.header, y.header)
  }

  predicate NumbersLe(a: seq<nat>, b: seq<nat>) {
    a == [] || (b != [] && (a[0] < b[0] || (a[0] == b[0] && NumbersLe(a[1..], b[1..]))))
  }

  /** What two headers are compared by, one number after the other. */
  function SortKey(h: Header): (k: seq<nat>) {
    [h.position.blockNumber, h.position.txIndex, if h.txHash == h.utxo.txHash then 0 else 1] +
    h.utxo.txHash + [h.utxo.index]
  }

  lemma {:induction false} BytesAsNumbers(a: seq<Byte>, b: seq<Byte>)
    ensures LexLe(a, b) <==> NumbersLe(a, b)
  {
    if a != [] && b != [] {
      BytesAsNumbers(a[1..], b[1..]);
    }
  }

  /** Between keys of the same shape, the first part that differs decides. */
  lemma {:induction false} FirstPartDecides(a: seq<nat>, x: seq<nat>, b: seq<nat>, y: seq<nat>)
    requires |a| == |b|
    ensures NumbersLe(a + x, b + y) <==> if a == b then NumbersLe(x, y) else NumbersLe(a, b)
  {
    if a == [] {
      assert a + x == x && b + y == y;
    } else {
      assert (a + x)[1..] == a[1..] + x && (b + y)[1..] == b[1..] + y;
      FirstPartDecides(a[1..], x, b[1..], y);
      assert a == [a[0]] + a[1..] && b == [b[0]] + b[1..];
    }
  }

  /** The order of headers is that of block, transaction, creates before the rest, transaction hash and index. */
  lemma HeaderOrder(x: Header, y: Header)
    ensures HeaderLe(x, y) <==> NumbersLe(SortKey(x), SortKey(y))
  {
    var p := [x.position.blockNumber, x.position.txIndex, if x.txHash == x.utxo.txHash then 0 else 1];
    var q := [y.position.blockNumber, y.position.txIndex, if y.txHash == y.utxo.txHash then 0 else 1];
    assert SortKey(x) == p + (x.utxo.txHash + [x.utxo.index]);
    assert SortKey(y) == q + (y.utxo.txHash + [y.utxo.index]);
    FirstPartDecides(p, x.utxo.txHash + [x.utxo.index], q, y.utxo.txHash + [y.utxo.index]);
    FirstPartDecides(x.utxo.txHash, [x.utxo.index], y.utxo.txHash, [y.utxo.index]);
    BytesAsNumbers(x.utxo.txHash, y.utxo.txHash);
    ThreeNumbers(p, q);
    assert NumbersLe([x.utxo.index], [y.utxo.index]) <==> x.utxo.index <= y.utxo.index;
  }

  lemma ThreeNumbers(p: seq<nat>, q: seq<nat>)
    requires |p| == |q| == 3
    ensures NumbersLe(p, q) <==>
            p[0] < q[0] || (p[0] == q[0] && (p[1] < q[1] || (p[1] == q[1] && p[2] <= q[2])))
    ensures p == q <==> p[0] == q[0] && p[1] == q[1] && p[2] == q[2]
  {
    assert p[1..][1..] == p[2..] && q[1..][1..] == q[2..];
    assert p[2..][1..] == [] && q[2..][1..] == [];
    assert NumbersLe(p[2..], q[2..]) <==> p[2] <= q[2];
    assert NumbersLe(p[1..], q[1..]) <==> p[1] < q[1] || (p[1] == q[1] && NumbersLe(p[1..][1..], q[1..][1..]));
  }

  lemma HeaderTransitive(x: Header, y: Header, z: Header)
    requires HeaderLe(x, y) && HeaderLe(y, z)
    ensures HeaderLe(x, z)
  {
    if LexLe(x.utxo.txHash, y.utxo.txHash) && LexLe(y.utxo.txHash, z.utxo.txHash) {
      LexTransitive(x.utxo.txHash, y.utxo.txHash, z.utxo.txHash);
    }
    if LexLe(x.utxo.txHash, y.utxo.txHash) && LexLe(y.utxo.txHash, x.utxo.txHash) {
      LexAntisymmetric(x.utxo.txHash, y.utxo.txHash);
    }
  }

  lemma UtxoLeIsTotalPreorder()
    ensures TotalPreorder(UtxoLe)
  {
    forall x: ObservedUtxo, y: ObservedUtxo ensures UtxoLe(x, y) || UtxoLe(y, x) {
      LexTotal(x.header.utxo.txHash, y.header.utxo.txHash);
    }
    forall x: ObservedUtxo, y: ObservedUtxo, z: ObservedUtxo | UtxoLe(x, y) && UtxoLe(y, z) ensures UtxoLe(x, z) {
      HeaderTransitive(x.header, y.header, z.header);
    }
  }
}

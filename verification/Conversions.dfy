/**
 From the indexer's events to observed UTXOs.  Indices are narrowed and hashes checked on the way;
 what matters is that both ends of one Cardano output keep one identity.
 */
module Conversions {
  import opened Common
  import opened CnightTypes
  import opened CnightStep

  /** The position fields every event carries. */
  datatype EventPosition = EventPosition(blockHash: seq<Byte>, blockNumber: U64, timestamp: I64, txIndex: U32)

  /** What the registration datum decodes to; `None` when it does not. */
  type Datum = Option<(Address, DustKey)>

  datatype UtxoEvent =
    | CreateEvent(position: EventPosition, address: seq<Byte>, quantity: U64, txHash: seq<Byte>, outputIndex: U32)
    | SpendEvent(position: EventPosition, address: seq<Byte>, quantity: U64, utxoTxHash: seq<Byte>, utxoIndex: U32,
                 spendingTxHash: seq<Byte>)
    | RegisterEvent(position: EventPosition, txHash: seq<Byte>, outputIndex: U32, datum: Datum)
    | DeregisterEvent(position: EventPosition, txHash: seq<Byte>, utxoTxHash: seq<Byte>, utxoIndex: U32, datum: Datum)

  datatype ConversionError = MissingKind | InvalidHashLength | InvalidAddressLength | InvalidDatum

  const ADDRESS_LENGTH := 29

  function PositionOf(p: EventPosition): (r: CardanoPosition)
    requires |p.blockHash| == 32
  {
    CardanoPosition(p.blockHash, AsU32(p.blockNumber), p.timestamp, p.txIndex)
  }

  function ObservedUtxoFromEvent(event: Option<UtxoEvent>): (r: Result<ObservedUtxo, ConversionError>) {
    match event
    case None => Err(MissingKind)
    case Some(CreateEvent(position, address, quantity, txHash, outputIndex)) =>
      if |position.blockHash| != 32 || |txHash| != 32 then Err(InvalidHashLength)
      else if |address| != ADDRESS_LENGTH then Err(InvalidAddressLength)
      else
        Ok(ObservedUtxo(
             Header(PositionOf(position), txHash, OutPoint(txHash, AsU16(outputIndex))),
             AssetCreate(quantity, Address(address), OutPoint(txHash, AsU16(outputIndex)))))
    case Some(SpendEvent(position, address, quantity, utxoTxHash, utxoIndex, spendingTxHash)) =>
      if |position.blockHash| != 32 || |spendingTxHash| != 32 || |utxoTxHash| != 32 then Err(InvalidHashLength)
      else if |address| != ADDRESS_LENGTH then Err(InvalidAddressLength)
      else
        Ok(ObservedUtxo(
             Header(PositionOf(position), spendingTxHash, OutPoint(utxoTxHash, AsU16(utxoIndex))),
             AssetSpend(quantity, Address(address), OutPoint(utxoTxHash, AsU16(utxoIndex)), spendingTxHash)))
    case Some(RegisterEvent(position, txHash, outputIndex, datum)) =>
      if |position.blockHash| != 32 || |txHash| != 32 then Err(InvalidHashLength)
      else if datum.None? then Err(InvalidDatum)
      else
        Ok(ObservedUtxo(
             Header(PositionOf(position), txHash, OutPoint(txHash, AsU16(outputIndex))),
             Register(datum.value.0, datum.value.1)))
    case Some(DeregisterEvent(position, txHash, utxoTxHash, utxoIndex, datum)) =>
      if |position.blockHash| != 32 || |txHash| != 32 || |utxoTxHash| != 32 then Err(InvalidHashLength)
      else if datum.None? then Err(InvalidDatum)
      else
        Ok(ObservedUtxo(
             Header(PositionOf(position), txHash, OutPoint(utxoTxHash, AsU16(utxoIndex))),
             Deregister(datum.value.0, datum.value.1)))
  }

  /** The header of a converted event: where it was seen, in which transaction, and the output it is about. */
  predicate HeaderFrom(h: Header, p: EventPosition, txHash: seq<Byte>, utxoTxHash: seq<Byte>, index: U32) {
    && h.position.blockHash == p.blockHash && h.position.blockNumber == p.blockNumber % 0x1_0000_0000
    && h.position.timestamp == p.timestamp && h.position.txIndex == p.txIndex
    && h.txHash == txHash && h.utxo.txHash == utxoTxHash && h.utxo.index == index % 0x1_0000
  }

  /**
   What a converted event keeps: its position with the block number in 32 bits, the transaction it was
   seen in, the output in 16, the quantity, the holder and, for mappings, what the datum says.
   */
  lemma ConvertedFields(e: UtxoEvent)
    requires ObservedUtxoFromEvent(Some(e)).Ok?
    ensures var u := ObservedUtxoFromEvent(Some(e)).value;
            match e
            case CreateEvent(p, address, quantity, txHash, index) =>
              && HeaderFrom(u.header, p, txHash, txHash, index)
              && u.data.AssetCreate? && u.data.value == quantity && u.data.owner.bytes == address
              && u.data.output == u.header.utxo
            case SpendEvent(p, address, quantity, utxoTxHash, index, spendingTxHash) =>
              && HeaderFrom(u.header, p, spendingTxHash, utxoTxHash, index)
              && u.data.AssetSpend? && u.data.value == quantity && u.data.owner.bytes == address
              && u.data.output == u.header.utxo && u.data.spendingTx == spendingTxHash
            case RegisterEvent(p, txHash, index, datum) =>
              && HeaderFrom(u.header, p, txHash, txHash, index)
              && datum == Some((u.data.address, u.data.key)) && u.data.Register?
            case DeregisterEvent(p, txHash, utxoTxHash, index, datum) =>
              && HeaderFrom(u.header, p, txHash, utxoTxHash, index)
              && datum == Some((u.data.address, u.data.key)) && u.data.Deregister?
  {
  }

  /**
   What is refused: a missing kind, a hash that is not 32 bytes, an address that is not 29, a datum that
   does not decode.
   */
  lemma RefusedEvents(e: UtxoEvent)
    ensures ObservedUtxoFromEvent(None) == Err(MissingKind)
    ensures var r := ObservedUtxoFromEvent(Some(e));
            var hashes := match e
                          case CreateEvent(p, _, _, h, _) => [p.blockHash, h]
                          case SpendEvent(p, _, _, g, _, h) => [p.blockHash, g, h]
                          case RegisterEvent(p, h, _, _) => [p.blockHash, h]
                          case DeregisterEvent(p, g, h, _, _) => [p.blockHash, g, h];
            var badHash := exists i :: 0 <= i < |hashes| && |hashes[i]| != 32;
            && (r == Err(InvalidHashLength) <==> badHash)
            && (r == Err(InvalidAddressLength) <==> !badHash && IsAsset(e) && |e.address| != 29)
            && (r == Err(InvalidDatum) <==> !badHash && !IsAsset(e) && e.datum.None?)
            && (r.Ok? <==> !badHash && (if IsAsset(e) then |e.address| == 29 else e.datum.Some?))
  {
    match e
    case CreateEvent(p, _, _, h, _) =>
      var hs := [p.blockHash, h];
      assert (exists i :: 0 <= i < |hs| && |hs[i]| != 32) <==> |hs[0]| != 32 || |hs[1]| != 32;
    case SpendEvent(p, _, _, g, _, h) =>
      var hs := [p.blockHash, g, h];
      assert (exists i :: 0 <= i < |hs| && |hs[i]| != 32) <==> |hs[0]| != 32 || |hs[1]| != 32 || |hs[2]| != 32;
    case RegisterEvent(p, h, _, _) =>
      var hs := [p.blockHash, h];
      assert (exists i :: 0 <= i < |hs| && |hs[i]| != 32) <==> |hs[0]| != 32 || |hs[1]| != 32;
    case DeregisterEvent(p, g, h, _, _) =>
      var hs := [p.blockHash, g, h];
      assert (exists i :: 0 <= i < |hs| && |hs[i]| != 32) <==> |hs[0]| != 32 || |hs[1]| != 32 || |hs[2]| != 32;
  }

  /** The Cardano output an event is about, before any narrowing. */
  function EventOutput(e: UtxoEvent): (r: (seq<Byte>, U32)) {
    match e
    case CreateEvent(_, _, _, txHash, outputIndex) => (txHash, outputIndex)
    case SpendEvent(_, _, _, utxoTxHash, utxoIndex, _) => (utxoTxHash, utxoIndex)
    case RegisterEvent(_, txHash, outputIndex, _) => (txHash, outputIndex)
    case DeregisterEvent(_, _, utxoTxHash, utxoIndex, _) => (utxoTxHash, utxoIndex)
  }

  predicate IsAsset(e: UtxoEvent) {
    e.CreateEvent? || e.SpendEvent?
  }

  /** The nonce the pallet computes for a converted asset event. */
  function EventNonce(host: Host, e: UtxoEvent): (n: Nonce)
    requires IsAsset(e) && ObservedUtxoFromEvent(Some(e)).Ok?
  {
    NonceOf(host, ObservedUtxoFromEvent(Some(e)).value.data.output)
  }

  lemma ConvertedOutput(host: Host, e: UtxoEvent)
    requires IsAsset(e) && ObservedUtxoFromEvent(Some(e)).Ok?
    ensures |EventOutput(e).0| == 32
    ensures EventNonce(host, e) == NonceOf(host, OutPoint(EventOutput(e).0, AsU16(EventOutput(e).1)))
  {
  }

  /**
   Two converted asset events, create or spend, share a nonce exactly when they name one transaction
   and indices equal modulo 2^16.  So the two ends of an output always meet, and different outputs
   stay apart as long as indices fit in 16 bits.
   */
  lemma SameNonceIff(host: Host, e: UtxoEvent, f: UtxoEvent)
    requires Injective(host.hash)
    requires IsAsset(e) && ObservedUtxoFromEvent(Some(e)).Ok?
    requires IsAsset(f) && ObservedUtxoFromEvent(Some(f)).Ok?
    ensures EventNonce(host, e) == EventNonce(host, f) <==>
            EventOutput(e).0 == EventOutput(f).0 && EventOutput(e).1 % 0x1_0000 == EventOutput(f).1 % 0x1_0000
    ensures EventOutput(e).1 < 0x1_0000 && EventOutput(f).1 < 0x1_0000 ==>
              (EventNonce(host, e) == EventNonce(host, f) <==> EventOutput(e) == EventOutput(f))
  {
    ConvertedOutput(host, e);
    ConvertedOutput(host, f);
    var x, y := EventOutput(e), EventOutput(f);
    NonceIdentifiesOutput(host, OutPoint(x.0, AsU16(x.1)), OutPoint(y.0, AsU16(y.1)));
  }

  /** The narrowing is not injective: output 65536 of a transaction takes the nonce of its output 0. */
  lemma WideIndicesCollide(host: Host, p: EventPosition, address: seq<Byte>, txHash: seq<Byte>)
    requires |p.blockHash| == 32 && |address| == ADDRESS_LENGTH && |txHash| == 32
    ensures var e, f := CreateEvent(p, address, 1, txHash, 0), CreateEvent(p, address, 1, txHash, 0x1_0000);
            && ObservedUtxoFromEvent(Some(e)).Ok? && ObservedUtxoFromEvent(Some(f)).Ok?
            && EventOutput(e) != EventOutput(f) && EventNonce(host, e) == EventNonce(host, f)
  {
    assert AsU16(0x1_0000) == AsU16(0);
  }

  /**
   A registration and the later removal of the same output build the same mapping entry.  Whatever
   is observed between the two, unless it adds or removes that very entry, the mapping lists end as
   if neither the registration nor the removal had been there.
   */
  lemma RemovalUndoesRegistration(host: Host, s: Storage, reg: UtxoEvent, between: seq<ObservedUtxo>, dereg: UtxoEvent)
    requires reg.RegisterEvent? && dereg.DeregisterEvent? && dereg.datum == reg.datum
    requires EventOutput(dereg) == EventOutput(reg)
    requires ObservedUtxoFromEvent(Some(reg)).Ok? && ObservedUtxoFromEvent(Some(dereg)).Ok?
    requires var u := ObservedUtxoFromEvent(Some(reg)).value;
             var entry := EntryOf(u.header, u.data.address, u.data.key);
             entry !in EntriesOf(s.mappings, entry.address) && forall v :: v in between ==> !NamesEntry(v, entry)
    ensures var u, v := ObservedUtxoFromEvent(Some(reg)).value, ObservedUtxoFromEvent(Some(dereg)).value;
            var t, t' := Run(host, s, [u] + between + [v]).storage, Run(host, s, between).storage;
            forall a :: EntriesOf(t.mappings, a) == EntriesOf(t'.mappings, a)
  {
    var u, v := ObservedUtxoFromEvent(Some(reg)).value, ObservedUtxoFromEvent(Some(dereg)).value;
    var entry := EntryOf(u.header, u.data.address, u.data.key);
    assert EntryOf(v.header, v.data.address, v.data.key) == entry;
    var s1 := Step(host, s, u).storage;
    RemoveAppended(EntriesOf(s.mappings, entry.address), entry);
    RunKeepsEntry(host, s1, s, between, entry);
    RunBetween(host, s, u, between, v);
    RemovesEntry(host, Run(host, s1, between).storage, Run(host, s, between).storage, v, entry);
  }

  lemma RunBetween(host: Host, s: Storage, u: ObservedUtxo, between: seq<ObservedUtxo>, v: ObservedUtxo)
    ensures Run(host, s, [u] + between + [v]).storage ==
            Step(host, Run(host, Step(host, s, u).storage, between).storage, v).storage
  {
    RunOne(host, s, u);
    RunOne(host, Run(host, Step(host, s, u).storage, between).storage, v);
    RunConcat(host, s, [u], between);
    RunConcat(host, s, [u] + between, [v]);
  }

  lemma RemovesEntry(host: Host, t: Storage, s: Storage, v: ObservedUtxo, entry: MappingEntry)
    requires HasBesides(t, s, entry)
    requires v.data.Deregister? && EntryOf(v.header, v.data.address, v.data.key) == entry
    ensures forall a :: EntriesOf(Step(host, t, v).storage.mappings, a) == EntriesOf(s.mappings, a)
  {
  }

  /** The UTXO adds or removes this very mapping. */
  predicate NamesEntry(u: ObservedUtxo, entry: MappingEntry) {
    (u.data.Register? || u.data.Deregister?) && EntryOf(u.header, u.data.address, u.data.key) == entry
  }

  /** `t` has the mappings of `s` and `entry` besides. */
  ghost predicate HasBesides(t: Storage, s: Storage, entry: MappingEntry) {
    var with, without := EntriesOf(t.mappings, entry.address), EntriesOf(s.mappings, entry.address);
    && entry in with && RemoveFirst(with, entry) == without
    && forall a :: a != entry.address ==> EntriesOf(t.mappings, a) == EntriesOf(s.mappings, a)
  }

  lemma StepKeepsEntry(host: Host, t: Storage, s: Storage, u: ObservedUtxo, entry: MappingEntry)
    requires HasBesides(t, s, entry) && !NamesEntry(u, entry)
    ensures HasBesides(Step(host, t, u).storage, Step(host, s, u).storage, entry)
  {
    var with := EntriesOf(t.mappings, entry.address);
    if u.data.Register? {
      var other := EntryOf(u.header, u.data.address, u.data.key);
      RemoveThenAppend(with, entry, other);
      StoreKeepsEntry(t, s, u.data.address, EntriesOf(t.mappings, u.data.address) + [other],
                      EntriesOf(s.mappings, u.data.address) + [other], entry);
    } else if u.data.Deregister? {
      var other := EntryOf(u.header, u.data.address, u.data.key);
      RemovalsCommute(with, entry, other);
      StoreKeepsEntry(t, s, u.data.address, RemoveFirst(EntriesOf(t.mappings, u.data.address), other),
                      RemoveFirst(EntriesOf(s.mappings, u.data.address), other), entry);
    }
  }

  lemma StoreKeepsEntry(t: Storage, s: Storage, a: Address, ts: seq<MappingEntry>, ss: seq<MappingEntry>,
                        entry: MappingEntry)
    requires HasBesides(t, s, entry)
    requires if a == entry.address then entry in ts && RemoveFirst(ts, entry) == ss else ts == ss
    ensures HasBesides(t.(mappings := StoreEntries(t.mappings, a, ts)),
                       s.(mappings := StoreEntries(s.mappings, a, ss)), entry)
  {
    forall b ensures EntriesOf(StoreEntries(t.mappings, a, ts), b) == if b == a then ts else EntriesOf(t.mappings, b)
             ensures EntriesOf(StoreEntries(s.mappings, a, ss), b) == if b == a then ss else EntriesOf(s.mappings, b)
    {
    }
  }

  lemma {:induction false} RunKeepsEntry(host: Host, t: Storage, s: Storage, us: seq<ObservedUtxo>, entry: MappingEntry)
    requires HasBesides(t, s, entry) && forall u :: u in us ==> !NamesEntry(u, entry)
    ensures HasBesides(Run(host, t, us).storage, Run(host, s, us).storage, entry)
    decreases |us|
  {
    if us != [] {
      assert us[0] in us;
      StepKeepsEntry(host, t, s, us[0], entry);
      RunKeepsEntry(host, Step(host, t, us[0]).storage, Step(host, s, us[0]).storage, us[1..], entry);
    }
  }

  lemma {:induction false} RemoveThenAppend<T>(s: seq<T>, x: T, y: T)
    requires x in s
    ensures RemoveFirst(s + [y], x) == RemoveFirst(s, x) + [y]
  {
    assert (s + [y])[1..] == s[1..] + [y];
    if s[0] != x {
      RemoveThenAppend(s[1..], x, y);
    }
  }

  lemma {:induction false} RemovalsCommute<T>(s: seq<T>, x: T, y: T)
    requires x in s && x != y
    ensures x in RemoveFirst(s, y)
    ensures RemoveFirst(RemoveFirst(s, y), x) == RemoveFirst(RemoveFirst(s, x), y)
  {
    if s[0] == x {
      assert ([x] + RemoveFirst(s[1..], y))[1..] == RemoveFirst(s[1..], y);
    } else if s[0] == y {
      assert x in s[1..];
      assert ([y] + RemoveFirst(s[1..], x))[1..] == RemoveFirst(s[1..], x);
    } else {
      RemovalsCommute(s[1..], x, y);
      assert ([s[0]] + RemoveFirst(s[1..], y))[1..] == RemoveFirst(s[1..], y);
      assert ([s[0]] + RemoveFirst(s[1..], x))[1..] == RemoveFirst(s[1..], x);
    }
  }

  lemma {:induction false} RemoveAppended<T>(s: seq<T>, x: T)
    requires x !in s
    ensures RemoveFirst(s + [x], x) == s
  {
    if s == [] {
      assert s + [x] == [x];
    } else {
      assert (s + [x])[1..] == s[1..] + [x];
      RemoveAppended(s[1..], x);
    }
  }
}

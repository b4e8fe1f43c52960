/** What the cNIGHT observation pallet stores, observes and emits. */
module CnightTypes {
  import opened Common

  datatype Address = Address(bytes: seq<Byte>)
  datatype DustKey = DustKey(bytes: seq<Byte>)
  datatype Nonce = Nonce(bytes: seq<Byte>)

  /** A Cardano output: the transaction that created it and its index there. */
  datatype OutPoint = OutPoint(txHash: Hash32, index: U16)

  datatype CardanoPosition =
    CardanoPosition(blockHash: Hash32, blockNumber: U32, timestamp: I64, txIndex: U32)

  /** `p < q`: block number first, then transaction index; hash and timestamp do not take part. */
  predicate Before(p: CardanoPosition, q: CardanoPosition) {
    p.blockNumber < q.blockNumber || (p.blockNumber == q.blockNumber && p.txIndex < q.txIndex)
  }

  datatype Header = Header(position: CardanoPosition, txHash: Hash32, utxo: OutPoint)

  datatype UtxoData =
    | Register(address: Address, key: DustKey)
    | Deregister(address: Address, key: DustKey)
    | AssetCreate(value: nat, owner: Address, output: OutPoint)
    | AssetSpend(value: nat, owner: Address, output: OutPoint, spendingTx: Hash32)

  datatype ObservedUtxo = ObservedUtxo(header: Header, data: UtxoData)

  datatype MappingEntry = MappingEntry(address: Address, key: DustKey, utxo: OutPoint)

  datatype PalletEvent =
    | Registration(address: Address, key: DustKey)
    | Deregistration(address: Address, key: DustKey)
    | MappingAdded(entry: MappingEntry)
    | MappingRemoved(entry: MappingEntry)
    | SystemTransactionApplied(blockHash: Hash32, txIndex: U32, txHash: Hash32)

  datatype Action = Create | Destroy

  /** The dust-generation event handed to the ledger, before serialisation. */
  datatype LedgerEvent =
    LedgerEvent(action: Action, value: nat, key: DustKey, time: U64, nonce: Nonce)

  /** The host functions the pallet calls: the hasher and the ledger's event constructor, which may fail. */
  datatype Host = Host(hash: seq<Byte> -> Nonce, builds: LedgerEvent -> bool)

  /** The bytes of `asset_create`. */
  const NONCE_TAG: seq<Byte> := [97, 115, 115, 101, 116, 95, 99, 114, 101, 97, 116, 101]

  function NoncePreimage(output: OutPoint): (s: seq<Byte>) {
    NONCE_TAG + output.txHash + BigEndian16(output.index)
  }

  function NonceOf(host: Host, output: OutPoint): (n: Nonce) {
    host.hash(NoncePreimage(output))
  }

  /** The block time of an observation in whole seconds; a time before 1970 wraps to a far future. */
  function Seconds(header: Header): (t: U64)
    ensures header.position.timestamp >= 0 ==> 1000 * t <= header.position.timestamp < 1000 * t + 1000
    ensures header.position.timestamp < 0 ==> t >= 0x8000_0000_0000_0000 / 1000
  {
    AsU64(header.position.timestamp) / 1000
  }

  function EntryOf(header: Header, address: Address, key: DustKey): (e: MappingEntry) {
    MappingEntry(address, key, header.utxo)
  }

  ghost predicate Injective(hash: seq<Byte> -> Nonce) {
    forall x, y :: hash(x) == hash(y) ==> x == y
  }

  /** The preimage is laid out in fixed widths, so it determines the output it was made from. */
  lemma NoncePreimageInjective(x: OutPoint, y: OutPoint)
    requires NoncePreimage(x) == NoncePreimage(y)
    ensures x == y
  {
    ConcatSplit(NONCE_TAG + x.txHash, BigEndian16(x.index), NONCE_TAG + y.txHash, BigEndian16(y.index));
    PrependInjective(NONCE_TAG, x.txHash, y.txHash);
    assert BigEndian16(x.index)[0] == BigEndian16(y.index)[0];
    assert BigEndian16(x.index)[1] == BigEndian16(y.index)[1];
  }

  lemma NonceIdentifiesOutput(host: Host, x: OutPoint, y: OutPoint)
    requires Injective(host.hash)
    ensures NonceOf(host, x) == NonceOf(host, y) <==> x == y
  {
    if NonceOf(host, x) == NonceOf(host, y) {
      NoncePreimageInjective(x, y);
    }
  }
}

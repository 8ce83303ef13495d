/**
  Cryptocurrency address records (src/models/crypto_address.rs) and the
  chain guessed from an address's shape.
*/
module CryptoAddressModel {
  import opened Strings

  datatype ChainType = BTC | ETH | XMR | TRX | OTHER

  /** The shape each rule of `from_address` looks for. */
  predicate EthShape(address: string) {
    StartsWith(address, "0x") && |address| == 42
  }

  predicate BtcShape(address: string) {
    StartsWith(address, "bc1") || StartsWith(address, "1") || StartsWith(address, "3")
  }

  predicate TrxShape(address: string) {
    StartsWith(address, "T") && |address| == 34
  }

  predicate XmrShape(address: string) {
    StartsWith(address, "4") && (|address| == 95 || |address| == 106)
  }

  /** `ChainType::from_address`: the first rule that fits decides, and
      OTHER is left when none fits. */
  function FromAddress(address: string): (c: ChainType)
    ensures c == ETH <==> EthShape(address)
    ensures c == BTC <==> !EthShape(address) && BtcShape(address)
    ensures c == TRX <==> !EthShape(address) && !BtcShape(address) && TrxShape(address)
    ensures c == XMR <==> !EthShape(address) && !BtcShape(address) && !TrxShape(address) && XmrShape(address)
    ensures c == OTHER <==> !EthShape(address) && !BtcShape(address) && !TrxShape(address) && !XmrShape(address)
  {
    if StartsWith(address, "0x") && |address| == 42 then ETH
    else if StartsWith(address, "bc1") || StartsWith(address, "1") || StartsWith(address, "3") then BTC
    else if StartsWith(address, "T") && |address| == 34 then TRX
    else if StartsWith(address, "4") && (|address| == 95 || |address| == 106) then XMR
    else OTHER
  }

  /** Only the prefix and the length are looked at: a 42-byte "0x" text
      is ETH whatever follows the prefix, and a text starting "1" is BTC
      whatever its length. */
  lemma ShapeNotContent(digits: string)
    requires |digits| == 40
    ensures FromAddress("0x" + digits) == ETH
    ensures FromAddress("1" + digits) == BTC
  {
    assert ("0x" + digits)[..2] == "0x";
    assert ("1" + digits)[..1] == "1";
  }

  /** The address of the module's ETH tests has 41 bytes, so the code
      classifies it OTHER, where the tests expect ETH. */
  lemma TestEthAddressIsOther()
    ensures FromAddress("0x742d35Cc6634C0532925a3b844Bc9e7595f0bEb") == OTHER
    ensures NewCryptoAddress("0x742d35Cc6634C0532925a3b844Bc9e7595f0bEb", "/path/to/file.md",
                             "Found in section about hack", "lazarus_group").chain == "OTHER"
  {
    var a := "0x742d35Cc6634C0532925a3b844Bc9e7595f0bEb";
    assert |a| == 41;
    assert a[0] == '0';
  }

  /** The module's BTC test address is classified BTC. */
  lemma TestBtcAddress()
    ensures FromAddress("bc1qxy2kgdygjrsqtzq2n0yrf2493p83kkfjhx0wlh") == BTC
  {
    var a := "bc1qxy2kgdygjrsqtzq2n0yrf2493p83kkfjhx0wlh";
    assert a[0] == 'b' && a[1] == 'c' && a[2] == '1';
    assert a[..3] == "bc1";
  }

  /** `ChainType::as_str`. */
  function ChainName(c: ChainType): string {
    match c
    case BTC => "BTC"
    case ETH => "ETH"
    case XMR => "XMR"
    case TRX => "TRX"
    case OTHER => "OTHER"
  }

  /** Distinct chains have distinct names, so the stored name identifies
      the chain. */
  lemma ChainNameInjective(a: ChainType, b: ChainType)
    ensures ChainName(a) == ChainName(b) <==> a == b
  {
  }

  /** The stored record; `parsed_at` (a wall-clock read) is not modelled. */
  datatype CryptoAddress = CryptoAddress(
    address: string,
    chain: string,
    documentId: string,
    filePath: string,
    context: string,
    attribution: string)

  /** `CryptoAddress::new`: the chain comes from the address, the document
      id starts empty. */
  function NewCryptoAddress(address: string, filePath: string, context: string,
                            attribution: string): (r: CryptoAddress)
    ensures r.address == address && r.chain == ChainName(FromAddress(address))
    ensures r.documentId == ""
    ensures r.filePath == filePath && r.context == context && r.attribution == attribution
  {
    CryptoAddress(address, ChainName(FromAddress(address)), "", filePath, context, attribution)
  }

  /** `CryptoAddress::with_document_id`: only the document id changes. */
  function WithDocumentId(a: CryptoAddress, documentId: string): (r: CryptoAddress)
    ensures r.documentId == documentId
    ensures r.(documentId := a.documentId) == a
  {
    a.(documentId := documentId)
  }
}

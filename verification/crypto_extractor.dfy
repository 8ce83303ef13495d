/**
  Cryptocurrency address extraction (src/extractor/crypto.rs). The four
  regular expressions are not modelled: their matches, in the order the
  engine reports them, are the input. The extractor remembers every
  address it has taken, across calls, until it is reset.
*/
module CryptoExtractor {
  import opened Strings
  import opened ContextWindow
  import opened MatchScan
  import opened CryptoAddressModel
  import Patterns

  /** `crypto::is_valid_eth_address`: a lowercase "0x", 42 bytes in all,
      and hexadecimal digits after the prefix. */
  predicate IsValidEthAddress(addr: string) {
    && StartsWith(addr, "0x")
    && |addr| == 42
    && forall i :: 2 <= i < |addr| ==> Patterns.IsHexDigit(addr[i])
  }

  /** An address this check accepts also passes the pattern check of
      src/extractor/patterns.rs. */
  lemma ValidEthPassesPattern(addr: string)
    requires IsValidEthAddress(addr)
    ensures Patterns.IsValidEthAddress(addr)
  {
    Patterns.EthAddressShape(addr);
    assert addr[..2] == "0x";
  }

  /** An address this check accepts is classified ETH, so every
      Ethereum record the extractor reports carries the chain "ETH". */
  lemma ValidEthIsEthChain(text: string, m: Match, filePath: string, attribution: string)
    requires m.start <= m.end <= |text|
    requires IsValidEthAddress(text[m.start..m.end])
    ensures FromAddress(text[m.start..m.end]) == ETH
    ensures Report(text, m, filePath, attribution).chain == "ETH"
  {
  }

  /** The pattern is case-insensitive and this check is not: an address
      spelled with "0X" matches the pattern but is rejected here. */
  lemma UppercasePrefixRejected(digits: string)
    requires |digits| == 40 && forall i :: 0 <= i < 40 ==> Patterns.IsHexDigit(digits[i])
    ensures Patterns.IsValidEthAddress("0X" + digits)
    ensures !IsValidEthAddress("0X" + digits)
  {
    var addr := "0X" + digits;
    assert forall k :: 2 <= k < 42 ==> addr[k] == digits[k - 2];
    Patterns.EthAddressShape(addr);
    assert addr[..2][1] == 'X';
  }

  /** The address in the extractor's ETH tests has 39 hexadecimal digits,
      41 bytes in all, so neither check accepts it. */
  lemma TestEthAddressRejected()
    ensures !IsValidEthAddress("0x742d35Cc6634C0532925a3b844Bc9e7595f0bEb")
    ensures !Patterns.IsValidEthAddress("0x742d35Cc6634C0532925a3b844Bc9e7595f0bEb")
  {
    assert |"0x742d35Cc6634C0532925a3b844Bc9e7595f0bEb"| == 41;
  }

  /** The four passes of `extract_from_text`, in order. */
  datatype Group = BtcGroup | EthGroup | XmrGroup | TrxGroup

  /** Addresses keep their spelling and every match is remembered; an
      Ethereum match is remembered before it is checked, so one that fails
      the check is never reported, not even from a later match of another
      pass. */
  function GroupRule(g: Group): (rule: Rule)
    ensures !rule.lower
    ensures rule.admit == Always
    ensures g != EthGroup ==> rule.show == Always
  {
    if g == EthGroup then Rule(false, Always, IsValidEthAddress) else Rule(false, Always, Always)
  }

  /** The record reported for a match: its address, the file and
      attribution given, and the text around it. */
  function Report(text: string, m: Match, filePath: string, attribution: string): (r: CryptoAddress)
    requires m.start <= m.end <= |text|
    ensures r.address == text[m.start..m.end]
    ensures r.chain == ChainName(FromAddress(r.address)) && r.documentId == ""
    ensures r.filePath == filePath && r.attribution == attribution
    ensures r.context == ContextOf(text, m.start, m.end)
  {
    NewCryptoAddress(text[m.start..m.end], filePath, ContextOf(text, m.start, m.end), attribution)
  }

  function Reports(text: string, ms: seq<Match>, filePath: string, attribution: string): (r: seq<CryptoAddress>)
    requires InText(text, ms)
    ensures |r| == |ms| && forall i :: 0 <= i < |ms| ==> r[i] == Report(text, ms[i], filePath, attribution)
  {
    seq(|ms|, i requires 0 <= i < |ms| => Report(text, ms[i], filePath, attribution))
  }

  function Addresses(found: seq<CryptoAddress>): (r: seq<string>)
    ensures |r| == |found| && forall i :: 0 <= i < |found| ==> r[i] == found[i].address
  {
    seq(|found|, i requires 0 <= i < |found| => found[i].address)
  }

  /** One pass: the records reported and the addresses remembered after
      it. */
  function ScanGroupSpec(g: Group, text: string, ms: seq<Match>, filePath: string, attribution: string,
                         seen: set<string>): (seq<CryptoAddress>, set<string>)
    requires InText(text, ms)
  {
    var (reported, s) := Scan(GroupRule(g), text, ms, seen);
    (Reports(text, reported, filePath, attribution), s)
  }

  /** The four passes in order: BTC, ETH, XMR, TRX. */
  function ExtractAll(text: string, btc: seq<Match>, eth: seq<Match>, xmr: seq<Match>, trx: seq<Match>,
                      filePath: string, attribution: string, seen: set<string>): (seq<CryptoAddress>, set<string>)
    requires InText(text, btc) && InText(text, eth) && InText(text, xmr) && InText(text, trx)
  {
    var (a, s1) := ScanGroupSpec(BtcGroup, text, btc, filePath, attribution, seen);
    var (b, s2) := ScanGroupSpec(EthGroup, text, eth, filePath, attribution, s1);
    var (c, s3) := ScanGroupSpec(XmrGroup, text, xmr, filePath, attribution, s2);
    var (d, s4) := ScanGroupSpec(TrxGroup, text, trx, filePath, attribution, s3);
    (a + b + c + d, s4)
  }

  lemma ReportAddresses(text: string, ms: seq<Match>, filePath: string, attribution: string, rule: Rule)
    requires InText(text, ms) && !rule.lower
    ensures Addresses(Reports(text, ms, filePath, attribution)) == Values(rule, text, ms)
  {
  }

  /** A pass reports addresses not remembered before, each once, remembers
      them, and remembers every address it matched, valid or not. */
  lemma ScanGroupFresh(g: Group, text: string, ms: seq<Match>, filePath: string, attribution: string,
                       seen: set<string>)
    requires InText(text, ms)
    ensures var (out, s) := ScanGroupSpec(g, text, ms, filePath, attribution, seen);
      && (forall i :: 0 <= i < |out| ==> out[i].address in s && out[i].address !in seen)
      && Distinct(Addresses(out))
      && s == seen + set i | 0 <= i < |ms| :: text[ms[i].start..ms[i].end]
  {
    var rule := GroupRule(g);
    ScanFresh(rule, text, ms, seen);
    ScanSeen(rule, text, ms, seen);
    var reported := Scan(rule, text, ms, seen).0;
    ReportAddresses(text, reported, filePath, attribution, rule);
    var all := set i | 0 <= i < |ms| :: text[ms[i].start..ms[i].end];
    forall x | x in all ensures x in Admitted(rule, text, ms) {
      var i :| 0 <= i < |ms| && x == text[ms[i].start..ms[i].end];
      assert Values(rule, text, ms)[i] == x && rule.admit(x);
    }
  }

  /** Every record of a pass comes from one of its matches, in match
      order, with that match's address and context and the file and
      attribution given; the Ethereum pass reports only valid
      addresses. */
  lemma ScanGroupOrder(g: Group, text: string, ms: seq<Match>, filePath: string, attribution: string,
                       seen: set<string>)
    returns (idx: seq<nat>)
    requires InText(text, ms)
    ensures var out := ScanGroupSpec(g, text, ms, filePath, attribution, seen).0;
      && |idx| == |out|
      && (forall k, l :: 0 <= k < l < |idx| ==> idx[k] < idx[l])
      && (forall k :: 0 <= k < |idx| ==> idx[k] < |ms| && out[k] == Report(text, ms[idx[k]], filePath, attribution))
      && (g == EthGroup ==> forall k :: 0 <= k < |out| ==> IsValidEthAddress(out[k].address))
  {
    idx := ScanOrder(GroupRule(g), text, ms, seen);
  }

  /** No address is lost: the first match of an address not remembered
      before is reported by its pass, unless it is an Ethereum match that
      fails the validity check. */
  lemma ScanGroupComplete(g: Group, text: string, ms: seq<Match>, filePath: string, attribution: string,
                          seen: set<string>, i: nat)
    requires InText(text, ms) && i < |ms|
    requires text[ms[i].start..ms[i].end] !in seen
    requires g == EthGroup ==> IsValidEthAddress(text[ms[i].start..ms[i].end])
    requires forall j :: 0 <= j < i ==> text[ms[j].start..ms[j].end] != text[ms[i].start..ms[i].end]
    ensures Report(text, ms[i], filePath, attribution) in ScanGroupSpec(g, text, ms, filePath, attribution, seen).0
  {
    var rule := GroupRule(g);
    assert Reportable(rule, text, ms, seen, i);
    ScanComplete(rule, text, ms, seen, i);
    var reported := Scan(rule, text, ms, seen).0;
    var k :| 0 <= k < |reported| && reported[k] == ms[i];
    assert ScanGroupSpec(g, text, ms, filePath, attribution, seen).0[k] == Report(text, ms[i], filePath, attribution);
  }

  predicate Carries(found: seq<CryptoAddress>, filePath: string, attribution: string) {
    forall i :: 0 <= i < |found| ==> found[i].filePath == filePath && found[i].attribution == attribution
  }

  lemma GroupCarries(g: Group, text: string, ms: seq<Match>, filePath: string, attribution: string,
                     seen: set<string>)
    requires InText(text, ms)
    ensures Carries(ScanGroupSpec(g, text, ms, filePath, attribution, seen).0, filePath, attribution)
  {
  }

  /** Every record of a call carries the file path and attribution it was
      given. */
  lemma AllCarry(text: string, btc: seq<Match>, eth: seq<Match>, xmr: seq<Match>, trx: seq<Match>,
                 filePath: string, attribution: string, seen: set<string>)
    requires InText(text, btc) && InText(text, eth) && InText(text, xmr) && InText(text, trx)
    ensures forall a :: a in ExtractAll(text, btc, eth, xmr, trx, filePath, attribution, seen).0 ==>
      a.filePath == filePath && a.attribution == attribution
  {
    var (a, s1) := ScanGroupSpec(BtcGroup, text, btc, filePath, attribution, seen);
    var (b, s2) := ScanGroupSpec(EthGroup, text, eth, filePath, attribution, s1);
    var (c, s3) := ScanGroupSpec(XmrGroup, text, xmr, filePath, attribution, s2);
    var (d, s4) := ScanGroupSpec(TrxGroup, text, trx, filePath, attribution, s3);
    GroupCarries(BtcGroup, text, btc, filePath, attribution, seen);
    GroupCarries(EthGroup, text, eth, filePath, attribution, s1);
    GroupCarries(XmrGroup, text, xmr, filePath, attribution, s2);
    GroupCarries(TrxGroup, text, trx, filePath, attribution, s3);
    assert Carries(a + b + c + d, filePath, attribution);
  }

  /** An address matched twice in one pass is reported once. */
  lemma DuplicateReportedOnce(text: string, m1: Match, m2: Match, filePath: string, attribution: string,
                              seen: set<string>)
    requires m1.start <= m1.end <= |text| && m2.start <= m2.end <= |text|
    requires text[m1.start..m1.end] == text[m2.start..m2.end] && text[m1.start..m1.end] !in seen
    ensures ScanGroupSpec(BtcGroup, text, [m1, m2], filePath, attribution, seen).0 ==
      [Report(text, m1, filePath, attribution)]
  {
    var rule := GroupRule(BtcGroup);
    var v := text[m1.start..m1.end];
    assert ValueOf(rule, text, m1) == v == ValueOf(rule, text, m2);
    assert rule.admit(v) && rule.show(v);
    assert [m1, m2][..1] == [m1];
    assert [m1][..0] == [];
    assert Scan(rule, text, [], seen) == ([], seen);
    assert Scan(rule, text, [m1], seen) == ([] + [m1], seen + {v});
  }

  /** `CryptoExtractor`: the addresses taken so far. `emitted` records,
      for the proof, every address reported since the last reset. */
  class CryptoExtractor {
    var seen: set<string>
    ghost var emitted: seq<string>

    /** Every address reported since the last reset was reported once and
        is remembered. */
    ghost predicate Valid()
      reads this
    {
      Distinct(emitted) && forall i :: 0 <= i < |emitted| ==> emitted[i] in seen
    }

    /** `CryptoExtractor::new`. */
    constructor()
      ensures Valid()
      ensures seen == {} && emitted == []
    {
      seen := {};
      emitted := [];
    }

    /** One of the four loops of `extract_from_text`: the pass of group
        `g`, whose rule is `rule`. */
    method ScanGroup(g: Group, rule: Rule, text: string, ms: seq<Match>, filePath: string, attribution: string)
      returns (out: seq<CryptoAddress>)
      requires rule == GroupRule(g)
      requires InText(text, ms) && Valid()
      modifies this
      ensures (out, seen) == ScanGroupSpec(g, text, ms, filePath, attribution, old(seen))
      ensures emitted == old(emitted) + Addresses(out)
      ensures Valid()
    {
      ScanGroupFresh(g, text, ms, filePath, attribution, seen);
      ghost var reported: seq<Match> := [];
      out := [];
      for i := 0 to |ms|
        invariant (reported, seen) == Scan(rule, text, ms[..i], old(seen))
        invariant InText(text, reported) && out == Reports(text, reported, filePath, attribution)
        invariant emitted == old(emitted) + Addresses(out)
      {
        ScanStep(rule, text, ms, old(seen), i);
        var m := ms[i];
        var addr := text[m.start..m.end];
        if rule.admit(addr) && addr !in seen {
          seen := seen + {addr};
          if rule.show(addr) {
            var context := ExtractContextSafe(text, m.start, m.end);
            var found := NewCryptoAddress(addr, filePath, context, attribution);
            ReportsSnoc(text, reported, m, filePath, attribution);
            AddressesSnoc(old(emitted), out, found);
            out := out + [found];
            reported := reported + [m];
            emitted := emitted + [addr];
          }
        }
      }
      assert ms[..|ms|] == ms;
      DistinctConcat(old(emitted), Addresses(out), old(seen), seen);
    }

    /** `extract_from_text`. */
    method ExtractFromText(text: string, btc: seq<Match>, eth: seq<Match>, xmr: seq<Match>, trx: seq<Match>,
                           filePath: string, attribution: string)
      returns (addresses: seq<CryptoAddress>)
      requires InText(text, btc) && InText(text, eth) && InText(text, xmr) && InText(text, trx)
      requires Valid()
      modifies this
      ensures (addresses, seen) == ExtractAll(text, btc, eth, xmr, trx, filePath, attribution, old(seen))
      ensures emitted == old(emitted) + Addresses(addresses)
      ensures Valid()
    {
      ghost var before := emitted;
      addresses := ScanGroup(BtcGroup, GroupRule(BtcGroup), text, btc, filePath, attribution);
      var b := ScanGroup(EthGroup, GroupRule(EthGroup), text, eth, filePath, attribution);
      AddressesAppend(before, addresses, b);
      addresses := addresses + b;
      var c := ScanGroup(XmrGroup, GroupRule(XmrGroup), text, xmr, filePath, attribution);
      AddressesAppend(before, addresses, c);
      addresses := addresses + c;
      var d := ScanGroup(TrxGroup, GroupRule(TrxGroup), text, trx, filePath, attribution);
      AddressesAppend(before, addresses, d);
      addresses := addresses + d;
    }

    /** `reset`: every address is forgotten. */
    method Reset()
      requires Valid()
      modifies this
      ensures seen == {} && emitted == [] && Valid()
    {
      seen := {};
      emitted := [];
    }
  }

  lemma ReportsSnoc(text: string, ms: seq<Match>, m: Match, filePath: string, attribution: string)
    requires InText(text, ms) && m.start <= m.end <= |text|
    ensures InText(text, ms + [m])
    ensures Reports(text, ms + [m], filePath, attribution) ==
      Reports(text, ms, filePath, attribution) + [Report(text, m, filePath, attribution)]
  {
    var all := ms + [m];
    assert InText(text, all) by {
      forall i | 0 <= i < |all|
        ensures all[i].start <= all[i].end <= |text|
      {
        if i < |ms| {
          assert all[i] == ms[i];
        }
      }
    }
    var whole := Reports(text, all, filePath, attribution);
    var parts := Reports(text, ms, filePath, attribution) + [Report(text, m, filePath, attribution)];
    forall i | 0 <= i < |whole|
      ensures whole[i] == parts[i]
    {
      if i < |ms| {
        assert all[i] == ms[i];
      }
    }
  }

  lemma AddressesSnoc(before: seq<string>, found: seq<CryptoAddress>, x: CryptoAddress)
    ensures before + Addresses(found) + [x.address] == before + Addresses(found + [x])
  {
    assert Addresses(found + [x]) == Addresses(found) + [x.address];
  }

  lemma AddressesAppend(before: seq<string>, a: seq<CryptoAddress>, b: seq<CryptoAddress>)
    ensures before + Addresses(a) + Addresses(b) == before + Addresses(a + b)
  {
    assert Addresses(a + b) == Addresses(a) + Addresses(b);
  }
}

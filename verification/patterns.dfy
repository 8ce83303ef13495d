/**
  The helper predicates of src/extractor/patterns.rs. The regular
  expressions themselves are not modelled, except the Ethereum one, whose
  shape is simple enough to state: a word boundary, "0x" (either case of
  the x), forty hexadecimal digits, a word boundary.
*/
module Patterns {
  import opened Strings

  predicate IsHexDigit(c: char) {
    ('0' <= c <= '9') || ('a' <= c <= 'f') || ('A' <= c <= 'F')
  }

  /** The characters `\b` treats as word characters (ASCII range). */
  predicate IsWordChar(c: char) {
    ('0' <= c <= '9') || ('a' <= c <= 'z') || ('A' <= c <= 'Z') || c == '_'
  }

  const EthLength := 42

  /** The Ethereum pattern matches at byte `i` of `s`. */
  predicate EthMatchAt(s: string, i: nat) {
    && i + EthLength <= |s|
    && (i == 0 || !IsWordChar(s[i - 1]))
    && s[i] == '0' && (s[i + 1] == 'x' || s[i + 1] == 'X')
    && (forall k :: i + 2 <= k < i + EthLength ==> IsHexDigit(s[k]))
    && (i + EthLength == |s| || !IsWordChar(s[i + EthLength]))
  }

  /** `ETH_ADDRESS.is_match`: a match anywhere in `s`. */
  predicate EthPatternMatches(s: string) {
    exists i: nat :: i <= |s| && EthMatchAt(s, i)
  }

  /** `patterns::is_valid_eth_address`: the pattern matches and the whole
      string is 42 bytes long. */
  predicate IsValidEthAddress(s: string) {
    EthPatternMatches(s) && |s| == EthLength
  }

  /** So the whole string is the match: "0x" or "0X" and forty hexadecimal
      digits. */
  lemma EthAddressShape(s: string)
    ensures IsValidEthAddress(s) <==>
      |s| == EthLength && s[0] == '0' && (s[1] == 'x' || s[1] == 'X') &&
      forall k :: 2 <= k < EthLength ==> IsHexDigit(s[k])
  {
    if |s| == EthLength && s[0] == '0' && (s[1] == 'x' || s[1] == 'X') &&
       (forall k :: 2 <= k < EthLength ==> IsHexDigit(s[k])) {
      assert EthMatchAt(s, 0);
    }
    if IsValidEthAddress(s) {
      var i: nat :| i <= |s| && EthMatchAt(s, i);
      assert i == 0;
    }
  }

  /** `patterns::is_private_ip`: a prefix test. */
  predicate IsPrivateIpPrefix(ip: string) {
    StartsWith(ip, "10.") || StartsWith(ip, "192.168.") || StartsWith(ip, "172.16.") || StartsWith(ip, "127.")
  }

  /** The loopback and 10/8 prefixes and 192.168/16 are private, and of the
      172.16/12 block only 172.16/16 is; a public address such as 8.8.8.8
      is not. */
  lemma PrivatePrefixExamples()
    ensures IsPrivateIpPrefix("10.0.0.1") && IsPrivateIpPrefix("127.0.0.1")
    ensures IsPrivateIpPrefix("192.168.1.1") && IsPrivateIpPrefix("172.16.0.1")
    ensures !IsPrivateIpPrefix("172.20.0.1") && !IsPrivateIpPrefix("8.8.8.8")
  {
    assert "10.0.0.1"[..3] == "10.";
    assert "127.0.0.1"[..4] == "127.";
    assert "192.168.1.1"[..8] == "192.168.";
    assert "172.16.0.1"[..7] == "172.16.";
    assert "172.20.0.1"[..7][4] != "172.16."[4];
    assert "172.20.0.1"[..3][1] != "10."[1];
    assert "172.20.0.1"[..4][1] != "127."[1];
    assert "172.20.0.1"[..8][1] != "192.168."[1];
    assert "8.8.8.8"[..3][0] != "10."[0];
    assert "8.8.8.8"[..4][0] != "127."[0];
    assert "8.8.8.8"[..7][0] != "172.16."[0];
  }
}

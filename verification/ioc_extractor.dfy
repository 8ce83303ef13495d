/**
  Indicator-of-compromise extraction (src/extractor/ioc.rs). The four
  regular expressions are not modelled: their matches, in the order the
  engine reports them, are the input. The extractor remembers every value
  it has taken, across calls, until it is reset.
*/
module IocExtractor {
  import opened Errors
  import opened Strings
  import opened ContextWindow
  import opened MatchScan
  import Patterns
  import opened IocModel

  const CommonDomains: set<string> := {"github.com", "google.com", "microsoft.com", "apple.com",
    "amazon.com", "example.com", "localhost", "archive.ph", "archive.org", "web.archive.org"}

  predicate IsDigit(c: char) {
    '0' <= c <= '9'
  }

  /** The value of a string of decimal digits. */
  function DecimalValue(digits: string): nat
    requires forall i :: 0 <= i < |digits| ==> IsDigit(digits[i])
  {
    if digits == [] then 0
    else DecimalValue(digits[..|digits| - 1]) * 10 + DigitValue(digits[|digits| - 1])
  }

  function DigitValue(c: char): nat
    requires IsDigit(c)
  {
    c as int - '0' as int
  }

  /** The digits `u8::from_str` reads: an optional leading '+' is
      dropped. */
  function UnsignedDigits(s: string): string {
    if s != [] && s[0] == '+' then s[1..] else s
  }

  /** `str::parse::<u8>`: one or more decimal digits after an optional '+',
      with a value of at most 255. */
  function ParseU8(s: string): (r: Option<nat>)
    ensures r.Some? <==>
      var d := UnsignedDigits(s);
      d != [] && (forall i :: 0 <= i < |d| ==> IsDigit(d[i])) && DecimalValue(d) <= 255
    ensures r.Some? ==> r.value <= 255 && r.value == DecimalValue(UnsignedDigits(s))
  {
    var d := UnsignedDigits(s);
    if d == [] || exists i :: 0 <= i < |d| && !IsDigit(d[i]) then None
    else if DecimalValue(d) > 255 then None
    else Some(DecimalValue(d))
  }

  /** `ioc::is_private_ip`: four dot-separated parts, the first of them a
      byte of value 10 or 127, or 172 with a second byte in 16..31, or 192
      with a second part spelled "168". */
  function IsPrivateIp(ip: string): (b: bool)
    ensures b ==> |Split(ip, '.')| == 4 && ParseU8(Split(ip, '.')[0]).Some?
  {
    var parts := Split(ip, '.');
    if |parts| != 4 then false
    else
      match ParseU8(parts[0])
      case None => false
      case Some(first) =>
        if first == 10 then true
        else if first == 172 then
          match ParseU8(parts[1])
          case None => false
          case Some(second) => 16 <= second <= 31
        else if first == 192 then parts[1] == "168"
        else first == 127
  }

  lemma SplitQuad(a: string, b: string, c: string, d: string)
    requires '.' !in a && '.' !in b && '.' !in c && '.' !in d
    ensures Split(a + "." + b + "." + c + "." + d, '.') == [a, b, c, d]
  {
    var cd := c + "." + d;
    var bcd := b + "." + cd;
    SplitWhole(d, '.');
    SplitDot(c, d, [d]);
    SplitDot(b, cd, [c, d]);
    SplitDot(a, bcd, [b, c, d]);
    RegroupDots(a, b, c, d);
  }

  /** A part without a dot, a dot and the rest split into the part and the
      rest's pieces. */
  lemma SplitDot(a: string, rest: string, pieces: seq<string>)
    requires '.' !in a && Split(rest, '.') == pieces
    ensures Split(a + "." + rest, '.') == [a] + pieces
  {
    SplitAt(a, '.', rest);
  }

  lemma RegroupDots(a: string, b: string, c: string, d: string)
    ensures a + "." + b + "." + c + "." + d == a + "." + (b + "." + (c + "." + d))
  {
  }

  /** For a dotted quad: private exactly when the first part reads as 10
      or 127, or as 172 with a second part reading 16 to 31, or as 192 with
      a second part spelled "168". */
  lemma PrivateIpQuad(a: string, b: string, c: string, d: string)
    requires '.' !in a && '.' !in b && '.' !in c && '.' !in d
    ensures IsPrivateIp(a + "." + b + "." + c + "." + d) <==>
      || ParseU8(a) == Some(10) || ParseU8(a) == Some(127)
      || (ParseU8(a) == Some(172) && ParseU8(b).Some? && 16 <= ParseU8(b).value <= 31)
      || (ParseU8(a) == Some(192) && b == "168")
  {
    SplitQuad(a, b, c, d);
  }

  /** Text that is not four dot-separated parts is never private. */
  lemma NotQuadNotPrivate(ip: string)
    requires |Split(ip, '.')| != 4
    ensures !IsPrivateIp(ip)
  {
  }

  lemma DecimalOne(a: char)
    requires IsDigit(a)
    ensures DecimalValue([a]) == DigitValue(a)
  {
    assert [a][..0] == [];
  }

  lemma DecimalTwo(a: char, b: char)
    requires IsDigit(a) && IsDigit(b)
    ensures DecimalValue([a, b]) == DigitValue(a) * 10 + DigitValue(b)
  {
    assert [a, b][..1] == [a];
    DecimalOne(a);
  }

  lemma DecimalThree(a: char, b: char, c: char)
    requires IsDigit(a) && IsDigit(b) && IsDigit(c)
    ensures DecimalValue([a, b, c]) == DigitValue(a) * 100 + DigitValue(b) * 10 + DigitValue(c)
  {
    assert [a, b, c][..2] == [a, b];
    DecimalTwo(a, b);
  }

  /** How `u8::from_str` reads the parts used below; "256" overflows a
      byte, and an empty part or a lone sign is no number. */
  lemma ParseU8Examples()
    ensures ParseU8("10") == Some(10) && ParseU8("127") == Some(127)
    ensures ParseU8("172") == Some(172) && ParseU8("192") == Some(192)
    ensures ParseU8("20") == Some(20) && ParseU8("8") == Some(8) && ParseU8("+8") == Some(8)
    ensures ParseU8("256") == None && ParseU8("") == None && ParseU8("+") == None
  {
    DecimalTwo('1', '0');
    DecimalThree('1', '2', '7');
    DecimalThree('1', '7', '2');
    DecimalThree('1', '9', '2');
    DecimalTwo('2', '0');
    DecimalOne('8');
    assert "+8"[1..] == "8";
    DecimalThree('2', '5', '6');
    assert "+"[1..] == "";
  }

  lemma Private192()
    ensures IsPrivateIp("192.168.1.1")
  {
    ParseU8Examples();
    PrivateIpQuad("192", "168", "1", "1");
    Text192();
  }

  lemma Text192()
    ensures "192" + "." + "168" + "." + "1" + "." + "1" == "192.168.1.1"
  {
  }

  lemma Private10()
    ensures IsPrivateIp("10.0.0.1")
  {
    ParseU8Examples();
    PrivateIpQuad("10", "0", "0", "1");
    Text10();
  }

  lemma Text10()
    ensures "10" + "." + "0" + "." + "0" + "." + "1" == "10.0.0.1"
  {
  }

  lemma Private127()
    ensures IsPrivateIp("127.0.0.1")
  {
    ParseU8Examples();
    PrivateIpQuad("127", "0", "0", "1");
    Text127();
  }

  lemma Text127()
    ensures "127" + "." + "0" + "." + "0" + "." + "1" == "127.0.0.1"
  {
  }

  lemma Public8()
    ensures !IsPrivateIp("8.8.8.8")
  {
    ParseU8Examples();
    PrivateIpQuad("8", "8", "8", "8");
    Text8();
  }

  lemma Text8()
    ensures "8" + "." + "8" + "." + "8" + "." + "8" == "8.8.8.8"
  {
  }

  /** The addresses the extractor's tests treat as private, and a public
      one. */
  lemma PrivateIpExamples()
    ensures IsPrivateIp("192.168.1.1") && IsPrivateIp("10.0.0.1") && IsPrivateIp("127.0.0.1")
    ensures !IsPrivateIp("8.8.8.8")
  {
    Private192();
    Private10();
    Private127();
    Public8();
  }

  lemma Private172()
    ensures IsPrivateIp("172.20.0.1")
  {
    ParseU8Examples();
    PrivateIpQuad("172", "20", "0", "1");
    Text172();
  }

  lemma Text172()
    ensures "172" + "." + "20" + "." + "0" + "." + "1" == "172.20.0.1"
  {
  }

  lemma ThreePartsNotPrivate()
    ensures !IsPrivateIp("10.0.0")
  {
    SplitWhole("0", '.');
    SplitAt("0", '.', "0");
    SplitAt("10", '.', "0.0");
    assert "10" + "." + "0.0" == "10.0.0" && "0" + "." + "0" == "0.0";
  }

  /** Two addresses on which this filter and the prefix test of
      src/extractor/patterns.rs disagree: 172.20.0.1 is private here and
      not there, and the three-part 10.0.0 is private there and not
      here. */
  lemma PrivateIpDiffersFromPrefix()
    ensures IsPrivateIp("172.20.0.1") && !Patterns.IsPrivateIpPrefix("172.20.0.1")
    ensures !IsPrivateIp("10.0.0") && Patterns.IsPrivateIpPrefix("10.0.0")
  {
    Private172();
    ThreePartsNotPrivate();
    Patterns.PrivatePrefixExamples();
    assert "10.0.0"[..3] == "10.";
  }

  /** `is_common_email`. */
  predicate IsCommonEmail(email: string) {
    EndsWith(email, "@example.com") || EndsWith(email, "@test.com") || EndsWith(email, "@localhost")
  }

  /** The four passes of `extract_from_text`, in order. */
  datatype Group = IpGroup | DomainGroup | HashGroup | EmailGroup

  function GroupType(g: Group): IocType {
    match g
    case IpGroup => Ip
    case DomainGroup => Domain
    case HashGroup => Hash
    case EmailGroup => Email
  }

  predicate IsPublicIp(v: string) { !IsPrivateIp(v) }

  predicate IsUncommonDomain(v: string) { v !in CommonDomains }

  predicate IsUncommonEmail(v: string) { !IsCommonEmail(v) }

  /** How each pass treats its matches: addresses keep their spelling,
      everything else is lowercased; private addresses and common domains
      are passed over before being remembered; common e-mail addresses are
      remembered but not reported. */
  function GroupRule(g: Group): (rule: Rule)
    ensures rule.lower <==> g != IpGroup
  {
    match g
    case IpGroup => Rule(false, IsPublicIp, Always)
    case DomainGroup => Rule(true, IsUncommonDomain, Always)
    case HashGroup => Rule(true, Always, Always)
    case EmailGroup => Rule(true, Always, IsUncommonEmail)
  }

  /** The indicator reported for a match: the group's type, the match's
      value and the text around it. */
  function Report(g: Group, text: string, m: Match): (r: Ioc)
    requires m.start <= m.end <= |text|
    ensures r.iocType == IocTypeName(GroupType(g)) && r.value == ValueOf(GroupRule(g), text, m)
    ensures r.documentId == "" && r.context == ContextOf(text, m.start, m.end)
  {
    NewIoc(GroupType(g), ValueOf(GroupRule(g), text, m), ContextOf(text, m.start, m.end))
  }

  function Reports(g: Group, text: string, ms: seq<Match>): (r: seq<Ioc>)
    requires InText(text, ms)
    ensures |r| == |ms| && forall i :: 0 <= i < |ms| ==> r[i] == Report(g, text, ms[i])
  {
    seq(|ms|, i requires 0 <= i < |ms| => Report(g, text, ms[i]))
  }

  function IocValues(iocs: seq<Ioc>): (r: seq<string>)
    ensures |r| == |iocs| && forall i :: 0 <= i < |iocs| ==> r[i] == iocs[i].value
  {
    seq(|iocs|, i requires 0 <= i < |iocs| => iocs[i].value)
  }

  /** One pass: the indicators reported and the values remembered after
      it. */
  function ScanGroupSpec(g: Group, text: string, ms: seq<Match>, seen: set<string>): (seq<Ioc>, set<string>)
    requires InText(text, ms)
  {
    var (reported, s) := Scan(GroupRule(g), text, ms, seen);
    (Reports(g, text, reported), s)
  }

  lemma ReportsSnoc(g: Group, text: string, ms: seq<Match>, m: Match)
    requires InText(text, ms) && m.start <= m.end <= |text|
    ensures InText(text, ms + [m])
    ensures Reports(g, text, ms + [m]) == Reports(g, text, ms) + [Report(g, text, m)]
  {
  }

  lemma IocValuesSnoc(before: seq<string>, iocs: seq<Ioc>, x: Ioc)
    ensures before + IocValues(iocs) + [x.value] == before + IocValues(iocs + [x])
  {
    assert IocValues(iocs + [x]) == IocValues(iocs) + [x.value];
  }

  lemma IocValuesAppend(before: seq<string>, a: seq<Ioc>, b: seq<Ioc>)
    ensures before + IocValues(a) + IocValues(b) == before + IocValues(a + b)
  {
    assert IocValues(a + b) == IocValues(a) + IocValues(b);
  }

  /** The four passes in order: addresses, domains, hashes, e-mails. */
  function ExtractAll(text: string, ips: seq<Match>, domains: seq<Match>, hashes: seq<Match>,
                      emails: seq<Match>, seen: set<string>): (seq<Ioc>, set<string>)
    requires InText(text, ips) && InText(text, domains) && InText(text, hashes) && InText(text, emails)
  {
    var (a, s1) := ScanGroupSpec(IpGroup, text, ips, seen);
    var (b, s2) := ScanGroupSpec(DomainGroup, text, domains, s1);
    var (c, s3) := ScanGroupSpec(HashGroup, text, hashes, s2);
    var (d, s4) := ScanGroupSpec(EmailGroup, text, emails, s3);
    (a + b + c + d, s4)
  }

  lemma ReportValues(g: Group, text: string, ms: seq<Match>)
    requires InText(text, ms)
    ensures IocValues(Reports(g, text, ms)) == Values(GroupRule(g), text, ms)
  {
  }

  /** A pass reports values not remembered before, each once, remembers
      them, and remembers exactly the values that pass its first check. */
  lemma ScanGroupFresh(g: Group, text: string, ms: seq<Match>, seen: set<string>)
    requires InText(text, ms)
    ensures var (out, s) := ScanGroupSpec(g, text, ms, seen);
      && (forall i :: 0 <= i < |out| ==> out[i].value in s && out[i].value !in seen)
      && Distinct(IocValues(out))
      && s == seen + Admitted(GroupRule(g), text, ms)
  {
    ScanFresh(GroupRule(g), text, ms, seen);
    ScanSeen(GroupRule(g), text, ms, seen);
    var reported := Scan(GroupRule(g), text, ms, seen).0;
    ReportValues(g, text, reported);
  }

  /** Every indicator of a pass comes from one of its matches, in match
      order, with that match's value and context; no private address,
      common domain or common e-mail address is among them. */
  lemma ScanGroupOrder(g: Group, text: string, ms: seq<Match>, seen: set<string>)
    returns (idx: seq<nat>)
    requires InText(text, ms)
    ensures var out := ScanGroupSpec(g, text, ms, seen).0;
      && |idx| == |out|
      && (forall k, l :: 0 <= k < l < |idx| ==> idx[k] < idx[l])
      && (forall k :: 0 <= k < |idx| ==> idx[k] < |ms| && out[k] == Report(g, text, ms[idx[k]]))
      && (forall k :: 0 <= k < |out| ==> out[k].iocType == IocTypeName(GroupType(g)))
      && (g == IpGroup ==> forall k :: 0 <= k < |out| ==> !IsPrivateIp(out[k].value))
      && (g == DomainGroup ==> forall k :: 0 <= k < |out| ==> out[k].value !in CommonDomains)
      && (g == EmailGroup ==> forall k :: 0 <= k < |out| ==> !IsCommonEmail(out[k].value))
  {
    idx := ScanOrder(GroupRule(g), text, ms, seen);
  }

  /** No indicator is lost: the first match of a value that is not
      remembered before, is not passed over (a private address, a common
      domain) and is not a common e-mail address is reported by its
      pass. */
  lemma ScanGroupComplete(g: Group, text: string, ms: seq<Match>, seen: set<string>, i: nat)
    requires InText(text, ms) && i < |ms|
    requires Reportable(GroupRule(g), text, ms, seen, i)
    ensures Report(g, text, ms[i]) in ScanGroupSpec(g, text, ms, seen).0
  {
    var rule := GroupRule(g);
    ScanComplete(rule, text, ms, seen, i);
    var reported := Scan(rule, text, ms, seen).0;
    var k :| 0 <= k < |reported| && reported[k] == ms[i];
    assert ScanGroupSpec(g, text, ms, seen).0[k] == Report(g, text, ms[i]);
  }

  /** `IocExtractor`: the values taken so far, and the fixed set of common
      domains. `emitted` records, for the proof, every value reported since
      the last reset. */
  class IocExtractor {
    var seen: set<string>
    const commonDomains: set<string>
    ghost var emitted: seq<string>

    /** Every value reported since the last reset was reported once and is
        remembered. */
    ghost predicate Valid()
      reads this
    {
      && commonDomains == CommonDomains
      && Distinct(emitted)
      && forall i :: 0 <= i < |emitted| ==> emitted[i] in seen
    }

    /** `IocExtractor::new`. */
    constructor()
      ensures Valid()
      ensures seen == {} && emitted == []
    {
      seen := {};
      commonDomains := CommonDomains;
      emitted := [];
    }

    /** One of the four loops of `extract_from_text`: the pass of group
        `g`, whose rule is `rule`. */
    method ScanGroup(g: Group, rule: Rule, text: string, ms: seq<Match>) returns (out: seq<Ioc>)
      requires rule == GroupRule(g)
      requires InText(text, ms) && Valid()
      modifies this
      ensures (out, seen) == ScanGroupSpec(g, text, ms, old(seen))
      ensures emitted == old(emitted) + IocValues(out)
      ensures Valid()
    {
      ScanGroupFresh(g, text, ms, seen);
      ghost var reported: seq<Match> := [];
      out := [];
      for i := 0 to |ms|
        invariant (reported, seen) == Scan(rule, text, ms[..i], old(seen))
        invariant InText(text, reported) && out == Reports(g, text, reported)
        invariant emitted == old(emitted) + IocValues(out)
      {
        ScanStep(rule, text, ms, old(seen), i);
        var m := ms[i];
        var v := ValueOf(rule, text, m);
        if rule.admit(v) && v !in seen {
          seen := seen + {v};
          if rule.show(v) {
            var context := ExtractContextSafe(text, m.start, m.end);
            var ioc := NewIoc(GroupType(g), v, context);
            ReportsSnoc(g, text, reported, m);
            IocValuesSnoc(old(emitted), out, ioc);
            out := out + [ioc];
            reported := reported + [m];
            emitted := emitted + [v];
          }
        }
      }
      assert ms[..|ms|] == ms;
      DistinctConcat(old(emitted), IocValues(out), old(seen), seen);
    }

    /** `extract_from_text`. */
    method ExtractFromText(text: string, ips: seq<Match>, domains: seq<Match>, hashes: seq<Match>, emails: seq<Match>)
      returns (iocs: seq<Ioc>)
      requires InText(text, ips) && InText(text, domains) && InText(text, hashes) && InText(text, emails)
      requires Valid()
      modifies this
      ensures (iocs, seen) == ExtractAll(text, ips, domains, hashes, emails, old(seen))
      ensures emitted == old(emitted) + IocValues(iocs)
      ensures Valid()
    {
      ghost var before := emitted;
      iocs := ScanGroup(IpGroup, GroupRule(IpGroup), text, ips);
      var b := ScanGroup(DomainGroup, GroupRule(DomainGroup), text, domains);
      IocValuesAppend(before, iocs, b);
      iocs := iocs + b;
      var c := ScanGroup(HashGroup, GroupRule(HashGroup), text, hashes);
      IocValuesAppend(before, iocs, c);
      iocs := iocs + c;
      var d := ScanGroup(EmailGroup, GroupRule(EmailGroup), text, emails);
      IocValuesAppend(before, iocs, d);
      iocs := iocs + d;
    }

    /** `reset`: everything is forgotten. */
    method Reset()
      requires Valid()
      modifies this
      ensures seen == {} && emitted == [] && Valid()
    {
      seen := {};
      emitted := [];
    }
  }
}

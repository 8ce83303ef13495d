/**
  The loop shape shared by the address and indicator extractors
  (src/extractor/crypto.rs and src/extractor/ioc.rs): for each match of a
  regular expression, take its value, check it, remember it in the
  extractor's set of seen values, check it again, and report it. A value
  already seen is never reported again.
*/
module MatchScan {
  import opened Strings
  import opened ContextWindow

  /** How one pass treats a match: whether its value is lowercased, the
      check made before the value is remembered (a value failing it is
      neither remembered nor reported), and the check made after (a value
      failing it is remembered but not reported). */
  datatype Rule = Rule(lower: bool, admit: string -> bool, show: string -> bool)

  /** The check every value passes. */
  predicate Always(v: string) { true }

  function ValueOf(rule: Rule, text: string, m: Match): string
    requires m.start <= m.end <= |text|
  {
    if rule.lower then ToLower(text[m.start..m.end]) else text[m.start..m.end]
  }

  /** One pass over the matches from the remembered values `seen`: the
      matches reported, in order, and the values remembered after it. */
  function Scan(rule: Rule, text: string, ms: seq<Match>, seen: set<string>): (r: (seq<Match>, set<string>))
    requires InText(text, ms)
    ensures InText(text, r.0)
  {
    if ms == [] then ([], seen)
    else
      var (reported, s) := Scan(rule, text, ms[..|ms| - 1], seen);
      var m := ms[|ms| - 1];
      var v := ValueOf(rule, text, m);
      if rule.admit(v) && v !in s then
        (reported + (if rule.show(v) then [m] else []), s + {v})
      else (reported, s)
  }

  /** One more match: the step `Scan` takes for it. */
  lemma ScanStep(rule: Rule, text: string, ms: seq<Match>, seen: set<string>, i: nat)
    requires InText(text, ms) && i < |ms|
    ensures Scan(rule, text, ms[..i + 1], seen) ==
      var (reported, s) := Scan(rule, text, ms[..i], seen);
      var v := ValueOf(rule, text, ms[i]);
      if !rule.admit(v) || v in s then (reported, s)
      else if rule.show(v) then (reported + [ms[i]], s + {v})
      else (reported, s + {v})
  {
    assert ms[..i + 1][..i] == ms[..i];
    assert Scan(rule, text, ms[..i], seen).0 + [] == Scan(rule, text, ms[..i], seen).0;
  }

  function Values(rule: Rule, text: string, ms: seq<Match>): (r: seq<string>)
    requires InText(text, ms)
    ensures |r| == |ms| && forall i :: 0 <= i < |ms| ==> r[i] == ValueOf(rule, text, ms[i])
  {
    seq(|ms|, i requires 0 <= i < |ms| => ValueOf(rule, text, ms[i]))
  }

  predicate Distinct(values: seq<string>) {
    forall i, j :: 0 <= i < j < |values| ==> values[i] != values[j]
  }

  /** Distinct values remembered before, followed by distinct values that
      were not, are distinct. */
  lemma DistinctConcat(a: seq<string>, b: seq<string>, before: set<string>, after: set<string>)
    requires Distinct(a) && Distinct(b) && before <= after
    requires forall i :: 0 <= i < |a| ==> a[i] in before
    requires forall i :: 0 <= i < |b| ==> b[i] in after && b[i] !in before
    ensures Distinct(a + b)
    ensures forall i :: 0 <= i < |a + b| ==> (a + b)[i] in after
  {
  }

  /** The values of the matches that pass the first check. */
  function Admitted(rule: Rule, text: string, ms: seq<Match>): set<string>
    requires InText(text, ms)
  {
    set v | v in Values(rule, text, ms) && rule.admit(v)
  }

  lemma ValuesSnoc(rule: Rule, text: string, ms: seq<Match>)
    requires InText(text, ms) && ms != []
    ensures Values(rule, text, ms) == Values(rule, text, ms[..|ms| - 1]) + [ValueOf(rule, text, ms[|ms| - 1])]
  {
  }

  lemma AdmittedSnoc(rule: Rule, text: string, ms: seq<Match>)
    requires InText(text, ms) && ms != []
    ensures var v := ValueOf(rule, text, ms[|ms| - 1]);
      Admitted(rule, text, ms) == Admitted(rule, text, ms[..|ms| - 1]) + if rule.admit(v) then {v} else {}
  {
    ValuesSnoc(rule, text, ms);
  }

  /** A pass remembers exactly the values that pass the first check: a
      value that fails it is not remembered. */
  lemma {:induction false} ScanSeen(rule: Rule, text: string, ms: seq<Match>, seen: set<string>)
    requires InText(text, ms)
    ensures Scan(rule, text, ms, seen).1 == seen + Admitted(rule, text, ms)
  {
    if ms != [] {
      ScanSeen(rule, text, ms[..|ms| - 1], seen);
      AdmittedSnoc(rule, text, ms);
    }
  }

  /** A pass reports only values it had not remembered before, each once,
      and remembers every value it reports. */
  lemma {:induction false} ScanFresh(rule: Rule, text: string, ms: seq<Match>, seen: set<string>)
    requires InText(text, ms)
    ensures var (reported, s) := Scan(rule, text, ms, seen);
      && InText(text, reported)
      && (forall i :: 0 <= i < |reported| ==>
            ValueOf(rule, text, reported[i]) in s && ValueOf(rule, text, reported[i]) !in seen)
      && Distinct(Values(rule, text, reported))
      && seen <= s
  {
    if ms != [] {
      ScanFresh(rule, text, ms[..|ms| - 1], seen);
    }
  }

  /** The reports are matches taken in order, each passing both checks. */
  predicate InOrder(rule: Rule, text: string, ms: seq<Match>, reported: seq<Match>, idx: seq<nat>)
    requires InText(text, ms)
  {
    && |idx| == |reported|
    && (forall k :: 0 <= k < |idx| ==> idx[k] < |ms| && reported[k] == ms[idx[k]])
    && (forall k, l :: 0 <= k < l < |idx| ==> idx[k] < idx[l])
    && (forall k :: 0 <= k < |idx| ==>
          idx[k] < |ms| && rule.admit(ValueOf(rule, text, ms[idx[k]])) && rule.show(ValueOf(rule, text, ms[idx[k]])))
  }

  lemma InOrderAppend(rule: Rule, text: string, ms: seq<Match>, reported: seq<Match>, idx: seq<nat>)
    requires InText(text, ms) && ms != []
    requires InOrder(rule, text, ms[..|ms| - 1], reported, idx)
    requires rule.admit(ValueOf(rule, text, ms[|ms| - 1])) && rule.show(ValueOf(rule, text, ms[|ms| - 1]))
    ensures InOrder(rule, text, ms, reported + [ms[|ms| - 1]], idx + [|ms| - 1])
  {
    var init := ms[..|ms| - 1];
    assert forall k :: 0 <= k < |idx| ==> init[idx[k]] == ms[idx[k]];
  }

  lemma InOrderExtend(rule: Rule, text: string, ms: seq<Match>, reported: seq<Match>, idx: seq<nat>)
    requires InText(text, ms) && ms != []
    requires InOrder(rule, text, ms[..|ms| - 1], reported, idx)
    ensures InOrder(rule, text, ms, reported, idx)
  {
    var init := ms[..|ms| - 1];
    assert forall k :: 0 <= k < |idx| ==> init[idx[k]] == ms[idx[k]];
  }

  /** The reported matches are a subsequence of the matches, each passing
      both checks: the output keeps match order. */
  lemma {:induction false} ScanOrder(rule: Rule, text: string, ms: seq<Match>, seen: set<string>)
    returns (idx: seq<nat>)
    requires InText(text, ms)
    ensures InOrder(rule, text, ms, Scan(rule, text, ms, seen).0, idx)
  {
    if ms == [] {
      idx := [];
    } else {
      var init := ms[..|ms| - 1];
      var idx0 := ScanOrder(rule, text, init, seen);
      var (reported, s) := Scan(rule, text, init, seen);
      var v := ValueOf(rule, text, ms[|ms| - 1]);
      if rule.admit(v) && v !in s && rule.show(v) {
        InOrderAppend(rule, text, ms, reported, idx0);
        idx := idx0 + [|ms| - 1];
      } else {
        InOrderExtend(rule, text, ms, reported, idx0);
        idx := idx0;
      }
    }
  }

  /** Matches whose values were all seen before report nothing and
      remember nothing new: a second pass over the same text with the same
      extractor finds nothing. */
  lemma {:induction false} ScanSeenBefore(rule: Rule, text: string, ms: seq<Match>, seen: set<string>)
    requires InText(text, ms)
    requires forall i :: 0 <= i < |ms| ==> ValueOf(rule, text, ms[i]) in seen
    ensures Scan(rule, text, ms, seen) == ([], seen)
  {
    if ms != [] {
      ScanSeenBefore(rule, text, ms[..|ms| - 1], seen);
    }
  }

  /** Match `i` is one the pass must report: its value passes both
      checks, was not remembered before the pass, and is not the value of
      an earlier match of the pass. */
  predicate Reportable(rule: Rule, text: string, ms: seq<Match>, seen: set<string>, i: nat)
    requires InText(text, ms) && i < |ms|
  {
    var v := ValueOf(rule, text, ms[i]);
    rule.admit(v) && rule.show(v) && v !in seen && v !in Values(rule, text, ms[..i])
  }

  /** The reportable matches among the first `n`, in match order: the
      first occurrence of each fresh value that passes both checks. */
  function FirstOccurrences(rule: Rule, text: string, ms: seq<Match>, seen: set<string>, n: nat): seq<Match>
    requires InText(text, ms) && n <= |ms|
  {
    if n == 0 then []
    else FirstOccurrences(rule, text, ms, seen, n - 1)
         + if Reportable(rule, text, ms, seen, n - 1) then [ms[n - 1]] else []
  }

  /** A value is remembered after the first `n` matches exactly when it
      was remembered before or some earlier match with that value passed
      the first check. */
  lemma SeenAfterPrefix(rule: Rule, text: string, ms: seq<Match>, seen: set<string>, n: nat, v: string)
    requires InText(text, ms) && n <= |ms|
    requires rule.admit(v)
    ensures v in Scan(rule, text, ms[..n], seen).1 <==> v in seen || v in Values(rule, text, ms[..n])
  {
    ScanSeen(rule, text, ms[..n], seen);
  }

  /** A pass reports exactly the first occurrences of the fresh values
      that pass both checks, in match order: nothing is lost and nothing
      extra is reported. */
  lemma {:induction false} ScanExact(rule: Rule, text: string, ms: seq<Match>, seen: set<string>, n: nat)
    requires InText(text, ms) && n <= |ms|
    ensures Scan(rule, text, ms[..n], seen).0 == FirstOccurrences(rule, text, ms, seen, n)
  {
    if n > 0 {
      var i := n - 1;
      ScanExact(rule, text, ms, seen, i);
      ScanStep(rule, text, ms, seen, i);
      ReportableStep(rule, text, ms, seen, i);
      var (reported, s) := Scan(rule, text, ms[..i], seen);
      var v := ValueOf(rule, text, ms[i]);
      var taken := rule.admit(v) && v !in s && rule.show(v);
      assert Scan(rule, text, ms[..n], seen).0 == reported + if taken then [ms[i]] else [];
      assert FirstOccurrences(rule, text, ms, seen, n) == reported + if taken then [ms[i]] else [];
    }
  }

  /** Match `i` is reportable exactly when the pass, having taken the
      matches before it, would report it. */
  lemma ReportableStep(rule: Rule, text: string, ms: seq<Match>, seen: set<string>, i: nat)
    requires InText(text, ms) && i < |ms|
    ensures var v := ValueOf(rule, text, ms[i]);
      Reportable(rule, text, ms, seen, i) <==>
        rule.admit(v) && v !in Scan(rule, text, ms[..i], seen).1 && rule.show(v)
  {
    var v := ValueOf(rule, text, ms[i]);
    if rule.admit(v) {
      SeenAfterPrefix(rule, text, ms, seen, i, v);
    }
  }

  lemma {:induction false} FirstOccurrencesHold(rule: Rule, text: string, ms: seq<Match>, seen: set<string>,
                                                n: nat, i: nat)
    requires InText(text, ms) && i < n <= |ms|
    requires Reportable(rule, text, ms, seen, i)
    ensures ms[i] in FirstOccurrences(rule, text, ms, seen, n)
    decreases n
  {
    var before := FirstOccurrences(rule, text, ms, seen, n - 1);
    var taken := if Reportable(rule, text, ms, seen, n - 1) then [ms[n - 1]] else [];
    assert FirstOccurrences(rule, text, ms, seen, n) == before + taken;
    if i < n - 1 {
      FirstOccurrencesHold(rule, text, ms, seen, n - 1, i);
    }
  }

  /** Every reportable match is reported: a value that passes both
      checks, was not remembered and appears for the first time is never
      dropped. */
  lemma ScanComplete(rule: Rule, text: string, ms: seq<Match>, seen: set<string>, i: nat)
    requires InText(text, ms) && i < |ms|
    requires Reportable(rule, text, ms, seen, i)
    ensures ms[i] in Scan(rule, text, ms, seen).0
  {
    ScanExact(rule, text, ms, seen, |ms|);
    assert ms[..|ms|] == ms;
    FirstOccurrencesHold(rule, text, ms, seen, |ms|, i);
  }
}

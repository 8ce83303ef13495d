/**
  Path classification (src/repository/classifier.rs): attribution labels,
  topics and summary-file detection, all decided by substrings of the path.
*/
module Classifier {
  import opened Errors
  import opened Strings
  import opened Paths

  const AttributionLabels: set<string> :=
    {"hacks_and_thefts", "dprk_it_workers", "lazarus_group", "bluenoroff_group", "apt38", "general"}

  /** `FileClassifier::extract_attribution`: case-sensitive substrings tried
      in a fixed priority order. */
  function ExtractAttribution(path: string): (r: string)
    ensures r in AttributionLabels
    ensures r == "hacks_and_thefts" <==>
      Contains(path, "hacks_and_thefts") || Contains(path, "hacks-and-thefts")
    ensures r == "dprk_it_workers" <==>
      && !(Contains(path, "hacks_and_thefts") || Contains(path, "hacks-and-thefts"))
      && (Contains(path, "dprk_it_workers") || Contains(path, "dprk-it-workers"))
    ensures r in {"lazarus_group", "bluenoroff_group", "apt38", "general"} ==>
      && !Contains(path, "hacks_and_thefts") && !Contains(path, "hacks-and-thefts")
      && !Contains(path, "dprk_it_workers") && !Contains(path, "dprk-it-workers")
    ensures r == "lazarus_group" ==> Contains(path, "lazarus")
    ensures r == "bluenoroff_group" ==> Contains(path, "bluenoroff") && !Contains(path, "lazarus")
    ensures r == "apt38" ==> Contains(path, "apt38") && !Contains(path, "lazarus") && !Contains(path, "bluenoroff")
    ensures r == "general" <==>
      && !Contains(path, "hacks_and_thefts") && !Contains(path, "hacks-and-thefts")
      && !Contains(path, "dprk_it_workers") && !Contains(path, "dprk-it-workers")
      && !Contains(path, "lazarus") && !Contains(path, "bluenoroff") && !Contains(path, "apt38")
  {
    if Contains(path, "hacks_and_thefts") || Contains(path, "hacks-and-thefts") then "hacks_and_thefts"
    else if Contains(path, "dprk_it_workers") || Contains(path, "dprk-it-workers") then "dprk_it_workers"
    else if Contains(path, "lazarus") then "lazarus_group"
    else if Contains(path, "bluenoroff") then "bluenoroff_group"
    else if Contains(path, "apt38") then "apt38"
    else "general"
  }

  /** The keyword table of `extract_topic`, in search order. */
  const Topics: seq<(string, string)> := [
    ("exchange", "cryptocurrency_exchange"),
    ("defi", "defi_protocol"),
    ("wallet", "wallet_compromise"),
    ("supply_chain", "supply_chain_attack"),
    ("malware", "malware_campaign"),
    ("phishing", "phishing_campaign")
  ]

  /** The topic of the first entry of `table` whose keyword `text` contains. */
  function FirstTopic(text: string, table: seq<(string, string)>): (r: Option<string>)
    ensures r.None? <==> forall i :: 0 <= i < |table| ==> !Contains(text, table[i].0)
    ensures r.Some? ==>
      exists i :: (0 <= i < |table| && Contains(text, table[i].0) && r.value == table[i].1
                   && forall j :: 0 <= j < i ==> !Contains(text, table[j].0))
  {
    if table == [] then None
    else if Contains(text, table[0].0) then Some(table[0].1)
    else
      var r := FirstTopic(text, table[1..]);
      if r.Some? then
        var i :| 0 <= i < |table[1..]| && Contains(text, table[1..][i].0) && r.value == table[1..][i].1
          && forall j :: 0 <= j < i ==> !Contains(text, table[1..][j].0);
        assert Contains(text, table[i + 1].0) && r.value == table[i + 1].1;
        assert forall j :: 0 <= j < i + 1 ==> !Contains(text, table[j].0) by {
          forall j | 0 <= j < i + 1 ensures !Contains(text, table[j].0) {
            if j > 0 { assert table[j] == table[1..][j - 1]; }
          }
        }
        r
      else
        assert forall i :: 0 <= i < |table| ==> !Contains(text, table[i].0) by {
          forall i | 0 <= i < |table| ensures !Contains(text, table[i].0) {
            if i > 0 { assert table[i] == table[1..][i - 1]; }
          }
        }
        r
  }

  /** `FileClassifier::extract_topic`: the lowercased path is searched for
      the keywords in table order. */
  function ExtractTopic(path: string): (r: Option<string>)
    ensures r.None? <==> forall i :: 0 <= i < |Topics| ==> !Contains(ToLower(path), Topics[i].0)
    ensures r.Some? ==>
      exists i :: (0 <= i < |Topics| && Contains(ToLower(path), Topics[i].0) && r.value == Topics[i].1
                   && forall j :: 0 <= j < i ==> !Contains(ToLower(path), Topics[j].0))
  {
    FirstTopic(ToLower(path), Topics)
  }

  /** `FileClassifier::is_summary_file`: the lowercased file name mentions
      readme, summary or index; a path without a file name is not one. */
  function IsSummaryFile(path: string): (b: bool)
    ensures FileName(path).None? ==> !b
    ensures b <==> (FileName(path).Some? &&
                    var n := ToLower(FileName(path).value);
                    Contains(n, "readme") || Contains(n, "summary") || Contains(n, "index"))
  {
    var name := ToLower(match FileName(path) case Some(n) => n case None => "");
    Contains(name, "readme") || Contains(name, "summary") || Contains(name, "index")
  }

  /** A path that mentions both a group and a campaign keyword is labelled by
      the campaign: the earlier rule wins. */
  lemma AttributionPriority(a: string, b: string)
    ensures ExtractAttribution(a + "hacks-and-thefts/" + b) == "hacks_and_thefts"
  {
    ContainsMiddle(a, "hacks-and-thefts", "/" + b);
    assert a + "hacks-and-thefts/" + b == a + "hacks-and-thefts" + ("/" + b);
  }
}

/**
  Incident extraction from markdown (src/extractor/incident.rs): the loop
  that cuts the event stream into sections at level-2 and level-3
  headings, and the assembly of one incident per section. The regular
  expressions for dates, victims and amounts and the calendar arithmetic
  are parameters (`SectionReaders`).
*/
module IncidentExtractor {
  import opened Errors
  import opened Strings
  import opened Markdown
  import opened IncidentModel

  /** What the date regular expressions capture in a section: the numeric
      parts of the first ISO date, and the month name and year of the first
      "Month Year". */
  datatype DateCaptures = DateCaptures(iso: Option<(int, int, int)>, monthYear: Option<(string, int)>)

  /** The collaborators of `parse_section`: the date captures, the calendar
      (a timestamp for a valid year, month and day, or nothing), the first
      victim capture, and the parsed amount. */
  datatype SectionReaders = SectionReaders(
    dates: string -> DateCaptures,
    timestamp: (int, int, int) -> Option<int>,
    victim: string -> Option<string>,
    amount: string -> Option<real>)

  const MonthNames := ["January", "February", "March", "April", "May", "June", "July",
                       "August", "September", "October", "November", "December"]

  /** `month_to_number`: the English month names, in calendar order. */
  function MonthToNumber(month: string): (r: Option<nat>)
    ensures r.Some? ==> 1 <= r.value <= 12 && MonthNames[r.value - 1] == month
    ensures r.None? ==> month !in MonthNames
  {
    match month
    case "January" => Some(1)
    case "February" => Some(2)
    case "March" => Some(3)
    case "April" => Some(4)
    case "May" => Some(5)
    case "June" => Some(6)
    case "July" => Some(7)
    case "August" => Some(8)
    case "September" => Some(9)
    case "October" => Some(10)
    case "November" => Some(11)
    case "December" => Some(12)
    case _ => None
  }

  /** Every month name maps to its position in the year. */
  lemma MonthNamesNumbered(i: nat)
    requires i < 12
    ensures MonthToNumber(MonthNames[i]) == Some(i + 1)
  {
    var r := MonthToNumber(MonthNames[i]);
    assert r.Some? by {
      assert MonthNames[i] in MonthNames;
    }
    assert MonthNames[r.value - 1] == MonthNames[i];
  }

  /** `extract_date`: an ISO date wins when present, even when it is not a
      valid calendar date; otherwise a "Month Year" gives the first of that
      month. */
  function ExtractDate(text: string, readers: SectionReaders): (r: Option<(int, DatePrecision)>)
    ensures readers.dates(text).iso.Some? ==>
      var (y, m, d) := readers.dates(text).iso.value;
      (r.Some? <==> readers.timestamp(y, m, d).Some?) &&
      (r.Some? ==> r.value == (readers.timestamp(y, m, d).value, Exact))
    ensures readers.dates(text).iso.None? && readers.dates(text).monthYear.Some? ==>
      var (name, year) := readers.dates(text).monthYear.value;
      (r.Some? <==> MonthToNumber(name).Some? && readers.timestamp(year, MonthToNumber(name).value, 1).Some?) &&
      (r.Some? ==> r.value == (readers.timestamp(year, MonthToNumber(name).value, 1).value, Month))
    ensures readers.dates(text).iso.None? && readers.dates(text).monthYear.None? ==> r.None?
  {
    var captures := readers.dates(text);
    if captures.iso.Some? then
      var (y, m, d) := captures.iso.value;
      var ts := readers.timestamp(y, m, d);
      if ts.Some? then Some((ts.value, Exact)) else None
    else if captures.monthYear.Some? then
      var (name, year) := captures.monthYear.value;
      var month := MonthToNumber(name);
      if month.None? then None
      else
        var ts := readers.timestamp(year, month.value, 1);
        if ts.Some? then Some((ts.value, Month)) else None
    else None
  }

  /** `extract_victim`: the first capture, trimmed. */
  function ExtractVictim(text: string, readers: SectionReaders): (r: Option<string>)
    ensures r.Some? <==> readers.victim(text).Some?
    ensures r.Some? ==> r.value == Trim(readers.victim(text).value)
  {
    match readers.victim(text)
    case None => None
    case Some(v) => Some(Trim(v))
  }

  const AttackVectors := ["phishing", "malware", "supply chain", "social engineering",
                          "vulnerability exploit", "insider threat", "ransomware"]

  /** The first of `candidates` that `text` contains. */
  function FirstContained(text: string, candidates: seq<string>): (r: Option<nat>)
    ensures r.Some? ==> r.value < |candidates| && Contains(text, candidates[r.value])
    ensures r.Some? ==> forall j :: 0 <= j < r.value ==> !Contains(text, candidates[j])
    ensures r.None? ==> forall j :: 0 <= j < |candidates| ==> !Contains(text, candidates[j])
  {
    if candidates == [] then None
    else if Contains(text, candidates[0]) then Some(0)
    else
      var r := FirstContained(text, candidates[1..]);
      if r.None? then None else Some(r.value + 1)
  }

  /** `extract_attack_vector`: the first vector, in list order, that the
      lowercased text contains. */
  function ExtractAttackVector(text: string): (r: Option<string>)
    ensures r.Some? ==> r.value in AttackVectors && Contains(ToLower(text), r.value)
    ensures r.Some? ==>
      (exists i :: 0 <= i < |AttackVectors| && AttackVectors[i] == r.value &&
        (forall j :: 0 <= j < i ==> !Contains(ToLower(text), AttackVectors[j])))
    ensures r.None? <==> forall v :: v in AttackVectors ==> !Contains(ToLower(text), v)
  {
    var k := FirstContained(ToLower(text), AttackVectors);
    if k.None? then None else Some(AttackVectors[k.value])
  }

  const DescriptionChars := 500

  /** `parse_section`: a builder filled from the section, built. */
  function ParseSection(section: string, title: Option<string>, filePath: string, readers: SectionReaders): (r: Option<Incident>)
    ensures r.Some? <==> title.Some? && ExtractDate(section, readers).Some? && ExtractVictim(section, readers).Some?
    ensures r.Some? ==>
      && r.value.title == title.value
      && r.value.date == ExtractDate(section, readers).value.0
      && r.value.datePrecision == PrecisionName(ExtractDate(section, readers).value.1)
      && r.value.victim == ExtractVictim(section, readers).value
      && r.value.amountUsd == readers.amount(section)
      && r.value.attackVector == (if ExtractAttackVector(section).Some? then ExtractAttackVector(section).value else "unknown")
      && r.value.description == TakeChars(section, DescriptionChars)
      && r.value.sourceFile == filePath
      && r.value.documentId == ""
  {
    var b0 := NewBuilder(filePath);
    var b1 := if title.Some? then SetTitle(b0, title.value) else b0;
    var date := ExtractDate(section, readers);
    var b2 := if date.Some? then SetDate(b1, date.value.0, date.value.1) else b1;
    var victim := ExtractVictim(section, readers);
    var b3 := if victim.Some? then SetVictim(b2, victim.value) else b2;
    var amount := readers.amount(section);
    var b4 := if amount.Some? then SetAmountUsd(b3, amount.value) else b3;
    var vector := ExtractAttackVector(section);
    var b5 := if vector.Some? then SetAttackVector(b4, vector.value) else b4;
    var b6 := SetDescription(b5, TakeChars(section, DescriptionChars));
    Build(b6)
  }

  // ----- the section loop -----

  datatype ExtractState = ExtractState(
    incidents: seq<Incident>,
    section: string,
    title: Option<string>,
    inHeader: bool)

  const ExtractStart := ExtractState([], [], None, false)

  predicate IsSectionHeading(e: Event) {
    e.HeadingStart? && (e.level == 2 || e.level == 3)
  }

  /** A non-empty section is parsed (keeping the incident, if any) and
      cleared; an empty one is left alone. */
  function Flush(s: ExtractState, filePath: string, readers: SectionReaders): ExtractState {
    if s.section == [] then s
    else
      var found := ParseSection(s.section, s.title, filePath, readers);
      s.(incidents := s.incidents + (if found.Some? then [found.value] else []), section := [])
  }

  /** One iteration of the event loop. */
  function ExtractStep(s: ExtractState, e: Event, filePath: string, readers: SectionReaders): ExtractState {
    if IsSectionHeading(e) then Flush(s, filePath, readers).(inHeader := true)
    else
      match e
      case HeadingEnd => s.(inHeader := false)
      case Text(t) => if s.inHeader then s.(title := Some(t)) else s.(section := s.section + t + "\n")
      case _ => s
  }

  function ExtractRun(events: seq<Event>, filePath: string, readers: SectionReaders): ExtractState {
    if events == [] then ExtractStart
    else ExtractStep(ExtractRun(events[..|events| - 1], filePath, readers), events[|events| - 1], filePath, readers)
  }

  /** `extract_from_markdown`: the loop, then the last section. */
  method ExtractFromMarkdown(events: seq<Event>, filePath: string, readers: SectionReaders)
    returns (incidents: seq<Incident>)
    ensures incidents == Flush(ExtractRun(events, filePath, readers), filePath, readers).incidents
  {
    incidents := [];
    var currentSection := "";
    var currentTitle: Option<string> := None;
    var inHeader := false;
    for i := 0 to |events|
      invariant ExtractRun(events[..i], filePath, readers) ==
        ExtractState(incidents, currentSection, currentTitle, inHeader)
    {
      assert events[..i + 1][..i] == events[..i];
      var e := events[i];
      if IsSectionHeading(e) {
        inHeader := true;
        if currentSection != [] {
          var found := ParseSection(currentSection, currentTitle, filePath, readers);
          if found.Some? {
            incidents := incidents + [found.value];
          }
          currentSection := "";
        }
      } else if e.HeadingEnd? {
        inHeader := false;
      } else if e.Text? {
        if inHeader {
          currentTitle := Some(e.text);
        } else {
          currentSection := currentSection + e.text + "\n";
        }
      }
    }
    assert events[..|events|] == events;
    if currentSection != [] {
      var found := ParseSection(currentSection, currentTitle, filePath, readers);
      if found.Some? {
        incidents := incidents + [found.value];
      }
    }
  }

  // ----- what the loop state means -----

  /** Inside a section heading: after a level-2 or level-3 heading start
      and before the next heading end of any level. */
  function InHeaderAfter(events: seq<Event>): bool {
    if events == [] then false
    else
      var e := events[|events| - 1];
      if IsSectionHeading(e) then true
      else if e.HeadingEnd? then false
      else InHeaderAfter(events[..|events| - 1])
  }

  /** The last text seen inside a section heading, if any. */
  function TitleAfter(events: seq<Event>): Option<string> {
    if events == [] then None
    else
      var init := events[..|events| - 1];
      var e := events[|events| - 1];
      if e.Text? && InHeaderAfter(init) then Some(e.text) else TitleAfter(init)
  }

  /** The text outside headings since the last section heading, each piece
      followed by a newline. */
  function SectionSince(events: seq<Event>): string {
    if events == [] then []
    else
      var init := events[..|events| - 1];
      var e := events[|events| - 1];
      if IsSectionHeading(e) then []
      else if e.Text? && !InHeaderAfter(init) then SectionSince(init) + e.text + "\n"
      else SectionSince(init)
  }

  /** The number of level-2 and level-3 heading starts. */
  function SectionHeadings(events: seq<Event>): nat {
    if events == [] then 0
    else SectionHeadings(events[..|events| - 1]) + if IsSectionHeading(events[|events| - 1]) then 1 else 0
  }

  /** The title carries over from heading to heading until a new one is
      seen; the current section holds the text since the last section
      heading; at most one incident is found per section heading. */
  lemma {:induction false} ExtractRunTracks(events: seq<Event>, filePath: string, readers: SectionReaders)
    ensures ExtractRun(events, filePath, readers).inHeader == InHeaderAfter(events)
    ensures ExtractRun(events, filePath, readers).title == TitleAfter(events)
    ensures ExtractRun(events, filePath, readers).section == SectionSince(events)
    ensures |ExtractRun(events, filePath, readers).incidents| <= SectionHeadings(events)
  {
    if events != [] {
      ExtractRunTracks(events[..|events| - 1], filePath, readers);
    }
  }

  /** So the number of incidents is at most the number of sections: one
      per section heading plus the last section. */
  lemma IncidentCountBound(events: seq<Event>, filePath: string, readers: SectionReaders)
    ensures |Flush(ExtractRun(events, filePath, readers), filePath, readers).incidents| <= SectionHeadings(events) + 1
  {
    ExtractRunTracks(events, filePath, readers);
  }

  /** An incident found in `filePath`: it names the file, has no document
      yet, and its description is at most 500 characters. */
  predicate FromFile(incidents: seq<Incident>, filePath: string) {
    forall i :: 0 <= i < |incidents| ==>
      incidents[i].sourceFile == filePath && incidents[i].documentId == "" &&
      CharCount(incidents[i].description) <= DescriptionChars
  }

  lemma FlushFromFile(s: ExtractState, filePath: string, readers: SectionReaders)
    requires FromFile(s.incidents, filePath)
    ensures FromFile(Flush(s, filePath, readers).incidents, filePath)
  {
    if s.section != [] {
      var found := ParseSection(s.section, s.title, filePath, readers);
      if found.Some? {
        FromFileSnoc(s.incidents, found.value, filePath);
      } else {
        assert s.incidents + [] == s.incidents;
      }
    }
  }

  lemma FromFileSnoc(incidents: seq<Incident>, x: Incident, filePath: string)
    requires FromFile(incidents, filePath)
    requires x.sourceFile == filePath && x.documentId == "" && CharCount(x.description) <= DescriptionChars
    ensures FromFile(incidents + [x], filePath)
  {
  }

  /** An event either keeps the incidents or flushes the section. */
  lemma StepIncidents(s: ExtractState, e: Event, filePath: string, readers: SectionReaders)
    ensures ExtractStep(s, e, filePath, readers).incidents == s.incidents ||
            ExtractStep(s, e, filePath, readers).incidents == Flush(s, filePath, readers).incidents
  {
  }

  lemma {:induction false} RunFromFile(events: seq<Event>, filePath: string, readers: SectionReaders)
    ensures FromFile(ExtractRun(events, filePath, readers).incidents, filePath)
  {
    if events != [] {
      var init := events[..|events| - 1];
      RunFromFile(init, filePath, readers);
      FlushFromFile(ExtractRun(init, filePath, readers), filePath, readers);
      StepIncidents(ExtractRun(init, filePath, readers), events[|events| - 1], filePath, readers);
    }
  }

  /** Every incident extracted from a file names that file, has no
      document yet, and has a description of at most 500 characters. */
  lemma IncidentsFromFile(events: seq<Event>, filePath: string, readers: SectionReaders)
    ensures FromFile(Flush(ExtractRun(events, filePath, readers), filePath, readers).incidents, filePath)
  {
    RunFromFile(events, filePath, readers);
    FlushFromFile(ExtractRun(events, filePath, readers), filePath, readers);
  }
}

/**
  The markdown parser (src/parser/markdown.rs). The tokenizer is not part
  of the model: its output, the sequence of pulldown-cmark events, is the
  input, and `parse` and `extract_section` are the loops over it.
*/
module Markdown {
  import opened Errors
  import opened Strings

  type HeadingLevel = x: nat | 1 <= x <= 6 witness 1

  /** The tokenizer events the parser reacts to; every other event is
      `OtherEvent`. */
  datatype Event =
    | HeadingStart(level: HeadingLevel)
    | HeadingEnd
    | LinkStart(destUrl: string, title: string)
    | LinkEnd
    | CodeBlockStart
    | CodeBlockEnd
    | Text(text: string)
    | SoftBreak
    | HardBreak
    | OtherEvent

  datatype Heading = Heading(level: nat, text: string, position: nat)
  datatype Link = Link(text: string, url: string, title: Option<string>)
  datatype CodeBlock = CodeBlock(language: Option<string>, content: string)

  datatype ParsedMarkdown = ParsedMarkdown(
    plainText: string,
    headings: seq<Heading>,
    links: seq<Link>,
    codeBlocks: seq<CodeBlock>)

  /** The variables of the parse loop. */
  datatype ParseState = ParseState(
    plain: string,
    headings: seq<Heading>,
    links: seq<Link>,
    codeBlocks: seq<CodeBlock>,
    currentHeading: Option<(nat, string)>,
    currentLink: Option<(string, string)>,
    currentCode: Option<string>,
    inCodeBlock: bool)

  const Initial := ParseState([], [], [], [], None, None, None, false)

  /** One iteration of the parse loop. */
  function Step(s: ParseState, e: Event): ParseState {
    match e
    case HeadingStart(level) => s.(currentHeading := Some((level, [])))
    case HeadingEnd =>
      if s.currentHeading.Some? then
        var (level, text) := s.currentHeading.value;
        s.(headings := s.headings + [Heading(level, Trim(text), |s.plain|)], currentHeading := None)
      else s
    case LinkStart(url, title) => s.(currentLink := Some((url, title)))
    case LinkEnd =>
      if s.currentLink.Some? then
        var (url, title) := s.currentLink.value;
        var link := Link(LastWord(s.plain), url, if title == [] then None else Some(title));
        s.(links := s.links + [link], currentLink := None)
      else s
    case CodeBlockStart => s.(inCodeBlock := true, currentCode := Some([]))
    case CodeBlockEnd =>
      if s.currentCode.Some? then
        s.(inCodeBlock := false, codeBlocks := s.codeBlocks + [CodeBlock(None, s.currentCode.value)], currentCode := None)
      else s.(inCodeBlock := false)
    case Text(t) =>
      var s1 := if s.currentHeading.Some? then s.(currentHeading := Some((s.currentHeading.value.0, s.currentHeading.value.1 + t))) else s;
      if s1.inCodeBlock then
        if s1.currentCode.Some? then s1.(currentCode := Some(s1.currentCode.value + t)) else s1
      else s1.(plain := s1.plain + t + " ")
    case SoftBreak => s.(plain := s.plain + "\n")
    case HardBreak => s.(plain := s.plain + "\n")
    case OtherEvent => s
  }

  /** The loop state after the given events. */
  function Run(events: seq<Event>): ParseState {
    if events == [] then Initial else Step(Run(events[..|events| - 1]), events[|events| - 1])
  }

  function Finish(s: ParseState): ParsedMarkdown {
    ParsedMarkdown(Trim(s.plain), s.headings, s.links, s.codeBlocks)
  }

  /** `MarkdownParser::parse`: it never fails. */
  method Parse(events: seq<Event>) returns (r: Result<ParsedMarkdown>)
    ensures r == Ok(Finish(Run(events)))
  {
    var plainText := "";
    var headings := [];
    var links := [];
    var codeBlocks := [];
    var currentHeading: Option<(nat, string)> := None;
    var currentLink: Option<(string, string)> := None;
    var currentCode: Option<string> := None;
    var inCodeBlock := false;
    for i := 0 to |events|
      invariant Run(events[..i]) ==
        ParseState(plainText, headings, links, codeBlocks, currentHeading, currentLink, currentCode, inCodeBlock)
    {
      RunSnoc(events, i);
      match events[i] {
        case HeadingStart(level) =>
          currentHeading := Some((level, ""));
        case HeadingEnd =>
          if currentHeading.Some? {
            var (level, text) := currentHeading.value;
            currentHeading := None;
            headings := headings + [Heading(level, Trim(text), |plainText|)];
          }
        case LinkStart(url, title) =>
          currentLink := Some((url, title));
        case LinkEnd =>
          if currentLink.Some? {
            var (url, title) := currentLink.value;
            currentLink := None;
            var linkText := LastWord(plainText);
            links := links + [Link(linkText, url, if title == [] then None else Some(title))];
          }
        case CodeBlockStart =>
          inCodeBlock := true;
          currentCode := Some("");
        case CodeBlockEnd =>
          inCodeBlock := false;
          if currentCode.Some? {
            codeBlocks := codeBlocks + [CodeBlock(None, currentCode.value)];
            currentCode := None;
          }
        case Text(t) =>
          if currentHeading.Some? {
            currentHeading := Some((currentHeading.value.0, currentHeading.value.1 + t));
          }
          if inCodeBlock {
            if currentCode.Some? {
              currentCode := Some(currentCode.value + t);
            }
          } else {
            plainText := plainText + t + " ";
          }
        case SoftBreak =>
          plainText := plainText + "\n";
        case HardBreak =>
          plainText := plainText + "\n";
        case OtherEvent =>
      }
    }
    assert events[..|events|] == events;
    r := Ok(ParsedMarkdown(Trim(plainText), headings, links, codeBlocks));
  }

  /** The state after one more event is one step from the state before it. */
  lemma RunSnoc(events: seq<Event>, i: nat)
    requires i < |events|
    ensures Run(events[..i + 1]) == Step(Run(events[..i]), events[i])
  {
    assert events[..i + 1][..i] == events[..i];
  }

  // ----- Independent descriptions of what the loop accumulates -----

  /** Whether the last code-block event opened a block. */
  function InCodeAfter(events: seq<Event>): bool {
    if events == [] then false
    else
      match events[|events| - 1]
      case CodeBlockStart => true
      case CodeBlockEnd => false
      case _ => InCodeAfter(events[..|events| - 1])
  }

  /** What one event adds to the plain text: text outside code followed by a
      space, a newline for a soft or hard break, nothing otherwise. */
  function PlainPart(inCode: bool, e: Event): string {
    match e
    case Text(t) => if inCode then [] else t + " "
    case SoftBreak => "\n"
    case HardBreak => "\n"
    case _ => []
  }

  function PlainOf(events: seq<Event>): string {
    if events == [] then []
    else
      var init := events[..|events| - 1];
      PlainOf(init) + PlainPart(InCodeAfter(init), events[|events| - 1])
  }

  /** The plain text depends only on the text, break and code-block events:
      headings and links do not affect it, and text inside a code block
      never reaches it. */
  lemma {:induction false} RunPlain(events: seq<Event>)
    ensures Run(events).plain == PlainOf(events)
    ensures Run(events).inCodeBlock == InCodeAfter(events)
  {
    if events != [] {
      RunPlain(events[..|events| - 1]);
    }
  }

  /** The level of the heading the events leave open, if any: the last
      heading start not followed by a heading end. */
  function OpenHeading(events: seq<Event>): Option<nat> {
    if events == [] then None
    else
      match events[|events| - 1]
      case HeadingStart(level) => Some(level)
      case HeadingEnd => None
      case _ => OpenHeading(events[..|events| - 1])
  }

  /** The text events since the last heading start, concatenated. */
  function TextSinceOpen(events: seq<Event>): string {
    if events == [] then []
    else
      match events[|events| - 1]
      case HeadingStart(_) => []
      case Text(t) => TextSinceOpen(events[..|events| - 1]) + t
      case _ => TextSinceOpen(events[..|events| - 1])
  }

  /** The number of heading ends that close an open heading. */
  function Closings(events: seq<Event>): nat {
    if events == [] then 0
    else
      var init := events[..|events| - 1];
      Closings(init) + if events[|events| - 1].HeadingEnd? && OpenHeading(init).Some? then 1 else 0
  }

  /** The open heading is the last unclosed heading start, holding every
      text since it; one heading is recorded per heading end that closes
      an open heading. */
  lemma RunHeadings(events: seq<Event>)
    ensures Run(events).currentHeading.Some? <==> OpenHeading(events).Some?
    ensures Run(events).currentHeading.Some? ==>
      Run(events).currentHeading.value == (OpenHeading(events).value, TextSinceOpen(events))
    ensures |Run(events).headings| == Closings(events)
  {
    RunOpenHeading(events);
    RunClosings(events);
  }

  lemma {:induction false} RunOpenHeading(events: seq<Event>)
    ensures Run(events).currentHeading.Some? <==> OpenHeading(events).Some?
    ensures Run(events).currentHeading.Some? ==>
      Run(events).currentHeading.value == (OpenHeading(events).value, TextSinceOpen(events))
  {
    if events != [] {
      var init := events[..|events| - 1];
      var e := events[|events| - 1];
      RunOpenHeading(init);
      StepHeadingState(Run(init), e);
    }
  }

  lemma {:induction false} RunClosings(events: seq<Event>)
    ensures |Run(events).headings| == Closings(events)
  {
    if events != [] {
      var init := events[..|events| - 1];
      var e := events[|events| - 1];
      RunClosings(init);
      RunOpenHeading(init);
      StepHeadingState(Run(init), e);
    }
  }

  /** How one event moves the open heading and the number of recorded
      headings. */
  lemma StepHeadingState(s: ParseState, e: Event)
    ensures e.HeadingStart? ==>
      Step(s, e).currentHeading == Some((e.level as nat, [])) && Step(s, e).headings == s.headings
    ensures e.HeadingEnd? ==>
      Step(s, e).currentHeading.None? &&
      |Step(s, e).headings| == |s.headings| + if s.currentHeading.Some? then 1 else 0
    ensures e.Text? ==>
      Step(s, e).headings == s.headings &&
      Step(s, e).currentHeading == if s.currentHeading.Some?
                                   then Some((s.currentHeading.value.0, s.currentHeading.value.1 + e.text))
                                   else None
    ensures !e.HeadingStart? && !e.HeadingEnd? && !e.Text? ==>
      Step(s, e).currentHeading == s.currentHeading && Step(s, e).headings == s.headings
    ensures e.HeadingEnd? && s.currentHeading.None? ==> Step(s, e) == s
  {
  }

  /** A heading end with a heading open records it. */
  lemma StepHeadingEnd(s: ParseState)
    requires s.currentHeading.Some?
    ensures Step(s, HeadingEnd).headings ==
      s.headings + [Heading(s.currentHeading.value.0, Trim(s.currentHeading.value.1), |s.plain|)]
    ensures Step(s, HeadingEnd).plain == s.plain && Step(s, HeadingEnd).currentHeading.None?
  {
  }

  /** A closing heading end records the open heading's level, its text
      trimmed, and the plain-text length at that point as its position. */
  lemma HeadingRecorded(events: seq<Event>)
    requires events != [] && events[|events| - 1].HeadingEnd?
    requires OpenHeading(events[..|events| - 1]).Some?
    ensures var init := events[..|events| - 1];
      Run(events).headings ==
        Run(init).headings + [Heading(OpenHeading(init).value, Trim(TextSinceOpen(init)), |PlainOf(init)|)]
  {
    var init := events[..|events| - 1];
    assert events[|events| - 1] == HeadingEnd;
    assert Run(events) == Step(Run(init), HeadingEnd);
    RunHeadings(init);
    RunPlain(init);
    StepHeadingEnd(Run(init));
  }

  /** The recorded headings: positions within the plain text and never
      decreasing, levels within 1..6. */
  predicate HeadingsOrdered(s: ParseState) {
    && (forall i :: 0 <= i < |s.headings| ==> s.headings[i].position <= |s.plain|)
    && (forall i, j :: 0 <= i < j < |s.headings| ==> s.headings[i].position <= s.headings[j].position)
    && (forall i :: 0 <= i < |s.headings| ==> 1 <= s.headings[i].level <= 6)
    && (s.currentHeading.Some? ==> 1 <= s.currentHeading.value.0 <= 6)
  }

  /** A link title is absent rather than empty, and a link's text is one
      word. */
  predicate LinksWellFormed(s: ParseState) {
    && (forall i :: 0 <= i < |s.links| ==> s.links[i].title != Some([]))
    && (forall i :: 0 <= i < |s.links| ==> IsWord(s.links[i].text))
  }

  predicate IsWord(w: string) {
    forall k :: 0 <= k < |w| ==> !IsWhitespace(w[k])
  }

  predicate CodeBlocksWithoutLanguage(s: ParseState) {
    forall i :: 0 <= i < |s.codeBlocks| ==> s.codeBlocks[i].language.None?
  }

  lemma StepPlainGrows(s: ParseState, e: Event)
    ensures |s.plain| <= |Step(s, e).plain|
    ensures Step(s, e).headings == s.headings || e.HeadingEnd?
    ensures Step(s, e).links == s.links || e.LinkEnd?
    ensures Step(s, e).codeBlocks == s.codeBlocks || e.CodeBlockEnd?
  {
  }

  lemma StepHeadingsOrdered(s: ParseState, e: Event)
    requires HeadingsOrdered(s)
    ensures HeadingsOrdered(Step(s, e))
  {
    StepPlainGrows(s, e);
    StepHeadingState(s, e);
    if e.HeadingEnd? && s.currentHeading.Some? {
      assert e == HeadingEnd;
      HeadingEndOrdered(s);
    } else {
      SameHeadingsOrdered(s, Step(s, e));
    }
  }

  lemma HeadingEndOrdered(s: ParseState)
    requires HeadingsOrdered(s) && s.currentHeading.Some?
    ensures HeadingsOrdered(Step(s, HeadingEnd))
  {
    var t := Step(s, HeadingEnd);
    StepHeadingEnd(s);
    assert t.headings[|t.headings| - 1].position == |s.plain|;
    assert forall i :: 0 <= i < |s.headings| ==> t.headings[i] == s.headings[i];
  }

  lemma SameHeadingsOrdered(s: ParseState, t: ParseState)
    requires HeadingsOrdered(s) && t.headings == s.headings && |s.plain| <= |t.plain|
    requires t.currentHeading.Some? ==> 1 <= t.currentHeading.value.0 <= 6
    ensures HeadingsOrdered(t)
  {
  }

  lemma StepLinksWellFormed(s: ParseState, e: Event)
    requires LinksWellFormed(s)
    ensures LinksWellFormed(Step(s, e))
  {
    StepPlainGrows(s, e);
    var t := Step(s, e);
    if e.LinkEnd? && s.currentLink.Some? {
      var (url, title) := s.currentLink.value;
      assert IsWord(LastWord(s.plain));
      assert t.links == s.links + [Link(LastWord(s.plain), url, if title == [] then None else Some(title))];
    } else if e.LinkEnd? {
      assert t.links == s.links;
    }
  }

  /** Heading positions never exceed the plain text and never decrease,
      heading levels stay within 1..6, no code block has a language, a link
      title is absent rather than empty, and a link's text is one word. */
  lemma {:induction false} RunWellFormed(events: seq<Event>)
    ensures HeadingsOrdered(Run(events))
    ensures LinksWellFormed(Run(events))
    ensures CodeBlocksWithoutLanguage(Run(events))
  {
    if events != [] {
      var init := events[..|events| - 1];
      RunWellFormed(init);
      StepHeadingsOrdered(Run(init), events[|events| - 1]);
      StepLinksWellFormed(Run(init), events[|events| - 1]);
      StepPlainGrows(Run(init), events[|events| - 1]);
    }
  }

  // ----- extract_section -----

  /** `str::eq_ignore_ascii_case`. */
  predicate EqIgnoreAsciiCase(a: string, b: string) {
    ToLower(a) == ToLower(b)
  }

  /** The variables of the section loop; `stopped` records the `break`. */
  datatype SectionState = SectionState(
    inTarget: bool,
    section: string,
    headingText: string,
    inHeading: bool,
    stopped: bool)

  const SectionStart := SectionState(false, [], [], false, false)

  /** One iteration of the section loop: a heading start ends the target
      section, a heading end whose trimmed text equals the wanted heading
      (ASCII case-insensitively) starts it, and text inside it is kept,
      each piece followed by a space. */
  function SectionStep(s: SectionState, e: Event, heading: string): SectionState {
    match e
    case HeadingStart(_) =>
      if s.inTarget then s.(stopped := true) else s.(inHeading := true, headingText := [])
    case HeadingEnd =>
      if EqIgnoreAsciiCase(Trim(s.headingText), heading) then s.(inHeading := false, inTarget := true)
      else s.(inHeading := false)
    case Text(t) =>
      if s.inHeading then s.(headingText := s.headingText + t)
      else if s.inTarget then s.(section := s.section + t + " ")
      else s
    case _ => s
  }

  /** The section loop from state `s` over the remaining events. */
  function SectionFrom(s: SectionState, events: seq<Event>, heading: string): SectionState
    decreases |events|
  {
    if events == [] || s.stopped then s
    else SectionFrom(SectionStep(s, events[0], heading), events[1..], heading)
  }

  function SectionResult(section: string): (r: Option<string>)
    ensures r.None? <==> section == []
    ensures r.Some? ==> r.value == Trim(section)
  {
    if section == [] then None else Some(Trim(section))
  }

  /** `MarkdownParser::extract_section`. */
  method ExtractSection(events: seq<Event>, heading: string) returns (r: Option<string>)
    ensures r == SectionResult(SectionFrom(SectionStart, events, heading).section)
  {
    var inTargetSection := false;
    var sectionContent := "";
    var currentHeadingText := "";
    var inHeading := false;
    var i := 0;
    while i < |events|
      invariant 0 <= i <= |events|
      invariant SectionFrom(SectionStart, events, heading) ==
        SectionFrom(SectionState(inTargetSection, sectionContent, currentHeadingText, inHeading, false), events[i..], heading)
    {
      assert events[i..][0] == events[i] && events[i..][1..] == events[i + 1..];
      match events[i] {
        case HeadingStart(_) =>
          if inTargetSection {
            break;
          }
          inHeading := true;
          currentHeadingText := "";
        case HeadingEnd =>
          inHeading := false;
          if EqIgnoreAsciiCase(Trim(currentHeadingText), heading) {
            inTargetSection := true;
          }
        case Text(t) =>
          if inHeading {
            currentHeadingText := currentHeadingText + t;
          } else if inTargetSection {
            sectionContent := sectionContent + t + " ";
          }
        case _ =>
      }
      i := i + 1;
    }
    if sectionContent == [] {
      r := None;
    } else {
      r := Some(Trim(sectionContent));
    }
  }

  predicate NoHeadingEvents(events: seq<Event>) {
    forall i :: 0 <= i < |events| ==> !events[i].HeadingStart? && !events[i].HeadingEnd?
  }

  /** Each text event followed by a space, concatenated. */
  function Spaced(events: seq<Event>): string {
    if events == [] then []
    else (if events[0].Text? then events[0].text + " " else []) + Spaced(events[1..])
  }

  /** Inside the target section, events without headings add their text,
      each piece followed by a space. */
  lemma {:induction false} CollectsBody(s: SectionState, body: seq<Event>, heading: string)
    requires s.inTarget && !s.inHeading && !s.stopped && NoHeadingEvents(body)
    ensures SectionFrom(s, body, heading) == s.(section := s.section + Spaced(body))
    decreases |body|
  {
    if body != [] {
      var s1 := SectionStep(s, body[0], heading);
      assert NoHeadingEvents(body[1..]) by {
        forall i | 0 <= i < |body[1..]| ensures !body[1..][i].HeadingStart? && !body[1..][i].HeadingEnd? {
          assert body[1..][i] == body[i + 1];
        }
      }
      CollectsBody(s1, body[1..], heading);
      assert !body[0].HeadingStart? && !body[0].HeadingEnd?;
    }
  }

  /** Outside any heading and the target section, events without headings
      collect nothing. */
  lemma {:induction false} SkipsBody(s: SectionState, body: seq<Event>, heading: string)
    requires !s.inTarget && !s.inHeading && !s.stopped && NoHeadingEvents(body)
    ensures SectionFrom(s, body, heading) == s
    decreases |body|
  {
    if body != [] {
      assert NoHeadingEvents(body[1..]) by {
        forall i | 0 <= i < |body[1..]| ensures !body[1..][i].HeadingStart? && !body[1..][i].HeadingEnd? {
          assert body[1..][i] == body[i + 1];
        }
      }
      assert !body[0].HeadingStart? && !body[0].HeadingEnd?;
      SkipsBody(s, body[1..], heading);
    }
  }

  /** The loop after `SectionFrom` has stopped, or ran to the end. */
  lemma {:induction false} SectionFromAppend(s: SectionState, a: seq<Event>, b: seq<Event>, heading: string)
    ensures SectionFrom(s, a + b, heading) == SectionFrom(SectionFrom(s, a, heading), b, heading)
    decreases |a|
  {
    if a == [] {
      assert a + b == b;
    } else if !s.stopped {
      assert (a + b)[0] == a[0] && (a + b)[1..] == a[1..] + b;
      SectionFromAppend(SectionStep(s, a[0], heading), a[1..], b, heading);
    } else {
      assert SectionFrom(s, b, heading) == s;
    }
  }

  /** A heading start, its text and its end leave the loop outside the
      heading, with the heading's text, and in the target section exactly
      when the text matches. */
  lemma HeadSteps(level: HeadingLevel, h: string, heading: string)
    ensures SectionFrom(SectionStart, [HeadingStart(level), Text(h), HeadingEnd], heading) ==
      SectionStep(SectionState(false, [], h, true, false), HeadingEnd, heading)
  {
    var s1 := SectionState(false, [], [], true, false);
    var s2 := SectionState(false, [], h, true, false);
    assert [] + h == h;
    assert SectionStep(SectionStart, HeadingStart(level), heading) == s1;
    assert SectionStep(s1, Text(h), heading) == s2;
    OneStep(SectionStart, HeadingStart(level), [Text(h), HeadingEnd], heading);
    OneStep(s1, Text(h), [HeadingEnd], heading);
  }

  lemma OneStep(s: SectionState, e: Event, rest: seq<Event>, heading: string)
    requires !s.stopped
    ensures SectionFrom(s, [e] + rest, heading) == SectionFrom(SectionStep(s, e, heading), rest, heading)
  {
    assert ([e] + rest)[0] == e && ([e] + rest)[1..] == rest;
  }

  /** A section headed by the wanted heading (trimmed, ignoring ASCII case)
      holds exactly the text of the events up to the next heading, which
      ends it. */
  lemma ExtractTarget(level: HeadingLevel, h: string, body: seq<Event>, rest: seq<Event>, heading: string)
    requires EqIgnoreAsciiCase(Trim(h), heading)
    requires NoHeadingEvents(body)
    requires rest == [] || rest[0].HeadingStart?
    ensures SectionFrom(SectionStart, [HeadingStart(level), Text(h), HeadingEnd] + body + rest, heading).section == Spaced(body)
  {
    var head := [HeadingStart(level), Text(h), HeadingEnd];
    var s3 := SectionStep(SectionState(false, [], h, true, false), HeadingEnd, heading);
    HeadSteps(level, h, heading);
    assert s3.inTarget == EqIgnoreAsciiCase(Trim(h), heading) && s3.section == [] && !s3.inHeading && !s3.stopped;
    SectionFromAppend(SectionStart, head, body + rest, heading);
    assert head + body + rest == head + (body + rest);
    SectionFromAppend(s3, body, rest, heading);
    CollectsBody(s3, body, heading);
  }

  /** A heading that is not the wanted one opens no section: its body
      collects nothing. */
  lemma ExtractOther(level: HeadingLevel, h: string, body: seq<Event>, heading: string)
    requires !EqIgnoreAsciiCase(Trim(h), heading)
    requires NoHeadingEvents(body)
    ensures SectionFrom(SectionStart, [HeadingStart(level), Text(h), HeadingEnd] + body, heading).section == []
  {
    var head := [HeadingStart(level), Text(h), HeadingEnd];
    var s3 := SectionStep(SectionState(false, [], h, true, false), HeadingEnd, heading);
    HeadSteps(level, h, heading);
    assert s3.inTarget == EqIgnoreAsciiCase(Trim(h), heading) && s3.section == [] && !s3.inHeading && !s3.stopped;
    SectionFromAppend(SectionStart, head, body, heading);
    SkipsBody(s3, body, heading);
  }

  /** Without any heading there is no section to find. */
  lemma NoHeadingNoSection(events: seq<Event>, heading: string)
    requires NoHeadingEvents(events)
    ensures SectionResult(SectionFrom(SectionStart, events, heading).section).None?
  {
    SkipsBody(SectionStart, events, heading);
  }
}

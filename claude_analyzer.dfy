/** The deterministic parts of the pitch analyzer: choosing the persona's
    system prompt, assembling the message of text and image blocks, and
    splitting the model's free-text feedback into named sections. */
module ClaudeAnalyzer {
  import opened Wrappers
  import opened Text
  import opened Personas
  import opened Seqs

  // ---------------------------------------------------------------------------
  // System prompt

  /** The prompt for any persona id the analyzer does not know. */
  const DefaultPrompt: string := "You are a professional pitch coach."

  /** The opening clause of each persona's prompt, up to the role it casts
      the model as (the rest of the wording is not modelled). */
  function PersonaPrompt(p: Persona): (r: string)
    ensures |r| > |DefaultPrompt|
    ensures |r| == PromptLength(p)
  {
    match p
    case Investor => "You are a seasoned venture capital investor"
    case Advisor => "You are an experienced startup advisor and pitch coach"
    case Healthcare => "You are a healthcare industry expert and investor"
    case EdTech => "You are an educational technology expert and investor"
    case Tech => "You are a technical expert and investor"
  }

  /** The lengths of the opening clauses, which already tell them apart. */
  function PromptLength(p: Persona): nat {
    match p
    case Investor => 43
    case Advisor => 54
    case Healthcare => 49
    case EdTech => 53
    case Tech => 39
  }

  /** `_get_system_prompt`: the persona's prompt, or the default for an unknown id. */
  function SystemPrompt(persona: string): (r: string)
    ensures r == DefaultPrompt <==> persona !in Ids
    ensures persona in Ids ==> r == PersonaPrompt(FromId(persona).value)
  {
    match FromId(persona)
    case Some(p) => PersonaPrompt(p)
    case None => DefaultPrompt
  }

  /** Two persona strings get the same prompt exactly when they name the same
      persona, or are both unknown. */
  lemma SystemPromptDistinct(a: string, b: string)
    ensures SystemPrompt(a) == SystemPrompt(b) <==> FromId(a) == FromId(b)
  {
    if FromId(a).Some? && FromId(b).Some? && FromId(a) != FromId(b) {
      PromptsDiffer(FromId(a).value, FromId(b).value);
    }
  }

  lemma PromptsDiffer(p: Persona, q: Persona)
    requires p != q
    ensures PersonaPrompt(p) != PersonaPrompt(q)
  {
    assert PromptLength(p) != PromptLength(q);
  }

  // ---------------------------------------------------------------------------
  // Message content

  /** At most this many frames are sent to the model. */
  const MaxImages: nat := 5

  datatype Block = TextBlock(text: string) | ImageBlock(mediaType: string, data: string)

  const InstructionHead: string :=
    "Please analyze this pitch video. I've provided:\n" +
    "1. Key frames from the video showing visual elements, slides, and body language\n" +
    "2. A complete transcript of what was said\n\nTRANSCRIPT:\n"
  const InstructionTail: string := "\n\nVIDEO FRAMES (shown below):\n"

  /** The closing request, by its opening sentence (the section list is not modelled). */
  const AnalysisRequest: string :=
    "\nBased on the transcript and visual frames, provide a comprehensive analysis of this pitch.\n"

  function Min(a: int, b: int): int { if a <= b then a else b }

  /** `_build_message_content`: the instruction with the transcript, the first
      five frames as JPEG images in order, and the closing request. */
  method BuildMessageContent(frames: seq<string>, transcript: string) returns (content: seq<Block>)
    ensures |content| == Min(|frames|, MaxImages) + 2
    ensures content[0] == TextBlock(InstructionHead + transcript + InstructionTail)
    ensures forall i :: 0 <= i < |content| - 2 ==> content[i + 1] == ImageBlock("image/jpeg", frames[i])
    ensures content[|content| - 1] == TextBlock(AnalysisRequest)
  {
    content := [TextBlock(InstructionHead + transcript + InstructionTail)];
    var sampled := frames[..Min(|frames|, MaxImages)];
    for i := 0 to |sampled|
      invariant |content| == i + 1
      invariant content[0] == TextBlock(InstructionHead + transcript + InstructionTail)
      invariant forall j :: 0 <= j < i ==> content[j + 1] == ImageBlock("image/jpeg", frames[j])
    {
      content := content + [ImageBlock("image/jpeg", sampled[i])];
    }
    content := content + [TextBlock(AnalysisRequest)];
  }

  // ---------------------------------------------------------------------------
  // Feedback sections

  /** Lines before the first header are filed under this key. */
  const IntroKey: string := "intro"

  /** A stripped line is a header when it starts with '#', or when Python's
      `isupper()` holds of it and it is shorter than 50 characters. */
  function IsHeader(line: string): (b: bool)
    ensures b ==> line != []
    ensures HasAsciiLower(line) ==> (b <==> StartsWith(line, "#"))
  {
    StartsWith(line, "#") || (IsUpper(line) && |line| < 50)
  }

  /** The shape of every section key: no '#', no space, no upper-case letter,
      no surrounding whitespace. */
  predicate IsSectionKey(k: string) {
    '#' !in k && ' ' !in k &&
    (forall i :: 0 <= i < |k| ==> !IsAsciiUpper(k[i])) &&
    (k == [] || (!IsPyWhitespace(k[0]) && !IsPyWhitespace(k[|k| - 1])))
  }

  /** A line as it is stored inside a section. */
  predicate IsContentLine(line: string) {
    line != [] && Strip(line) == line && !IsHeader(line) && '\n' !in line
  }

  /** The key of a header line: '#'s removed, stripped, lower-cased, spaces turned into '_'. */
  function SectionKey(line: string): (k: string)
    ensures IsSectionKey(k)
  {
    var name := Strip(RemoveChar(line, '#'));
    LowerKeepsKeyShape(name);
    ReplaceChar(Lower(name), ' ', '_')
  }

  lemma LowerKeepsKeyShape(name: string)
    requires '#' !in name
    requires name == [] || (!IsPyWhitespace(name[0]) && !IsPyWhitespace(name[|name| - 1]))
    ensures IsSectionKey(ReplaceChar(Lower(name), ' ', '_'))
  {
    var k := ReplaceChar(Lower(name), ' ', '_');
    forall i | 0 <= i < |k|
      ensures k[i] != '#' && k[i] != ' ' && !IsAsciiUpper(k[i])
    {
      KeyChar(name, i);
    }
    if k != [] {
      KeyChar(name, 0);
      KeyChar(name, |k| - 1);
    }
  }

  /** One character of a key: lower-cased, '_' for ' ', never '#' or upper case, and
      whitespace only where the name had whitespace. */
  lemma KeyChar(name: string, i: int)
    requires '#' !in name && 0 <= i < |name|
    ensures var k := ReplaceChar(Lower(name), ' ', '_');
      k[i] != '#' && k[i] != ' ' && !IsAsciiUpper(k[i]) && (IsPyWhitespace(k[i]) ==> IsPyWhitespace(name[i]))
  {
    assert name[i] in name;
  }

  /** The parser's state between lines; a section's content is kept as its list of lines. */
  datatype ParseState = ParseState(sections: map<string, seq<string>>, current: string, content: seq<string>)

  const Start: ParseState := ParseState(map[], IntroKey, [])

  /** Files the collected lines under the current key, if there are any. */
  function Flush(st: ParseState): map<string, seq<string>> {
    if st.content != [] then st.sections[st.current := st.content] else st.sections
  }

  /** One line of the loop: blank lines are skipped, a header closes the current
      section and opens a new one, anything else is collected stripped. */
  function Step(st: ParseState, raw: string): ParseState {
    var line := Strip(raw);
    if line == [] then st
    else if IsHeader(line) then ParseState(Flush(st), SectionKey(line), [])
    else st.(content := st.content + [line])
  }

  function Run(lines: seq<string>): ParseState
  {
    if lines == [] then Start else Step(Run(lines[..|lines| - 1]), lines[|lines| - 1])
  }

  /** Each section's lines joined with newlines, as the result dictionary stores them. */
  function Render(sections: map<string, seq<string>>): (r: map<string, string>)
    ensures r.Keys == sections.Keys
  {
    map k | k in sections :: Join(sections[k], "\n")
  }

  lemma RunStep(lines: seq<string>, i: nat)
    requires i < |lines|
    ensures Run(lines[..i + 1]) == Step(Run(lines[..i]), lines[i])
  {
    assert lines[..i + 1][..i] == lines[..i];
  }

  lemma RenderUpdate(m: map<string, seq<string>>, k: string, v: seq<string>)
    ensures Render(m[k := v]) == Render(m)[k := Join(v, "\n")]
  {
  }

  /** The sections `_parse_feedback` returns for a text. */
  function Sections(text: string): map<string, string> {
    Render(Flush(Run(Split(text, '\n'))))
  }

  /** `_parse_feedback`, line by line as the source does it. */
  method ParseFeedback(text: string) returns (sections: map<string, string>)
    ensures sections == Sections(text)
  {
    var lines := Split(text, '\n');
    sections := map[];
    var currentSection := IntroKey;
    var currentContent: seq<string> := [];
    ghost var st := Start;
    for i := 0 to |lines|
      invariant st == Run(lines[..i])
      invariant sections == Render(st.sections)
      invariant currentSection == st.current && currentContent == st.content
    {
      RunStep(lines, i);
      var line := Strip(lines[i]);
      if line == [] {
      } else if IsHeader(line) {
        if currentContent != [] {
          RenderUpdate(st.sections, currentSection, currentContent);
          sections := sections[currentSection := Join(currentContent, "\n")];
          currentContent := [];
        }
        currentSection := SectionKey(line);
      } else {
        currentContent := currentContent + [line];
      }
      st := Step(st, lines[i]);
    }
    assert lines[..|lines|] == lines;
    if currentContent != [] {
      RenderUpdate(st.sections, currentSection, currentContent);
      sections := sections[currentSection := Join(currentContent, "\n")];
    }
  }

  /** What the loop keeps true: the current key and every stored key have the
      key shape, every stored section is non-empty, and every collected line is a
      content line. */
  ghost predicate WellFormed(st: ParseState) {
    IsSectionKey(st.current) && AllContentLines(st.content) &&
    forall k :: k in st.sections ==> IsSectionKey(k) && st.sections[k] != [] && AllContentLines(st.sections[k])
  }

  ghost predicate AllContentLines(lines: seq<string>) {
    forall i :: 0 <= i < |lines| ==> IsContentLine(lines[i])
  }

  lemma StripIdempotent(s: string)
    ensures Strip(Strip(s)) == Strip(s)
  {
  }

  /** A non-blank, non-header line of the split text, once stripped, is a content line. */
  lemma StrippedIsContentLine(raw: string)
    requires '\n' !in raw
    requires Strip(raw) != [] && !IsHeader(Strip(raw))
    ensures IsContentLine(Strip(raw))
  {
    StripIdempotent(raw);
  }

  lemma StepWellFormed(st: ParseState, raw: string)
    requires WellFormed(st) && '\n' !in raw
    ensures WellFormed(Step(st, raw))
  {
    var line := Strip(raw);
    if line == [] {
    } else if IsHeader(line) {
      StepHeader(st, raw);
      FlushWellFormed(st);
    } else {
      StepNoHeader(st, raw);
      StrippedIsContentLine(raw);
      AppendContentLine(st.content, line);
    }
  }

  lemma FlushWellFormed(st: ParseState)
    requires WellFormed(st)
    ensures forall k :: k in Flush(st) ==>
      IsSectionKey(k) && Flush(st)[k] != [] && AllContentLines(Flush(st)[k])
  {
  }

  lemma AppendContentLine(lines: seq<string>, line: string)
    requires AllContentLines(lines) && IsContentLine(line)
    ensures AllContentLines(lines + [line])
  {
    var c := lines + [line];
    forall i | 0 <= i < |c| ensures IsContentLine(c[i]) {
      if i < |lines| { assert c[i] == lines[i]; }
    }
  }

  lemma {:induction false} RunWellFormed(lines: seq<string>)
    requires forall i :: 0 <= i < |lines| ==> '\n' !in lines[i]
    ensures WellFormed(Run(lines))
    decreases |lines|
  {
    if lines != [] {
      var init := lines[..|lines| - 1];
      RunWellFormed(init);
      StepWellFormed(Run(init), lines[|lines| - 1]);
    }
  }

  /** Every key of the result has the key shape; every value is non-empty and,
      split back into lines, consists only of non-blank, stripped, non-header lines. */
  lemma SectionsWellFormed(text: string)
    ensures forall k :: k in Sections(text) ==>
      IsSectionKey(k) && Sections(text)[k] != "" && AllContentLines(Split(Sections(text)[k], '\n'))
  {
    var lines := Split(text, '\n');
    RunWellFormed(lines);
    var m := Flush(Run(lines));
    FlushWellFormed(Run(lines));
    forall k | k in Sections(text)
      ensures IsSectionKey(k) && Sections(text)[k] != "" && AllContentLines(Split(Sections(text)[k], '\n'))
    {
      assert Sections(text)[k] == Join(m[k], "\n");
      JoinedContentWellFormed(m[k]);
    }
  }

  /** Joining content lines gives non-empty text that splits back into them. */
  lemma JoinedContentWellFormed(lines: seq<string>)
    requires lines != [] && AllContentLines(lines)
    ensures Join(lines, "\n") != "" && AllContentLines(Split(Join(lines, "\n"), '\n'))
  {
    assert forall i :: 0 <= i < |lines| ==> '\n' !in lines[i] by {
      forall i | 0 <= i < |lines| ensures '\n' !in lines[i] {
        assert IsContentLine(lines[i]);
      }
    }
    SplitJoin(lines, '\n');
    JoinNonEmpty(lines, "\n");
  }

  lemma JoinNonEmpty(parts: seq<string>, sep: string)
    requires parts != [] && parts[0] != []
    ensures Join(parts, sep) != []
  {
  }

  /** The non-blank lines of a block of text, stripped. */
  function NonBlank(lines: seq<string>): seq<string>
  {
    if lines == [] then [] else NonBlank(lines[..|lines| - 1]) + Kept(lines[|lines| - 1])
  }

  /** The stripped line, when it is not blank. */
  function Kept(raw: string): seq<string> {
    if Strip(raw) == [] then [] else [Strip(raw)]
  }

  /** A line that is not a header only adds to the current section. */
  lemma StepNoHeader(st: ParseState, raw: string)
    requires !IsHeader(Strip(raw))
    ensures Step(st, raw) == st.(content := st.content + Kept(raw))
  {
  }

  /** A header line files the collected lines and opens a new, empty section. */
  lemma StepHeader(st: ParseState, raw: string)
    requires IsHeader(Strip(raw))
    ensures Step(st, raw) == ParseState(Flush(st), SectionKey(Strip(raw)), [])
  {
  }

  /** A header line closes the current section: the collected lines, if there are
      any, are filed under the current key, every other stored section is left as
      it was, and a new, empty section opens under the header's key. */
  lemma HeaderClosesSection(st: ParseState, raw: string)
    requires IsHeader(Strip(raw))
    ensures var next := Step(st, raw);
      next.current == SectionKey(Strip(raw)) && next.content == [] &&
      (forall k :: k != st.current ==> (k in next.sections <==> k in st.sections)) &&
      (forall k :: k != st.current && k in st.sections ==> next.sections[k] == st.sections[k]) &&
      (st.content != [] ==> st.current in next.sections && next.sections[st.current] == st.content) &&
      (st.content == [] ==> next.sections == st.sections)
  {
    StepHeader(st, raw);
  }

  lemma RunSnoc(lines: seq<string>, raw: string)
    ensures Run(lines + [raw]) == Step(Run(lines), raw)
  {
    assert (lines + [raw])[..|lines|] == lines;
  }

  lemma NonBlankSnoc(lines: seq<string>, raw: string)
    ensures NonBlank(lines + [raw]) == NonBlank(lines) + Kept(raw)
  {
    assert (lines + [raw])[..|lines|] == lines;
  }

  /** With no header line among them, lines only add to the current section. */
  lemma {:induction false} RunWithoutHeaders(before: seq<string>, after: seq<string>)
    requires forall i :: 0 <= i < |after| ==> !IsHeader(Strip(after[i]))
    ensures Run(before + after) ==
      Run(before).(content := Run(before).content + NonBlank(after))
    decreases |after|
  {
    if after == [] {
      AppendEmpty(before);
      AppendEmpty(Run(before).content);
    } else {
      var init, last := after[..|after| - 1], after[|after| - 1];
      InitLast(after);
      assert !IsHeader(Strip(last));
      assert forall i :: 0 <= i < |init| ==> !IsHeader(Strip(init[i])) by {
        forall i | 0 <= i < |init| ensures !IsHeader(Strip(init[i])) {
          assert init[i] == after[i];
        }
      }
      RunWithoutHeaders(before, init);
      AppendPlainLine(before, init, last);
    }
  }

  lemma AppendPlainLine(before: seq<string>, init: seq<string>, last: string)
    requires !IsHeader(Strip(last))
    requires Run(before + init) == Run(before).(content := Run(before).content + NonBlank(init))
    ensures Run(before + (init + [last])) ==
      Run(before).(content := Run(before).content + NonBlank(init + [last]))
  {
    var st := Run(before);
    var prev := Run(before + init);
    Associative(before, init, [last]);
    RunSnoc(before + init, last);
    StepNoHeader(prev, last);
    NonBlankSnoc(init, last);
    Associative(st.content, NonBlank(init), Kept(last));
  }

  /** Text with no header at all is filed entirely under "intro", or yields no
      section when it has no non-blank line. */
  lemma NoHeaderGivesIntro(text: string)
    requires forall i :: 0 <= i < |Split(text, '\n')| ==> !IsHeader(Strip(Split(text, '\n')[i]))
    ensures var body := NonBlank(Split(text, '\n'));
      Sections(text) == if body == [] then map[] else map[IntroKey := Join(body, "\n")]
  {
    var lines := Split(text, '\n');
    var body := NonBlank(lines);
    RunHeaderless(lines);
    if body != [] {
      RenderUpdate(map[], IntroKey, body);
    }
  }

  /** Lines with no header leave the parser in the opening section. */
  lemma RunHeaderless(lines: seq<string>)
    requires forall i :: 0 <= i < |lines| ==> !IsHeader(Strip(lines[i]))
    ensures Run(lines) == ParseState(map[], IntroKey, NonBlank(lines))
  {
    RunWithoutHeaders([], lines);
    PrependEmpty(lines);
    PrependEmpty(NonBlank(lines));
  }

  /** Lines before the first header are filed under "intro": a preamble followed
      by sections keeps its non-blank lines under "intro", unless a later header
      opens a section of that name again. */
  lemma PreambleIsIntro(before: seq<string>, rest: seq<string>)
    requires forall i :: 0 <= i < |before| ==> '\n' !in before[i] && !IsHeader(Strip(before[i]))
    requires NonBlank(before) != []
    requires rest == [] || IsHeader(Strip(rest[0]))
    requires forall i :: 0 <= i < |rest| ==> '\n' !in rest[i]
    requires forall i :: 0 <= i < |rest| && IsHeader(Strip(rest[i])) ==> SectionKey(Strip(rest[i])) != IntroKey
    ensures var sections := Sections(Join(before + rest, "\n"));
      IntroKey in sections && sections[IntroKey] == Join(NonBlank(before), "\n")
  {
    var lines := before + rest;
    assert forall i :: 0 <= i < |lines| ==> '\n' !in lines[i] by {
      forall i | 0 <= i < |lines| ensures '\n' !in lines[i] {
        if i >= |before| { assert lines[i] == rest[i - |before|]; }
      }
    }
    SplitJoin(lines, '\n');
    RunWithoutHeaders([], before);
    PrependEmpty(before);
    PrependEmpty(NonBlank(before));
    ClosedSectionStays(before, rest, IntroKey);
  }

  /** The last header with a given key decides that key's content: whatever an
      earlier section of the same name held is overwritten by the non-blank lines
      of the last such section, when it has any, and the sections with other keys
      that follow do not touch it. */
  lemma LastSectionWins(before: seq<string>, header: string, body: seq<string>, rest: seq<string>)
    requires IsHeader(Strip(header))
    requires forall i :: 0 <= i < |body| ==> !IsHeader(Strip(body[i]))
    requires NonBlank(body) != []
    requires rest == [] || IsHeader(Strip(rest[0]))
    requires forall i :: 0 <= i < |rest| && IsHeader(Strip(rest[i])) ==> SectionKey(Strip(rest[i])) != SectionKey(Strip(header))
    ensures var m := Flush(Run(before + [header] + body + rest));
      SectionKey(Strip(header)) in m && m[SectionKey(Strip(header))] == NonBlank(body)
  {
    RunSnoc(before, header);
    StepHeader(Run(before), header);
    RunWithoutHeaders(before + [header], body);
    PrependEmpty(NonBlank(body));
    ClosedSectionStays(before + [header] + body, rest, SectionKey(Strip(header)));
  }

  /** A section with content, closed by a header with another key, keeps its
      content to the end when no later header reopens its key. */
  lemma ClosedSectionStays(p: seq<string>, rest: seq<string>, k: string)
    requires Run(p).current == k && Run(p).content != []
    requires rest == [] || IsHeader(Strip(rest[0]))
    requires forall i :: 0 <= i < |rest| && IsHeader(Strip(rest[i])) ==> SectionKey(Strip(rest[i])) != k
    ensures k in Flush(Run(p + rest)) && Flush(Run(p + rest))[k] == Run(p).content
  {
    if rest == [] {
      AppendEmpty(p);
    } else {
      var h, more := rest[0], rest[1..];
      assert SectionKey(Strip(rest[0])) != k;
      HeaderFilesSection(p, h, k);
      KeysAvoidTail(rest, k);
      OtherSectionStays(p + [h], more, k);
      SplitFirst(p, rest);
      FlushKeepsOthers(Run(p + [h] + more), k);
    }
  }

  /** A header with another key files the current section's content. */
  lemma HeaderFilesSection(p: seq<string>, h: string, k: string)
    requires Run(p).current == k && Run(p).content != []
    requires IsHeader(Strip(h)) && SectionKey(Strip(h)) != k
    ensures var st := Run(p + [h]);
      k in st.sections && st.sections[k] == Run(p).content && st.current != k
  {
    RunSnoc(p, h);
    HeaderClosesSection(Run(p), h);
  }

  lemma KeysAvoidTail(rest: seq<string>, k: string)
    requires rest != []
    requires forall i :: 0 <= i < |rest| && IsHeader(Strip(rest[i])) ==> SectionKey(Strip(rest[i])) != k
    ensures forall i :: 0 <= i < |rest[1..]| && IsHeader(Strip(rest[1..][i])) ==> SectionKey(Strip(rest[1..][i])) != k
  {
    forall i | 0 <= i < |rest[1..]| ensures rest[1..][i] == rest[i + 1] { }
  }

  lemma SplitFirst(p: seq<string>, rest: seq<string>)
    requires rest != []
    ensures p + rest == p + [rest[0]] + rest[1..]
  {
    HeadTail(rest);
    Associative(p, [rest[0]], rest[1..]);
  }

  lemma FlushKeepsOthers(st: ParseState, k: string)
    requires k in st.sections && st.current != k
    ensures k in Flush(st) && Flush(st)[k] == st.sections[k]
  {
  }

  /** Lines after a section is closed never change it while no header reopens its key. */
  lemma {:induction false} OtherSectionStays(p: seq<string>, more: seq<string>, k: string)
    requires k in Run(p).sections && Run(p).current != k
    requires forall i :: 0 <= i < |more| && IsHeader(Strip(more[i])) ==> SectionKey(Strip(more[i])) != k
    ensures var st := Run(p + more);
      k in st.sections && st.sections[k] == Run(p).sections[k] && st.current != k
    decreases |more|
  {
    if more == [] {
      AppendEmpty(p);
    } else {
      var init, last := more[..|more| - 1], more[|more| - 1];
      InitLast(more);
      assert forall i :: 0 <= i < |init| && IsHeader(Strip(init[i])) ==> SectionKey(Strip(init[i])) != k by {
        forall i | 0 <= i < |init| ensures init[i] == more[i] { }
      }
      OtherSectionStays(p, init, k);
      Associative(p, init, [last]);
      RunSnoc(p + init, last);
      if IsHeader(Strip(last)) {
        HeaderClosesSection(Run(p + init), last);
      } else {
        StepNoHeader(Run(p + init), last);
      }
    }
  }

  /** A header directly followed by another header files nothing under the first
      header's key: the sections are those stored before the first header. */
  lemma EmptySectionIsDropped(before: seq<string>, h1: string, h2: string)
    requires IsHeader(Strip(h1)) && IsHeader(Strip(h2))
    ensures Run(before + [h1, h2]).sections == Flush(Run(before))
  {
    Associative(before, [h1], [h2]);
    assert [h1] + [h2] == [h1, h2];
    RunSnoc(before, h1);
    RunSnoc(before + [h1], h2);
    StepHeader(Run(before), h1);
    StepHeader(Run(before + [h1]), h2);
  }
}

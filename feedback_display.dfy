/** How the feedback view turns the model's raw feedback into display elements:
    markup is stripped from each line, and each line becomes a heading, a bullet
    (marked positive or not), a score callout, a paragraph, or nothing. */
module FeedbackDisplay {
  import opened Wrappers
  import opened Text
  import opened Personas
  import opened Seqs

  predicate IsStar(c: char) { c == '*' }
  predicate IsHash(c: char) { c == '#' }

  /** Where the closing "~~" of a strike-through that opens at the start of `s`
      lies, looking from `q` on: the text between must be at least one character
      with no line terminator in it (a regular-expression `.`). */
  function FindClose(s: string, q: nat): (r: Option<nat>)
    requires 3 <= q
    requires forall i :: 2 <= i < q - 1 && i < |s| ==> !IsJsLineTerminator(s[i])
    ensures r.Some? ==> q <= r.value && r.value + 2 <= |s| && s[r.value] == '~' && s[r.value + 1] == '~'
    ensures r.Some? ==> forall i :: 2 <= i < r.value ==> !IsJsLineTerminator(s[i])
    ensures r.Some? ==> forall j :: q <= j < r.value ==> !(s[j] == '~' && s[j + 1] == '~')
    ensures r.None? ==> forall j :: q <= j && j + 2 <= |s| && s[j] == '~' && s[j + 1] == '~' ==> !LineFree(s, j)
    decreases |s| - q
  {
    if q + 2 > |s| || IsJsLineTerminator(s[q - 1]) then None
    else if s[q] == '~' && s[q + 1] == '~' then Some(q)
    else FindClose(s, q + 1)
  }

  /** No line terminator between the opening "~~" and position `j`. */
  predicate LineFree(s: string, j: int) {
    forall i :: 2 <= i < j && i < |s| ==> !IsJsLineTerminator(s[i])
  }

  /** `replace(/~~(.+?)~~/g, '$1')`: each strike-through, found from the left, is
      replaced by its text. */
  function Unstrike(s: string): (r: string)
    ensures |r| <= |s|
    ensures forall x :: x in r ==> x in s
    decreases |s|
  {
    if s == [] then []
    else if |s| >= 2 && s[0] == '~' && s[1] == '~' && FindClose(s, 3).Some? then
      var q := FindClose(s, 3).value;
      var rest := Unstrike(s[q + 2..]);
      assert forall x :: x in s[2..q] ==> x in s;
      assert forall x :: x in rest ==> x in s;
      s[2..q] + rest
    else
      var rest := Unstrike(s[1..]);
      assert forall x :: x in rest ==> x in s;
      [s[0]] + rest
  }

  /** `cleanMarkdown`: every '*' and '_' removed, strike-throughs unwrapped, and
      the result trimmed. */
  function CleanMarkdown(text: string): (r: string)
    ensures '*' !in r && '_' !in r
    ensures r == [] || (!IsJsWhitespace(r[0]) && !IsJsWhitespace(r[|r| - 1]))
  {
    Trim(Unstrike(RemoveChar(RemoveChar(text, '*'), '_')))
  }

  /** Text without markup, strike-through or surrounding whitespace is left as it is. */
  lemma CleanMarkdownKeepsPlainText(text: string)
    requires '*' !in text && '_' !in text && '~' !in text
    requires text == [] || (!IsJsWhitespace(text[0]) && !IsJsWhitespace(text[|text| - 1]))
    ensures CleanMarkdown(text) == text
  {
    UnstrikePlain(text);
  }

  lemma {:induction false} UnstrikePlain(s: string)
    requires '~' !in s
    ensures Unstrike(s) == s
    decreases |s|
  {
    if s != [] {
      assert s[1..] == s[1..];
      assert '~' !in s[1..] by {
        forall x | x in s[1..] ensures x != '~' { assert x in s; }
      }
      UnstrikePlain(s[1..]);
      HeadTail(s);
    }
  }

  /** A strike-through is unwrapped, non-greedily: the first "~~" after the text closes it. */
  lemma UnstrikeExample()
    ensures Unstrike("~~a~~b~~") == "ab~~"
  {
    var s := "~~a~~b~~";
    assert FindClose(s, 3) == Some(3);
    assert s[5..] == "b~~";
    UnstrikeTail();
  }

  /** A strike-through around text with no line break, and no '~' after its first
      character, is replaced by that text, and the rest is cleaned on its own. */
  lemma UnstrikeFirst(x: string, y: string)
    requires x != []
    requires forall i :: 0 <= i < |x| ==> !IsJsLineTerminator(x[i])
    requires forall i :: 1 <= i < |x| ==> x[i] != '~'
    ensures Unstrike("~~" + x + "~~" + y) == x + Unstrike(y)
  {
    var s := "~~" + x + "~~" + y;
    var c := |x| + 2;
    assert forall i :: 2 <= i < c ==> s[i] == x[i - 2];
    FindCloseAt(s, 3, c);
    assert s[2..c] == x;
    assert s[c + 2..] == y;
  }

  lemma {:induction false} FindCloseAt(s: string, q: nat, c: nat)
    requires 3 <= q <= c && c + 2 <= |s|
    requires forall i :: 2 <= i < c ==> !IsJsLineTerminator(s[i])
    requires forall j :: q <= j < c ==> s[j] != '~'
    requires s[c] == '~' && s[c + 1] == '~'
    ensures FindClose(s, q) == Some(c)
    decreases c - q
  {
    if q < c {
      FindCloseAt(s, q + 1, c);
    }
  }

  lemma UnstrikeTail()
    ensures Unstrike("b~~") == "b~~"
  {
    assert "b~~"[1..] == "~~";
    assert Unstrike("~~") == "~~" by {
      assert "~~"[1..] == "~" && "~"[1..] == [];
    }
  }

  /** One display element. */
  datatype Element =
    | Heading(text: string)
    | Bullet(text: string, positive: bool)
    | ScoreCallout(text: string)
    | Paragraph(text: string)

  /** `/^\*\*.*\*\*$/`: the whole line is wrapped in "**", with no line terminator between. */
  predicate IsBoldLine(line: string) {
    |line| >= 4 && line[0] == '*' && line[1] == '*' && line[|line| - 2] == '*' && line[|line| - 1] == '*' &&
    forall i :: 2 <= i < |line| - 2 ==> !IsJsLineTerminator(line[i])
  }

  /** The length test counts UTF-16 code units, as JavaScript's `length` does. */
  predicate IsHeadingLine(line: string) {
    StartsWith(line, "#") || (IsBoldLine(line) && Utf16Length(line) < 100)
  }

  /** The `^#+\s*` removal: a leading run of '#'s goes, with the whitespace after
      it; a line that does not start with '#' is left as it is. */
  function DropHashes(line: string): (r: string)
    ensures |r| <= |line| && r == line[|line| - |r|..]
    ensures (line == [] || line[0] != '#') ==> r == line
    ensures line != [] && line[0] == '#' ==>
      |r| < |line| && (r == [] || !IsJsWhitespace(r[0])) &&
      forall i :: 0 <= i < |line| - |r| ==> line[i] == '#' || IsJsWhitespace(line[i])
  {
    if line != [] && line[0] == '#' then DropLeft(DropLeft(line, IsHash), IsJsWhitespace) else line
  }

  /** `/^\d+\./` on the start of `s`: the length of the digits, if a '.' follows them. */
  function NumberMarker(s: string): Option<nat> {
    var rest := DropLeft(s, IsAsciiDigit);
    if |rest| < |s| && rest != [] && rest[0] == '.' then Some(|s| - |rest|) else None
  }

  predicate IsBulletLine(line: string) {
    var t := Trim(line);
    StartsWith(t, "-") || StartsWith(t, "•") || NumberMarker(t).Some?
  }

  /** The bullet's text before cleaning: a '-' or '•' marker and the whitespace
      after it removed, then a number marker and the whitespace after it, each
      only at the very start of the line as it stands. */
  function BulletBody(line: string): (r: string)
    ensures |r| <= |line| && r == line[|line| - |r|..]
    ensures (line == [] || (line[0] != '-' && line[0] != '•' && !IsAsciiDigit(line[0]))) ==> r == line
  {
    var a := AfterMarker(line);
    var b := AfterNumber(a);
    SuffixOfSuffix(line, a, b);
    b
  }

  /** A leading number marker and the whitespace after it removed. */
  function AfterNumber(a: string): (b: string)
    ensures |b| <= |a| && b == a[|a| - |b|..]
    ensures (a == [] || !IsAsciiDigit(a[0])) ==> b == a
  {
    NoNumberMarker(a);
    match NumberMarker(a)
    case Some(n) =>
      var b := DropLeft(a[n + 1..], IsJsWhitespace);
      SuffixOfSuffix(a, a[n + 1..], b);
      b
    case None => a
  }

  /** A leading '-' or '•' and the whitespace after it removed. */
  function AfterMarker(line: string): (a: string)
    ensures |a| <= |line| && a == line[|line| - |a|..]
    ensures (line == [] || (line[0] != '-' && line[0] != '•')) ==> a == line
  {
    if line != [] && (line[0] == '-' || line[0] == '•') then
      var d := DropLeft(line[1..], IsJsWhitespace);
      SuffixOfSuffix(line, line[1..], d);
      d
    else line
  }

  lemma SuffixOfSuffix(a: string, b: string, c: string)
    requires |b| <= |a| && b == a[|a| - |b|..]
    requires |c| <= |b| && c == b[|b| - |c|..]
    ensures c == a[|a| - |c|..]
  {
    assert forall i :: 0 <= i < |c| ==> c[i] == b[|b| - |c| + i] == a[|a| - |c| + i];
  }

  /** No number marker on text that does not start with a digit. */
  lemma NoNumberMarker(s: string)
    ensures (s == [] || !IsAsciiDigit(s[0])) ==> NumberMarker(s) == None
  {
    if s == [] || !IsAsciiDigit(s[0]) {
      assert DropLeft(s, IsAsciiDigit) == s;
    }
  }

  const PositiveWords: seq<string> := ["good", "strong", "excellent", "effective"]

  /** Whether a bullet's text speaks well of the pitch. */
  predicate IsPositive(content: string) {
    var low := Lower(content);
    Contains(low, "good") || Contains(low, "strong") || Contains(low, "excellent") || Contains(low, "effective")
  }

  /** `/\d+\/10/`: a digit immediately followed by "/10". */
  predicate OutOfTenAt(line: string, i: int) {
    0 <= i && i + 4 <= |line| && IsAsciiDigit(line[i]) && line[i + 1] == '/' && line[i + 2] == '1' && line[i + 3] == '0'
  }

  predicate IsScoreLine(line: string) {
    var low := Lower(line);
    Contains(low, "score") || Contains(low, "rating") || exists i | 0 <= i < |line| :: OutOfTenAt(line, i)
  }

  /** Which test of the classifier a line passes first. */
  datatype Kind = HeadingLine | BulletLine | ScoreLine | TextLine | BlankLine

  /** The tests, in the source's order. */
  function KindOf(line: string): (k: Kind)
    ensures k == HeadingLine <==> IsHeadingLine(line)
    ensures k == BlankLine <==> Trim(line) == []
  {
    BlankPassesNoTest(line);
    if IsHeadingLine(line) then HeadingLine
    else if IsBulletLine(line) then BulletLine
    else if IsScoreLine(line) then ScoreLine
    else if Trim(line) != [] then TextLine
    else BlankLine
  }

  /** Element text as the view shows it: no '*', no '_', no surrounding whitespace. */
  predicate IsCleanText(t: string) {
    '*' !in t && '_' !in t && (t == [] || (!IsJsWhitespace(t[0]) && !IsJsWhitespace(t[|t| - 1])))
  }

  /** The element one line of the raw feedback becomes. */
  function Classify(line: string): (r: Option<Element>)
    ensures r.None? <==> Trim(line) == []
    ensures r.Some? ==> IsCleanText(r.value.text)
    ensures r.Some? ==> (r.value.Heading? <==> IsHeadingLine(line))
    ensures r.Some? && r.value.Bullet? ==> r.value.positive == IsPositive(r.value.text)
  {
    var kind := KindOf(line);
    if kind == BlankLine then None else Some(ElementOf(kind, line))
  }

  /** The element a non-blank line of the given kind becomes. */
  function ElementOf(kind: Kind, line: string): (e: Element)
    requires kind != BlankLine
    ensures IsCleanText(e.text)
    ensures e.Heading? <==> kind == HeadingLine
    ensures e.Bullet? ==> e.positive == IsPositive(e.text)
  {
    match kind
    case HeadingLine => Heading(CleanMarkdown(DropHashes(line)))
    case BulletLine =>
      var content := CleanMarkdown(BulletBody(line));
      Bullet(content, IsPositive(content))
    case ScoreLine => ScoreCallout(CleanMarkdown(line))
    case TextLine => Paragraph(CleanMarkdown(line))
  }

  /** A blank line passes none of the classifier's tests. */
  lemma BlankPassesNoTest(line: string)
    ensures Trim(line) == [] ==> !IsHeadingLine(line) && !IsBulletLine(line) && !IsScoreLine(line)
  {
    if Trim(line) == [] {
      TrimByEmpty(line, IsJsWhitespace);
      assert !IsHeadingLine(line) by {
        assert line == [] || line[0] != '#';
      }
      assert !IsScoreLine(line) by {
        BlankHasNoWord(line, "score");
        BlankHasNoWord(line, "rating");
        assert forall i :: 0 <= i < |line| ==> !IsAsciiDigit(line[i]);
      }
    }
  }

  /** A blank line contains no word. */
  lemma BlankHasNoWord(line: string, word: string)
    requires forall i :: 0 <= i < |line| ==> IsJsWhitespace(line[i])
    requires word != [] && !IsJsWhitespace(word[0])
    ensures !Contains(Lower(line), word)
  {
    var low := Lower(line);
    forall i | 0 <= i <= |line| - |word| ensures !OccursAt(low, word, i) {
      NoMatchAtBlank(low, word, i);
    }
  }

  lemma NoMatchAtBlank(s: string, word: string, i: int)
    requires 0 <= i < |s| && IsJsWhitespace(s[i])
    requires word != [] && !IsJsWhitespace(word[0])
    ensures !OccursAt(s, word, i)
  {
  }

  /** A heading wins over every other kind: a '#' line is a heading even when it
      reads like a bullet or a score. */
  lemma HeadingFirst(rest: string)
    ensures Classify("#" + rest).Some? && Classify("#" + rest).value.Heading?
  {
    assert ("#" + rest)[..1] == "#";
  }

  /** An indented bullet is still a bullet, but its marker is removed only at
      the very start of the line: the bullet's text is the whole line cleaned,
      marker included. */
  lemma IndentedBulletKeepsMarker(line: string)
    requires line != [] && IsJsWhitespace(line[0])
    requires IsBulletLine(line)
    ensures Classify(line) == Some(Bullet(CleanMarkdown(line), IsPositive(CleanMarkdown(line))))
  {
    IndentedIsBullet(line);
    IndentedBulletElement(line);
  }

  lemma IndentedBulletElement(line: string)
    requires line != [] && IsJsWhitespace(line[0])
    ensures ElementOf(BulletLine, line) == Bullet(CleanMarkdown(line), IsPositive(CleanMarkdown(line)))
  {
    assert line[0] != '-' && line[0] != '•' && !IsAsciiDigit(line[0]);
    assert BulletBody(line) == line;
  }

  lemma IndentedIsBullet(line: string)
    requires line != [] && IsJsWhitespace(line[0])
    requires IsBulletLine(line)
    ensures KindOf(line) == BulletLine
  {
    assert !StartsWith(line, "#");
  }

  /** Whether a bullet is positive does not depend on the case of its text:
      "GOOD" and "Good" count as "good". */
  lemma PositiveIgnoresCase(content: string)
    ensures IsPositive(Lower(content)) == IsPositive(content)
  {
    LowerIdempotent(content);
  }

  /** The raw feedback, line by line: one element or nothing per line. */
  function Elements(rawFeedback: string): (r: seq<Option<Element>>)
    ensures |r| == |Split(rawFeedback, '\n')|
    ensures forall i :: 0 <= i < |r| ==> (r[i].None? <==> Trim(Split(rawFeedback, '\n')[i]) == [])
  {
    var lines := Split(rawFeedback, '\n');
    seq(|lines|, i requires 0 <= i < |lines| => Classify(lines[i]))
  }

  const InvestorLabel := "Venture Investor"
  const AdvisorLabel := "Pitch Advisor"
  const HealthcareLabel := "Healthcare Expert"
  const EdTechLabel := "EdTech Specialist"
  const TechLabel := "Tech Startup Expert"

  /** `getPersonaLabel`: the persona's title shown above the feedback. */
  function PersonaLabel(p: Persona): (title: string)
    ensures title != []
  {
    match p
    case Investor => InvestorLabel
    case Advisor => AdvisorLabel
    case Healthcare => HealthcareLabel
    case EdTech => EdTechLabel
    case Tech => TechLabel
  }

  /** No two personas share a label. */
  lemma PersonaLabelInjective(p: Persona, q: Persona)
    ensures PersonaLabel(p) == PersonaLabel(q) <==> p == q
  {
    if p != q {
      assert PersonaLabel(p)[0] != PersonaLabel(q)[0];
    }
  }
}

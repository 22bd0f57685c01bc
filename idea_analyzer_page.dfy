/** The idea analyzer page: the request it builds from the form, the colour
    bands of a score, and the state changes of analysing and resetting. The
    server's answer is an input. */
module IdeaAnalyzerPage {
  import opened Wrappers
  import opened Text
  import opened IdeaAnalyzer
  import opened ApiErrors
  import opened Seqs

  /** Non-empty, with no whitespace at either end. */
  predicate IsCleanKeyword(k: string) {
    k != [] && !IsJsWhitespace(k[0]) && !IsJsWhitespace(k[|k| - 1])
  }

  /** The trimmed, non-empty pieces, in order. */
  function Keywords(pieces: seq<string>): (r: seq<string>)
    ensures |r| <= |pieces|
    ensures forall i :: 0 <= i < |r| ==> IsCleanKeyword(r[i])
  {
    if pieces == [] then []
    else if Trim(pieces[0]) == [] then Keywords(pieces[1..])
    else
      var t, rest := Trim(pieces[0]), Keywords(pieces[1..]);
      TrimmedIsClean(pieces[0]);
      ConsClean(t, rest);
      [t] + rest
  }

  lemma TrimmedIsClean(s: string)
    requires Trim(s) != []
    ensures IsCleanKeyword(Trim(s))
  {
  }

  lemma ConsClean(t: string, rest: seq<string>)
    requires IsCleanKeyword(t) && forall i :: 0 <= i < |rest| ==> IsCleanKeyword(rest[i])
    ensures forall i :: 0 <= i < |[t] + rest| ==> IsCleanKeyword(([t] + rest)[i])
  {
  }

  /** A character found in no piece is found in no keyword. */
  lemma {:induction false} KeywordsAvoid(pieces: seq<string>, c: char)
    requires forall j :: 0 <= j < |pieces| ==> c !in pieces[j]
    ensures forall i :: 0 <= i < |Keywords(pieces)| ==> c !in Keywords(pieces)[i]
  {
    if pieces != [] {
      assert forall j :: 0 <= j < |pieces[1..]| ==> c !in pieces[1..][j] by {
        forall j | 0 <= j < |pieces[1..]| ensures c !in pieces[1..][j] {
          assert pieces[1..][j] == pieces[j + 1];
        }
      }
      KeywordsAvoid(pieces[1..], c);
      assert c !in Trim(pieces[0]);
    }
  }

  /** The keyword list sent with the request: the field split at ',', each
      piece trimmed and the empty ones dropped. */
  function KeywordList(input: string): seq<string> {
    Keywords(Split(input, ','))
  }

  /** No keyword is empty, holds a comma, or starts or ends with whitespace. */
  lemma KeywordListClean(input: string)
    ensures var r := KeywordList(input);
      forall i :: 0 <= i < |r| ==> IsCleanKeyword(r[i]) && ',' !in r[i]
  {
    KeywordsAvoid(Split(input, ','), ',');
  }

  /** Keywords that are already trimmed and non-empty pass through unchanged. */
  lemma {:induction false} KeywordsKeepClean(ks: seq<string>)
    requires forall i :: 0 <= i < |ks| ==> IsCleanKeyword(ks[i])
    ensures Keywords(ks) == ks
  {
    if ks != [] {
      var tail := ks[1..];
      assert forall i :: 0 <= i < |tail| ==> IsCleanKeyword(tail[i]) by {
        forall i | 0 <= i < |tail| ensures tail[i] == ks[i + 1] { }
      }
      KeywordsKeepClean(tail);
      assert Trim(ks[0]) == ks[0];
      HeadTail(ks);
    }
  }

  /** Typing a list of keywords separated by commas gives back that list. */
  lemma KeywordListRoundTrip(ks: seq<string>)
    requires ks != []
    requires forall i :: 0 <= i < |ks| ==> IsCleanKeyword(ks[i]) && ',' !in ks[i]
    ensures KeywordList(Join(ks, ",")) == ks
  {
    SplitJoin(ks, ',');
    KeywordsKeepClean(ks);
  }

  /** A field with no comma gives its trimmed text, or nothing when it is blank. */
  lemma SingleKeyword(input: string)
    requires ',' !in input
    ensures KeywordList(input) == if Trim(input) == [] then [] else [Trim(input)]
  {
    SplitNoSep(input, ',');
    assert Split(input, ',')[1..] == [];
  }

  /** The body of the request. */
  datatype AnalyzeRequest = AnalyzeRequest(ideaDescription: string, keywords: seq<string>, industry: Option<string>)

  /** `industry || undefined`: an empty industry is left out of the request. */
  function IndustryField(industry: string): (r: Option<string>)
    ensures r.None? <==> industry == []
    ensures r.Some? ==> r.value == industry
  {
    if industry == [] then None else Some(industry)
  }

  /** The request built from the form's three fields. */
  function BuildRequest(ideaDescription: string, keywords: string, industry: string): (r: AnalyzeRequest)
    ensures r.ideaDescription == ideaDescription
    ensures forall i :: 0 <= i < |r.keywords| ==> IsCleanKeyword(r.keywords[i]) && ',' !in r.keywords[i]
    ensures r.industry.None? <==> industry == []
  {
    KeywordListClean(keywords);
    AnalyzeRequest(ideaDescription, KeywordList(keywords), IndustryField(industry))
  }

  /** How many of the thresholds 4, 6 and 8 a score reaches: 0 is red, 1 amber,
      2 blue and 3 emerald. */
  function Rank(score: real): (r: nat)
    ensures r <= 3
  {
    (if score >= 4.0 then 1 else 0) + (if score >= 6.0 then 1 else 0) + (if score >= 8.0 then 1 else 0)
  }

  /** A higher score is never in a lower band. */
  lemma RankMonotone(s: real, t: real)
    requires s <= t
    ensures Rank(s) <= Rank(t)
  {
  }

  const TextColors: seq<string> := ["text-red-400", "text-amber-400", "text-blue-400", "text-emerald-400"]
  const BarColors: seq<string> := ["bg-red-500", "bg-amber-500", "bg-blue-500", "bg-emerald-500"]

  /** `getScoreColor`. */
  function ScoreColor(score: real): (c: string)
    ensures c == TextColors[Rank(score)]
  {
    if score >= 8.0 then "text-emerald-400"
    else if score >= 6.0 then "text-blue-400"
    else if score >= 4.0 then "text-amber-400"
    else "text-red-400"
  }

  /** `getScoreBarColor`. */
  function ScoreBarColor(score: real): (c: string)
    ensures c == BarColors[Rank(score)]
  {
    if score >= 8.0 then "bg-emerald-500"
    else if score >= 6.0 then "bg-blue-500"
    else if score >= 4.0 then "bg-amber-500"
    else "bg-red-500"
  }

  /** The text colour and the bar colour always name the same band: scores with
      the same text colour have the same bar colour, and the other way round. */
  lemma ColorsAgree(s: real, t: real)
    ensures ScoreColor(s) == ScoreColor(t) <==> ScoreBarColor(s) == ScoreBarColor(t)
    ensures ScoreColor(s) == ScoreColor(t) <==> Rank(s) == Rank(t)
  {
    if Rank(s) != Rank(t) {
      PaletteDistinct(Rank(s), Rank(t));
    }
  }

  lemma PaletteDistinct(i: nat, j: nat)
    requires i < 4 && j < 4 && i != j
    ensures TextColors[i] != TextColors[j] && BarColors[i] != BarColors[j]
  {
    assert TextColors[i][5] != TextColors[j][5];
    assert BarColors[i][3] != BarColors[j][3];
  }

  /** `!description.trim()`: nothing but whitespace. */
  predicate IsBlank(s: string) {
    s == [] || (IsJsWhitespace(s[0]) && IsBlank(s[1..]))
  }

  lemma BlankIffTrimEmpty(s: string)
    ensures IsBlank(s) <==> Trim(s) == []
  {
    BlankIffAllWhitespace(s);
    TrimByEmpty(s, IsJsWhitespace);
  }

  lemma {:induction false} BlankIffAllWhitespace(s: string)
    ensures IsBlank(s) <==> forall i :: 0 <= i < |s| ==> IsJsWhitespace(s[i])
  {
    if s != [] {
      BlankIffAllWhitespace(s[1..]);
      assert forall i :: 1 <= i < |s| ==> s[i] == s[1..][i - 1];
    }
  }

  const EmptyIdeaMessage := "Please enter your startup idea description"
  const AnalyzeFailedMessage := "Failed to analyze idea. Please try again."

  class Page {
    var ideaDescription: string
    var keywords: string
    var industry: string
    var isAnalyzing: bool
    var result: Option<IdeaReport>
    var error: Option<string>

    constructor ()
      ensures ideaDescription == [] && keywords == [] && industry == []
      ensures !isAnalyzing && result.None? && error.None?
    {
      ideaDescription, keywords, industry := [], [], [];
      isAnalyzing, result, error := false, None, None;
    }

    /** `handleAnalyze` with the server answering `response`: the request it
        posts, if any. A blank description only sets the validation error;
        otherwise the request is posted, and the result or the error is shown
        once the analysis has ended. */
    method HandleAnalyze(response: Response<IdeaReport>) returns (posted: Option<AnalyzeRequest>)
      modifies this
      ensures ideaDescription == old(ideaDescription) && keywords == old(keywords) && industry == old(industry)
      ensures IsBlank(old(ideaDescription)) ==>
        posted.None? && error == Some(EmptyIdeaMessage) && isAnalyzing == old(isAnalyzing) && result == old(result)
      ensures !IsBlank(old(ideaDescription)) ==>
        posted == Some(BuildRequest(old(ideaDescription), old(keywords), old(industry))) && !isAnalyzing
      ensures !IsBlank(old(ideaDescription)) && response.Succeeded? ==>
        result == Some(response.data) && error.None?
      ensures !IsBlank(old(ideaDescription)) && response.Failed? ==>
        result == old(result) && error == Some(FailureMessage(response.detail, AnalyzeFailedMessage))
    {
      if IsBlank(ideaDescription) {
        error := Some(EmptyIdeaMessage);
        return None;
      }
      isAnalyzing := true;
      error := None;
      posted := Some(BuildRequest(ideaDescription, keywords, industry));
      match response {
        case Succeeded(data) =>
          result := Some(data);
        case Failed(detail) =>
          error := Some(FailureMessage(detail, AnalyzeFailedMessage));
      }
      isAnalyzing := false;
    }

    /** `handleReset`: the result, the three fields and the error are cleared. */
    method HandleReset()
      modifies this
      ensures result.None? && ideaDescription == [] && keywords == [] && industry == [] && error.None?
      ensures isAnalyzing == old(isAnalyzing)
    {
      result := None;
      ideaDescription := [];
      keywords := [];
      industry := [];
      error := None;
    }
  }
}

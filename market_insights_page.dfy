/** The market insights page: its eight-field form, when the form may be
    submitted, the segment chart's data and colours, and the state changes of
    typing, submitting and starting over. The server's answer is an input. */
module MarketInsightsPage {
  import opened Wrappers
  import opened Text
  import opened ApiErrors
  import opened MarketInsightsAnalyzer

  /** The names of the form's inputs. */
  datatype Field =
    | StartupIdea | IdealCustomer | ProblemSolving | Industry
    | KnownCompetitors | UniqueValue | BusinessModel | GeographicRegions

  datatype FormData = FormData(
    startupIdea: string, idealCustomer: string, problemSolving: string, industry: string,
    knownCompetitors: string, uniqueValue: string, businessModel: string, geographicRegions: string)

  /** All eight fields empty, as the page starts and after "Analyze Another Market". */
  const EmptyForm := FormData("", "", "", "", "", "", "", "")

  /** The value of one field. */
  function Get(form: FormData, f: Field): string {
    match f
    case StartupIdea => form.startupIdea
    case IdealCustomer => form.idealCustomer
    case ProblemSolving => form.problemSolving
    case Industry => form.industry
    case KnownCompetitors => form.knownCompetitors
    case UniqueValue => form.uniqueValue
    case BusinessModel => form.businessModel
    case GeographicRegions => form.geographicRegions
  }

  /** `{...formData, [name]: value}`. */
  function Set(form: FormData, f: Field, value: string): (r: FormData)
    ensures Get(r, f) == value
    ensures forall g :: g != f ==> Get(r, g) == Get(form, g)
  {
    match f
    case StartupIdea => form.(startupIdea := value)
    case IdealCustomer => form.(idealCustomer := value)
    case ProblemSolving => form.(problemSolving := value)
    case Industry => form.(industry := value)
    case KnownCompetitors => form.(knownCompetitors := value)
    case UniqueValue => form.(uniqueValue := value)
    case BusinessModel => form.(businessModel := value)
    case GeographicRegions => form.(geographicRegions := value)
  }

  /** A form is determined by its fields. */
  lemma FieldsDetermineForm(a: FormData, b: FormData)
    requires forall f :: Get(a, f) == Get(b, f)
    ensures a == b
  {
    assert Get(a, StartupIdea) == Get(b, StartupIdea) && Get(a, IdealCustomer) == Get(b, IdealCustomer);
    assert Get(a, ProblemSolving) == Get(b, ProblemSolving) && Get(a, Industry) == Get(b, Industry);
    assert Get(a, KnownCompetitors) == Get(b, KnownCompetitors) && Get(a, UniqueValue) == Get(b, UniqueValue);
    assert Get(a, BusinessModel) == Get(b, BusinessModel) && Get(a, GeographicRegions) == Get(b, GeographicRegions);
  }

  /** Setting a field to the value it has changes nothing; setting it twice keeps the last value. */
  lemma SetLaws(form: FormData, f: Field, v: string, w: string)
    ensures Set(form, f, Get(form, f)) == form
    ensures Set(Set(form, f, v), f, w) == Set(form, f, w)
  {
    FieldsDetermineForm(Set(form, f, Get(form, f)), form);
    FieldsDetermineForm(Set(Set(form, f, v), f, w), Set(form, f, w));
  }

  /** The four fields the form cannot be submitted without. */
  const RequiredFields := {StartupIdea, IdealCustomer, ProblemSolving, Industry}

  /** `isFormValid`: the four required fields are non-empty strings; whitespace
      counts as content. Valid exactly when no required field is empty. */
  function IsFormValid(form: FormData): (valid: bool)
    ensures valid <==> forall f :: f in RequiredFields ==> Get(form, f) != []
  {
    RequiredNonEmpty(form);
    form.startupIdea != [] && form.idealCustomer != [] && form.problemSolving != [] && form.industry != []
  }

  lemma RequiredNonEmpty(form: FormData)
    ensures (form.startupIdea != [] && form.idealCustomer != [] && form.problemSolving != [] && form.industry != [])
      <==> forall f :: f in RequiredFields ==> Get(form, f) != []
  {
    if form.startupIdea == [] { assert Get(form, StartupIdea) == []; }
    else if form.idealCustomer == [] { assert Get(form, IdealCustomer) == []; }
    else if form.problemSolving == [] { assert Get(form, ProblemSolving) == []; }
    else if form.industry == [] { assert Get(form, Industry) == []; }
  }

  /** Typing in an optional field never changes whether the form can be submitted. */
  lemma OptionalFieldsIgnored(form: FormData, f: Field, value: string)
    requires f !in RequiredFields
    ensures IsFormValid(Set(form, f, value)) == IsFormValid(form)
  {
  }

  /** A blank-looking required field still counts. */
  lemma WhitespaceCounts(form: FormData)
    requires form.startupIdea == " " && form.idealCustomer == " " && form.problemSolving == " " && form.industry == " "
    ensures IsFormValid(form)
  {
  }

  /** The submit button is disabled while the form is invalid or an analysis runs. */
  predicate SubmitDisabled(form: FormData, isAnalyzing: bool) {
    !IsFormValid(form) || isAnalyzing
  }

  /** The form can be submitted exactly when no analysis runs and every required
      field has some text. */
  lemma SubmitEnabledIff(form: FormData, isAnalyzing: bool)
    ensures !SubmitDisabled(form, isAnalyzing) <==>
      !isAnalyzing && forall f :: f in RequiredFields ==> Get(form, f) != []
  {
  }

  /** The weight a segment gets in the pie chart, from the words in its size. */
  function SegmentValue(size: string): (value: int)
    ensures 1 <= value <= 3
    ensures value == 3 <==> Contains(Lower(size), "large")
    ensures value == 2 <==> !Contains(Lower(size), "large") && Contains(Lower(size), "medium")
  {
    var low := Lower(size);
    if Contains(low, "large") then 3
    else if Contains(low, "medium") then 2
    else if Contains(low, "small") then 1
    else 1
  }

  /** Case does not matter. */
  lemma CapitalizedLarge()
    ensures SegmentValue("Large") == 3
  {
    assert Lower("Large") == "large" by {
      assert Lower("Large")[0] == 'l';
    }
    assert OccursAt("large", "large", 0);
  }

  /** A size naming none of the words gets the least weight. */
  lemma UnknownSizeIsOne()
    ensures SegmentValue("tiny") == 1
  {
    assert Lower("tiny") == "tiny";
    assert !Contains("tiny", "large") && !Contains("tiny", "medium");
  }

  /** One slice of the segment chart. */
  datatype ChartEntry = ChartEntry(name: string, value: int, size: string)

  /** `getSegmentChartData`: one slice per segment, in order, or none without results. */
  function SegmentChartData(results: Option<MarketReport>): (r: seq<ChartEntry>)
    ensures results.None? ==> r == []
    ensures results.Some? ==> |r| == |results.value.segments|
    ensures results.Some? ==> forall i :: 0 <= i < |r| ==>
      r[i].name == results.value.segments[i].name && r[i].size == results.value.segments[i].size &&
      1 <= r[i].value <= 3
  {
    match results
    case None => []
    case Some(report) =>
      var segments := report.segments;
      seq(|segments|, i requires 0 <= i < |segments| =>
        ChartEntry(segments[i].name, SegmentValue(segments[i].size), segments[i].size))
  }

  /** The chart's palette. */
  const Colors: seq<string> := ["#06b6d4", "#14b8a6", "#10b981", "#84cc16", "#eab308"]

  /** `COLORS[index % COLORS.length]`: the colour of the slice and legend entry at `index`. */
  function ColorAt(index: nat): (c: string)
    ensures c in Colors
  {
    Colors[index % |Colors|]
  }

  /** The colours repeat every five slices, and neighbouring slices differ. */
  lemma ColorCycle(index: nat)
    ensures ColorAt(index + 5) == ColorAt(index)
    ensures ColorAt(index + 1) != ColorAt(index)
  {
    var k := index % 5;
    assert (index + 5) % 5 == k;
    assert (index + 1) % 5 == if k == 4 then 0 else k + 1;
  }

  /** Five neighbouring slices all have different colours. */
  lemma FiveColorsDistinct(index: nat, i: nat, j: nat)
    requires i < j < 5
    ensures ColorAt(index + i) != ColorAt(index + j)
  {
    var a := (index + i) % 5;
    var b := (index + j) % 5;
    assert a != b by {
      assert (index + j) - (index + i) == j - i;
      assert ((index + i) / 5) * 5 + a == index + i;
      assert ((index + j) / 5) * 5 + b == index + j;
    }
    assert Colors[a][1..4] != Colors[b][1..4] || Colors[a] != Colors[b];
  }

  const SubmitFailedMessage := "Failed to analyze market insights. Please try again."

  class Page {
    var formData: FormData
    var isAnalyzing: bool
    var results: Option<MarketReport>
    var error: Option<string>

    constructor ()
      ensures formData == EmptyForm && !isAnalyzing && results.None? && error.None?
    {
      formData, isAnalyzing, results, error := EmptyForm, false, None, None;
    }

    /** `handleInputChange`: the named field takes the typed value; nothing else changes. */
    method HandleInputChange(name: Field, value: string)
      modifies this
      ensures formData == Set(old(formData), name, value)
      ensures isAnalyzing == old(isAnalyzing) && results == old(results) && error == old(error)
    {
      formData := Set(formData, name, value);
    }

    /** `handleSubmit` with the server answering `response`: the form posted. The
        old results and error are cleared first, so a failure leaves no results. */
    method HandleSubmit(response: Response<MarketReport>) returns (posted: FormData)
      modifies this
      ensures posted == formData == old(formData)
      ensures !isAnalyzing
      ensures response.Succeeded? ==> results == Some(response.data) && error.None?
      ensures response.Failed? ==> results.None? && error == Some(FailureMessage(response.detail, SubmitFailedMessage))
    {
      isAnalyzing := true;
      error := None;
      results := None;
      posted := formData;
      match response {
        case Succeeded(data) =>
          results := Some(data);
        case Failed(detail) =>
          error := Some(FailureMessage(detail, SubmitFailedMessage));
      }
      isAnalyzing := false;
    }

    /** "Analyze Another Market": the results and all eight fields are cleared. */
    method AnalyzeAnother()
      modifies this
      ensures results.None? && formData == EmptyForm
      ensures forall f :: Get(formData, f) == []
      ensures isAnalyzing == old(isAnalyzing) && error == old(error)
    {
      results := None;
      formData := EmptyForm;
    }
  }
}

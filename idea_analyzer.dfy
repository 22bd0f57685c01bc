/** The deterministic scoring rules of the idea analyzer: the factor weights and
    their weighted sum, the patent-count risk table, and the patent search's
    de-duplication and truncation. The factor scores and search terms come from
    a language model, and the patents from a scraper; here they are inputs. */
module IdeaAnalyzer {

  /** The six factors, in the order the report lists them. */
  const Factors: seq<string> := ["novelty", "technical_feasibility", "market_overlap",
                                 "patent_risk", "implementation_complexity", "ethical_regulatory"]

  /** The weight table: how much each factor counts towards the total. */
  const Weights: map<string, real> := map[
    "novelty" := 0.30,
    "technical_feasibility" := 0.20,
    "market_overlap" := 0.15,
    "patent_risk" := 0.20,
    "implementation_complexity" := 0.10,
    "ethical_regulatory" := 0.05]

  /** `weights.get(factor, 0.0)`: a factor outside the table weighs nothing. */
  function Weight(factor: string): (w: real)
    ensures 0.0 <= w <= 0.30
    ensures factor !in Weights ==> w == 0.0
  {
    if factor in Weights then Weights[factor] else 0.0
  }

  /** The sum of the weights of a list of factors. */
  function WeightOf(factors: seq<string>): real {
    if factors == [] then 0.0 else WeightOf(factors[..|factors| - 1]) + Weight(factors[|factors| - 1])
  }

  /** The table has exactly the six factors, and their weights add up to 100%. */
  lemma WeightsSumToOne()
    ensures Weights.Keys == set f | f in Factors
    ensures WeightOf(Factors) == 1.0
  {
    var w := Factors;
    assert w[..0] == [];
    assert w[..1][..0] == w[..0];
    assert w[..2][..1] == w[..1];
    assert w[..3][..2] == w[..2];
    assert w[..4][..3] == w[..3];
    assert w[..5][..4] == w[..4];
    assert w[..6][..5] == w[..5];
    assert w[..6] == w;
    assert WeightOf(w[..1]) == 0.30;
    assert WeightOf(w[..2]) == 0.50;
    assert WeightOf(w[..3]) == 0.65;
    assert WeightOf(w[..4]) == 0.85;
    assert WeightOf(w[..5]) == 0.95;
  }

  /** What one factor adds to the total: its score out of 10, weighted, as a percentage. */
  function Contribution(factor: string, score: real): real {
    (score / 10.0) * Weight(factor) * 100.0
  }

  /** The total over the scores in dictionary order, unrounded. */
  function WeightedSum(scores: seq<(string, real)>): real {
    if scores == [] then 0.0
    else
      var last := scores[|scores| - 1];
      WeightedSum(scores[..|scores| - 1]) + Contribution(last.0, last.1)
  }

  /** `compute_weighted_score`, accumulating over the scores as the source does
      (the final rounding to one decimal is not modelled). */
  method ComputeWeightedScore(scores: seq<(string, real)>) returns (total: real)
    ensures total == WeightedSum(scores)
  {
    total := 0.0;
    for i := 0 to |scores|
      invariant total == WeightedSum(scores[..i])
    {
      assert scores[..i + 1][..i] == scores[..i];
      var (factor, score) := scores[i];
      var weight := Weight(factor);
      total := total + (score / 10.0) * weight * 100.0;
    }
    assert scores[..|scores|] == scores;
  }

  /** The total splits over a concatenation of score lists. */
  lemma {:induction false} WeightedSumAppend(a: seq<(string, real)>, b: seq<(string, real)>)
    ensures WeightedSum(a + b) == WeightedSum(a) + WeightedSum(b)
    decreases |b|
  {
    if b == [] {
      assert a + b == a;
    } else {
      var init := b[..|b| - 1];
      WeightedSumAppend(a, init);
      assert (a + b)[..|a + b| - 1] == a + init;
    }
  }

  /** A score for a factor outside the weight table changes nothing, wherever it sits. */
  lemma UnknownFactorIgnored(a: seq<(string, real)>, factor: string, score: real, b: seq<(string, real)>)
    requires factor !in Weights
    ensures WeightedSum(a + [(factor, score)] + b) == WeightedSum(a + b)
  {
    WeightedSumAppend(a + [(factor, score)], b);
    WeightedSumAppend(a, [(factor, score)]);
    WeightedSumAppend(a, b);
    assert [(factor, score)][..0] == [];
  }

  /** Raising any factor's score never lowers the total: with the same factors in
      the same order, pointwise larger scores give a larger or equal total. */
  lemma {:induction false} WeightedSumMonotone(a: seq<(string, real)>, b: seq<(string, real)>)
    requires |a| == |b|
    requires forall i :: 0 <= i < |a| ==> a[i].0 == b[i].0 && a[i].1 <= b[i].1
    ensures WeightedSum(a) <= WeightedSum(b)
    decreases |a|
  {
    if a != [] {
      var n := |a| - 1;
      WeightedSumMonotone(a[..n], b[..n]);
      ContributionMonotone(a[n].0, a[n].1, b[n].1);
    }
  }

  lemma ContributionMonotone(factor: string, s: real, t: real)
    requires s <= t
    ensures Contribution(factor, s) <= Contribution(factor, t)
  {
    var w := Weight(factor);
    assert (t / 10.0) * w * 100.0 - (s / 10.0) * w * 100.0 == (t - s) * w * 10.0;
  }

  /** The score dictionary `analyze_idea` builds, in its order. */
  function SixScores(novelty: real, feasibility: real, market: real, patent: real,
                     complexity: real, ethical: real): seq<(string, real)>
  {
    [("novelty", novelty), ("technical_feasibility", feasibility), ("market_overlap", market),
     ("patent_risk", patent), ("implementation_complexity", complexity), ("ethical_regulatory", ethical)]
  }

  /** The total of the six scores is their weighted average, scaled to 100. */
  lemma SixScoresTotal(n: real, f: real, m: real, p: real, c: real, e: real)
    ensures WeightedSum(SixScores(n, f, m, p, c, e)) ==
      3.0 * n + 2.0 * f + 1.5 * m + 2.0 * p + 1.0 * c + 0.5 * e
  {
    var s := SixScores(n, f, m, p, c, e);
    assert s[..0] == [];
    assert s[..1][..0] == s[..0];
    assert s[..2][..1] == s[..1];
    assert s[..3][..2] == s[..2];
    assert s[..4][..3] == s[..3];
    assert s[..5][..4] == s[..4];
    assert s[..6][..5] == s[..5];
    assert s[..6] == s;
    WeightTable();
    assert WeightedSum(s[..1]) == 3.0 * n;
    assert WeightedSum(s[..2]) == 3.0 * n + 2.0 * f;
    assert WeightedSum(s[..3]) == 3.0 * n + 2.0 * f + 1.5 * m;
    assert WeightedSum(s[..4]) == 3.0 * n + 2.0 * f + 1.5 * m + 2.0 * p;
    assert WeightedSum(s[..5]) == 3.0 * n + 2.0 * f + 1.5 * m + 2.0 * p + 1.0 * c;
  }

  lemma WeightTable()
    ensures Weight("novelty") == 0.30 && Weight("technical_feasibility") == 0.20
    ensures Weight("market_overlap") == 0.15 && Weight("patent_risk") == 0.20
    ensures Weight("implementation_complexity") == 0.10 && Weight("ethical_regulatory") == 0.05
  {
  }

  /** Scores out of 10 give a total out of 100; ten on every factor gives exactly 100. */
  lemma SixScoresBounds(n: real, f: real, m: real, p: real, c: real, e: real)
    ensures (0.0 <= n <= 10.0 && 0.0 <= f <= 10.0 && 0.0 <= m <= 10.0 &&
             0.0 <= p <= 10.0 && 0.0 <= c <= 10.0 && 0.0 <= e <= 10.0) ==>
      0.0 <= WeightedSum(SixScores(n, f, m, p, c, e)) <= 100.0
    ensures WeightedSum(SixScores(10.0, 10.0, 10.0, 10.0, 10.0, 10.0)) == 100.0
  {
    SixScoresTotal(n, f, m, p, c, e);
    SixScoresTotal(10.0, 10.0, 10.0, 10.0, 10.0, 10.0);
  }

  /** A patent record as the scraper produces it. */
  datatype Patent = Patent(number: string, title: string, summary: string,
                           filingDate: string, status: string, link: string)

  /** How crowded the patent landscape is; each band has its own explanation. */
  datatype RiskBand = NoPatents | FewPatents | SomePatents | ManyPatents

  function RiskBandOf(count: nat): RiskBand {
    if count == 0 then NoPatents
    else if count >= 10 then ManyPatents
    else if count >= 5 then SomePatents
    else FewPatents
  }

  /** The patent-freedom score of a band; higher means less risk. */
  function BandScore(band: RiskBand): real {
    match band
    case NoPatents => 9.0
    case FewPatents => 7.5
    case SomePatents => 6.0
    case ManyPatents => 4.0
  }

  /** `assess_patent_risk`: the score and the band of its explanation, from the
      number of patents found alone. */
  function AssessPatentRisk(patents: seq<Patent>): (r: (real, RiskBand))
    ensures r.1 == RiskBandOf(|patents|) && r.0 == BandScore(r.1)
    ensures 4.0 <= r.0 <= 9.0
  {
    var band := RiskBandOf(|patents|);
    (BandScore(band), band)
  }

  /** Finding more patents never raises the score. */
  lemma PatentRiskAntitone(a: seq<Patent>, b: seq<Patent>)
    requires |a| <= |b|
    ensures AssessPatentRisk(b).0 <= AssessPatentRisk(a).0
  {
  }

  /** The score is decided by the count: lists of the same length score the same. */
  lemma PatentRiskByCount(a: seq<Patent>, b: seq<Patent>)
    requires |a| == |b|
    ensures AssessPatentRisk(a) == AssessPatentRisk(b)
  {
  }

  /** The table at its edges. */
  lemma PatentRiskTable()
    ensures BandScore(RiskBandOf(0)) == 9.0
    ensures BandScore(RiskBandOf(1)) == 7.5 && BandScore(RiskBandOf(4)) == 7.5
    ensures BandScore(RiskBandOf(5)) == 6.0 && BandScore(RiskBandOf(9)) == 6.0
    ensures BandScore(RiskBandOf(10)) == 4.0
  {
  }

  /** The patent numbers in a list. */
  function Numbers(patents: seq<Patent>): set<string> {
    set p | p in patents :: p.number
  }

  /** Whether the patent at `i` is the first with its number. */
  predicate IsFirst(patents: seq<Patent>, i: int)
    requires 0 <= i < |patents|
  {
    forall j :: 0 <= j < i ==> patents[j].number != patents[i].number
  }

  /** The first patent of each number, in their original order. */
  function Dedup(patents: seq<Patent>): seq<Patent> {
    if patents == [] then []
    else
      var n := |patents| - 1;
      Dedup(patents[..n]) + (if IsFirst(patents, n) then [patents[n]] else [])
  }

  /** The de-duplication loop of `search_patents`, with its `seen` set. */
  method Deduplicate(patents: seq<Patent>) returns (unique: seq<Patent>)
    ensures unique == Dedup(patents)
  {
    var seen: set<string> := {};
    unique := [];
    for i := 0 to |patents|
      invariant unique == Dedup(patents[..i])
      invariant seen == Numbers(patents[..i])
    {
      DedupStep(patents, i);
      if patents[i].number !in seen {
        seen := seen + {patents[i].number};
        unique := unique + [patents[i]];
      }
    }
    assert patents[..|patents|] == patents;
  }

  /** One turn of the loop: the next patent is kept exactly when its number is unseen. */
  lemma DedupStep(patents: seq<Patent>, i: int)
    requires 0 <= i < |patents|
    ensures Dedup(patents[..i + 1]) == Dedup(patents[..i]) +
      (if patents[i].number in Numbers(patents[..i]) then [] else [patents[i]])
    ensures Numbers(patents[..i + 1]) == Numbers(patents[..i]) + {patents[i].number}
  {
    var prefix := patents[..i + 1];
    assert prefix[..i] == patents[..i];
    assert prefix[i] == patents[i];
    SeenIsFirst(prefix, i);
    assert prefix == patents[..i] + [patents[i]];
  }

  /** The last patent of a list is the first of its number exactly when its number
      is not among those before it. */
  lemma SeenIsFirst(patents: seq<Patent>, i: int)
    requires 0 <= i < |patents|
    ensures IsFirst(patents, i) <==> patents[i].number !in Numbers(patents[..i])
  {
    if !IsFirst(patents, i) {
      var j :| 0 <= j < i && patents[j].number == patents[i].number;
      assert patents[..i][j] == patents[j];
    }
  }

  /** No two kept patents share a number. */
  lemma {:induction false} DedupDistinct(patents: seq<Patent>)
    ensures var r := Dedup(patents);
      forall i, j :: 0 <= i < j < |r| ==> r[i].number != r[j].number
    decreases |patents|
  {
    if patents != [] {
      var n := |patents| - 1;
      DedupDistinct(patents[..n]);
      DedupNumbers(patents[..n]);
      SeenIsFirst(patents, n);
      var r := Dedup(patents);
      var init := Dedup(patents[..n]);
      forall i, j | 0 <= i < j < |r| ensures r[i].number != r[j].number {
        if j == |init| {
          assert r[i] in init;
        } else {
          assert r[i] == init[i] && r[j] == init[j];
        }
      }
    }
  }

  /** Every number survives: the kept patents carry exactly the numbers of the input. */
  lemma {:induction false} DedupNumbers(patents: seq<Patent>)
    ensures Numbers(Dedup(patents)) == Numbers(patents)
    decreases |patents|
  {
    if patents != [] {
      var n := |patents| - 1;
      DedupNumbers(patents[..n]);
      SeenIsFirst(patents, n);
      assert patents == patents[..n] + [patents[n]];
      assert Numbers(patents) == Numbers(patents[..n]) + {patents[n].number};
    }
  }

  /** The kept patents are the first occurrences of the input, in input order:
      `idx` gives, for each kept patent, its strictly increasing position in the
      input, and every first occurrence is among them. */
  lemma {:induction false} DedupFirstOccurrences(patents: seq<Patent>) returns (idx: seq<int>)
    ensures |idx| == |Dedup(patents)|
    ensures forall k :: 0 <= k < |idx| ==>
      0 <= idx[k] < |patents| && Dedup(patents)[k] == patents[idx[k]] && IsFirst(patents, idx[k])
    ensures forall k, l :: 0 <= k < l < |idx| ==> idx[k] < idx[l]
    ensures forall i :: 0 <= i < |patents| && IsFirst(patents, i) ==> i in idx
    decreases |patents|
  {
    if patents == [] {
      idx := [];
    } else {
      var n := |patents| - 1;
      var prefix := patents[..n];
      var init := DedupFirstOccurrences(prefix);
      FirstInPrefix(patents, n);
      var tail := if IsFirst(patents, n) then [n] else [];
      idx := init + tail;
      var r := Dedup(patents);
      assert r == Dedup(prefix) + (if IsFirst(patents, n) then [patents[n]] else []);
      forall k | 0 <= k < |idx|
        ensures 0 <= idx[k] < |patents| && r[k] == patents[idx[k]] && IsFirst(patents, idx[k])
      {
        if k < |init| {
          assert idx[k] == init[k] && r[k] == Dedup(prefix)[k];
        }
      }
      forall i | 0 <= i < |patents| && IsFirst(patents, i) ensures i in idx {
        if i < n { assert i in init; }
      }
    }
  }

  /** Whether a patent is the first of its number does not depend on what follows it. */
  lemma FirstInPrefix(patents: seq<Patent>, n: int)
    requires 0 <= n <= |patents|
    ensures forall i :: 0 <= i < n ==> (IsFirst(patents[..n], i) <==> IsFirst(patents, i))
  {
    forall i | 0 <= i < n ensures IsFirst(patents[..n], i) <==> IsFirst(patents, i) {
      assert forall j :: 0 <= j <= i ==> patents[..n][j] == patents[j];
    }
  }

  /** The longest prefix of at most `n` items: Python's `xs[:n]`. */
  function Take<T>(xs: seq<T>, n: nat): (r: seq<T>)
    ensures |r| == if |xs| <= n then |xs| else n
    ensures r == xs[..|r|]
  {
    if |xs| <= n then xs else xs[..n]
  }

  /** How many search terms are queried. */
  const MaxSearchTerms := 3
  /** How many patents a search returns. */
  const MaxSearchResults := 15
  /** How many patents the report carries. */
  const MaxReportedPatents := 10

  /** The patents the scraper finds for each term, one list after another. */
  function Gathered(terms: seq<string>, scrape: string -> seq<Patent>): seq<Patent> {
    if terms == [] then [] else Gathered(terms[..|terms| - 1], scrape) + scrape(terms[|terms| - 1])
  }

  /** `search_patents` once the search terms are known: the first three terms are
      scraped, the results de-duplicated by number and cut to fifteen. */
  method SearchPatents(terms: seq<string>, scrape: string -> seq<Patent>) returns (result: seq<Patent>)
    ensures result == Take(Dedup(Gathered(Take(terms, MaxSearchTerms), scrape)), MaxSearchResults)
    ensures |result| <= MaxSearchResults
    ensures forall i, j :: 0 <= i < j < |result| ==> result[i].number != result[j].number
  {
    var queried := Take(terms, MaxSearchTerms);
    var patents: seq<Patent> := [];
    for i := 0 to |queried|
      invariant patents == Gathered(queried[..i], scrape)
    {
      assert queried[..i + 1][..i] == queried[..i];
      patents := patents + scrape(queried[i]);
    }
    assert queried[..|queried|] == queried;
    var unique := Deduplicate(patents);
    DedupDistinct(patents);
    result := Take(unique, MaxSearchResults);
  }

  /** Search terms past the third are never queried. */
  lemma OnlyThreeTermsQueried(terms: seq<string>, extra: seq<string>, scrape: string -> seq<Patent>)
    requires |terms| >= MaxSearchTerms
    ensures Gathered(Take(terms + extra, MaxSearchTerms), scrape) == Gathered(Take(terms, MaxSearchTerms), scrape)
  {
    assert Take(terms + extra, MaxSearchTerms) == Take(terms, MaxSearchTerms);
  }

  /** The report `analyze_idea` returns: the six scores, their total and the patents shown. */
  datatype IdeaReport = IdeaReport(scores: seq<(string, real)>, weightedScore: real, patents: seq<Patent>)

  /** `analyze_idea` given the model's five factor scores and the patents found:
      the patent score is computed on all patents, the report shows the first ten. */
  function AnalyzeIdea(novelty: real, feasibility: real, market: real, complexity: real,
                       ethical: real, patents: seq<Patent>): (r: IdeaReport)
    ensures r.patents == Take(patents, MaxReportedPatents)
    ensures r.scores == SixScores(novelty, feasibility, market, AssessPatentRisk(patents).0, complexity, ethical)
    ensures r.weightedScore == WeightedSum(r.scores)
    ensures r.weightedScore == 3.0 * novelty + 2.0 * feasibility + 1.5 * market +
      2.0 * AssessPatentRisk(patents).0 + complexity + 0.5 * ethical
    ensures (0.0 <= novelty <= 10.0 && 0.0 <= feasibility <= 10.0 && 0.0 <= market <= 10.0 &&
             0.0 <= complexity <= 10.0 && 0.0 <= ethical <= 10.0) ==>
      0.0 <= r.weightedScore <= 100.0
  {
    var patentScore := AssessPatentRisk(patents).0;
    var scores := SixScores(novelty, feasibility, market, patentScore, complexity, ethical);
    SixScoresBounds(novelty, feasibility, market, patentScore, complexity, ethical);
    SixScoresTotal(novelty, feasibility, market, patentScore, complexity, ethical);
    IdeaReport(scores, WeightedSum(scores), Take(patents, MaxReportedPatents))
  }

  /** The patent score sees every patent found, even those the report leaves out:
      twelve patents score as a crowded landscape though only ten are shown. */
  lemma RiskCountsHiddenPatents(patents: seq<Patent>)
    requires |patents| == 12
    ensures |AnalyzeIdea(5.0, 5.0, 5.0, 5.0, 5.0, patents).patents| == 10
    ensures AnalyzeIdea(5.0, 5.0, 5.0, 5.0, 5.0, patents).scores[3].1 == 4.0
  {
  }
}

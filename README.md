# Startup intelligence: a verified model of the deterministic core

The application is in two halves:
- A Python backend scores startup ideas, maps markets and reviews pitch videos.
- A Next.js frontend collects the forms and renders the answers.

Most of the work happens in calls to a language model, a patent scraper, a web search engine, OpenCV, ffmpeg and Whisper. Around those calls sit small, exact rules. This project models those rules in Dafny and proves what they promise.

- **Pitch analyzer** (`ClaudeAnalyzer`):
  - the system prompt chosen for each of the five judging personas;
  - the message sent to the model: an instruction with the transcript, at most five frames, and a closing request;
  - the line-by-line splitter that turns the model's feedback into named sections. It is a loop over a dictionary, modelled as a method proved against a functional definition.
- **Idea analyzer** (`IdeaAnalyzer`):
  - the six factor weights and the weighted total;
  - the table that turns a patent count into a patent-risk score;
  - the search that queries three terms, removes duplicate patents by number and keeps fifteen;
  - the ten patents shown in the report.
- **Video processor** (`VideoProcessor`):
  - the frame-sampling loop of `extract_frames`, over frame indices;
  - the name of the audio file `transcribe_audio` writes, and the message returned when ffmpeg is missing.
- **Market insights analyzer** (`MarketInsightsAnalyzer`):
  - the three-search budget, as a class with a counter;
  - the loop that reads a results page into results;
  - the competitor search context and its fallbacks.
- **Feedback view** (`FeedbackDisplay`):
  - markup cleaning;
  - the classifier that turns each line of feedback into a heading, a bullet (positive or not), a score callout, a paragraph or nothing;
  - the persona labels.
- **Idea analyzer page** (`IdeaAnalyzerPage`):
  - the request body built from the form: the keyword list and the optional industry;
  - the score colour bands;
  - the page state through analysing and resetting.
- **Market insights page** (`MarketInsightsPage`):
  - the eight-field form and when it may be submitted;
  - the segment chart's weights and colours;
  - the page state through typing, submitting and starting over.

Anything the system receives from outside is an input to the model. That covers a reply from the model, a search page, a scraped patent list, a video's frame count, the result of ffmpeg, and a server's answer to the browser. Support modules:
- `Wrappers`: the Option type.
- `Text`: Python's `strip`, `split`, `lower` and `replace`, and JavaScript's `trim` and `toLowerCase`.
- `Personas`: the five persona ids.
- `ApiErrors`: a server response and its error detail.
- `Seqs`: a few sequence facts.

## Model

| member | source | states |
|---|---|---|
| ClaudeAnalyzer.SystemPrompt | backend/services/claude_analyzer.py:51-129 | the default "professional pitch coach" prompt is returned exactly for strings that are not one of the five persona ids; each id gets its persona's prompt |
| ClaudeAnalyzer.SystemPromptDistinct | backend/services/claude_analyzer.py:55-129 | two persona strings get the same prompt exactly when they name the same persona or are both unknown, so the five prompts are distinct |
| ClaudeAnalyzer.BuildMessageContent | backend/services/claude_analyzer.py:131-196 | exactly min(frames, 5) + 2 blocks: the instruction with the transcript first, then the first frames as JPEG images in order, then the closing request |
| ClaudeAnalyzer.SectionKey | backend/services/claude_analyzer.py:219-220 | a section key holds no '#', no space and no upper-case letter, and has no surrounding whitespace |
| ClaudeAnalyzer.ParseFeedback | backend/services/claude_analyzer.py:198-228 | the loop over lines, with its current section and collected lines, returns exactly the sections of the line-by-line definition `Sections` |
| ClaudeAnalyzer.IsHeader | backend/services/claude_analyzer.py:212 | a header is never empty, and a line with a lower-case letter is a header exactly when it starts with '#' |
| ClaudeAnalyzer.HeaderClosesSection | backend/services/claude_analyzer.py:212-220 | a header line files the collected lines, when there are any, under the current key, leaves every other stored section as it was, and opens an empty section under its own key |
| ClaudeAnalyzer.SectionsWellFormed | backend/services/claude_analyzer.py:202-228 | every key has the key shape; every stored value is non-empty, and each of its lines is non-blank, stripped and not a header |
| ClaudeAnalyzer.RunWithoutHeaders | backend/services/claude_analyzer.py:206-222 | lines with no header among them only add their non-blank stripped lines to the current section |
| ClaudeAnalyzer.NoHeaderGivesIntro | backend/services/claude_analyzer.py:202-227 | text without headers yields exactly one section, "intro", holding its non-blank lines, or no section when all lines are blank |
| ClaudeAnalyzer.PreambleIsIntro | backend/services/claude_analyzer.py:202-226 | the non-blank lines before the first header end up under "intro", joined with newlines, unless a later header reopens "intro" |
| ClaudeAnalyzer.LastSectionWins | backend/services/claude_analyzer.py:212-226 | the last section with a given key, when it has at least one non-blank line, decides that key's content, whatever an earlier section of the same name held and whatever sections with other keys follow |
| ClaudeAnalyzer.ClosedSectionStays | backend/services/claude_analyzer.py:212-226 | a section closed by a header with another key keeps its lines to the end, while no later header reopens its key |
| ClaudeAnalyzer.OtherSectionStays | backend/services/claude_analyzer.py:206-222 | lines after a section was filed never change it while no header reopens its key |
| ClaudeAnalyzer.EmptySectionIsDropped | backend/services/claude_analyzer.py:212-216 | a header directly followed by another header stores nothing under the first header's key |
| Personas.FromId | frontend/components/FeedbackDisplay.tsx:4 | a string names a persona exactly when it is one of the five ids, and then that persona's id is the string |
| Personas.IdRoundTrip | frontend/components/FeedbackDisplay.tsx:4 | every persona's id reads back as that persona |
| IdeaAnalyzer.Weight | backend/services/idea_analyzer.py:492 | weights lie between 0 and 0.30, and a factor outside the table weighs 0 |
| IdeaAnalyzer.WeightsSumToOne | backend/services/idea_analyzer.py:19-27 | the table has exactly the six factors and their weights add up to 1 |
| IdeaAnalyzer.WeightTable | backend/services/idea_analyzer.py:20-27 | the six weights are 30, 20, 15, 20, 10 and 5 per cent |
| IdeaAnalyzer.ComputeWeightedScore | backend/services/idea_analyzer.py:480-495 | the accumulating loop returns the sum over the given scores of (score / 10) · weight · 100 |
| IdeaAnalyzer.WeightedSumAppend | backend/services/idea_analyzer.py:490-493 | the total of two score lists one after the other is the sum of their totals |
| IdeaAnalyzer.UnknownFactorIgnored | backend/services/idea_analyzer.py:491-493 | a score for a factor outside the weight table changes nothing, wherever it sits |
| IdeaAnalyzer.WeightedSumMonotone | backend/services/idea_analyzer.py:490-493 | pointwise higher scores for the same factors never give a lower total |
| IdeaAnalyzer.ContributionMonotone | backend/services/idea_analyzer.py:493 | a factor's contribution never falls as its score rises |
| IdeaAnalyzer.SixScoresTotal | backend/services/idea_analyzer.py:76-85 | the total of the six scores is 3n + 2f + 1.5m + 2p + c + 0.5e |
| IdeaAnalyzer.SixScoresBounds | backend/services/idea_analyzer.py:480-495 | six scores in [0, 10] give a total in [0, 100], and ten on every factor gives exactly 100 |
| IdeaAnalyzer.AssessPatentRisk | backend/services/idea_analyzer.py:360-381 | the score and the explanation's band come from the patent count alone; the score lies in [4, 9] |
| IdeaAnalyzer.PatentRiskTable | backend/services/idea_analyzer.py:368-379 | 0 patents give 9.0, 1 to 4 give 7.5, 5 to 9 give 6.0, and 10 or more give 4.0 |
| IdeaAnalyzer.PatentRiskAntitone | backend/services/idea_analyzer.py:368-379 | more patents never give a higher score |
| IdeaAnalyzer.PatentRiskByCount | backend/services/idea_analyzer.py:368-381 | lists of the same length get the same assessment |
| IdeaAnalyzer.Deduplicate | backend/services/idea_analyzer.py:268-274 | the loop with its `seen` set returns exactly the first patent of each number, in input order (`Dedup`) |
| IdeaAnalyzer.DedupStep | backend/services/idea_analyzer.py:271-274 | one turn keeps the next patent exactly when its number has not been seen, and adds its number to those seen |
| IdeaAnalyzer.SeenIsFirst | backend/services/idea_analyzer.py:272 | a patent is the first of its number exactly when its number is not among those before it |
| IdeaAnalyzer.DedupDistinct | backend/services/idea_analyzer.py:268-274 | no two kept patents share a number |
| IdeaAnalyzer.DedupNumbers | backend/services/idea_analyzer.py:268-274 | the kept patents carry exactly the numbers of the input |
| IdeaAnalyzer.DedupFirstOccurrences | backend/services/idea_analyzer.py:268-274 | the kept patents are first occurrences taken at strictly increasing input positions, and every first occurrence is kept |
| IdeaAnalyzer.Take | backend/services/idea_analyzer.py:276 | `xs[:n]`: the prefix of exactly min(n, len(xs)) items |
| IdeaAnalyzer.SearchPatents | backend/services/idea_analyzer.py:256-276 | scrapes the first three terms in order, removes duplicate numbers and returns at most 15 patents, no two with the same number |
| IdeaAnalyzer.OnlyThreeTermsQueried | backend/services/idea_analyzer.py:263 | search terms past the third never affect the patents found |
| IdeaAnalyzer.AnalyzeIdea | backend/services/idea_analyzer.py:61-100 | the report holds the six scores in the source's order, with the patent score assessed on all patents found; its total is their weighted sum, 3n + 2f + 1.5m + 2p + c + 0.5e, within [0, 100] for scores in [0, 10]; it shows `patents[:10]` |
| IdeaAnalyzer.RiskCountsHiddenPatents | backend/services/idea_analyzer.py:62-99 | twelve patents are scored as a crowded landscape (4.0) though only ten are shown |
| VideoProcessor.Interval | backend/services/video_processor.py:50 | the sampling interval is at least 1, and at most total / max_frames when there are at least max_frames frames |
| VideoProcessor.Sampled | backend/services/video_processor.py:53 | never more than max_frames frames are kept |
| VideoProcessor.ExtractFrames | backend/services/video_processor.py:34-72 | the loop keeps exactly the frames of `Sampled` and reads exactly `ReadCount` times; a reported count of 0 keeps and reads nothing |
| VideoProcessor.SampledMembership | backend/services/video_processor.py:52-69 | frame i is kept exactly when it was read, it is a multiple of the interval, and fewer than max_frames frames were kept before it |
| VideoProcessor.SampledIncreasing | backend/services/video_processor.py:52-69 | the kept frame indices strictly increase |
| VideoProcessor.FirstFrameKept | backend/services/video_processor.py:52-58 | when one frame can be read, frame 0 is kept first |
| VideoProcessor.FullVideoGivesMaxFrames | backend/services/video_processor.py:50-69 | a video of at least max_frames frames, all readable, gives exactly max_frames frames |
| VideoProcessor.Suffix | backend/services/video_processor.py:85 | `Path.suffix`: empty, or a '.' followed by at least one character, ending the path and shorter than the file name |
| Text.PyReplace | backend/services/video_processor.py:85 | Python's `str.replace`: an empty pattern puts the replacement at all len(s) + 1 places |
| Text.ReplaceAbsent | backend/services/video_processor.py:85 | `str.replace` with a pattern that does not occur leaves the string unchanged |
| VideoProcessor.AudioPathAsWritten | backend/services/video_processor.py:85 | the audio path as the code derives it: for a path without a suffix it is five times as long as the path, plus four |
| VideoProcessor.ExtensionlessPathIsMangled | backend/services/video_processor.py:85 | as written, a path whose file name has no suffix gets ".wav" between all its characters: "a/b" becomes ".wava.wav/.wavb.wav" |
| VideoProcessor.DirectorySuffixIsReplaced | backend/services/video_processor.py:85 | as written, a directory carrying the file's suffix is renamed too: "a.b/c.b" becomes "a.wav/c.wav" |
| VideoProcessor.AsWrittenAgrees | backend/services/video_processor.py:85 | where the suffix occurs only at the end of the path, the code as written gives the intended audio path |
| VideoProcessor.AudioPath | backend/services/video_processor.py:85 | the intended audio path keeps the path up to its suffix and ends in ".wav" |
| VideoProcessor.AudioPathSuffix | backend/services/video_processor.py:85 | the intended audio path of any path that names a file has the suffix ".wav" |
| VideoProcessor.FfmpegCommand | backend/services/video_processor.py:89-97 | the 12-word ffmpeg command reads the video and writes the audio path |
| VideoProcessor.ResultText | backend/services/video_processor.py:106-127 | a transcription returns its segments joined with spaces and stripped; every failure returns a bracketed message |
| VideoProcessor.TranscribeAudio | backend/services/video_processor.py:74-127 | without ffmpeg, nothing is run and the bracketed "not installed" message is returned; otherwise the 12-word command writes the audio to the path the code derives (`AudioPathAsWritten`), and the outcome's text is returned |
| VideoProcessor.TranscriptStripped | backend/services/video_processor.py:110-116 | a successful transcript has no surrounding whitespace |
| MarketInsightsAnalyzer.Entries | backend/services/market_insights_analyzer.py:60-73 | no more results than result blocks |
| MarketInsightsAnalyzer.ResultsBounded | backend/services/market_insights_analyzer.py:58-73 | a search returns at most num_results results |
| MarketInsightsAnalyzer.EntriesFromTitleLinks | backend/services/market_insights_analyzer.py:60-73 | every result comes from a block with a title link: its title and URL are the link's, its snippet the block's |
| MarketInsightsAnalyzer.EntriesCount | backend/services/market_insights_analyzer.py:60-73 | there is exactly one result per block with a title link |
| MarketInsightsAnalyzer.Analyzer.constructor | backend/services/market_insights_analyzer.py:24-28 | a new analyzer has made no searches, and its budget is 3 |
| MarketInsightsAnalyzer.Analyzer.PerformWebSearch | backend/services/market_insights_analyzer.py:30-80 | with the budget spent, nothing changes and no results are returned; otherwise the count rises by exactly one, even when the request fails, and the page's results are returned; the count never exceeds the budget |
| MarketInsightsAnalyzer.Analyzer.MapCompetitors | backend/services/market_insights_analyzer.py:194-274 | one search is made if budget remains; the context is built from its results; an unusable reply gives three empty tiers |
| MarketInsightsAnalyzer.Analyzer.AnalyzeMarket | backend/services/market_insights_analyzer.py:361-426 | the budget is reset, so exactly one search has been made afterwards; each part of the report is the model's reply or that step's fallback |
| MarketInsightsAnalyzer.CompetitorQuery | backend/services/market_insights_analyzer.py:207 | the competitor query starts with the industry |
| MarketInsightsAnalyzer.SearchContext | backend/services/market_insights_analyzer.py:210-212 | the context is "None" exactly when there are no results |
| MarketInsightsAnalyzer.TitleLines | backend/services/market_insights_analyzer.py:210-211 | one "- title" line per result, in order |
| MarketInsightsAnalyzer.SearchContextLines | backend/services/market_insights_analyzer.py:210-212 | the context's lines are exactly "- title" for the first (at most five) results |
| FeedbackDisplay.FindClose | frontend/components/FeedbackDisplay.tsx:32 | the closing "~~" found is the first one after at least one character with no line terminator before it (the lazy `.+?`); none is found exactly when every later "~~" has a line terminator before it |
| FeedbackDisplay.Unstrike | frontend/components/FeedbackDisplay.tsx:32 | strike-through removal never lengthens the text or brings in new characters |
| FeedbackDisplay.UnstrikePlain | frontend/components/FeedbackDisplay.tsx:32 | text without '~' is left unchanged |
| FeedbackDisplay.UnstrikeExample | frontend/components/FeedbackDisplay.tsx:32 | the first "~~" after the text closes the strike-through: "~~a~~b~~" becomes "ab~~" |
| FeedbackDisplay.UnstrikeFirst | frontend/components/FeedbackDisplay.tsx:32 | `~~x~~y` becomes x followed by y cleaned on its own, for every non-empty x without line breaks and with no '~' after its first character |
| FeedbackDisplay.CleanMarkdown | frontend/components/FeedbackDisplay.tsx:25-34 | the cleaned text has no '*' and no '_', and no surrounding whitespace |
| FeedbackDisplay.CleanMarkdownKeepsPlainText | frontend/components/FeedbackDisplay.tsx:25-34 | text without markup or surrounding whitespace is left as it is |
| FeedbackDisplay.DropHashes | frontend/components/FeedbackDisplay.tsx:117 | the heading text is what is left after the leading '#'s and the whitespace after them: a proper suffix of the line starting with no whitespace; a line not starting with '#' is kept whole |
| Text.Utf16Length | frontend/components/FeedbackDisplay.tsx:114 | JavaScript's `length`: between one and two units per character, exactly one per character below U+10000 |
| FeedbackDisplay.BulletBody | frontend/components/FeedbackDisplay.tsx:124 | the bullet's text is a suffix of the line, and the whole line when it starts with no marker and no digit |
| FeedbackDisplay.AfterMarker | frontend/components/FeedbackDisplay.tsx:124 | removing a leading '-' or '•' marker leaves a suffix of the line, and the whole line when there is no marker |
| FeedbackDisplay.AfterNumber | frontend/components/FeedbackDisplay.tsx:124 | removing a leading number marker leaves a suffix, and the whole text when it does not start with a digit |
| FeedbackDisplay.KindOf | frontend/components/FeedbackDisplay.tsx:112-160 | the heading test comes first: a line is a heading exactly when it passes that test; a line passes no test exactly when it is blank |
| FeedbackDisplay.BlankPassesNoTest | frontend/components/FeedbackDisplay.tsx:112-160 | a blank line passes none of the heading, bullet and score tests |
| FeedbackDisplay.Classify | frontend/components/FeedbackDisplay.tsx:112-160 | a line yields no element exactly when it is blank; every element's text has no '*', no '_' and no surrounding whitespace; a line is a heading exactly when the heading test holds; a bullet is positive exactly when its text is |
| FeedbackDisplay.ElementOf | frontend/components/FeedbackDisplay.tsx:114-158 | each kind of line gives its own kind of element, with cleaned text and, for a bullet, the positive mark of that text |
| FeedbackDisplay.HeadingFirst | frontend/components/FeedbackDisplay.tsx:114-119 | a line starting with '#' is a heading, whatever else it looks like |
| FeedbackDisplay.IndentedBulletKeepsMarker | frontend/components/FeedbackDisplay.tsx:123-124 | an indented bullet line is a bullet, and its text is the whole line cleaned, its marker included |
| FeedbackDisplay.PositiveIgnoresCase | frontend/components/FeedbackDisplay.tsx:125-128 | whether a bullet is positive does not depend on the case of its text |
| FeedbackDisplay.Elements | frontend/components/FeedbackDisplay.tsx:112-161 | one entry per line of the feedback, which is empty exactly for the blank lines |
| FeedbackDisplay.PersonaLabel | frontend/components/FeedbackDisplay.tsx:36-45 | every persona has a non-empty label |
| FeedbackDisplay.PersonaLabelInjective | frontend/components/FeedbackDisplay.tsx:36-45 | no two personas share a label |
| ApiErrors.FailureMessage | frontend/app/idea-analyzer/page.tsx:64 | the server's detail when it sent a non-empty one, otherwise the page's fallback message |
| IdeaAnalyzerPage.Keywords | frontend/app/idea-analyzer/page.tsx:56 | no more keywords than pieces; each keyword is non-empty with no surrounding whitespace |
| IdeaAnalyzerPage.KeywordListClean | frontend/app/idea-analyzer/page.tsx:56 | no keyword is empty, holds a comma, or has surrounding whitespace |
| IdeaAnalyzerPage.KeywordsKeepClean | frontend/app/idea-analyzer/page.tsx:56 | pieces that are already clean keywords are kept, all of them, in order |
| IdeaAnalyzerPage.KeywordListRoundTrip | frontend/app/idea-analyzer/page.tsx:56 | a list of clean, comma-free keywords joined with commas reads back as that list |
| IdeaAnalyzerPage.SingleKeyword | frontend/app/idea-analyzer/page.tsx:56 | a field without a comma gives its trimmed text, or no keyword when it is blank |
| IdeaAnalyzerPage.IndustryField | frontend/app/idea-analyzer/page.tsx:57 | an empty industry is left out of the request; any other is sent unchanged |
| IdeaAnalyzerPage.BuildRequest | frontend/app/idea-analyzer/page.tsx:54-58 | the description is sent as typed, untrimmed; every keyword is clean and comma-free; the industry is left out exactly when it is empty |
| IdeaAnalyzerPage.Rank | frontend/app/idea-analyzer/page.tsx:79-91 | a score falls in one of four bands |
| IdeaAnalyzerPage.RankMonotone | frontend/app/idea-analyzer/page.tsx:79-91 | a higher score is never in a lower band |
| IdeaAnalyzerPage.ScoreColor | frontend/app/idea-analyzer/page.tsx:79-84 | the text colour is that of the score's band: red, amber, blue, emerald |
| IdeaAnalyzerPage.ScoreBarColor | frontend/app/idea-analyzer/page.tsx:86-91 | the bar colour is that of the score's band: red, amber, blue, emerald |
| IdeaAnalyzerPage.ColorsAgree | frontend/app/idea-analyzer/page.tsx:79-91 | two scores have the same text colour exactly when they have the same bar colour, and exactly when they are in the same band |
| IdeaAnalyzerPage.PaletteDistinct | frontend/app/idea-analyzer/page.tsx:79-91 | the four bands have four different text colours and four different bar colours |
| IdeaAnalyzerPage.BlankIffTrimEmpty | frontend/app/idea-analyzer/page.tsx:45 | a description is rejected exactly when trimming leaves nothing |
| IdeaAnalyzerPage.BlankIffAllWhitespace | frontend/app/idea-analyzer/page.tsx:45 | a description is rejected exactly when it is all whitespace |
| IdeaAnalyzerPage.Page.constructor | frontend/app/idea-analyzer/page.tsx:37-42 | the page starts with empty fields, no result, no error and no analysis running |
| IdeaAnalyzerPage.Page.HandleAnalyze | frontend/app/idea-analyzer/page.tsx:44-69 | a blank description only sets the validation error, and nothing is posted; otherwise the request is posted, the result or the server's error is shown, and the analysis has ended |
| IdeaAnalyzerPage.Page.HandleReset | frontend/app/idea-analyzer/page.tsx:71-77 | the result, the three fields and the error are cleared |
| MarketInsightsPage.Set | frontend/app/market-insights/page.tsx:63-68 | the named field takes the value and every other field is unchanged |
| MarketInsightsPage.FieldsDetermineForm | frontend/app/market-insights/page.tsx:48-57 | two forms with the same eight fields are the same form |
| MarketInsightsPage.SetLaws | frontend/app/market-insights/page.tsx:63-68 | setting a field to its own value changes nothing; of two settings of one field, the last wins |
| MarketInsightsPage.IsFormValid | frontend/app/market-insights/page.tsx:87 | the form is valid exactly when none of the four required fields is empty |
| MarketInsightsPage.OptionalFieldsIgnored | frontend/app/market-insights/page.tsx:87 | typing in an optional field never changes whether the form is valid |
| MarketInsightsPage.WhitespaceCounts | frontend/app/market-insights/page.tsx:87 | required fields holding only a space still make the form valid |
| MarketInsightsPage.SubmitEnabledIff | frontend/app/market-insights/page.tsx:276 | the submit button is enabled exactly when no analysis runs and every required field has text |
| MarketInsightsPage.SegmentValue | frontend/app/market-insights/page.tsx:93-96 | a segment weighs 1 to 3: 3 exactly when its lower-cased size mentions "large", 2 exactly when it mentions "medium" but not "large" |
| MarketInsightsPage.CapitalizedLarge | frontend/app/market-insights/page.tsx:94 | case does not matter: "Large" weighs 3 |
| MarketInsightsPage.UnknownSizeIsOne | frontend/app/market-insights/page.tsx:93-96 | a size naming none of the words weighs 1 |
| MarketInsightsPage.SegmentChartData | frontend/app/market-insights/page.tsx:90-104 | no slices without results; otherwise one slice per segment, in order, with its name, its size and a weight from 1 to 3 |
| MarketInsightsPage.ColorAt | frontend/app/market-insights/page.tsx:320 | every slice's colour is one of the five palette colours |
| MarketInsightsPage.ColorCycle | frontend/app/market-insights/page.tsx:320 | colours repeat every five slices, and neighbouring slices differ |
| MarketInsightsPage.FiveColorsDistinct | frontend/app/market-insights/page.tsx:45 | any five neighbouring slices have five different colours |
| MarketInsightsPage.Page.constructor | frontend/app/market-insights/page.tsx:48-61 | the page starts with an empty form, no results, no error and no analysis running |
| MarketInsightsPage.Page.HandleInputChange | frontend/app/market-insights/page.tsx:63-68 | the named field takes the typed value; nothing else changes |
| MarketInsightsPage.Page.HandleSubmit | frontend/app/market-insights/page.tsx:70-85 | the form is posted unchanged; on success the results are shown with no error; on failure there are no results and the server's detail or the fallback is shown; the analysis has ended either way |
| MarketInsightsPage.Page.AnalyzeAnother | frontend/app/market-insights/page.tsx:460-471 | the results and all eight fields are cleared; the error and the running flag are unchanged |

## Left out

- Language-model calls, web requests, the patent scraper and its mock numbers, `time.sleep`, OpenCV, base64, ffmpeg and Whisper are not modelled. Their results are inputs: factor scores and search terms, the model's replies, a search page, a frame count with the number of readable frames, and a transcription outcome.
- The JSON and fenced-block recovery of model replies (`_parse_json_response`, the `re.search` extractions) is not modelled. A reply that cannot be used is the `None` input.
- `_extract_patent_search_terms`, `analyze_novelty` and the other scoring prompts are model calls and are left out. So are `generate_customer_personas`, `identify_market_gaps` and `generate_positioning_insights`: each is an input or its fallback.
- ClaudeAnalyzer.SystemPrompt: each persona's prompt is kept only by its opening clause. The rest of the wording, and the closing request's list of sections, are not modelled.
- ClaudeAnalyzer.LastSectionWins: covers a last section with at least one non-blank line. When that section's lines are all blank, the source keeps the earlier content of the key; only the two-header case of this is stated, in `ClaudeAnalyzer.EmptySectionIsDropped`.
- ClaudeAnalyzer.PreambleIsIntro: stated for text whose later headers do not reopen "intro"; a later "# Intro" header replaces the preamble, which `ClaudeAnalyzer.LastSectionWins` covers.
- IdeaAnalyzer.ComputeWeightedScore: the final `round(total, 1)` is not modelled, and scores are real numbers rather than floats.
- IdeaAnalyzer.AssessPatentRisk: the explanation text is modelled as its band, without the formatted count.
- VideoProcessor.ExtractFrames: requires `max_frames >= 1`. The source divides by `max_frames`, so 0 raises there. Frames are modelled by their indices; resizing and JPEG encoding are left out.
- VideoProcessor.TranscribeAudio: the removal of the audio file and the printed messages are left out. Python's `str(e)` of an exception is an input string.
- VideoProcessor.Suffix: follows `pathlib` on POSIX paths with '/' as the only separator. It does not normalise paths and does not handle a trailing '/'.
- MarketInsightsAnalyzer.Analyzer.PerformWebSearch: the URL quoting, the request headers, the timeout and the HTML parsing are left out. The page arrives as result blocks, and any failure of the request is `RequestFailed`.
- MarketInsightsAnalyzer.Analyzer.AnalyzeMarket: an exception that escapes a step is re-raised by the source and is not modelled.
- The competitor prompt's wording and the `known_competitors or 'None'` text inside it are not modelled.
- Text.Lower: the case mapping of Python's `lower`/`isupper` and JavaScript's `toLowerCase` covers ASCII letters only. The words the code looks for ("score", "large", "good" and the others) are ASCII, but a non-ASCII capital in a header line is not seen as upper case.
- IdeaAnalyzerPage.Rank: scores are real numbers; JavaScript's `NaN` is not modelled.
- MarketInsightsPage.Page.HandleInputChange: the event's field name is one of the eight form fields; a foreign `name` attribute would add a ninth key in the source.
- The request timeouts (120 s and the axios default), the async ordering of state updates, and `console.error` are not modelled. The server's `detail` is modelled as a string.
- IdeaAnalyzerPage.Page.HandleAnalyze: the request body posted is returned as an out-parameter rather than sent.
- The rendering (JSX, icons, the recharts pie and percentages, `toFixed`) is not modelled. Nor are `backend/main.py`, `VideoUploader.tsx`, `PersonaSelector.tsx`, the pitch-practice page and the landing components.

## Findings

| source | as written | input that shows it | evidently intended | confidence | as-written member | corrected member |
|---|---|---|---|---|---|---|
| backend/services/video_processor.py:85 | `video_path.replace(Path(video_path).suffix, ".wav")` replaces every occurrence of the suffix anywhere in the path, and with an empty suffix Python's `replace` puts ".wav" between all characters | "a/b" gives ".wava.wav/.wavb.wav"; "a.b/c.b" gives "a.wav/c.wav" | `Path(video_path).with_suffix(".wav")`: replace the file name's suffix only, or add ".wav" when there is none ("a/b.wav", "a.b/c.wav") | not executed | VideoProcessor.ExtensionlessPathIsMangled | VideoProcessor.AudioPathSuffix |

`VideoProcessor.DirectorySuffixIsReplaced` exhibits the second input. `VideoProcessor.TranscribeAudio` writes the audio where the code does, to `VideoProcessor.AudioPathAsWritten`. `VideoProcessor.AsWrittenAgrees` shows that this is the intended `VideoProcessor.AudioPath` whenever the suffix occurs only at the end of the path.

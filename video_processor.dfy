/** The deterministic parts of the video processor: which frame indices
    `extract_frames` keeps, and how `transcribe_audio` names the audio file and
    reports a missing ffmpeg. The capture device, the encoder, ffmpeg and the
    speech model are outside the model; what they report is an input here. */
module VideoProcessor {
  import opened Wrappers
  import opened Text
  import opened Seqs

  /** Frames sampled by default. */
  const DefaultMaxFrames := 10

  /** `max(1, total_frames // max_frames)`; for a positive divisor Python's floor
      division and Dafny's division agree, also on a negative frame count. */
  function Interval(totalFrames: int, maxFrames: int): (k: int)
    requires maxFrames >= 1
    ensures k >= 1
    ensures totalFrames >= maxFrames ==> k * maxFrames <= totalFrames
  {
    var q := totalFrames / maxFrames;
    if q >= 1 then q else 1
  }

  /** How many frames are kept: none for a reported count of 0, otherwise one per
      interval among the readable frames, at most `maxFrames`. */
  function KeptCount(totalFrames: int, readable: nat, maxFrames: int): (n: nat)
    requires maxFrames >= 1
    ensures n <= maxFrames
  {
    if totalFrames == 0 then 0
    else
      var k := Interval(totalFrames, maxFrames);
      var multiples := (readable + k - 1) / k;
      if multiples < maxFrames then multiples else maxFrames
  }

  /** The indices of the kept frames, in the order they are kept. */
  function Sampled(totalFrames: int, readable: nat, maxFrames: int): (r: seq<int>)
    requires maxFrames >= 1
    ensures |r| <= maxFrames
  {
    var k := Interval(totalFrames, maxFrames);
    seq(KeptCount(totalFrames, readable, maxFrames), j => j * k)
  }

  /** How many times the capture is read: never for a reported count of 0; else
      until the frame after the last kept one when the cap is reached, or until
      the first failed read. */
  function ReadCount(totalFrames: int, readable: nat, maxFrames: int): nat
    requires maxFrames >= 1
  {
    if totalFrames == 0 then 0
    else
      var k := Interval(totalFrames, maxFrames);
      var last := (maxFrames - 1) * k;
      MulGap(0, maxFrames - 1, k);
      if last < readable then last + 1 else readable + 1
  }

  /** The sampling loop of `extract_frames`. The capture yields `readable` frames
      before its first failed read, and reports `totalFrames` frames in all. The
      result lists the kept frame indices (the frames themselves are resized and
      JPEG-encoded) and how many readCalls were made. */
  method ExtractFrames(totalFrames: int, readable: nat, maxFrames: int) returns (kept: seq<int>, readCalls: nat)
    requires maxFrames >= 1
    ensures kept == Sampled(totalFrames, readable, maxFrames)
    ensures readCalls == ReadCount(totalFrames, readable, maxFrames)
    ensures totalFrames == 0 ==> kept == [] && readCalls == 0
    ensures |kept| <= maxFrames && readCalls <= readable + 1
  {
    kept := [];
    readCalls := 0;
    if totalFrames == 0 {
      return;
    }
    var interval := Interval(totalFrames, maxFrames);
    var frameCount := 0;
    while |kept| < maxFrames
      invariant 0 <= frameCount <= readable && readCalls == frameCount
      invariant |kept| <= maxFrames
      invariant forall j :: 0 <= j < |kept| ==> kept[j] == j * interval
      invariant frameCount <= |kept| * interval
      invariant |kept| > 0 ==> (|kept| - 1) * interval < frameCount
      invariant |kept| == maxFrames ==> frameCount == (maxFrames - 1) * interval + 1
      decreases readable - frameCount
    {
      readCalls := readCalls + 1;
      if frameCount >= readable {
        break;
      }
      SampleStep(frameCount, interval, |kept|);
      if frameCount % interval == 0 {
        kept := kept + [frameCount];
      }
      frameCount := frameCount + 1;
    }
    LoopExit(totalFrames, readable, maxFrames, |kept|, frameCount, readCalls);
  }

  /** Multiplying by a non-negative factor keeps order, and a gap of at least one
      becomes a gap of at least the factor. */
  lemma MulGap(a: int, b: int, k: int)
    requires k >= 0
    ensures a <= b ==> a * k <= b * k
    ensures a < b ==> a * k + k <= b * k
  {
    assert b * k - a * k == (b - a) * k;
    assert b * k - a * k - k == (b - a - 1) * k;
  }

  /** The quotient and remainder are the only ones with a remainder in range. */
  lemma DivUnique(x: int, k: int, q: int, r: int)
    requires k >= 1 && 0 <= r < k && x == q * k + r
    ensures x / k == q && x % k == r
  {
    var q', r' := x / k, x % k;
    assert x == q' * k + r' && 0 <= r' < k;
    MulGap(q, q', k);
    MulGap(q', q, k);
  }

  /** A multiple of the interval inside the open window is the next one to keep. */
  lemma NextMultiple(f: int, k: int, n: int)
    requires k >= 1 && f >= 0 && n >= 0 && f % k == 0
    requires f <= n * k && (n > 0 ==> (n - 1) * k < f)
    ensures f == n * k
  {
    var q := f / k;
    assert f == q * k + f % k;
    MulGap(q, n, k);
    MulGap(n, q, k);
    assert (n - 1) * k == n * k - k;
  }

  /** One turn of the sampling loop keeps its bounds on the frame counter: a
      multiple of the interval is the next index to keep, any other frame lies
      below it. */
  lemma SampleStep(f: int, k: int, n: int)
    requires k >= 1 && f >= 0 && n >= 0
    requires f <= n * k && (n > 0 ==> (n - 1) * k < f)
    ensures f % k == 0 ==> f == n * k && f + 1 <= (n + 1) * k && n * k < f + 1
    ensures f % k != 0 ==> f + 1 <= n * k && (n > 0 ==> (n - 1) * k < f + 1)
  {
    if f % k == 0 {
      NextMultiple(f, k, n);
      assert (n + 1) * k == n * k + k;
    } else {
      NotMultiple(f, k, n);
    }
  }

  lemma NotMultiple(f: int, k: int, n: int)
    requires k >= 1 && f >= 0 && n >= 0 && f % k != 0 && f <= n * k
    ensures f + 1 <= n * k
  {
    DivUnique(n * k, k, n, 0);
  }

  /** `q` multiples of `k` lie below `f` exactly when `(q - 1) * k < f <= q * k`. */
  lemma CeilDiv(f: int, k: int, q: int)
    requires k >= 1 && f >= 0 && q >= 0
    requires f <= q * k && (q > 0 ==> (q - 1) * k < f) && (q == 0 ==> f == 0)
    ensures (f + k - 1) / k == q
  {
    assert (q - 1) * k == q * k - k;
    DivUnique(f + k - 1, k, q, f + k - 1 - q * k);
  }

  /** The number of multiples of `k` below `x`, and where the last one lies. */
  lemma Multiples(x: int, k: int)
    requires k >= 1 && x >= 0
    ensures var d := (x + k - 1) / k; d >= 0 && x <= d * k && (d - 1) * k < x
  {
    var d := (x + k - 1) / k;
    var m := (x + k - 1) % k;
    assert x + k - 1 == d * k + m && 0 <= m < k;
    assert (d - 1) * k == d * k - k;
    MulGap(d, 0, k);
  }

  lemma LoopExit(totalFrames: int, readable: nat, maxFrames: int, n: int, f: int, readCalls: nat)
    requires maxFrames >= 1 && totalFrames != 0
    requires 0 <= f <= readable && 0 <= n <= maxFrames
    requires var k := Interval(totalFrames, maxFrames);
      f <= n * k && (n > 0 ==> (n - 1) * k < f) && (n == maxFrames ==> f == (maxFrames - 1) * k + 1)
    requires n == maxFrames || (f == readable && readCalls == f + 1)
    requires n == maxFrames ==> readCalls == f
    ensures n == KeptCount(totalFrames, readable, maxFrames)
    ensures readCalls == ReadCount(totalFrames, readable, maxFrames)
  {
    var k := Interval(totalFrames, maxFrames);
    var last := (maxFrames - 1) * k;
    var d := (readable + k - 1) / k;
    Multiples(readable, k);
    MulGap(d, maxFrames, k);
    MulGap(maxFrames - 1, d - 1, k);
    MulGap(n - 1, maxFrames - 1, k);
    MulGap(0, maxFrames - 1, k);
    assert (maxFrames - 1) * k == maxFrames * k - k;
    if n < maxFrames {
      CeilDiv(f, k, n);
    }
  }

  /** Frame `i` is kept exactly when it was read, it is a multiple of the interval,
      and fewer than `maxFrames` frames were kept before it. */
  lemma SampledMembership(totalFrames: int, readable: nat, maxFrames: int, i: int)
    requires maxFrames >= 1 && totalFrames != 0
    ensures var k := Interval(totalFrames, maxFrames);
      i in Sampled(totalFrames, readable, maxFrames) <==>
        0 <= i < readable && i % k == 0 && i / k < maxFrames
  {
    var k := Interval(totalFrames, maxFrames);
    if i in Sampled(totalFrames, readable, maxFrames) {
      SampledOnlyMultiples(totalFrames, readable, maxFrames, i);
    }
    if 0 <= i < readable && i % k == 0 && i / k < maxFrames {
      SampledAllMultiples(totalFrames, readable, maxFrames, i);
    }
  }

  lemma SampledOnlyMultiples(totalFrames: int, readable: nat, maxFrames: int, i: int)
    requires maxFrames >= 1 && totalFrames != 0
    requires i in Sampled(totalFrames, readable, maxFrames)
    ensures var k := Interval(totalFrames, maxFrames);
      0 <= i < readable && i % k == 0 && i / k < maxFrames
  {
    var k := Interval(totalFrames, maxFrames);
    var s := Sampled(totalFrames, readable, maxFrames);
    var d := (readable + k - 1) / k;
    Multiples(readable, k);
    var j :| 0 <= j < |s| && s[j] == i;
    assert i == j * k;
    DivUnique(i, k, j, 0);
    MulGap(j, d - 1, k);
    MulGap(0, j, k);
  }

  lemma SampledAllMultiples(totalFrames: int, readable: nat, maxFrames: int, i: int)
    requires maxFrames >= 1 && totalFrames != 0
    requires var k := Interval(totalFrames, maxFrames);
      0 <= i < readable && i % k == 0 && i / k < maxFrames
    ensures i in Sampled(totalFrames, readable, maxFrames)
  {
    var k := Interval(totalFrames, maxFrames);
    var s := Sampled(totalFrames, readable, maxFrames);
    var j := i / k;
    assert i == j * k;
    BelowMultiples(readable, k, j);
    assert j < |s|;
    assert s[j] == i;
  }

  /** A multiple of `k` below `x` is among the first `(x + k - 1) / k` multiples. */
  lemma BelowMultiples(x: int, k: int, j: int)
    requires k >= 1 && 0 <= j * k < x
    ensures 0 <= j < (x + k - 1) / k
  {
    Multiples(x, k);
    MulGap((x + k - 1) / k, j, k);
    MulGap(j, 0, k);
  }

  /** The kept indices strictly increase. */
  lemma SampledIncreasing(totalFrames: int, readable: nat, maxFrames: int)
    requires maxFrames >= 1
    ensures var s := Sampled(totalFrames, readable, maxFrames);
      forall a, b :: 0 <= a < b < |s| ==> s[a] < s[b]
  {
    var k := Interval(totalFrames, maxFrames);
    var s := Sampled(totalFrames, readable, maxFrames);
    forall a, b | 0 <= a < b < |s| ensures s[a] < s[b] {
      assert s[a] == a * k && s[b] == b * k;
      MulGap(a, b, k);
    }
  }

  /** The first frame is always kept when it can be read. */
  lemma FirstFrameKept(totalFrames: int, readable: nat, maxFrames: int)
    requires maxFrames >= 1 && totalFrames != 0 && readable >= 1
    ensures |Sampled(totalFrames, readable, maxFrames)| >= 1
    ensures Sampled(totalFrames, readable, maxFrames)[0] == 0
  {
    var k := Interval(totalFrames, maxFrames);
    assert (readable + k - 1) / k >= 1 by {
      var d := (readable + k - 1) / k;
      var m := (readable + k - 1) % k;
      assert readable + k - 1 == d * k + m && m < k;
    }
  }

  /** A video whose frames can all be read and which has at least `maxFrames`
      frames yields exactly `maxFrames` frames. */
  lemma FullVideoGivesMaxFrames(totalFrames: int, readable: nat, maxFrames: int)
    requires maxFrames >= 1 && totalFrames >= maxFrames && readable >= totalFrames
    ensures |Sampled(totalFrames, readable, maxFrames)| == maxFrames
  {
    var k := Interval(totalFrames, maxFrames);
    var d := (readable + k - 1) / k;
    Multiples(readable, k);
    MulGap(d, maxFrames, k);
    assert k * maxFrames == maxFrames * k;
  }

  /** The position of the last `c` among the first `n` characters of `s`, or -1. */
  function LastIndexBefore(s: string, c: char, n: int): (i: int)
    requires 0 <= n <= |s|
    ensures -1 <= i < n
    ensures i >= 0 ==> s[i] == c
    ensures forall j :: i < j < n ==> s[j] != c
  {
    if n == 0 then -1
    else if s[n - 1] == c then n - 1
    else LastIndexBefore(s, c, n - 1)
  }

  /** Python's `str.rfind` for one character. */
  function LastIndexOf(s: string, c: char): (i: int)
    ensures -1 <= i < |s|
    ensures i >= 0 ==> s[i] == c
    ensures forall j :: i < j < |s| ==> s[j] != c
  {
    LastIndexBefore(s, c, |s|)
  }

  /** The final component of a path: everything after its last '/'. */
  function FileName(path: string): (r: string)
    ensures '/' !in r && EndsWith(path, r)
  {
    path[LastIndexOf(path, '/') + 1..]
  }

  /** `pathlib.PurePath.suffix`: the final component from its last '.', provided
      that dot is neither the first nor the last character of the component. */
  function Suffix(path: string): (r: string)
    ensures EndsWith(path, r)
    ensures r != [] ==> |r| >= 2 && r[0] == '.' && '/' !in r
    ensures r != [] ==> |r| < |FileName(path)|
  {
    var name := FileName(path);
    var i := LastIndexOf(name, '.');
    if 0 < i < |name| - 1 then name[i..] else []
  }

  /** The audio path as `transcribe_audio` derives it: every occurrence of the
      video path's suffix is replaced by ".wav", with Python's `str.replace`. */
  function AudioPathAsWritten(videoPath: string): (r: string)
    ensures Suffix(videoPath) == [] ==> |r| == 5 * |videoPath| + 4
  {
    PyReplace(videoPath, Suffix(videoPath), ".wav")
  }

  /** A path whose file name has no suffix: the empty suffix matches at every
      position, so ".wav" is put between all characters, directories included. */
  lemma ExtensionlessPathIsMangled()
    ensures Suffix("a/b") == []
    ensures AudioPathAsWritten("a/b") == ".wava.wav/.wavb.wav"
  {
    var p := "a/b";
    assert LastIndexOf(p, '/') == 1;
    assert FileName(p) == "b";
    assert LastIndexOf("b", '.') == -1;
    assert p[1..] == "/b" && p[1..][1..] == "b" && p[1..][1..][1..] == [];
  }

  /** A directory with the same extension as the file is renamed as well. */
  lemma DirectorySuffixIsReplaced()
    ensures Suffix("a.b/c.b") == ".b"
    ensures AudioPathAsWritten("a.b/c.b") == "a.wav/c.wav"
    ensures AudioPath("a.b/c.b") == "a.b/c.wav"
  {
    ExampleSuffix();
    ExampleReplace();
  }

  lemma ExampleSuffix()
    ensures Suffix("a.b/c.b") == ".b"
  {
    var p := "a.b/c.b";
    assert LastIndexBefore(p, '/', 5) == 3;
    assert FileName(p) == "c.b";
    assert LastIndexOf("c.b", '.') == 1;
  }

  lemma ExampleReplace()
    ensures PyReplace("a.b/c.b", ".b", ".wav") == "a.wav/c.wav"
  {
    var p, suf := "a.b/c.b", ".b";
    var t := p[3..];
    assert PyReplace(p[5..], suf, ".wav") == ".wav" by {
      assert p[5..] == suf && p[5..][2..] == [];
    }
    assert PyReplace(t, suf, ".wav") == "/c.wav" by {
      assert t[1..] == "c.b" && t[1..][1..] == p[5..];
    }
    assert p[1..] == ".b/c.b" && p[1..][2..] == t;
  }

  /** The evidently intended audio path, `Path.with_suffix(".wav")`: the suffix of
      the file name, if any, is replaced by ".wav" and nothing else changes. */
  function AudioPath(videoPath: string): (r: string)
    ensures EndsWith(r, ".wav")
    ensures |r| == |videoPath| - |Suffix(videoPath)| + 4
    ensures r[..|videoPath| - |Suffix(videoPath)|] == videoPath[..|videoPath| - |Suffix(videoPath)|]
  {
    videoPath[..|videoPath| - |Suffix(videoPath)|] + ".wav"
  }

  /** The intended audio path does carry the suffix ".wav", whenever the video
      path names a file at all. */
  lemma AudioPathSuffix(videoPath: string)
    requires FileName(videoPath) != []
    ensures Suffix(AudioPath(videoPath)) == ".wav"
  {
    var suf := Suffix(videoPath);
    var stem := videoPath[..|videoPath| - |suf|];
    assert FileName(stem) != [] by {
      assert videoPath == stem + suf;
      FileNameAppend(stem, suf);
    }
    WavAfterStem(stem);
  }

  lemma WavAfterStem(stem: string)
    requires FileName(stem) != []
    ensures Suffix(stem + ".wav") == ".wav"
  {
    var base := FileName(stem);
    var name := base + ".wav";
    FileNameAppend(stem, ".wav");
    assert LastIndexOf(name, '.') == |base| by {
      LastIndexConcat(base, ".wav", '.', 4);
      assert LastIndexBefore(".wav", '.', 4) == 0;
    }
    assert name[|base|..] == ".wav";
  }

  /** A file name grows by whatever '/'-free text is appended to its path. */
  lemma FileNameAppend(s: string, t: string)
    requires '/' !in t
    ensures FileName(s + t) == FileName(s) + t
  {
    var i := LastIndexOf(s, '/');
    assert LastIndexOf(s + t, '/') == i by {
      LastIndexConcat(s, t, '/', |t|);
      assert LastIndexBefore(t, '/', |t|) == -1;
      assert |s + t| == |s| + |t|;
    }
    assert (s + t)[i + 1..] == s[i + 1..] + t;
  }

  /** Where the last `c` of a concatenation lies, counting `m` characters of `t`. */
  lemma {:induction false} LastIndexConcat(s: string, t: string, c: char, m: int)
    requires 0 <= m <= |t|
    ensures LastIndexBefore(s + t, c, |s| + m) ==
      if LastIndexBefore(t, c, m) >= 0 then |s| + LastIndexBefore(t, c, m) else LastIndexBefore(s, c, |s|)
    decreases m
  {
    if m == 0 {
      LastIndexPrefix(s, t, c, |s|);
    } else {
      LastIndexConcat(s, t, c, m - 1);
      assert (s + t)[|s| + m - 1] == t[m - 1];
    }
  }

  /** Looking only at the first `n` characters, what follows them does not matter. */
  lemma {:induction false} LastIndexPrefix(s: string, t: string, c: char, n: int)
    requires 0 <= n <= |s|
    ensures LastIndexBefore(s + t, c, n) == LastIndexBefore(s, c, n)
    decreases n
  {
    if n > 0 {
      LastIndexPrefix(s, t, c, n - 1);
      assert (s + t)[n - 1] == s[n - 1];
    }
  }

  /** Where the suffix occurs only at the end, the code as written agrees with
      the intended path. */
  lemma AsWrittenAgrees(videoPath: string)
    requires Suffix(videoPath) != []
    requires forall i :: 0 <= i < |videoPath| - |Suffix(videoPath)| ==> !OccursAt(videoPath, Suffix(videoPath), i)
    ensures AudioPathAsWritten(videoPath) == AudioPath(videoPath)
  {
    var suf := Suffix(videoPath);
    var n := |videoPath| - |suf|;
    ReplaceCopiesUnmatched(videoPath, suf, ".wav", 0, n);
    assert videoPath[0..] == videoPath && videoPath[0..n] == videoPath[..n];
    assert videoPath[n..] == suf;
    ReplaceWhole(suf, ".wav");
  }

  /** A string that is exactly the pattern is replaced as a whole. */
  lemma ReplaceWhole(pattern: string, replacement: string)
    requires pattern != []
    ensures PyReplace(pattern, pattern, replacement) == replacement
  {
    assert pattern[|pattern|..] == [];
  }

  /** `replace` copies the characters from `j` to `k` when no match starts among them. */
  lemma {:induction false} ReplaceCopiesUnmatched(s: string, pattern: string, replacement: string, j: int, k: int)
    requires pattern != [] && 0 <= j <= k <= |s|
    requires forall i :: j <= i < k ==> !OccursAt(s, pattern, i)
    ensures PyReplace(s[j..], pattern, replacement) == s[j..k] + PyReplace(s[k..], pattern, replacement)
    decreases k - j
  {
    if j < k {
      var rest := PyReplace(s[k..], pattern, replacement);
      assert PyReplace(s[j..], pattern, replacement) == [s[j]] + PyReplace(s[j + 1..], pattern, replacement) by {
        NoMatchHere(s, pattern, j);
        var t := s[j..];
        ReplaceSkip(t, pattern, replacement);
        assert t[0] == s[j] && t[1..] == s[j + 1..];
      }
      assert s[j..k] == [s[j]] + s[j + 1..k];
      ReplaceCopiesUnmatched(s, pattern, replacement, j + 1, k);
      Associative([s[j]], s[j + 1..k], rest);
    } else {
      assert s[j..k] == [];
    }
  }

  lemma ReplaceSkip(t: string, pattern: string, replacement: string)
    requires t != [] && pattern != [] && !StartsWith(t, pattern)
    ensures PyReplace(t, pattern, replacement) == [t[0]] + PyReplace(t[1..], pattern, replacement)
  {
  }

  /** No match at `j` means the remainder from `j` does not start with the pattern. */
  lemma NoMatchHere(s: string, pattern: string, j: int)
    requires 0 <= j < |s| && !OccursAt(s, pattern, j)
    ensures !StartsWith(s[j..], pattern)
  {
    if |pattern| <= |s[j..]| {
      assert s[j..][..|pattern|] == s[j..j + |pattern|];
    }
  }

  /** The message returned, in brackets, when ffmpeg cannot be found. */
  const NoFfmpegMessage := "FFmpeg is not installed or not in PATH. Please install FFmpeg to enable audio transcription."

  const FfmpegErrorPrefix := "Audio transcription failed - FFmpeg error: "
  const FfmpegMissingMessage := "FFmpeg not found. Please install FFmpeg and add it to your PATH."
  const FailurePrefix := "Audio transcription failed: "

  /** The ffmpeg invocation that extracts 16 kHz mono PCM audio to `audioPath`. */
  function FfmpegCommand(ffmpeg: string, videoPath: string, audioPath: string): (cmd: seq<string>)
    ensures |cmd| == 12 && cmd[0] == ffmpeg && cmd[2] == videoPath && cmd[10] == audioPath
  {
    [ffmpeg, "-i", videoPath, "-vn", "-acodec", "pcm_s16le", "-ar", "16000", "-ac", "1", audioPath, "-y"]
  }

  /** What running ffmpeg and the speech model came to. */
  datatype Outcome =
    | Transcribed(segments: seq<string>)
    | ProcessFailed(stderr: string, error: string)
    | ExecutableMissing
    | OtherFailure(error: string)

  /** What `transcribe_audio` does: the command it runs, if any, and the text it returns. */
  datatype Transcription = Transcription(command: Option<seq<string>>, text: string)

  function Bracketed(message: string): (r: string)
    ensures |r| >= 2 && r[0] == '[' && r[|r| - 1] == ']'
  {
    "[" + message + "]"
  }

  /** The text returned once ffmpeg has been run: the joined, stripped segments,
      or a bracketed message naming the failure. */
  function ResultText(outcome: Outcome): (r: string)
    ensures outcome.Transcribed? ==> r == Strip(Join(outcome.segments, " "))
    ensures !outcome.Transcribed? ==> |r| >= 2 && r[0] == '[' && r[|r| - 1] == ']'
  {
    match outcome
    case Transcribed(segments) => Strip(Join(segments, " "))
    case ProcessFailed(stderr, error) => Bracketed(FfmpegErrorPrefix + (if stderr != "" then stderr else error))
    case ExecutableMissing => Bracketed(FfmpegMissingMessage)
    case OtherFailure(error) => Bracketed(FailurePrefix + error)
  }

  /** `transcribe_audio`, with the location of ffmpeg and the outcome of running it
      as inputs. The audio is written to `AudioPathAsWritten`, the name the string
      replacement gives; it is the intended `AudioPath` whenever the suffix occurs
      only at the end of the path (`AsWrittenAgrees`). */
  function TranscribeAudio(ffmpeg: Option<string>, videoPath: string, outcome: Outcome): (r: Transcription)
    ensures ffmpeg.None? ==> r.command.None? && r.text == Bracketed(NoFfmpegMessage)
    ensures ffmpeg.Some? ==> r.command.Some? && |r.command.value| == 12 && r.command.value[10] == AudioPathAsWritten(videoPath)
    ensures ffmpeg.Some? ==> r.text == ResultText(outcome)
  {
    match ffmpeg
    case None => Transcription(None, Bracketed(NoFfmpegMessage))
    case Some(exe) => Transcription(Some(FfmpegCommand(exe, videoPath, AudioPathAsWritten(videoPath))), ResultText(outcome))
  }

  /** A transcription that succeeded has no surrounding whitespace, and so is told
      apart from the bracketed error messages by its first character only when it
      does not itself start with '['. */
  lemma TranscriptStripped(ffmpeg: string, videoPath: string, segments: seq<string>)
    ensures var t := TranscribeAudio(Some(ffmpeg), videoPath, Transcribed(segments)).text;
      t == [] || (!IsPyWhitespace(t[0]) && !IsPyWhitespace(t[|t| - 1]))
  {
  }
}

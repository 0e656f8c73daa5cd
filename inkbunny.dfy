/** The Inkbunny site checker (src/sourceChecker/sites/InkbunnySourceChecker.js):
    it recognises Inkbunny submission links, scores each file of the
    submission against the post, and reports the best one. */
module Inkbunny {
  import opened Common
  import opened CheckData
  import Webm

  /** One regular expression of `SUPPORTED`, seen through `exec`: the first
      capture group when it matches the source. */
  type Pattern = string -> Option<string>

  /** `supportsSource`: some pattern matches (`test`). */
  predicate Supported(patterns: seq<Pattern>, source: string) {
    exists i | 0 <= i < |patterns| :: patterns[i](source).Some?
  }

  /** `getIdFromSource`: the capture of the first pattern that matches; a
      source is supported exactly when it yields an id. */
  function IdFromSource(patterns: seq<Pattern>, source: string): (r: Option<string>)
    ensures r.None? <==> !Supported(patterns, source)
    ensures r.Some? ==> exists i | 0 <= i < |patterns| ::
      patterns[i](source) == r && forall j | 0 <= j < i :: patterns[j](source).None?
    decreases patterns
  {
    if patterns == [] then None
    else if patterns[0](source).Some? then patterns[0](source)
    else
      var r := IdFromSource(patterns[1..], source);
      assert forall i | 1 <= i < |patterns| :: patterns[i] == patterns[1..][i - 1];
      assert r.Some? ==> exists i | 1 <= i < |patterns| ::
        patterns[i](source) == r && forall j | 0 <= j < i :: patterns[j](source).None?;
      r
  }

  /** A file of a submission: `mimetype`, `full_file_md5`, `full_size_x`, `full_size_y`. */
  datatype File = File(mimetype: string, md5: string, width: int, height: int)

  /** The submission files Inkbunny returns for an id; `None` when there is no
      first submission or the request throws. */
  type Lookup = string -> Option<seq<File>>

  function Score(md5Match: bool, dimensionMatch: bool, fileTypeMatch: bool): int {
    (if md5Match then 1000 else 0) + (if dimensionMatch then 500 else 0) + (if fileTypeMatch then 1 else 0)
  }

  /** The score ranks an md5 match above a dimension match above a file-type
      match: a higher score is exactly a lexicographically better triple of flags. */
  lemma {:induction false} ScoreRanks(m1: bool, d1: bool, f1: bool, m2: bool, d2: bool, f2: bool)
    ensures Score(m1, d1, f1) > Score(m2, d2, f2) <==>
      (m1 && !m2) || (m1 == m2 && d1 && !d2) || (m1 == m2 && d1 == d2 && f1 && !f2)
  {
  }

  /** The score decodes back to its flags. */
  lemma {:induction false} ScoreInjective(m1: bool, d1: bool, f1: bool, m2: bool, d2: bool, f2: bool)
    requires Score(m1, d1, f1) == Score(m2, d2, f2)
    ensures m1 == m2 && d1 == d2 && f1 == f2
  {
    ScoreRanks(m1, d1, f1, m2, d2, f2);
    ScoreRanks(m2, d2, f2, m1, d1, f1);
  }

  /** The match record of one file whose mimetype maps to `ext`. */
  function CandidateOf(post: Entry, file: File, ext: string): Report {
    var md5Match := file.md5 == post.md5;
    var dimensionMatch := file.width == post.width && file.height == post.height;
    var fileTypeMatch := ext == post.fileType;
    Candidate(md5Match, dimensionMatch, fileTypeMatch, ext, file.width, file.height,
              Score(md5Match, dimensionMatch, fileTypeMatch))
  }

  function Candidates(post: Entry, files: seq<File>): (r: seq<Report>)
    requires forall i | 0 <= i < |files| :: files[i].mimetype in Webm.MimeToExtension
    ensures |r| == |files|
    ensures forall i | 0 <= i < |files| ::
      r[i] == CandidateOf(post, files[i], Webm.MimeToExtension[files[i].mimetype])
    decreases |files|
  {
    if files == [] then []
    else
      Candidates(post, files[..|files| - 1]) +
      [CandidateOf(post, files[|files| - 1], Webm.MimeToExtension[files[|files| - 1].mimetype])]
  }

  function ScoreOf(r: Report): int {
    if r.Candidate? then r.score else 0
  }

  /** The element a stable descending sort by score puts first: the earliest
      of the highest-scoring records. */
  function BestIndex(cands: seq<Report>): (r: nat)
    requires |cands| > 0
    ensures r < |cands|
    ensures forall j | 0 <= j < |cands| :: ScoreOf(cands[j]) <= ScoreOf(cands[r])
    ensures forall j | 0 <= j < r :: ScoreOf(cands[j]) < ScoreOf(cands[r])
    decreases |cands|
  {
    if |cands| == 1 then 0
    else
      var b := BestIndex(cands[..|cands| - 1]);
      if ScoreOf(cands[|cands| - 1]) > ScoreOf(cands[b]) then |cands| - 1 else b
  }

  /** What `_internalProcessPost` reports for one source: the error record
      when there is no id, no submission, no file, or any file whose mimetype
      has no extension; otherwise the best candidate. */
  function Assess(post: Entry, source: string, patterns: seq<Pattern>, lookup: Lookup): Report {
    var id := IdFromSource(patterns, source);
    if id.None? || id.value == "" then Unknown
    else
      match lookup(id.value)
      case None => Unknown
      case Some(files) =>
        if |files| == 0 || exists i | 0 <= i < |files| :: files[i].mimetype !in Webm.MimeToExtension then Unknown
        else
          var cands := Candidates(post, files);
          cands[BestIndex(cands)]
  }

  /** `_internalProcessPost`: builds `matchData` file by file, giving up at the
      first file with an unknown mimetype, and takes the best of it. */
  method InternalProcessPost(post: Entry, source: string, patterns: seq<Pattern>, lookup: Lookup)
    returns (r: Report)
    ensures r == Assess(post, source, patterns, lookup)
  {
    var id := IdFromSource(patterns, source);
    if id.None? || id.value == "" {
      return Unknown;
    }
    var submission := lookup(id.value);
    if submission.None? {
      return Unknown;
    }
    var files := submission.value;
    var matchData: seq<Report> := [];
    var i := 0;
    while i < |files|
      invariant 0 <= i <= |files|
      invariant forall j | 0 <= j < i :: files[j].mimetype in Webm.MimeToExtension
      invariant matchData == Candidates(post, files[..i])
    {
      if files[i].mimetype !in Webm.MimeToExtension {
        return Unknown;
      }
      var fileType := Webm.MimeToExtension[files[i].mimetype];
      assert files[..i + 1][..i] == files[..i];
      matchData := matchData + [CandidateOf(post, files[i], fileType)];
      i := i + 1;
    }
    assert files[..i] == files;
    if |matchData| > 0 {
      return matchData[BestIndex(matchData)];
    }
    return Unknown;
  }

  /** `processPost`: a report for every supported source that the stored data
      does not already cover. */
  method ProcessPost(post: Entry, current: Option<map<string, Report>>, patterns: seq<Pattern>, lookup: Lookup)
    returns (data: map<string, Report>)
    ensures forall s :: s in data <==>
      s in post.sources && Supported(patterns, s) && !(current.Some? && s in current.value)
    ensures forall s | s in data :: data[s] == Assess(post, s, patterns, lookup)
  {
    data := map[];
    var i := 0;
    while i < |post.sources|
      invariant 0 <= i <= |post.sources|
      invariant forall s :: s in data <==>
        s in post.sources[..i] && Supported(patterns, s) && !(current.Some? && s in current.value)
      invariant forall s | s in data :: data[s] == Assess(post, s, patterns, lookup)
    {
      var source := post.sources[i];
      assert post.sources[..i + 1] == post.sources[..i] + [source];
      if current.Some? && source in current.value {
        i := i + 1;
        continue;
      }
      if IdFromSource(patterns, source).Some? {
        var report := InternalProcessPost(post, source, patterns, lookup);
        data := data[source := report];
      }
      i := i + 1;
    }
    assert post.sources[..i] == post.sources;
  }
}

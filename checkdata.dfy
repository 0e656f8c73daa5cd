/** The values the source-check queue hands to site checkers and stores back:
    the queued post (the `toQueue` object of src/sourceChecker/SourceCheckerManager.js)
    and the per-source report a checker produces. */
module CheckData {

  /** A queued post: `_id`, `createdAt`, `sources`, `width`, `height`,
      `fileType`, `fileSize` and `md5`; `checked` is always false when queued. */
  datatype Entry = Entry(id: int, createdAt: int, sources: seq<string>, width: int, height: int,
                         fileType: string, fileSize: int, md5: string)

  /** What a checker reports for one source: the error record
      `{unknown, error, md5Match: false, dimensionMatch: false, fileTypeMatch: false}`,
      or the best-scoring candidate file with its match flags, extension,
      dimensions and score. */
  datatype Report =
    | Unknown
    | Candidate(md5Match: bool, dimensionMatch: bool, fileTypeMatch: bool,
                fileType: string, width: int, height: int, score: int)
}

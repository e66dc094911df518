/**
 * The import run: the photographer check, the candidate listing, and the
 * sequential loop over the candidates. The loop has no per-file error
 * handling, so the first file whose processing throws ends the whole run.
 */
module Importer {
  import opened Wrappers
  import Candidates
  import Coordinates
  import Record

  /** Reads a file and loads its EXIF; `None` when either throws. */
  type Reader = string -> Option<Record.Capture>

  /**
   * The reverse-geocoding service. Every file issues its own request, so the
   * reply may depend on the file as well as on the query.
   */
  type Geocoder = (string, Coordinates.GeoQuery) -> Coordinates.GeoReply

  /** The service as seen by the processing of the file `name`. */
  function ForFile(geocode: Geocoder, name: string): Coordinates.GeoQuery -> Coordinates.GeoReply {
    q => geocode(name, q)
  }

  /** The loop's progress: every file done, or the records before the file that threw. */
  datatype Pass =
    | Finished(records: seq<Record.ImageRecord>)
    | Stopped(done: seq<Record.ImageRecord>, file: string, error: Record.FileError)

  datatype RunOutcome = Refused(error: Record.ConfigError) | Ran(pass: Pass)

  /**
   * One iteration of the loop: read the file, then process its capture. A
   * failed read and a bad timestamp are the two ways an iteration throws.
   */
  function ProcessOne(s: Record.Settings, android: map<string, string>, read: Reader, geocode: Geocoder,
                      name: string): (res: Result<Record.ImageRecord, Record.FileError>)
    ensures read(name).None? ==> res == Failure(Record.Unreadable)
    ensures read(name).Some? ==> res == Record.ProcessFile(s, android, read(name).value, ForFile(geocode, name))
    ensures res.Failure? && res.error.Unreadable? <==> read(name).None?
    ensures res.Failure? && read(name).Some? ==>
      res.error == Record.BadTimestamp(read(name).value.exif.dateTimeOriginal.value)
    ensures res.Success? ==>
      && read(name).Some?
      && res.value.id == read(name).value.checksum
      && res.value.camera == read(name).value.exif.model
      && res.value.photographer == s.photographer
  {
    match read(name)
    case None => Failure(Record.Unreadable)
    case Some(c) => Record.ProcessFile(s, android, c, ForFile(geocode, name))
  }

  /**
   * The `for ... of` loop: files are processed in order and an exception
   * leaves the later files untouched.
   */
  function ProcessAll(s: Record.Settings, android: map<string, string>, read: Reader, geocode: Geocoder,
                      files: seq<string>): (p: Pass)
    ensures p.Finished? ==> |p.records| == |files|
    ensures p.Finished? ==> forall i :: 0 <= i < |files| ==>
      ProcessOne(s, android, read, geocode, files[i]) == Success(p.records[i])
    ensures p.Stopped? ==> |p.done| < |files| && p.file == files[|p.done|]
    ensures p.Stopped? ==> ProcessOne(s, android, read, geocode, p.file) == Failure(p.error)
    ensures p.Stopped? ==> forall i :: 0 <= i < |p.done| ==>
      ProcessOne(s, android, read, geocode, files[i]) == Success(p.done[i])
  {
    if |files| == 0 then Finished([])
    else
      match ProcessOne(s, android, read, geocode, files[0])
      case Failure(e) => Stopped([], files[0], e)
      case Success(rec) =>
        match ProcessAll(s, android, read, geocode, files[1..])
        case Finished(rs) => Finished([rec] + rs)
        case Stopped(d, f, e) => Stopped([rec] + d, f, e)
  }

  /** A whole run over a directory listing. */
  function Run(o: Record.Options, entries: seq<Candidates.DirEntry>, android: map<string, string>,
               read: Reader, geocode: Geocoder): (out: RunOutcome)
    ensures out.Refused? <==> o.photographer.None? || o.photographer.value == ""
    // The next two clauses are corollaries of the last one and the contract of `ProcessAll`.
    ensures out.Ran? && out.pass.Finished? ==> |out.pass.records| == |Candidates.CandidateFiles(entries)|
    ensures out.Ran? && out.pass.Stopped? ==> out.pass.file in Candidates.CandidateFiles(entries)
    ensures out.Ran? ==>
      out.pass == ProcessAll(Record.CheckOptions(o).value, android, read, geocode, Candidates.CandidateFiles(entries))
  {
    match Record.CheckOptions(o)
    case Failure(e) => Refused(e)
    case Success(s) => Ran(ProcessAll(s, android, read, geocode, Candidates.CandidateFiles(entries)))
  }

  /** A run stops early exactly when some candidate file throws, and then at the first such file. */
  lemma StopsAtFirstFailure(s: Record.Settings, android: map<string, string>,
                                               read: Reader, geocode: Geocoder, files: seq<string>)
    ensures ProcessAll(s, android, read, geocode, files).Stopped? <==>
      exists i :: 0 <= i < |files| && ProcessOne(s, android, read, geocode, files[i]).Failure?
    ensures var p := ProcessAll(s, android, read, geocode, files);
      p.Stopped? ==> forall i :: 0 <= i < |p.done| ==> ProcessOne(s, android, read, geocode, files[i]).Success?
  {
  }
}

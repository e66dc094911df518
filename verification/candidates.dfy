/**
 * Selection of the files to import from a directory listing: every entry
 * that is not a directory and whose name does not start with a dot, in
 * listing order.
 */
module Candidates {
  import Text

  /** One entry of `readdir(..., { withFileTypes: true })`. */
  datatype DirEntry = DirEntry(name: string, isDirectory: bool)

  predicate IsCandidate(e: DirEntry) {
    !e.isDirectory && !Text.StartsWith(e.name, ".")
  }

  /** The names of the candidate entries, in the order of the listing. */
  function CandidateFiles(entries: seq<DirEntry>): (names: seq<string>)
    ensures |names| <= |entries|
    ensures forall n :: n in names ==> !Text.StartsWith(n, ".")
    ensures forall n :: n in names <==>
      exists i :: 0 <= i < |entries| && IsCandidate(entries[i]) && entries[i].name == n
  {
    if |entries| == 0 then []
    else
      var rest := CandidateFiles(entries[1..]);
      assert forall i :: 0 < i < |entries| ==> entries[1..][i - 1] == entries[i];
      if IsCandidate(entries[0]) then [entries[0].name] + rest else rest
  }

  /**
   * Selection distributes over concatenation of listings; together with its
   * value on a single entry (that entry's name if it is a candidate, nothing
   * otherwise) this pins the result down as the in-order subsequence.
   */
  lemma {:induction false} CandidateFilesAppend(a: seq<DirEntry>, b: seq<DirEntry>)
    ensures CandidateFiles(a + b) == CandidateFiles(a) + CandidateFiles(b)
  {
    if |a| > 0 {
      assert (a + b)[1..] == a[1..] + b;
      CandidateFilesAppend(a[1..], b);
    } else {
      assert a + b == b;
    }
  }

  /** A single entry is kept exactly when it is a candidate. */
  lemma CandidateFilesSingle(e: DirEntry)
    ensures CandidateFiles([e]) == if IsCandidate(e) then [e.name] else []
  {
  }
}

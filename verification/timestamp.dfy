/**
 * Normalisation of the EXIF `DateTimeOriginal` value. The importer searches
 * the value, anywhere in it, for four digits, a colon, two digits, a colon,
 * two digits, one whitespace character and a `HH:MM:SS` time, and rebuilds
 * the leftmost such match as `YYYY-MM-DDTHH:MM:SS`; a non-empty value with no
 * match makes the destructuring of the failed match throw.
 */
module Timestamp {
  import opened Wrappers
  import Text

  /** Width of every match: the pattern has no variable-length part. */
  const Width: nat := 19

  /** What the pattern accepts at offset `k` of a match. */
  predicate Fits(k: nat, c: char) {
    if k == 4 || k == 7 || k == 13 || k == 16 then c == ':'
    else if k == 10 then Text.IsSpace(c)
    else Text.IsDigit(c)
  }

  /** `w` is, as a whole, a match of the pattern. */
  predicate Shape(w: string) {
    |w| == Width && forall k :: 0 <= k < Width ==> Fits(k, w[k])
  }

  /** The pattern matches `s` at position `i`. */
  predicate MatchAt(s: string, i: nat) {
    i + Width <= |s| && Shape(s[i..i + Width])
  }

  /** `i` is where `RegExp.prototype.exec` reports the match: the first position that matches. */
  predicate IsLeftmost(s: string, i: nat) {
    MatchAt(s, i) && forall j :: 0 <= j < i ==> !MatchAt(s, j)
  }

  /** The scan of `exec`: try positions `i`, `i + 1`, ... and stop at the first match. */
  function FindFrom(s: string, i: nat): (r: Option<nat>)
    decreases |s| - i
    ensures r.Some? ==> i <= r.value && MatchAt(s, r.value)
    ensures r.Some? ==> forall j :: i <= j < r.value ==> !MatchAt(s, j)
    ensures r.None? ==> forall j :: i <= j ==> !MatchAt(s, j)
  {
    if i + Width > |s| then None
    else if MatchAt(s, i) then Some(i)
    else FindFrom(s, i + 1)
  }

  /** The match `exec` reports, if any. */
  function Leftmost(s: string): (r: Option<nat>)
    ensures r.Some? ==> IsLeftmost(s, r.value)
    ensures r.None? <==> forall j :: !MatchAt(s, j)
  {
    FindFrom(s, 0)
  }

  /**
   * `${year}-${month}-${day}T${time}` from a match: the digits keep their
   * offsets, the two date colons become dashes and the separator becomes `T`.
   */
  function Reformat(w: string): (iso: string)
    requires |w| == Width
    ensures |iso| == Width
    ensures iso[4] == '-' && iso[7] == '-' && iso[10] == 'T'
    ensures forall k :: 0 <= k < Width && k != 4 && k != 7 && k != 10 ==> iso[k] == w[k]
  {
    w[0..4] + "-" + w[5..7] + "-" + w[8..10] + "T" + w[11..19]
  }

  /** The value of the record's `createdAt` field. */
  datatype CreatedAt =
    | Unset              // no `DateTimeOriginal` tag
    | Raw(text: string)  // the tag's text, not (yet) normalised
    | Parsed(iso: string)  // the rebuilt `YYYY-MM-DDTHH:MM:SS` text handed to `new Date`

  /** The exception raised when a non-empty value has no match. */
  datatype StampError = NoMatch(text: string)

  /**
   * The normalisation step: absent and empty values are left alone (the
   * truthiness guard), a value with a match becomes the rebuilt
   * leftmost match, and any other value throws.
   */
  function Normalize(c: CreatedAt): (r: Result<CreatedAt, StampError>)
    ensures !(c.Raw? && c.text != "") ==> r == Success(c)
    ensures c.Raw? && c.text != "" ==> (r.Success? <==> exists j :: MatchAt(c.text, j))
    ensures c.Raw? && c.text != "" && r.Failure? ==> r.error == NoMatch(c.text)
    ensures c.Raw? && c.text != "" && r.Success? ==>
      exists i: nat :: IsLeftmost(c.text, i) && r.value == Parsed(Reformat(c.text[i..i + Width]))
  {
    match c
    case Raw(s) =>
      if s == "" then Success(c)
      else (
        match Leftmost(s)
        case None => Failure(NoMatch(s))
        case Some(i) => Success(Parsed(Reformat(s[i..i + Width])))
      )
    case _ => Success(c)
  }

  /** The rebuilt text is itself in `YYYY-MM-DDTHH:MM:SS` form. */
  predicate IsIso(t: string) {
    |t| == Width && forall k :: 0 <= k < Width ==>
      if k == 4 || k == 7 then t[k] == '-'
      else if k == 10 then t[k] == 'T'
      else if k == 13 || k == 16 then t[k] == ':'
      else Text.IsDigit(t[k])
  }

  lemma ReformatIsIso(w: string)
    requires Shape(w)
    ensures IsIso(Reformat(w))
  {
  }

  /** A value that starts with a match normalises from that match, whatever follows it. */
  lemma LeadingMatchWins(w: string, tail: string)
    requires Shape(w)
    ensures Normalize(Raw(w + tail)) == Success(Parsed(Reformat(w)))
  {
  }

  /** The example of a well-formed EXIF timestamp. */
  lemma ExampleStamp()
    ensures Normalize(Raw("2021:06:15 14:30:00")) == Success(Parsed("2021-06-15T14:30:00"))
  {
    var s := "2021:06:15 14:30:00";
    ExampleShape(s);
    LeadingMatchWins(s, "");
    assert s + "" == s;
    ExampleReformat(s);
  }

  lemma ExampleShape(s: string)
    requires s == "2021:06:15 14:30:00"
    ensures Shape(s)
  {
  }

  lemma ExampleReformat(s: string)
    requires s == "2021:06:15 14:30:00"
    ensures Reformat(s) == "2021-06-15T14:30:00"
  {
  }

  /** A non-empty value with no timestamp in it throws instead of being left unset. */
  lemma ExampleNotADate()
    ensures Normalize(Raw("not a date")) == Failure(NoMatch("not a date"))
  {
  }
}

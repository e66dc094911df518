/**
 * The per-file record of the import loop: its construction from the run
 * options, the EXIF tags and the checksum, and the three enrichment steps
 * (camera, capture time, location) applied to it in the loop's order.
 */
module Record {
  import opened Wrappers
  import Text
  import Timestamp
  import Coordinates

  /** The command-line options as parsed (the category defaults to `outdoors`). */
  datatype Options = Options(category: string, location: Option<string>, photographer: Option<string>)

  /** The options once the photographer check has passed. */
  datatype Settings = Settings(category: string, location: Option<string>, photographer: string)

  datatype ConfigError = NoPhotographer

  /** The start-up check: an absent or empty photographer stops the run before any file. */
  function CheckOptions(o: Options): (r: Result<Settings, ConfigError>)
    ensures r.Success? <==> o.photographer.Some? && o.photographer.value != ""
    ensures r.Success? ==> r.value.photographer == o.photographer.value
    ensures r.Success? ==> r.value.category == o.category && r.value.location == o.location
  {
    match o.photographer
    case Some(p) => if p != "" then Success(Settings(o.category, o.location, p)) else Failure(NoPhotographer)
    case None => Failure(NoPhotographer)
  }

  /**
   * The EXIF tags the loop reads: the `0th` Model, the Exif DateTimeOriginal,
   * and the GPS magnitudes (as tenths of a degree after rounding) and their
   * hemisphere references.
   */
  datatype Exif = Exif(
    model: Option<string>,
    dateTimeOriginal: Option<string>,
    latitude: Option<nat>,
    latitudeRef: Option<string>,
    longitude: Option<nat>,
    longitudeRef: Option<string>)

  /** What reading one file yields: its tags and the checksum of its metadata-stripped bytes. */
  datatype Capture = Capture(exif: Exif, checksum: string)

  datatype ImageRecord = ImageRecord(
    camera: Option<string>,
    category: string,
    createdAt: Timestamp.CreatedAt,
    id: string,
    locationData: Option<string>,
    locationName: Option<string>,
    photographer: string)

  /** Why processing one file throws. */
  datatype FileError =
    | Unreadable               // reading the file or loading its EXIF threw
    | BadTimestamp(text: string)  // a non-empty DateTimeOriginal without a timestamp in it

  /** The record literal built for each file before any enrichment. */
  function Initial(s: Settings, c: Capture): (r: ImageRecord)
    ensures r.category == Text.Lower(s.category)
    ensures r.id == c.checksum && r.photographer == s.photographer
    ensures r.camera.None? && r.locationData.None? && r.locationName == s.location
    ensures r.createdAt.Unset? <==> c.exif.dateTimeOriginal.None?
    ensures r.createdAt.Raw? ==> r.createdAt.text == c.exif.dateTimeOriginal.value
    ensures c.exif.dateTimeOriginal.Some? ==> r.createdAt == Timestamp.Raw(c.exif.dateTimeOriginal.value)
  {
    ImageRecord(
      camera := None,
      category := Text.Lower(s.category),
      createdAt := match c.exif.dateTimeOriginal
        case None => Timestamp.Unset
        case Some(t) => Timestamp.Raw(t),
      id := c.checksum,
      locationData := None,
      locationName := s.location,
      photographer := s.photographer)
  }

  /**
   * The camera step. Its guard consults the device table under the record's
   * camera field, which is still `null` there and so names the key "null";
   * both branches then store the raw Model tag, so the table never changes
   * the outcome.
   */
  function WithCamera(r: ImageRecord, exif: Exif, android: map<string, string>): (r': ImageRecord)
    ensures r' == r.(camera := exif.model)
  {
    var lookupKey := match r.camera case None => "null" case Some(m) => m;
    var tagPresent := exif.model.Some? && exif.model.value != "";
    var known := lookupKey in android && android[lookupKey] != "";
    if tagPresent && known then r.(camera := exif.model)
    else r.(camera := exif.model)
  }

  /** The capture-time step: normalise `createdAt`, touching nothing else. */
  function WithTimestamp(r: ImageRecord): (res: Result<ImageRecord, FileError>)
    ensures res.Success? <==> Timestamp.Normalize(r.createdAt).Success?
    ensures res.Success? ==> res.value == r.(createdAt := Timestamp.Normalize(r.createdAt).value)
    ensures res.Failure? ==> r.createdAt.Raw? && res.error == BadTimestamp(r.createdAt.text)
  {
    match Timestamp.Normalize(r.createdAt)
    case Success(c) => Success(r.(createdAt := c))
    case Failure(e) => Failure(BadTimestamp(e.text))
  }

  /**
   * The location step: when both GPS magnitudes are present, store the
   * printed pair and ask the geocoder for it; a first candidate in the reply
   * replaces the location name.
   */
  function WithLocation(r: ImageRecord, exif: Exif, geocode: Coordinates.GeoQuery -> Coordinates.GeoReply): (r': ImageRecord)
    ensures r'.(locationData := r.locationData, locationName := r.locationName) == r
    // A corollary of the exact text below and `Coordinates.LocationDataRoundTrip`.
    ensures exif.latitude.Some? && exif.longitude.Some? ==>
      && r'.locationData.Some?
      && Coordinates.ParseLocationData(r'.locationData.value)
           == Some((Coordinates.Signed(exif.latitude.value, exif.latitudeRef, "N"),
                    Coordinates.Signed(exif.longitude.value, exif.longitudeRef, "E")))
    ensures exif.latitude.Some? && exif.longitude.Some? ==>
      r'.locationData == Some(Coordinates.LocationData(
        (Coordinates.Signed(exif.latitude.value, exif.latitudeRef, "N"),
         Coordinates.Signed(exif.longitude.value, exif.longitudeRef, "E"))))
    ensures !(exif.latitude.Some? && exif.longitude.Some?) ==> r' == r
  {
    match Coordinates.CoordinatePair(exif.latitude, exif.latitudeRef, exif.longitude, exif.longitudeRef)
    case None => r
    case Some(c) =>
      Coordinates.LocationDataRoundTrip(c);
      var reply := geocode(Coordinates.QueryFor(c));
      r.(locationData := Some(Coordinates.LocationData(c)),
         locationName := Coordinates.PlaceName(reply, r.locationName))
  }

  /** The reply the geocoder gives for the file's coordinates, if it is asked at all. */
  function ReplyFor(exif: Exif, geocode: Coordinates.GeoQuery -> Coordinates.GeoReply): Option<Coordinates.GeoReply> {
    match Coordinates.CoordinatePair(exif.latitude, exif.latitudeRef, exif.longitude, exif.longitudeRef)
    case None => None
    case Some(c) => Some(geocode(Coordinates.QueryFor(c)))
  }

  /** The name changes only on a reply with a first candidate, and then to that candidate. */
  lemma LocationNameRule(r: ImageRecord, exif: Exif, geocode: Coordinates.GeoQuery -> Coordinates.GeoReply)
    ensures var reply := ReplyFor(exif, geocode);
      var hit := reply.Some? && reply.value.Places? && |reply.value.places| > 0;
      && (hit ==> WithLocation(r, exif, geocode).locationName
                    == Some(reply.value.places[0].name + ", " + reply.value.places[0].state))
      && (!hit ==> WithLocation(r, exif, geocode).locationName == r.locationName)
  {
  }

  /**
   * Everything the loop does to one file, in its order: build the record,
   * set the camera, normalise the capture time (which may throw, skipping
   * the location step), then the location.
   */
  function ProcessFile(s: Settings, android: map<string, string>, c: Capture,
                       geocode: Coordinates.GeoQuery -> Coordinates.GeoReply): (res: Result<ImageRecord, FileError>)
    ensures res.Success? <==>
      !(c.exif.dateTimeOriginal.Some? && c.exif.dateTimeOriginal.value != ""
        && forall j :: !Timestamp.MatchAt(c.exif.dateTimeOriginal.value, j))
    ensures res.Success? ==>
      && res.value.id == c.checksum
      && res.value.photographer == s.photographer
      && res.value.category == Text.Lower(s.category)
      && res.value.camera == c.exif.model
      && (res.value.locationData.Some? <==> c.exif.latitude.Some? && c.exif.longitude.Some?)
      && (res.value.locationName == s.location || res.value.locationData.Some?)
    ensures res.Failure? ==> res.error == BadTimestamp(c.exif.dateTimeOriginal.value)
    ensures res.Success? ==> res.value.createdAt == Timestamp.Normalize(Initial(s, c).createdAt).value
    ensures res.Success? ==>
      var pair := Coordinates.CoordinatePair(c.exif.latitude, c.exif.latitudeRef, c.exif.longitude, c.exif.longitudeRef);
      res.value.locationData == (if pair.Some? then Some(Coordinates.LocationData(pair.value)) else None)
    ensures res.Success? ==>
      var reply := ReplyFor(c.exif, geocode);
      res.value.locationName == (if reply.Some? then Coordinates.PlaceName(reply.value, s.location) else s.location)
  {
    var r0 := Initial(s, c);
    var r1 := WithCamera(r0, c.exif, android);
    match WithTimestamp(r1)
    case Failure(e) => Failure(e)
    case Success(r2) => Success(WithLocation(r2, c.exif, geocode))
  }

  /** The device table has no influence on a file's record. */
  lemma DeviceTableIrrelevant(s: Settings, a: map<string, string>, b: map<string, string>, c: Capture,
                              geocode: Coordinates.GeoQuery -> Coordinates.GeoReply)
    ensures ProcessFile(s, a, c, geocode) == ProcessFile(s, b, c, geocode)
  {
  }
}

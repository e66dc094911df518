# Mue image importer — a Dafny model

The importer (`index.js`) reads a directory of photos and, for each one,
builds the metadata record that the image catalog will hold: a content
checksum as id, the lower-cased category, the photographer, the camera
model, the capture time rebuilt from EXIF, the GPS position rounded to one
decimal, and a place name from a reverse-geocoding service. It also fixes
the table of encoded renditions (four resolution classes by two formats)
and, when missing, builds a camera-model table from the supported-devices
listing.

This project models that logic as pure functions:

- `Variants` — the resolution table, the format list, their class-major
  product, and the storage key `/img/{class}/{id}.{format}` used by the
  deletion script `test/delete.js`.
- `Candidates` — the choice of files to import from a directory listing.
- `DeviceTable` — the fold of parsed device rows into the model table.
- `Timestamp` — the leftmost-match scan for `DDDD:DD:DD<whitespace>DD:DD:DD`
  (ASCII digits; any JavaScript white-space or line-terminator character as
  the separator) and the rebuilt `YYYY-MM-DDTHH:MM:SS` text.
- `Coordinates` — hemisphere signs, JavaScript number printing of values
  held as tenths, the `locationData` text, the geocoding query and the
  place-name rule.
- `Record` — the photographer check, the initial record and the three
  enrichment steps, composed per file.
- `Importer` — the run: check, listing, and the sequential loop that ends at
  the first file whose processing throws.
- `Text`, `Wrappers` — string helpers with JavaScript semantics, and
  `Option`/`Result`.

Inputs that come from I/O are parameters: the directory listing, the
device table (a `map`), a `Reader` giving a file's EXIF tags and checksum
(or `None` when reading or EXIF loading throws), and a `Geocoder` giving the
service's reply to the request a given file issues.

Points where the code behaves in a way a reader may not expect:

- A present, non-empty `DateTimeOriginal` with no timestamp in it makes the
  file throw: destructuring the failed match throws. Nothing in the loop
  catches it, so the whole run ends there (`Importer.Stopped`), not just
  that file.
- The camera is always the raw EXIF `Model`. The guard looks the table up
  under the record's camera field, which is still `null` at that point, and
  both branches assign the same value. So the table never renames a camera.
- Storage keys start with `/`, as in `test/delete.js`.
- Every file with both coordinates issues its own geocoding request; no
  reply is reused between files.

## Model

| member | source | states |
|---|---|---|
| `Variants.ExpandAt` | index.js:48-55 | the flattened product has one entry per (class, format) pair, with class `c` in format `j` at position c times the number of formats plus j |
| `Variants.VariantTable` | index.js:40-55 | the table holds 8 entries: hd, fhd, qhd, original, with webp before avif in each; the boxes are `[null, 720]`, `[null, 1080]`, `[null, 1440]` and none for original |
| `Variants.VariantsDistinct` | index.js:40-55 | no (class, format) pair repeats |
| `Variants.StorageKey` | test/delete.js:20-29 | a key starts with `/img/{class}/` and ends with `/{id}.{format}` |
| `Variants.DeletionKeysMatchVariants` | test/delete.js:19-29 | the deletion script's eight keys are the keys of the eight variants, with avif listed before webp in each class |
| `Variants.StorageKeysDistinct` | test/delete.js:20-29 | the eight variants of one id get eight different keys |
| `Variants.StorageKeyInjective` | test/delete.js:20-29 | for one variant, equal keys imply equal ids |
| `Candidates.CandidateFiles` | index.js:59-61 | kept names never start with `.`; a name is kept iff some non-directory entry has it and it has no leading dot; no more names than entries |
| `Candidates.CandidateFilesAppend` | index.js:59-61 | selection distributes over concatenating listings, so listing order is kept |
| `Candidates.CandidateFilesSingle` | index.js:60-61 | one entry yields its name iff it is a non-hidden non-directory |
| `DeviceTable.DisplayName` | index.js:89 | the display name always starts with the brand; it is the marketing name when that already starts with the brand; otherwise it is the brand, one space, then the marketing name or, when that is empty, the model, and its length is the sum of the three |
| `DeviceTable.DisplayNameStable` | index.js:89 | a display name used as the row's marketing name is kept unchanged |
| `DeviceTable.Build` | index.js:88-91 | the table's keys are exactly the rows' models |
| `DeviceTable.LastWriteWins` | index.js:88-91 | for a model, the table holds the display name of the last row with that model |
| `DeviceTable.EntriesComeFromRows` | index.js:88-91 | every table entry is the display name of some row for that model |
| `Text.Lower` | index.js:114 | lower-casing keeps the length, leaves no upper-case ASCII letter, and changes only `A`–`Z` |
| `Text.LowerIdempotent` | index.js:114 | lower-casing twice equals lower-casing once |
| `Text.ParseNatToString` | index.js:140 | reading the printed digits of a number gives the number back |
| `Text.NatToStringCanonical` | index.js:140 | a digit string without a leading zero is exactly the printed form of the number it denotes |
| `Timestamp.FindFrom` | index.js:126-127 | the scan returns a matching position with no match between its start and that position, or reports that nothing from its start onward matches |
| `Timestamp.Leftmost` | index.js:126-127 | the reported match is the leftmost one; none is reported iff no position matches |
| `Timestamp.Reformat` | index.js:126-128 | the rebuilt text has 19 characters, `-` at 4 and 7, `T` at 10, and every other character at the same offset as in the match |
| `Timestamp.ReformatIsIso` | index.js:126-128 | rebuilding a match gives `YYYY-MM-DDTHH:MM:SS` with digits in all digit slots |
| `Timestamp.Normalize` | index.js:125-129 | an absent or empty value is unchanged; a non-empty value succeeds iff some position matches, and then gives the rebuilt leftmost match; otherwise it throws with that value |
| `Timestamp.LeadingMatchWins` | index.js:126-128 | a value that starts with a timestamp normalises from it, whatever trails it |
| `Timestamp.ExampleStamp` | index.js:125-129 | `2021:06:15 14:30:00` becomes `2021-06-15T14:30:00` |
| `Timestamp.ExampleNotADate` | index.js:125-129 | `not a date` throws |
| `Coordinates.Signed` | index.js:138-139 | the signed value has the magnitude's size; it is non-negative iff the reference is exactly the positive letter or the magnitude is zero |
| `Coordinates.FormatTenths` | index.js:138-140 | the printed number has no comma and starts with `-` iff the value is negative, so negative zero prints unsigned |
| `Coordinates.UnsignedShape` | index.js:138-140 | a printed magnitude has a `.` iff its tenths digit is not 0, then as the second-to-last character, and has no leading zero |
| `Coordinates.FormatTenthsShape` | index.js:138-140 | for every value, the printed number has a `.` iff the tenths digit is not 0 (no `.0` fraction), the `.` is then followed by exactly one digit, there is no leading zero, and there is no `-0` |
| `Coordinates.UnsignedRoundTrip` | index.js:138-140 | reading a printed magnitude gives back exactly its value |
| `Coordinates.FormatTenthsRoundTrip` | index.js:138-140 | reading the printed number gives back exactly the signed value |
| `Coordinates.UnsignedCanonicalUnique` | index.js:138-140 | a canonical unsigned numeral is exactly the printed form of the value it reads as |
| `Coordinates.CanonicalUnique` | index.js:138-140 | a canonical numeral (no leading zero, no `.0`, no `-0`) is exactly what JavaScript prints for the value it reads as, so printing has one spelling per value |
| `Coordinates.FormatTenthsInjective` | index.js:138-140 | different values print differently |
| `Coordinates.CoordinatePair` | index.js:131-139 | coordinates exist iff both magnitudes are present; latitude is signed by `N` and longitude by `E` |
| `Coordinates.LocationDataRoundTrip` | index.js:140 | splitting `locationData` at its first comma gives back both coordinates |
| `Coordinates.QueryFor` | index.js:140-142 | the geocoding query carries the same two numbers as `locationData` |
| `Coordinates.PlaceName` | index.js:141-147 | the name changes only on a reply with a first candidate; it then starts with the candidate's name, ends with `, ` plus its state, and is exactly as long as the two with the separator |
| `Coordinates.ExamplePrinting` | index.js:138-140 | 51.5 prints `51.5`, 51.0 prints `51`, 0.7 prints `0.7` |
| `Coordinates.ExampleNegative` | index.js:138-140 | -51.5 prints `-51.5` and -0.7 prints `-0.7` |
| `Coordinates.ExampleFormatting` | index.js:138-140 | 51.5 N prints `51.5`, 51.5 S prints `-51.5`, 51.0 E prints `51`, 0.0 W prints `0`, 0.7 with no reference prints `-0.7` |
| `Record.CheckOptions` | index.js:33-38 | the run goes on iff a non-empty photographer is given; the settings copy the options |
| `Record.Initial` | index.js:112-120 | the record holds the lower-cased category, the checksum as id, the photographer, the fallback location name, no coordinates, no camera, and the raw timestamp tag when one is present (unset otherwise) |
| `Record.WithCamera` | index.js:122-123 | the camera becomes the raw EXIF Model whatever the device table holds; nothing else changes |
| `Record.WithTimestamp` | index.js:125-129 | the step fails iff normalisation throws, naming the offending text; otherwise only `createdAt` changes |
| `Record.WithLocation` | index.js:131-148 | only the location fields change; `locationData` is set iff both magnitudes are present, and it is then exactly the two signed numbers as JavaScript prints them, joined by a comma, and reads back as the signed pair |
| `Record.LocationNameRule` | index.js:141-147 | the location name becomes `name, state` of the first candidate when a request was made and its reply has one; otherwise the fallback stays |
| `Record.ProcessFile` | index.js:112-148 | a file fails iff its timestamp tag is non-empty with no match; a record keeps id, photographer, lower-cased category and raw camera, has coordinates iff both magnitudes exist, and keeps the fallback name unless coordinates exist; its `createdAt` is the normalised tag, its `locationData` the printed signed pair when both magnitudes exist, and its name the place-name rule applied to the geocoder's reply for that pair; a failure names the offending timestamp text |
| `Record.DeviceTableIrrelevant` | index.js:122-123 | two different device tables give the same per-file outcome |
| `Importer.ProcessOne` | index.js:100-105 | an iteration fails as unreadable iff reading the file or its EXIF throws; a readable file fails only on its timestamp, naming that text; a record carries the file's checksum as id, its raw Model as camera and the photographer |
| `Importer.ProcessAll` | index.js:100-148 | a finished loop has one record per file, in order; a stopped loop names the first file that threw, with the records of all files before it |
| `Importer.Run` | index.js:33-61 | a run is refused iff the photographer is missing or empty; otherwise its loop is exactly the loop over the candidate files, in listing order, with the checked settings |
| `Importer.StopsAtFirstFailure` | index.js:100-148 | the loop stops early iff some candidate throws, and every file before the stopping one succeeded |

## Left out

- Command-line chrome: the banner, option parsing with its `outdoors` default, console colours, the confirmation prompt and its cancel exit, and the progress bar (index.js:1-31, 57, 63-73, 98, 107-110). The options arrive already parsed.
- Device-table acquisition: the CSV download, the CSV parse and the `android.json` read and write (index.js:75-87, 92-96). `DeviceTable.Build` starts from parsed rows, and the run takes the table as a map.
- `DeviceTable.Build`: treats `__proto__` as an ordinary key. A JavaScript object assignment under that name does not create an entry.
- EXIF loading, metadata stripping and the MD5 checksum (index.js:101-105) are foreign library calls. They become the `Reader` parameter.
- `Coordinates.FormatTenths`: floating point is not modelled. `dmsRationalToDeg` and `toFixed(1)` are abstracted as a whole number of tenths. NaN, infinities and the exponent notation JavaScript uses from 1e21 up are left out.
- `Timestamp.Normalize`: produces the rebuilt text handed to `new Date`. Building the `Date` object is not modelled, including its validity and local time zone.
- `Coordinates.PlaceName`: the geocoding request is a network call, so its reply is an input. A JSON body that is not a list counts as an empty list. Candidates with missing `name` or `state` fields are not modelled; the code would print `undefined` for them.
- `Text.Lower`: lower-cases only the ASCII letters `A`–`Z`. The Unicode case mappings of `toLowerCase` beyond ASCII are not modelled.
- The encoding, upload, catalog write and source deletion stages (index.js:150-163) are commented out or marked TODO in the code. There is no behaviour to model.
- `test/supabase.js` and `test/sharp.js` only call live services. `test/delete.js` is used only for its key list.

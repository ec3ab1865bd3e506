# Background-removal service: file lifecycle model

This project models the core of a small Express service. The service takes
an uploaded image, has an external engine remove its background, and hands
the result back for download. The model covers the part of `server.js` that
holds real logic:

- the **upload filter**: `/jpeg|jpg|png|gif/` tested against the MIME type
  and against the lower-cased extension of the original name;
- the **naming scheme**: an upload is stored as `<timestamp><extname>`, a
  result as `processed_<timestamp>.png`, and its URL is `/uploads/` plus the
  result's base name;
- the **shared `uploads` directory** as a set of file names, with three
  transitions. **Accept** stores an upload. **Process** unlinks the original
  and writes the result. **Download** sends a file and unlinks it.

Every outside outcome is a parameter. That covers the engine, each unlink,
the result write, the file transfer and both clock readings. Each transition
is therefore a pure function from (directory, request, outcomes) to
(directory, response).

Modules:

- `Strings`: ASCII lower-casing, substring occurrence, and the last index of
  a character.
- `Decimal`: the decimal text of a timestamp and how to read it back.
- `Paths`: Node's POSIX `path.basename` and `path.extname`. Trailing '/'
  characters are ignored. A leading-dot name such as ".bashrc" has no
  extension, and neither does "..".
- `UploadFilter`: the filter, plus `Exec`, a backtracking search for the
  pattern with the leftmost-first semantics.
- `Naming`: stored names, result names and URLs. Both kinds of name can be
  recovered and are injective.
- `Storage`: the directory, the responses and the transitions.
- `Lifecycle`: properties over sequences of requests, and the invariant that
  every file carries a name the service generates.

Four facts about the code shape the model:

- The original is unlinked (server.js:63) before the result is written
  (server.js:70). When the unlink succeeds and the write then fails, the
  request answers 500 and neither the upload nor a result remains
  (`Lifecycle.WriteFailureLosesUpload`).
- A failed transfer returns at server.js:101-104, before the unlink at
  server.js:108. The file therefore stays in the directory
  (`Storage.Download`).
- A refused upload makes the filter call back with an `Error`
  (server.js:42), and that error goes to the framework's error handler. The
  model reports it as `PassedToFramework`. The handler's 400 is sent only
  when no file is present (server.js:49-51).
- Result names come from the millisecond clock alone (server.js:59). Two
  results written in the same millisecond therefore get the same name
  (`Lifecycle.SameMillisecondResultsCollide`).

## Model

| member | source | states |
|---|---|---|
| `Strings.LowerChar` | server.js:37 | An ASCII capital maps to its small letter, 32 code points lower. Every other character is kept. |
| `Strings.LowerAscii` | server.js:37 | Lower-casing keeps the length, maps each character on its own, and leaves no ASCII capital behind. |
| `Strings.LowerAsciiIdempotent` | server.js:37 | Lower-casing a second time changes nothing. |
| `Paths.TrimTrailingSlashes` | server.js:76 | The result is a prefix of the path that does not end in '/'. Everything it drops is '/'. |
| `Paths.Basename` | server.js:76 | `path.basename` returns the part of the path after its last '/', once trailing '/' characters are removed. It holds no '/' and is either the whole trimmed path or starts right after a '/'. |
| `Paths.SegmentExtension` | server.js:37 | A segment's extension is a suffix of the segment, and a proper one when it is not empty. It is empty or a '.' followed by characters other than '.' and '/'. |
| `Paths.SegmentExtensionEmpty` | server.js:37 | A segment has no extension exactly when it is ".." or has no '.' after its first character. |
| `Paths.ExtName` | server.js:37 | `path.extname` gives a suffix of the path's base name shaped like an extension: empty, or '.' and then no '.' or '/'. |
| `Paths.ExtNameEmpty` | server.js:37 | `path.extname` is empty exactly when the base name is ".." or has no '.' after its first character. |
| `Paths.BasenameOfJoin` | server.js:76 | The base name of a directory prefix followed by a slash-free segment is that segment. |
| `Paths.ExtNameOfSplit` | server.js:28 | `extname` of a stem followed by an extension gives back exactly that extension. |
| `Decimal.NatToDecimal` | server.js:28 | A timestamp's text is non-empty and all digits, with no leading zero unless the number is 0. |
| `Decimal.DecimalRoundTrip` | server.js:28 | Reading a timestamp's decimal text gives back the timestamp. |
| `Decimal.NatToDecimalInjective` | server.js:28 | Two timestamps have the same text exactly when they are equal. |
| `Decimal.LeadingNumberOfDecimal` | server.js:28 | The number a stored name starts with is its timestamp. |
| `UploadFilter.Exec` | server.js:35-37 | Finds no match exactly when no word occurs in the text. A match it returns is the leftmost one, and the first alternative that fits at that position. |
| `UploadFilter.MatchesOneOfTheWords` | server.js:35-37 | `MatchesFileTypes`, the pattern's `test`, holds exactly when "jpeg", "jpg", "png" or "gif" occurs somewhere in the text. |
| `UploadFilter.FileFilter` | server.js:34-44 | An accepted upload has a MIME type that matches the pattern and an extension of a '.' and at least three more characters. |
| `UploadFilter.NoMatchWithoutGOrJ` | server.js:35 | Text with neither 'g' nor 'j' never matches the pattern. |
| `UploadFilter.MatchingExtensionShape` | server.js:35-40 | An extension whose lower-cased form matches the pattern is a '.' and at least three more characters. |
| `UploadFilter.SpoofedExtensionRejected` | server.js:36-42 | "notes.png" declared as `text/plain` is refused. A matching extension alone is not enough. |
| `UploadFilter.SpoofedMimeTypeRejected` | server.js:37-42 | "notes.txt" declared as `image/png` is refused. A matching MIME type alone is not enough. |
| `UploadFilter.LastExtensionDecides` | server.js:37 | "cat.png.exe" is refused even as `image/png`: only the last extension is tested. |
| `UploadFilter.UpperCaseExtensionAccepted` | server.js:37-40 | "CAT.PNG" as `image/png` is accepted, because the extension is lower-cased first. |
| `UploadFilter.MimeTypeIsCaseSensitive` | server.js:36 | `IMAGE/PNG` is refused even with ".png", because the MIME type is not lower-cased. |
| `UploadFilter.PatternIsUnanchored` | server.js:35-40 | ".gifs" is accepted. The pattern has no anchors, so containing a word is enough. |
| `Naming.InputName` | server.js:27-29 | A stored name starts with a digit and contains no '/'. Its leading number is the upload time and its `extname` is the original name's `extname`. |
| `Naming.InputNameInjective` | server.js:28 | Two uploads share a stored name exactly when their timestamps and extensions agree. |
| `Naming.ResultName` | server.js:59 | A result name starts with 'p' and contains no '/'. The number after `processed_` is the processing time. |
| `Naming.ResultNameExtension` | server.js:59 | `extname` of every result name is ".png". |
| `Naming.ResultNameInjective` | server.js:59 | Two results share a name exactly when they were written in the same millisecond. |
| `Naming.InputAndResultNamesDiffer` | server.js:59 | A result's name never equals a stored upload's name. |
| `Naming.InputNameRecognized` | server.js:28 | Every stored name has the stored-name shape that the directory invariant checks. |
| `Naming.ResultNameRecognized` | server.js:59 | Every result name has the result-name shape that the directory invariant checks. |
| `Naming.ResultPath` | server.js:59 | The result's path lies under `./uploads/` and its base name is the result's name. |
| `Naming.ImageUrl` | server.js:76 | Every URL handed out starts with `/uploads/`. |
| `Naming.ImageUrlOfResult` | server.js:76 | The URL for a result written to `./uploads/processed_<t>.png` is `/uploads/` followed by that file's stored name. |
| `Storage.Unlink` | server.js:62-67 | A swallowed unlink removes the file unless the OS refuses. A missing file changes nothing, and no other file is touched. |
| `Storage.Accept` | server.js:23-51 | A missing file is reported as `NoFile`, which the handler answers with 400. A refused upload is `Refused` and writes nothing. An accepted upload adds exactly one file, named `<now><extname of the original name>`. |
| `Storage.Process` | server.js:53-82 | Engine failure changes nothing and sends no response. Otherwise the original is removed unless the OS refuses. A good write answers with `/uploads/processed_<t>.png` and that file exists. A failed write answers 500 and adds no file. Only the original and the result can change. |
| `Storage.RemoveBg` | server.js:47-87 | 400 exactly when there is no file. The framework error exactly when the filter refuses. No response exactly when the engine fails, and then the stored upload stays. 500 exactly when the engine succeeds and the write fails. A URL exactly when engine and write succeed; it is `/uploads/processed_<t>.png` and that file exists. The stored upload stays exactly when its unlink fails. Refused and missing uploads leave the directory alone, and no file other than the upload and the result changes. |
| `Storage.Download` | server.js:91-122 | 404 exactly when the name is absent. 500 exactly when the transfer fails; the model treats every failure as one that happens before the headers are sent. After a failed transfer the file stays. After a transfer the file goes unless its unlink fails. No other file is touched. |
| `Lifecycle.AcceptKeepsTidy` | server.js:27-29 | Storing an upload keeps every file in the directory a stored name or a result name. |
| `Lifecycle.ProcessKeepsTidy` | server.js:59-70 | Processing keeps that directory invariant. |
| `Lifecycle.DownloadKeepsTidy` | server.js:107-114 | Downloading keeps that directory invariant. |
| `Lifecycle.RoundTrip` | server.js:47-122 | With fresh names, after a successful `/remove-bg` the original is gone and the result is present. The URL's id names the result, downloading it restores the directory exactly, and a second download is a 404. |
| `Lifecycle.SuccessfulRemoveBg` | server.js:53-77 | With a fresh stored name and every step succeeding, `/remove-bg` answers with the result's URL, and the only change to the directory is the added result. |
| `Lifecycle.WriteFailureLosesUpload` | server.js:62-74 | When the stored name is fresh, the engine and the unlink succeed and the write fails, the answer is 500 and the directory is as before the upload. Neither the original nor a result survives. |
| `Lifecycle.EngineFailureOrphansUpload` | server.js:80-82 | When the engine fails, no answer is sent and the stored upload stays in the directory. |
| `Lifecycle.OriginalTakenBeforeProcessing` | server.js:62-67 | The stored upload may already be gone when processing runs, for example downloaded through `/download`. The failed unlink is swallowed and the client still gets its result's URL. |
| `Lifecycle.DownloadIsOneShot` | server.js:96-114 | A download that delivered and removed a file is followed by a 404 that changes nothing. |
| `Lifecycle.SameMillisecondResultsCollide` | server.js:59-77 | Two uploads processed in the same millisecond get the same URL. After one download of it, the other client gets a 404. |
| `Lifecycle.DistinctMillisecondsDistinctUrls` | server.js:59-76 | Results processed in different milliseconds get different URLs. |

## Left out

- Express routing, CORS and the listener (server.js:1-16, 126-128) are framework plumbing.
- Static serving of `/uploads` (server.js:20) is left out. It serves a file without deleting it, so a result fetched through the URL it was returned under stays in the directory until `/download` takes it.
- Multer's internals are left out: multipart parsing, "unexpected field" errors, limits, and how it writes the stored upload. The model assumes an accepted upload is written and a refused one writes nothing.
- `removeBackground` and the Blob-to-Buffer conversion (server.js:56-58) are an opaque library. They are one `Outcome`. A rejection of `blob.arrayBuffer()` is not caught by the `.catch` at server.js:80, because that promise is not returned; this is not modelled.
- The outer `try`/`catch` (server.js:83-86) catches only synchronous throws. No modelled step throws, so its 500 answer is not reachable in the model.
- `Date.now()` is two parameters, one per call (server.js:28, 59). A clock before 1970 would give a negative number and a '-' in the name; it is not modelled.
- File contents are not modelled, only names. Overwriting an existing name leaves the set unchanged, so an overwrite shows only as a shared name.
- A failed result write is modelled as creating no file. A write that fails after the file was opened can leave a partial file.
- Requests are composed one after another. Event-loop interleaving and the concurrent double-download race are not modelled.
- The unlink after a download (server.js:108) runs after the response. In the model it is part of the same step.
- `path.join(__dirname, 'uploads', filename)` (server.js:93) is left out, including path traversal: the download name is an opaque key. Multer and the result write use `./uploads` relative to the working directory, while downloads use `__dirname`. The model assumes both are the same directory.
- Logging, response bodies, the `Content-Disposition` header and the framework's status for the filter's error are left out.
- Strings.LowerAscii: lower-cases ASCII letters only, not the full Unicode mapping of `toLowerCase`. Outside ASCII, the only characters whose lower case is ASCII are 'İ' (it becomes "i" followed by U+0307) and the Kelvin sign (it becomes "k"). Neither can complete a match of the four words.
- Storage.Download: the 500 answer is modelled for every failed transfer. Express can only send it when the failure happens before the headers go out; a transfer that breaks later gets no 500. In both cases the handler returns before the unlink, so the file stays.

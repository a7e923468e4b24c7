# Photo gallery data layer, in Dafny

This project models the data layer of the photo gallery tab of an Ionic/React
app (`src/pages/Tab2.jsx`). The layer keeps three pieces of state:

- `photos`, the ordered list of photo records the tab renders, most recent first;
- the value stored under the key `"photos"` (the constant `Tab2.PhotoStorage`,
  src/pages/Tab2.jsx:25) in the Capacitor key-value store, a snapshot of that
  list;
- the files in the app's Data directory, keyed by file name.

A photo record has one field, `webviewPath`, and that field is its identity.
The layer has three handlers:

- `loadSaved` reads the snapshot. A missing value gives the empty list. A
  rejected read leaves the list as it was.
- `handleTakePhoto` picks a photo and copies it to `<timestamp>.<format>` in the
  Data directory. It then prepends the new record and rewrites the snapshot.
- `handleDeletePhoto` filters the record out by `webviewPath` and rewrites the
  snapshot. It then deletes the file named by the text after the path's last
  `/`, and only after that replaces the list.

Modules:

- `Wrappers` holds `Option`.
- `Paths` holds the string transforms: JavaScript's `lastIndexOf` and
  one-argument `substr`, the basename, the decimal text of a timestamp (with
  its inverse, `ParseDecimal`), the file name and the webview path of a file
  in the Data directory.
- `Photos` holds the `Photo` record and `Without`, the filter of the delete
  handler, with its lemmas.
- `Tab2` holds the class `Gallery`.

`Gallery` has fields for the list (`photos`), the snapshot (`saved`) and the
Data directory (`files`, each name mapped to the native path it was copied
from). It also keeps a ghost `trace` that records the effects in the order
they happen. Each foreign call is one small method:
- `Storage.set` is `SetStorage`;
- `Filesystem.copy` is `CopyFile`;
- `Filesystem.deleteFile` is `DeleteFile`;
- `setPhotos` is `SetPhotos`.

The handlers call these in the source's order, so their postconditions state
the order through `trace` and through what a failure leaves behind.

The handlers take the outside world as parameters:
- `camera`: the camera outcome, or `None` when `Camera.getPhoto` rejects;
- `now`: the clock;
- `getOk`, `copyOk`, `uriOk`, `deleteOk`: whether `Storage.get`,
  `Filesystem.copy`, `Filesystem.getUri` and `Filesystem.deleteFile` succeed.

`Capacitor.convertFileSrc` applied to the URI from `Filesystem.getUri` is
modelled as `dataDirSrc + "/" + name`, where the constant `dataDirSrc` is the
webview form of the Data directory.

`Stored(photos, files, dir)` is the invariant that ties the list to the Data
directory. It says every record's path is `dir`, then `/`, then a name without
`/`, and that a file with that name is present. Adding a photo keeps `Stored`
when its copy succeeded and its format holds no `/`. A successful delete of a
record in the list keeps it too. When the copy fails and no file of that name
was present before, the added record breaks it.

Some consequences of the code as written:
- A record is `{ webviewPath }` only (src/pages/Tab2.jsx:47-49). The file name
  is not kept in it, so the delete handler recovers the name from the path.
- `Filesystem.copy` is not awaited (src/pages/Tab2.jsx:36-40), so the record is
  prepended and persisted even when the copy fails. `LostCopyDangles` and
  `HandleTakePhoto` show that this leaves a record whose file is missing.
- `Filesystem.deleteFile` is awaited (src/pages/Tab2.jsx:88-91). When it
  rejects, the handler ends after the snapshot was rewritten but before the
  list is replaced. `HandleDeletePhoto` states that state. Whether deleting a
  missing file rejects is platform behaviour, so it is the `deleteOk` input.
- `JSON.parse` of the stored value is unguarded (src/pages/Tab2.jsx:59). The
  model stores the list itself, so there is no corrupt case.
- File names are not made unique. `FileNameInjective` shows that different
  timestamps give different names. Two captures in the same millisecond with
  the same format get the same name. In the model, the second copy overwrites
  the first's entry, and one delete then removes both records.

## Model

| member | source | states |
|---|---|---|
| `Paths.LastIndexOf` | src/pages/Tab2.jsx:86 | the result is -1 exactly when the character does not occur; otherwise it is an index holding the character with no occurrence after it |
| `Paths.Substr` | src/pages/Tab2.jsx:85-87 | the result is a suffix of the string; a start in range keeps exactly the characters from that start; a negative start counts back from the end; a start past the end gives the empty string |
| `Paths.Basename` | src/pages/Tab2.jsx:85-87 | the extracted file name is a suffix of the path, and is the whole path when the path holds no '/' |
| `Paths.BasenameIsLastSegment` | src/pages/Tab2.jsx:85-87 | the extracted name holds no '/', and when the path holds one, a '/' stands right before the name (it is the longest '/'-free suffix) |
| `Paths.BasenameOfJoin` | src/pages/Tab2.jsx:85-87 | for any prefix and any name without '/', extracting from prefix + "/" + name gives the name back |
| `Paths.Digits` | src/pages/Tab2.jsx:34 | the decimal text of a non-negative timestamp is a non-empty run of digits with no leading zero |
| `Paths.DecimalString` | src/pages/Tab2.jsx:34 | the text of a timestamp holds neither '.' nor '/' |
| `Paths.DigitsRoundTrip` | src/pages/Tab2.jsx:34 | reading back the digits of n gives n |
| `Paths.DecimalRoundTrip` | src/pages/Tab2.jsx:34 | the timestamp written into a file name can be parsed back exactly, negative values included |
| `Paths.FileName` | src/pages/Tab2.jsx:34 | the generated name `<timestamp>.<format>` holds a '/' exactly when the format does |
| `Paths.FileNameInjective` | src/pages/Tab2.jsx:34 | two generated names are equal only when both the timestamps and the formats are equal |
| `Paths.WebviewPath` | src/pages/Tab2.jsx:42-47 | the webview path of a file in the Data directory ends in '/' followed by the file name: the last characters are exactly the name, with a '/' just before them |
| `Paths.CapturedFileRecovered` | src/pages/Tab2.jsx:85-87 | when the format has no '/', the delete handler's extraction applied to a captured photo's webview path gives exactly the name it was copied to |
| `Photos.Without` | src/pages/Tab2.jsx:79 | the filter never grows the list; a record survives exactly when it was in the list and its webview path differs from the target's |
| `Photos.WithoutAppend` | src/pages/Tab2.jsx:79 | filtering a concatenation is the concatenation of the filtered parts, so the surviving records keep their relative order |
| `Photos.WithoutSingleton` | src/pages/Tab2.jsx:79 | a single record survives exactly when its path differs from the target's |
| `Photos.WithoutUnchanged` | src/pages/Tab2.jsx:79 | the filter leaves the list unchanged exactly when no record has the target's webview path |
| `Photos.WithoutAbsent` | src/pages/Tab2.jsx:79 | deleting a record that is not in the list leaves the list unchanged |
| `Photos.WithoutIdempotent` | src/pages/Tab2.jsx:79 | deleting the same record a second time does not change the list |
| `Photos.WithoutCommutes` | src/pages/Tab2.jsx:79 | two deletions give the same list in either order |
| `Photos.PrependThenWithout` | src/pages/Tab2.jsx:69-79 | deleting a just-prepended record removes it, and restores the previous list exactly when no earlier record shared its path |
| `Tab2.UnderDirBasename` | src/pages/Tab2.jsx:85-87 | for a path under the Data directory, the extracted name is the part after the directory and its '/' |
| `Tab2.StoredFileOf` | src/pages/Tab2.jsx:85-91 | while the invariant holds, the file the delete handler would remove for any record is present |
| `Tab2.WithoutKeepsStored` | src/pages/Tab2.jsx:79-91 | filtering out a record of the Data directory and removing its file keeps every surviving record pointing at a present file |
| `Tab2.DeleteKeepsOthersStored` | src/pages/Tab2.jsx:77-92 | deleting a listed record together with the file its basename names keeps the invariant for all other records |
| `Tab2.CaptureKeepsStored` | src/pages/Tab2.jsx:34-49 | prepending a captured record whose file was copied keeps the invariant, when the format holds no '/' |
| `Tab2.LostCopyDangles` | src/pages/Tab2.jsx:36-40 | when the copy did not land, the prepended record names a missing file and the invariant fails |
| `Tab2.Gallery.constructor` | src/pages/Tab2.jsx:53 | the tab starts with an empty list over the stored snapshot and the files left by an earlier session |
| `Tab2.Gallery.SetStorage` | src/pages/Tab2.jsx:70 | the snapshot becomes the given list, and the write is appended to the trace |
| `Tab2.Gallery.CopyFile` | src/pages/Tab2.jsx:36-40 | a successful copy adds the name, mapped to its source, to the Data directory; a failed one changes nothing |
| `Tab2.Gallery.DeleteFile` | src/pages/Tab2.jsx:88-91 | a successful deletion removes exactly that name from the Data directory; a rejected one changes nothing and is reported |
| `Tab2.Gallery.SetPhotos` | src/pages/Tab2.jsx:61 | the in-memory list becomes the given list |
| `Tab2.Gallery.LoadSaved` | src/pages/Tab2.jsx:57-62 | a rejected read changes neither the list nor the trace; otherwise a missing snapshot gives the empty list, the list becomes exactly the stored one, list and snapshot agree, and the list update is the one effect |
| `Tab2.Gallery.TakePhoto` | src/pages/Tab2.jsx:27-50 | a rejected capture changes nothing; otherwise the copy to `<now>.<format>` lands when it succeeds, and the record `dataDirSrc/<name>` is returned only when the URI lookup succeeds |
| `Tab2.Gallery.HandleTakePhoto` | src/pages/Tab2.jsx:66-75 | on success the list is the new record followed by the old list, the snapshot equals it, and the effects are copy, snapshot write, list update, in that order; a rejection leaves list and snapshot as they were, and its only possible effect is the copy already started; a copied file whose format holds no '/' keeps the invariant, and a lost copy to a name not already present breaks it |
| `Tab2.Gallery.HandleDeletePhoto` | src/pages/Tab2.jsx:77-93 | the snapshot always becomes the filtered list; on success the file named by the basename is gone, the list equals the snapshot, the invariant is kept, and the effects are snapshot write, file deletion, list update, in that order; on a rejected deletion the list keeps the old records; deleting an absent record leaves the list unchanged |

## Left out

- The Ionic markup, the photo grid and the action sheet, with its `photoToDelete` selection state (src/pages/Tab2.jsx:95-161), are presentation. `src/pages/Tab1.jsx` and `capacitor.config.ts` have no logic.
- `Camera.getPhoto` and its options (result type, source, quality, presentation style) are not modelled. The camera is an input: `None` when the call rejects (cancelled or unavailable), otherwise the picked image's path and format.
- `Filesystem.getUri` and `Capacitor.convertFileSrc` are assumed to give the Data directory's webview form, then '/', then the file name. Their real string formats are platform code and are not part of this model. A rejecting `getUri` is the `uriOk` parameter.
- Whether `Filesystem.copy` and `Filesystem.deleteFile` succeed is a parameter. Their real behaviour, such as whether deleting a missing file throws, is platform code.
- SetStorage: does not model a failing or delayed `Storage.set`, because the handlers do not await it and never observe its outcome. The write is taken to land at once.
- JSON serialisation is not modelled: the snapshot is the list itself, so a corrupt stored value (which the code does not handle) cannot occur.
- Concurrency is not modelled. Each handler is one atomic step. This leaves out the unawaited `Storage.set` and `Filesystem.copy` racing later handlers, a load that finishes after a capture, and handlers that read a stale `photos`.
- Console logging of the loaded list and of capture errors is left out.
- DecimalString: does not model JavaScript's exponent notation for magnitudes of 10^21 and above, because millisecond timestamps never reach it.
- Strings are sequences of characters. JavaScript's UTF-16 code units, which `lastIndexOf` and `substr` count, are not modelled separately.

/** The photo data layer of the gallery tab: an in-memory ordered list of
    photo records, its persisted snapshot in the key-value store and the
    files in the app's Data directory, changed by the load, capture and
    delete handlers. Each handler runs as one atomic step. */
module Tab2 {
  import opened Wrappers
  import opened Paths
  import opened Photos

  /** The key-value store key under which the list is persisted. */
  const PhotoStorage: string := "photos"

  /** What the camera plugin hands back for a picked photo: the native path
      of the picked image and its encoding. */
  datatype Shot = Shot(path: string, format: string)

  /** The visible effects of the handlers, in the order they happen. */
  datatype Effect =
    | StorageSet(key: string, value: seq<Photo>)
    | FileCopied(from: string, to: string)
    | FileDeleted(name: string)
    | PhotosSet(value: seq<Photo>)

  /** `path` is `dir`, a '/', and a name holding no '/'. */
  predicate UnderDir(path: string, dir: string) {
    |path| > |dir| && path[..|dir|] == dir && path[|dir|] == '/' && '/' !in path[|dir| + 1..]
  }

  /** The name a path under `dir` recovers is the part after `dir` and
      its '/'. */
  lemma UnderDirBasename(path: string, dir: string)
    requires UnderDir(path, dir)
    ensures Basename(path) == path[|dir| + 1..]
  {
  }

  /** Every record points into the directory whose webview form is `dir`,
      and the file its path names there is present. */
  predicate Stored(photos: seq<Photo>, files: map<string, string>, dir: string) {
    forall i :: 0 <= i < |photos| ==>
      UnderDir(photos[i].webviewPath, dir) && photos[i].webviewPath[|dir| + 1..] in files
  }

  /** In a stored list, the file the delete handler would remove for a
      record, the basename of its path, is present. */
  lemma StoredFileOf(photos: seq<Photo>, files: map<string, string>, dir: string, i: int)
    requires Stored(photos, files, dir) && 0 <= i < |photos|
    ensures Basename(photos[i].webviewPath) in files
  {
  }

  /** Records left by a deletion point into the target's directory under
      names other than the target's, so removing the target's file keeps
      them stored. */
  lemma WithoutKeepsStored(photos: seq<Photo>, files: map<string, string>, dir: string, target: Photo)
    requires Stored(photos, files, dir)
    requires UnderDir(target.webviewPath, dir)
    ensures Stored(Without(photos, target), files - {target.webviewPath[|dir| + 1..]}, dir)
  {
  }

  /** Deleting a record of the list and its file leaves every other
      record stored, when all records point into one directory. */
  lemma DeleteKeepsOthersStored(photos: seq<Photo>, files: map<string, string>, dir: string, target: Photo)
    requires Stored(photos, files, dir)
    requires target in photos
    ensures Stored(Without(photos, target), files - {Basename(target.webviewPath)}, dir)
  {
    var k :| 0 <= k < |photos| && photos[k] == target;
    UnderDirBasename(target.webviewPath, dir);
    WithoutKeepsStored(photos, files, dir, target);
  }

  /** Prepending a captured record whose file was copied keeps the list
      stored. */
  lemma CaptureKeepsStored(photos: seq<Photo>, files: map<string, string>, dir: string,
                           now: int, format: string, from: string)
    requires '/' !in format
    requires Stored(photos, files, dir)
    ensures Stored([Photo(WebviewPath(dir, FileName(now, format)))] + photos,
                   files[FileName(now, format) := from], dir)
  {
  }

  /** A captured record whose copy did not land names a missing file: the
      list is no longer stored. */
  lemma LostCopyDangles(photos: seq<Photo>, files: map<string, string>, dir: string, now: int, format: string)
    requires FileName(now, format) !in files
    ensures !Stored([Photo(WebviewPath(dir, FileName(now, format)))] + photos, files, dir)
  {
    var path := WebviewPath(dir, FileName(now, format));
    assert ([Photo(path)] + photos)[0].webviewPath == path;
    assert path[|dir| + 1..] == FileName(now, format);
  }

  class Gallery {
    /** The `photos` state the tab renders. */
    var photos: seq<Photo>
    /** The value kept under PhotoStorage in the key-value store, None
        while nothing has been stored there. */
    var saved: Option<seq<Photo>>
    /** The Data directory: each file name mapped to the native path it
        was copied from. */
    var files: map<string, string>
    /** The webview form of the Data directory's URI. */
    const dataDirSrc: string
    /** Every effect so far, oldest first. */
    ghost var trace: seq<Effect>

    /** The in-memory list is the one a fresh load would read. */
    ghost predicate Consistent()
      reads this
    {
      saved.GetOr([]) == photos
    }

    /** The tab is mounted with an empty list over whatever the previous
        session left in the store and in the Data directory. */
    constructor (dataDirSrc: string, saved: Option<seq<Photo>>, files: map<string, string>)
      ensures this.dataDirSrc == dataDirSrc
      ensures photos == [] && this.saved == saved && this.files == files
      ensures trace == []
    {
      this.dataDirSrc := dataDirSrc;
      this.photos := [];
      this.saved := saved;
      this.files := files;
      this.trace := [];
    }

    /** `Storage.set` of the list under PhotoStorage; the call is not
        awaited by the handlers, and its effect is taken to land at once. */
    method SetStorage(value: seq<Photo>)
      modifies this`saved, this`trace
      ensures saved == Some(value)
      ensures trace == old(trace) + [StorageSet(PhotoStorage, value)]
    {
      saved := Some(value);
      trace := trace + [StorageSet(PhotoStorage, value)];
    }

    /** `Filesystem.copy` of a picked image into the Data directory. The
        handlers do not await it, so a copy that fails (`succeeds` false)
        leaves the directory as it was and is noticed by nobody. */
    method CopyFile(from: string, to: string, succeeds: bool)
      modifies this`files, this`trace
      ensures files == if succeeds then old(files)[to := from] else old(files)
      ensures trace == old(trace) + if succeeds then [FileCopied(from, to)] else []
    {
      if succeeds {
        files := files[to := from];
        trace := trace + [FileCopied(from, to)];
      }
    }

    /** `Filesystem.deleteFile` in the Data directory, awaited: when it
        rejects (`succeeds` false) nothing is deleted. */
    method DeleteFile(name: string, succeeds: bool) returns (ok: bool)
      modifies this`files, this`trace
      ensures ok == succeeds
      ensures files == if ok then old(files) - {name} else old(files)
      ensures trace == old(trace) + if ok then [FileDeleted(name)] else []
    {
      ok := succeeds;
      if ok {
        files := files - {name};
        trace := trace + [FileDeleted(name)];
      }
    }

    /** `setPhotos`: replaces the list the tab renders. */
    method SetPhotos(value: seq<Photo>)
      modifies this`photos, this`trace
      ensures photos == value
      ensures trace == old(trace) + [PhotosSet(value)]
    {
      photos := value;
      trace := trace + [PhotosSet(value)];
    }

    /** Replaces the list by the persisted one, or by the empty list when
        nothing is stored. `getOk` false is a rejecting `Storage.get`: the
        load ends before the list is set. */
    method LoadSaved(getOk: bool)
      modifies this`photos, this`trace
      ensures !getOk ==> photos == old(photos) && trace == old(trace)
      ensures getOk && saved.None? ==> photos == []
      ensures getOk && saved.Some? ==> photos == saved.value
      ensures getOk ==> Consistent()
      ensures getOk ==> trace == old(trace) + [PhotosSet(photos)]
    {
      if !getOk {
        return;
      }
      var photosInStorage := if saved.Some? then saved.value else [];
      SetPhotos(photosInStorage);
    }

    /** Picks a photo and copies it into the Data directory under
        `<now>.<format>`. `camera` is None when the camera call rejects
        (cancelled or unavailable); the copy is started without being
        awaited, so its failure (`copyOk` false) goes unnoticed; a
        rejected URI lookup (`uriOk` false) rejects the whole call after
        the copy was started. */
    method TakePhoto(camera: Option<Shot>, now: int, copyOk: bool, uriOk: bool) returns (r: Option<Photo>)
      modifies this`files, this`trace
      ensures camera.None? ==> r == None && files == old(files) && trace == old(trace)
      ensures camera.Some? ==>
        var name := FileName(now, camera.value.format);
        && files == (if copyOk then old(files)[name := camera.value.path] else old(files))
        && trace == old(trace) + (if copyOk then [FileCopied(camera.value.path, name)] else [])
        && r == (if uriOk then Some(Photo(WebviewPath(dataDirSrc, name))) else None)
    {
      if camera.None? {
        return None;
      }
      var shot := camera.value;
      var fileName := FileName(now, shot.format);
      CopyFile(shot.path, fileName, copyOk);
      if !uriOk {
        return None;
      }
      var webviewPath := WebviewPath(dataDirSrc, fileName);
      r := Some(Photo(webviewPath));
    }

    /** Captures a photo, prepends its record, rewrites the snapshot, then
        sets the list. Any rejection inside the capture is caught and
        leaves the list and the snapshot as they were. */
    method HandleTakePhoto(camera: Option<Shot>, now: int, copyOk: bool, uriOk: bool)
      modifies this`photos, this`saved, this`files, this`trace
      ensures camera.Some? ==>
        files == (if copyOk then old(files)[FileName(now, camera.value.format) := camera.value.path] else old(files))
      ensures camera.None? ==> files == old(files)
      ensures old(files).Keys <= files.Keys
      ensures camera.None? || !uriOk ==>
        photos == old(photos) && saved == old(saved) && (old(Consistent()) ==> Consistent())
        && trace == old(trace)
                    + (if camera.Some? && copyOk then [FileCopied(camera.value.path, FileName(now, camera.value.format))] else [])
      ensures camera.Some? && uriOk ==>
        var photo := Photo(WebviewPath(dataDirSrc, FileName(now, camera.value.format)));
        && photos == [photo] + old(photos)
        && saved == Some(photos)
        && Consistent()
        && trace == old(trace)
                    + (if copyOk then [FileCopied(camera.value.path, FileName(now, camera.value.format))] else [])
                    + [StorageSet(PhotoStorage, photos), PhotosSet(photos)]
      ensures camera.Some? && uriOk && copyOk && '/' !in camera.value.format
              && old(Stored(photos, files, dataDirSrc))
              ==> Stored(photos, files, dataDirSrc)
      ensures camera.Some? && uriOk && !copyOk && FileName(now, camera.value.format) !in old(files) ==>
              !Stored(photos, files, dataDirSrc)
    {
      ghost var before := photos;
      var taken := TakePhoto(camera, now, copyOk, uriOk);
      if taken.Some? {
        if copyOk && '/' !in camera.value.format && Stored(before, old(files), dataDirSrc) {
          CaptureKeepsStored(before, old(files), dataDirSrc, now, camera.value.format, camera.value.path);
        }
        if !copyOk && FileName(now, camera.value.format) !in files {
          LostCopyDangles(before, files, dataDirSrc, now, camera.value.format);
        }
        var newPhotos := [taken.value] + photos;
        SetStorage(newPhotos);
        SetPhotos(newPhotos);
      }
    }

    /** Drops every record sharing `photo`'s webview path from the list,
        overwrites the snapshot with the result, deletes the file named by
        the text after the path's last '/', and only then sets the list.
        When the deletion rejects (`deleteOk` false) the handler stops
        there: the snapshot is already filtered but the list is not. */
    method HandleDeletePhoto(photo: Photo, deleteOk: bool) returns (ok: bool)
      modifies this`photos, this`saved, this`files, this`trace
      ensures ok == deleteOk
      ensures saved == Some(Without(old(photos), photo))
      ensures files == if ok then old(files) - {Basename(photo.webviewPath)} else old(files)
      ensures photos == if ok then Without(old(photos), photo) else old(photos)
      ensures ok ==> Consistent() && Basename(photo.webviewPath) !in files
      ensures !ok ==> saved == Some(Without(photos, photo))
      ensures trace == old(trace) + [StorageSet(PhotoStorage, Without(old(photos), photo))]
                      + (if ok then [FileDeleted(Basename(photo.webviewPath)), PhotosSet(photos)] else [])
      ensures ok && photo in old(photos) && old(Stored(photos, files, dataDirSrc)) ==>
              Stored(photos, files, dataDirSrc)
      ensures photo !in old(photos) ==> photos == old(photos) && saved == Some(photos) && Consistent()
    {
      if photo in photos && Stored(photos, files, dataDirSrc) {
        DeleteKeepsOthersStored(photos, files, dataDirSrc, photo);
      }
      if photo !in photos {
        WithoutAbsent(photos, photo);
      }
      var newPhotos := Without(photos, photo);
      SetStorage(newPhotos);
      var filename := Basename(photo.webviewPath);
      ok := DeleteFile(filename, deleteOk);
      if ok {
        SetPhotos(newPhotos);
      }
    }
  }
}

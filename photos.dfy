/** The photo record and the list transform of the delete handler. */
module Photos {

  /** A photo record. Its only field, the webview path, is also its
      identity: records are compared by it and by nothing else. */
  datatype Photo = Photo(webviewPath: string)

  /** `photos.filter(p => p.webviewPath !== target.webviewPath)`: every
      record sharing the target's webview path is dropped, every other
      record is kept. */
  function Without(photos: seq<Photo>, target: Photo): (r: seq<Photo>)
    ensures |r| <= |photos|
    ensures forall p :: p in r <==> p in photos && p.webviewPath != target.webviewPath
  {
    if photos == [] then []
    else if photos[0].webviewPath != target.webviewPath then [photos[0]] + Without(photos[1..], target)
    else Without(photos[1..], target)
  }

  /** Filtering works element by element, so the kept records stay in
      their original order. */
  lemma {:induction false} WithoutAppend(a: seq<Photo>, b: seq<Photo>, target: Photo)
    ensures Without(a + b, target) == Without(a, target) + Without(b, target)
  {
    if a != [] {
      assert (a + b)[1..] == a[1..] + b;
      WithoutAppend(a[1..], b, target);
    } else {
      assert a + b == b;
    }
  }

  /** A one-record list is kept exactly when the record is not the target. */
  lemma WithoutSingleton(p: Photo, target: Photo)
    ensures Without([p], target) == if p.webviewPath != target.webviewPath then [p] else []
  {
  }

  /** Filtering changes nothing exactly when no record has the target's
      webview path. */
  lemma {:induction false} WithoutUnchanged(photos: seq<Photo>, target: Photo)
    ensures Without(photos, target) == photos <==>
            forall i :: 0 <= i < |photos| ==> photos[i].webviewPath != target.webviewPath
  {
    if forall i :: 0 <= i < |photos| ==> photos[i].webviewPath != target.webviewPath {
      if photos != [] {
        assert forall i :: 0 <= i < |photos[1..]| ==> photos[1..][i] == photos[i + 1];
        WithoutUnchanged(photos[1..], target);
      }
    } else {
      var i :| 0 <= i < |photos| && photos[i].webviewPath == target.webviewPath;
      assert photos[i] !in Without(photos, target);
    }
  }

  /** Deleting a record that is not in the list changes nothing: records
      are equal exactly when their webview paths are. */
  lemma WithoutAbsent(photos: seq<Photo>, target: Photo)
    requires target !in photos
    ensures Without(photos, target) == photos
  {
  }

  /** Deleting the same record twice changes the list only the first time. */
  lemma WithoutIdempotent(photos: seq<Photo>, target: Photo)
    ensures Without(Without(photos, target), target) == Without(photos, target)
  {
  }

  /** Two deletions give the same list in either order. */
  lemma {:induction false} WithoutCommutes(photos: seq<Photo>, a: Photo, b: Photo)
    ensures Without(Without(photos, a), b) == Without(Without(photos, b), a)
  {
    if photos != [] {
      var p := photos[0];
      assert photos == [p] + photos[1..];
      WithoutAppend([p], photos[1..], a);
      WithoutAppend([p], photos[1..], b);
      WithoutAppend(Without([p], a), Without(photos[1..], a), b);
      WithoutAppend(Without([p], b), Without(photos[1..], b), a);
      WithoutSingleton(p, a);
      WithoutSingleton(p, b);
      assert Without([], a) == [] && Without([], b) == [];
      WithoutCommutes(photos[1..], a, b);
    }
  }

  /** Deleting a record just added removes it again; the list is restored
      exactly when no earlier record shared its webview path. */
  lemma PrependThenWithout(photo: Photo, photos: seq<Photo>)
    ensures Without([photo] + photos, photo) == Without(photos, photo)
    ensures (forall i :: 0 <= i < |photos| ==> photos[i].webviewPath != photo.webviewPath) <==>
            Without([photo] + photos, photo) == photos
  {
    assert ([photo] + photos)[1..] == photos;
    WithoutUnchanged(photos, photo);
  }
}

/** The commands of the tool (cli.py) over one bucket.

    `Store` holds the bucket's keys and changes them in place the way the
    storage calls do; each command is a method that runs the source's checks in
    order and then performs its storage calls one at a time. Failures of the
    network or the local file system are inputs: the set of files whose
    transfer raises, and whether the directory passes its access check.
 */
module Commands {
  import opened Outcomes
  import opened Keys
  import opened Config
  import opened Site
  import opened Bucket

  /** The glob loop of upload (cli.py:60-62): the `*.jpg` entries of the
      directory, then the `*.jpeg` ones. */
  method CollectPhotos(dir: seq<string>) returns (photos: seq<string>)
    ensures photos == Photos(dir)
    ensures forall n :: n in photos <==> n in dir && (GlobMatches(n, ".jpg") || GlobMatches(n, ".jpeg"))
  {
    photos := [];
    for i := 0 to |PhotoSuffixes|
      invariant photos == GlobAll(dir, PhotoSuffixes[..i])
    {
      GlobAllStep(dir, PhotoSuffixes, i);
      photos := photos + Glob(dir, PhotoSuffixes[i]);
    }
    assert PhotoSuffixes[..|PhotoSuffixes|] == PhotoSuffixes;
  }

  /** The matching loop of list (cli.py:136-139): `group(1)` of every key the
      pattern matches, in listing order. */
  method CollectNames(response: seq<string>, album: Option<string>) returns (names: seq<string>)
    ensures names == MatchedNames(response, album)
  {
    names := [];
    for i := 0 to |response|
      invariant names == MatchedNames(response[..i], album)
    {
      var m := MatchName(response[i], album);
      MatchedNamesStep(response, i, album);
      if m.Some? {
        names := names + [m.value];
      }
    }
    assert response[..|response|] == response;
  }

  /** The transfer loop of download (cli.py:101-112): the photo keys of
      `response` are fetched in order until one in `failing` raises. */
  method FetchPhotos(response: seq<string>, path: string, failing: set<string>)
    returns (done: seq<Transfer>, r: Outcome<Error>)
    ensures var plan := DownloadPlan(response, path);
      && |done| <= |plan| && done == plan[..|done|]
      && (forall t :: t in done ==> t.key !in failing)
      && (r.Pass? <==> |done| == |plan|)
      && (r.Fail? ==> plan[|done|].key in failing && r == Fail(DownloadFailed(plan[|done|].key)))
  {
    done := [];
    for i := 0 to |response|
      invariant done == DownloadPlan(response[..i], path)
      invariant forall t :: t in done ==> t.key !in failing
    {
      var objectName := response[i];
      DownloadPlanStep(response, i, path);
      var m := ParsePhotoKey(objectName);
      if m.None? {
        continue;
      }
      if objectName in failing {
        DownloadPlanAt(response, i, path);
        return done, Fail(DownloadFailed(objectName));
      }
      done := done + [Transfer(objectName, PathJoin(path, m.value))];
    }
    assert response[..|response|] == response;
    r := Pass;
  }

  /** A bucket: the keys of its objects, in listing order. */
  class Store {
    var keys: seq<string>

    /** An object key occurs once. */
    ghost predicate Valid()
      reads this
    {
      NoDuplicates(keys)
    }

    constructor (initial: seq<string>)
      requires NoDuplicates(initial)
      ensures Valid() && keys == initial
    {
      keys := initial;
    }

    /** `put_object`. */
    method PutObject(key: string)
      requires Valid()
      modifies this
      ensures Valid()
      ensures keys == Put(old(keys), key)
    {
      if key !in keys {
        keys := keys + [key];
      }
    }

    /** `delete_objects` with the keys of `batch`, and `delete_object` for one key. */
    method DeleteObjects(batch: seq<string>)
      requires Valid()
      modifies this
      ensures Valid()
      ensures keys == Without(old(keys), batch)
    {
      keys := Without(keys, batch);
    }

    /** The transfer loop of upload (cli.py:72-77): each photo not in `failing`
        is put under `<album>/<photo>`, in order. */
    method PutPhotos(album: string, photos: seq<string>, failing: set<string>)
      requires Valid()
      modifies this
      ensures Valid()
      ensures keys == PutAll(old(keys), MemberKeys(album, Kept(photos, failing)))
    {
      for i := 0 to |photos|
        invariant Valid()
        invariant keys == PutAll(old(keys), MemberKeys(album, Kept(photos[..i], failing)))
      {
        var photo := photos[i];
        assert photos[..i + 1] == photos[..i] + [photo];
        if photo !in failing {
          ghost var names := Kept(photos[..i + 1], failing);
          assert names == Kept(photos[..i], failing) + [photo];
          assert MemberKeys(album, names)[..|names| - 1] == MemberKeys(album, Kept(photos[..i], failing));
          PutObject(MemberKey(album, photo));
        }
      }
      assert photos[..|photos|] == photos;
    }

    /** upload (cli.py:45-79). Files in `failing` raise while being read or
        sent: the error is reported, the file skipped, and the command still
        succeeds. */
    method Upload(file: ConfigFile, album: string, readable: bool, dir: seq<string>, failing: set<string>)
      returns (r: Outcome<Error>)
      requires Valid()
      modifies this
      ensures Valid()
      ensures r == UploadCheck(file, album, readable, dir)
      ensures r.Fail? ==> keys == old(keys)
      ensures r.Pass? ==> keys == UploadedKeys(old(keys), album, Photos(dir), failing)
    {
      var cfg := CheckConfigAsWritten(file);
      if cfg.Err? {
        return Fail(cfg.error);
      }
      var nameCheck := CheckAlbumName(album);
      if nameCheck.Fail? {
        return nameCheck;
      }
      if !readable {
        return Fail(DirectoryNotAvailable);
      }
      var photos := CollectPhotos(dir);
      if |photos| == 0 {
        return Fail(NoPhotos);
      }
      var response := Listing(keys, AlbumPrefix(album));
      if response == [] {
        PutObject(AlbumPrefix(album));
      }
      PutPhotos(album, photos, failing);
      return Pass;
    }

    /** download (cli.py:82-114). `done` is the transfers that completed; a
        transfer of a key in `failing` raises and aborts the command. */
    method Download(file: ConfigFile, album: string, writable: bool, path: string, failing: set<string>)
      returns (done: seq<Transfer>, r: Outcome<Error>)
      ensures DownloadCheck(file, keys, album, writable).Fail? ==>
        r == DownloadCheck(file, keys, album, writable) && done == []
      ensures DownloadCheck(file, keys, album, writable).Pass? ==>
        var plan := DownloadPlan(Listing(keys, AlbumPrefix(album)), path);
        && |done| <= |plan| && done == plan[..|done|]
        && (forall t :: t in done ==> t.key !in failing)
        && (r.Pass? <==> |done| == |plan|)
        && (r.Fail? ==> plan[|done|].key in failing && r == Fail(DownloadFailed(plan[|done|].key)))
    {
      done := [];
      var cfg := CheckConfigAsWritten(file);
      if cfg.Err? {
        return done, Fail(cfg.error);
      }
      var response := Listing(keys, AlbumPrefix(album));
      if response == [] {
        return done, Fail(AlbumDoesNotExist);
      }
      if !writable {
        return done, Fail(DirectoryNotAvailable);
      }
      done, r := FetchPhotos(response, path, failing);
    }

    /** list (cli.py:117-144): the album names, or the file names of one album. */
    method List(file: ConfigFile, album: Option<string>) returns (r: Result<seq<string>, Error>)
      ensures CheckConfigAsWritten(file).Err? ==> r == Err(CheckConfigAsWritten(file).error)
      ensures CheckConfigAsWritten(file).Ok? ==> r == ListResult(keys, album)
    {
      var cfg := CheckConfigAsWritten(file);
      if cfg.Err? {
        return Err(cfg.error);
      }
      var response := if album.None? then keys else Listing(keys, AlbumPrefix(album.value));
      if response == [] {
        return Err(AlbumDoesNotExist);
      }
      var result := CollectNames(response, album);
      if |result| == 0 {
        return Err(ObjectIsEmpty);
      }
      r := Ok(result);
    }

    /** delete (cli.py:147-177): the whole album, or one photo of it. */
    method Delete(file: ConfigFile, album: string, photo: Option<string>) returns (r: Outcome<Error>)
      requires Valid()
      modifies this
      ensures Valid()
      ensures r == DeleteCheck(file, old(keys), album, photo)
      ensures r.Fail? ==> keys == old(keys)
      ensures r.Pass? && photo.None? ==> keys == Without(old(keys), Listing(old(keys), AlbumPrefix(album)))
      ensures r.Pass? && photo.Some? ==> keys == Without(old(keys), [MemberKey(album, photo.value)])
    {
      var cfg := CheckConfigAsWritten(file);
      if cfg.Err? {
        return Fail(cfg.error);
      }
      var response := Listing(keys, AlbumPrefix(album));
      if response == [] {
        return Fail(AlbumDoesNotExist);
      }
      if photo.None? {
        DeleteObjects(response);
      } else {
        var key := MemberKey(album, photo.value);
        MemberKeyHasPrefix(album, photo.value);
        if key !in response {
          return Fail(PhotoDoesNotExist(key));
        }
        DeleteObjects([key]);
      }
      r := Pass;
    }

    /** The page loop of mksite (cli.py:211-214): each album's page is prepared
        and put in turn; the first album holding a key the photo pattern
        rejects aborts the loop, leaving the pages put before it. */
    method PublishPages(contents: seq<AlbumContent>, endpoint: string, bucket: string)
      returns (r: Result<seq<PhotoPage>, Error>)
      requires Valid()
      modifies this
      ensures Valid()
      ensures r == SitePages(contents, endpoint, bucket)
      ensures keys == PutAll(old(keys), PageKeysOf(PagesPut(contents, endpoint, bucket)))
      ensures forall k :: k in old(keys) ==> k in keys
    {
      var pages := [];
      for j := 0 to |contents|
        invariant Valid()
        invariant SitePages(contents[..j], endpoint, bucket) == Ok(pages)
        invariant keys == PutAll(old(keys), PageKeysOf(pages))
      {
        SitePagesStep(contents, j, endpoint, bucket);
        var page := PreparePhotosContent(contents[j], endpoint, bucket);
        if page.Err? {
          SitePagesFirstFailure(contents, j + 1, endpoint, bucket);
          PagesPutStep(contents, j, endpoint, bucket);
          PagesPutFrozen(contents, j + 1, endpoint, bucket);
          return Err(page.error);
        }
        PutObject(page.value.key);
        PutAllPageKeysSnoc(old(keys), pages, page.value);
        pages := pages + [page.value];
      }
      assert contents[..|contents|] == contents;
      r := Ok(pages);
    }

    /** mksite (cli.py:180-216). The access-control and website settings calls
        are not modelled; the listing is taken before `error.html` is put. A
        photo key the photo pattern rejects aborts publishing with the pages
        put so far left in place. */
    method MakeSite(file: ConfigFile) returns (r: Result<PublishedSite, Error>)
      requires Valid()
      modifies this
      ensures Valid()
      ensures CheckConfigAsWritten(file).Err? ==> r == Err(CheckConfigAsWritten(file).error) && keys == old(keys)
      ensures CheckConfigAsWritten(file).Ok? && old(keys) == [] ==>
        && r == Ok(PublishedSite(WebSiteUrl(CheckConfigAsWritten(file).value.bucket), [], []))
        && keys == [ErrorPageKey, IndexPageKey]
      ensures CheckConfigAsWritten(file).Ok? && old(keys) != [] ==>
        var cfg := CheckConfigAsWritten(file).value;
        var pages := SitePages(AlbumContents(old(keys)), cfg.endpointUrl, cfg.bucket);
        && (r.Ok? <==> pages.Ok?)
        && (r.Err? ==> r == Err(pages.error))
        && (r.Ok? ==>
              r.value == PublishedSite(WebSiteUrl(cfg.bucket), AlbumParams(AlbumNames(old(keys))), pages.value))
        && keys == PutAll(PutAll(old(keys), [ErrorPageKey, IndexPageKey]),
                          PageKeysOf(PagesPut(AlbumContents(old(keys)), cfg.endpointUrl, cfg.bucket)))
        && (forall k :: k in old(keys) ==> k in keys)
        && ErrorPageKey in keys && IndexPageKey in keys
    {
      var cfg := CheckConfigAsWritten(file);
      if cfg.Err? {
        return Err(cfg.error);
      }
      var endpoint, bucket := cfg.value.endpointUrl, cfg.value.bucket;
      var response := keys;
      PutObject(ErrorPageKey);
      if response == [] {
        PutObject(IndexPageKey);
        return Ok(PublishedSite(WebSiteUrl(bucket), [], []));
      }
      var albumsParams, albumsContent := PrepareAlbumsContent(response);
      assert albumsContent == AlbumContents(response);
      PutObject(IndexPageKey);
      ghost var published := keys;
      PutAllPair(response, ErrorPageKey, IndexPageKey);
      var pages := PublishPages(albumsContent, endpoint, bucket);
      if pages.Err? {
        return Err(pages.error);
      }
      r := Ok(PublishedSite(WebSiteUrl(bucket), albumsParams, pages.value));
    }
  }
}

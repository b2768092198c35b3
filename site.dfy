/** Site-content preparation for the published gallery (helper.py:115-147).

    From a bucket listing, `PrepareAlbumsContent` finds the albums (keys of
    the form `<name>/`), numbers them 1, 2, ... in listing order and gathers
    the files of each; `PreparePhotosContent` turns one album into the key of
    its page and one (url, name) entry per photo. Template rendering is not
    modelled: the page data is the result.
 */
module Site {
  import opened Outcomes
  import opened Keys

  /** One entry of the index page. */
  datatype AlbumParam = AlbumParam(id: nat, name: string)

  /** The keys to show on the page of album number `album`. */
  datatype AlbumContent = AlbumContent(album: nat, photos: seq<string>)

  /** One entry of an album page. */
  datatype PhotoEntry = PhotoEntry(url: string, name: string)

  /** An album page: the key it is published under and its entries. */
  datatype PhotoPage = PhotoPage(key: string, photos: seq<PhotoEntry>)

  /** `s.replace('/', '')`. */
  function RemoveSlashes(s: string): (r: string)
    ensures SlashFree(r) && |r| <= |s|
    ensures SlashFree(s) ==> r == s
  {
    if s == [] then []
    else (if s[0] == '/' then [] else [s[0]]) + RemoveSlashes(s[1..])
  }

  /** Removing the slashes from the marker of an album gives back its name. */
  lemma {:induction false} RemoveSlashesOfMarker(name: string)
    requires SlashFree(name)
    ensures RemoveSlashes(AlbumPrefix(name)) == name
  {
    if name == [] {
    } else {
      assert AlbumPrefix(name)[1..] == AlbumPrefix(name[1..]);
      RemoveSlashesOfMarker(name[1..]);
    }
  }

  /** The comprehension at helper.py:117: the names of the keys that
      S3_ALBUM_REGEX matches, with their slashes removed, in listing order. */
  function AlbumNames(objects: seq<string>): (names: seq<string>)
    ensures |names| <= |objects|
    ensures forall k {:trigger ParseAlbumMarker(k)} :: k in objects && ParseAlbumMarker(k).Some? ==> ParseAlbumMarker(k).value in names
  {
    if objects == [] then []
    else
      var init, last := objects[..|objects| - 1], objects[|objects| - 1];
      assert objects == init + [last];
      var m := ParseAlbumMarker(last);
      if m.Some? then
        RemoveSlashesOfMarker(m.value);
        AlbumNames(init) + [RemoveSlashes(last)]
      else
        AlbumNames(init)
  }

  /** Every album name comes from a marker key `<name>/` of the listing. */
  lemma {:induction false} AlbumNamesSound(objects: seq<string>)
    ensures forall n :: n in AlbumNames(objects) ==> IsAlbumName(n) && AlbumPrefix(n) in objects
  {
    if objects != [] {
      var init := objects[..|objects| - 1];
      var last := objects[|objects| - 1];
      assert objects == init + [last];
      AlbumNamesSound(init);
      var m := ParseAlbumMarker(last);
      if m.Some? {
        RemoveSlashesOfMarker(m.value);
      }
    }
  }

  /** Album names keep the order of the listing: the names found in a listing
      are those of its first part followed by those of its second part. */
  lemma {:induction false} AlbumNamesAppend(a: seq<string>, b: seq<string>)
    ensures AlbumNames(a + b) == AlbumNames(a) + AlbumNames(b)
  {
    if b == [] {
      assert a + b == a;
    } else {
      var init := b[..|b| - 1];
      assert (a + b)[..|a + b| - 1] == a + init;
      AlbumNamesAppend(a, init);
    }
  }

  /** The comprehension at helper.py:118: album `i` of the list gets id `i + 1`. */
  function AlbumParams(albums: seq<string>): (params: seq<AlbumParam>)
    ensures |params| == |albums|
    ensures forall i :: 0 <= i < |params| ==> params[i].id == i + 1 && params[i].name == albums[i]
  {
    seq(|albums|, i requires 0 <= i < |albums| => AlbumParam(i + 1, albums[i]))
  }

  /** The ids of the index page are 1..n, strictly increasing, so no two albums share one. */
  lemma AlbumIdsDistinct(albums: seq<string>, i: nat, j: nat)
    requires i < j < |albums|
    ensures 1 <= AlbumParams(albums)[i].id < AlbumParams(albums)[j].id <= |albums|
  {
  }

  /** The keys that the album's file pattern matches, in listing order
      (the inner loop of helper.py:121-125). */
  function AlbumPhotos(album: string, objects: seq<string>): (photos: seq<string>)
    ensures |photos| <= |objects|
    ensures forall k :: k in photos <==> k in objects && ParseAlbumMember(album, k).Some?
  {
    if objects == [] then []
    else
      var init, last := objects[..|objects| - 1], objects[|objects| - 1];
      assert objects == init + [last];
      if ParseAlbumMember(album, last).Some? then AlbumPhotos(album, init) + [last]
      else AlbumPhotos(album, init)
  }

  /** An album's photos keep the order of the listing. */
  lemma {:induction false} AlbumPhotosAppend(album: string, a: seq<string>, b: seq<string>)
    ensures AlbumPhotos(album, a + b) == AlbumPhotos(album, a) + AlbumPhotos(album, b)
  {
    if b == [] {
      assert a + b == a;
    } else {
      var init := b[..|b| - 1];
      assert (a + b)[..|a + b| - 1] == a + init;
      AlbumPhotosAppend(album, a, init);
    }
  }

  /** The photos of an album are exactly the keys `<album>/<f>` with `f`
      non-empty and slash-free; the album's own marker is never one of them. */
  lemma AlbumPhotosExact(album: string, objects: seq<string>, f: string)
    requires |f| > 0 && SlashFree(f)
    ensures MemberKey(album, f) in AlbumPhotos(album, objects) <==> MemberKey(album, f) in objects
    ensures AlbumPrefix(album) !in AlbumPhotos(album, objects)
  {
    MemberRoundTrip(album, f);
    MarkerIsNotMember(album);
  }

  /** prepare_albums_content (helper.py:115-132). */
  method PrepareAlbumsContent(objects: seq<string>) returns (params: seq<AlbumParam>, content: seq<AlbumContent>)
    ensures params == AlbumParams(AlbumNames(objects))
    ensures content == AlbumContents(objects)
  {
    var albums := AlbumNames(objects);
    params := AlbumParams(albums);
    content := [];
    for j := 0 to |params|
      invariant content == AlbumContents(objects)[..j]
    {
      var alb := params[j];
      var albumPhotos := CollectAlbumPhotos(alb.name, objects);
      content := content + [AlbumContent(alb.id, albumPhotos)];
    }
  }

  /** The album contents prepare_albums_content computes from a listing: one
      per album found, in order, the i-th numbered i+1 and holding exactly the
      keys that album's file pattern matches. */
  function AlbumContents(objects: seq<string>): (r: seq<AlbumContent>)
    ensures |r| == |AlbumNames(objects)|
    ensures forall i :: 0 <= i < |r| ==>
      && r[i].album == i + 1
      && (forall k :: k in r[i].photos <==> k in objects && ParseAlbumMember(AlbumNames(objects)[i], k).Some?)
  {
    var names := AlbumNames(objects);
    seq(|names|, i requires 0 <= i < |names| => AlbumContent(i + 1, AlbumPhotos(names[i], objects)))
  }

  /** The inner loop of prepare_albums_content (helper.py:121-125): the keys
      the album's file pattern matches, appended in listing order. */
  method CollectAlbumPhotos(album: string, objects: seq<string>) returns (albumPhotos: seq<string>)
    ensures albumPhotos == AlbumPhotos(album, objects)
  {
    albumPhotos := [];
    for t := 0 to |objects|
      invariant albumPhotos == AlbumPhotos(album, objects[..t])
    {
      assert objects[..t + 1] == objects[..t] + [objects[t]];
      if ParseAlbumMember(album, objects[t]).Some? {
        albumPhotos := albumPhotos + [objects[t]];
      }
    }
    assert objects[..|objects|] == objects;
  }

  /** The decimal digit `d`. */
  function Digit(d: nat): char
    requires d < 10
  {
    "0123456789"[d]
  }

  /** The value of a decimal digit character. */
  function DigitValue(c: char): nat
  {
    if '0' <= c <= '9' then (c - '0') as nat else 0
  }

  /** `str(n)` for a natural number: its decimal digits. */
  function NatToString(n: nat): (s: string)
    ensures |s| > 0
    decreases n
  {
    if n < 10 then [Digit(n)] else NatToString(n / 10) + [Digit(n % 10)]
  }

  /** Reads a decimal numeral back. */
  function ParseNat(s: string): nat
    requires |s| > 0
  {
    if |s| == 1 then DigitValue(s[0])
    else 10 * ParseNat(s[..|s| - 1]) + DigitValue(s[|s| - 1])
  }

  /** The decimal numeral of `n` reads back as `n`. */
  lemma {:induction false} ParseNatToString(n: nat)
    ensures ParseNat(NatToString(n)) == n
    decreases n
  {
    if n >= 10 {
      var s := NatToString(n);
      assert s[..|s| - 1] == NatToString(n / 10);
      ParseNatToString(n / 10);
    }
  }

  /** The key of the page of album `id`: `f'album{id}.html'` (helper.py:137). */
  function PageKey(id: nat): (r: string)
    ensures |r| > 10 && r[..5] == "album" && r[|r| - 5..] == ".html"
    ensures ParseNat(r[5..|r| - 5]) == id
  {
    var digits := NatToString(id);
    var key := "album" + digits + ".html";
    assert key[5..|key| - 5] == digits;
    ParseNatToString(id);
    key
  }

  /** The public URL of an object: `<endpoint>/<bucket>/<key>` (helper.py:141). */
  function PhotoUrl(endpoint: string, bucket: string, key: string): (r: string)
    ensures |r| == |endpoint| + |bucket| + |key| + 2
    ensures r[..|endpoint| + 1] == endpoint + "/"
    ensures r[|r| - |key| - 1..] == "/" + key
  {
    endpoint + "/" + bucket + "/" + key
  }

  /** The entries of an album page, one per photo in order; the first key that
      PHOTO_FILE_REGEX does not match makes `.group(1)` raise, which is the
      error returned. */
  function PhotoEntries(photos: seq<string>, endpoint: string, bucket: string): (r: Result<seq<PhotoEntry>, Error>)
    ensures r.Ok? <==> forall k :: k in photos ==> ParsePhotoKey(k).Some?
    ensures r.Err? ==> r.error.NotAPhotoKey? && r.error.key in photos && ParsePhotoKey(r.error.key).None?
    ensures r.Ok? ==> |r.value| == |photos|
    ensures r.Ok? ==> forall i :: 0 <= i < |photos| ==>
      && r.value[i].url == PhotoUrl(endpoint, bucket, photos[i])
      && IsPhotoFileName(r.value[i].name)
      && photos[i] == MemberKey(DirOf(photos[i]), r.value[i].name)
  {
    if photos == [] then Ok([])
    else
      var init, last := photos[..|photos| - 1], photos[|photos| - 1];
      assert photos == init + [last];
      var prev := PhotoEntries(init, endpoint, bucket);
      if prev.Err? then prev
      else
        match ParsePhotoKey(last)
        case None => Err(NotAPhotoKey(last))
        case Some(name) => Ok(prev.value + [PhotoEntry(PhotoUrl(endpoint, bucket, last), name)])
  }

  /** One more photo extends the entries by its own, or fails them with its
      key; entries that have failed stay failed. */
  lemma {:induction false} PhotoEntriesStep(photos: seq<string>, t: nat, endpoint: string, bucket: string)
    requires t < |photos|
    ensures PhotoEntries(photos[..t + 1], endpoint, bucket) ==
      match PhotoEntries(photos[..t], endpoint, bucket)
      case Err(e) => Err(e)
      case Ok(entries) =>
        match ParsePhotoKey(photos[t])
        case None => Err(NotAPhotoKey(photos[t]))
        case Some(name) => Ok(entries + [PhotoEntry(PhotoUrl(endpoint, bucket, photos[t]), name)])
  {
    assert photos[..t + 1][..t] == photos[..t];
  }

  /** Once a prefix of the photos fails, the whole page fails with the same key:
      the first failing photo decides. */
  lemma {:induction false} PhotoEntriesFirstFailure(photos: seq<string>, t: nat, endpoint: string, bucket: string)
    requires t <= |photos| && PhotoEntries(photos[..t], endpoint, bucket).Err?
    ensures PhotoEntries(photos, endpoint, bucket) == PhotoEntries(photos[..t], endpoint, bucket)
    decreases |photos| - t
  {
    if t < |photos| {
      assert photos[..t + 1][..t] == photos[..t];
      PhotoEntriesFirstFailure(photos, t + 1, endpoint, bucket);
    } else {
      assert photos[..t] == photos;
    }
  }

  /** The page of one album: its key and entries, or the error `.group(1)` raises. */
  function PhotoPageOf(content: AlbumContent, endpoint: string, bucket: string): (r: Result<PhotoPage, Error>)
    ensures r.Ok? ==> r.value.key == PageKey(content.album)
    ensures r.Ok? <==> PhotoEntries(content.photos, endpoint, bucket).Ok?
    ensures r.Ok? ==> r.value.photos == PhotoEntries(content.photos, endpoint, bucket).value
    ensures r.Err? ==> r.error == PhotoEntries(content.photos, endpoint, bucket).error
  {
    match PhotoEntries(content.photos, endpoint, bucket)
    case Err(e) => Err(e)
    case Ok(entries) => Ok(PhotoPage(PageKey(content.album), entries))
  }

  /** prepare_photos_content (helper.py:135-147), with the endpoint read from
      the configuration passed in. */
  method PreparePhotosContent(content: AlbumContent, endpoint: string, bucket: string) returns (r: Result<PhotoPage, Error>)
    ensures r == PhotoPageOf(content, endpoint, bucket)
  {
    var s3Key := PageKey(content.album);
    var photosContent := [];
    for t := 0 to |content.photos|
      invariant PhotoEntries(content.photos[..t], endpoint, bucket) == Ok(photosContent)
    {
      var photo := content.photos[t];
      PhotoEntriesStep(content.photos, t, endpoint, bucket);
      var m := ParsePhotoKey(photo);
      if m.None? {
        PhotoEntriesFirstFailure(content.photos, t + 1, endpoint, bucket);
        return Err(NotAPhotoKey(photo));
      }
      photosContent := photosContent + [PhotoEntry(PhotoUrl(endpoint, bucket, photo), m.value)];
    }
    assert content.photos[..|content.photos|] == content.photos;
    r := Ok(PhotoPage(s3Key, photosContent));
  }

  /** On the page of a valid album, each entry's name is the file name after
      the album's slash. */
  lemma PageNamesAreFileNames(name: string, objects: seq<string>, id: nat, endpoint: string, bucket: string, i: nat)
    requires IsAlbumName(name)
    requires PhotoPageOf(AlbumContent(id, AlbumPhotos(name, objects)), endpoint, bucket).Ok?
    requires i < |AlbumPhotos(name, objects)|
    ensures var page := PhotoPageOf(AlbumContent(id, AlbumPhotos(name, objects)), endpoint, bucket).value;
      AlbumPhotos(name, objects)[i] == MemberKey(name, page.photos[i].name)
  {
    var key := AlbumPhotos(name, objects)[i];
    assert key in AlbumPhotos(name, objects);
    MemberPhotoAgree(name, key);
  }

  /** A file of an album whose name is not a .jpg or .jpeg is listed among
      the album's files by the album's pattern, but the photo pattern rejects
      it, so preparing that album's page fails. */
  lemma NonPhotoMemberFailsPage(album: string, file: string, objects: seq<string>, id: nat,
                                endpoint: string, bucket: string)
    requires IsAlbumName(album) && |file| > 0 && SlashFree(file) && !IsPhotoFileName(file)
    requires MemberKey(album, file) in objects
    ensures MemberKey(album, file) in AlbumPhotos(album, objects)
    ensures PhotoPageOf(AlbumContent(id, AlbumPhotos(album, objects)), endpoint, bucket).Err?
  {
    var key := MemberKey(album, file);
    MemberRoundTrip(album, file);
    MemberPhotoAgree(album, key);
    assert ParsePhotoKey(key).None?;
  }

  /** Album files whose names all carry a photo extension always yield a page. */
  lemma PhotoAlbumsYieldPages(name: string, objects: seq<string>, id: nat, endpoint: string, bucket: string)
    requires IsAlbumName(name)
    requires forall k :: k in AlbumPhotos(name, objects) ==> IsPhotoFileName(ParseAlbumMember(name, k).value)
    ensures PhotoPageOf(AlbumContent(id, AlbumPhotos(name, objects)), endpoint, bucket).Ok?
  {
    forall k | k in AlbumPhotos(name, objects)
      ensures ParsePhotoKey(k).Some?
    {
      MemberPhotoAgree(name, k);
    }
  }
}

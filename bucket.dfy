/** The bucket as a sequence of object keys, and what each command of the
    tool does to it (cli.py), stated as functions of the keys.

    A listing returns the keys in the order of the sequence; keys are unique,
    and putting a key that exists only replaces its content, which the model
    does not track. The command methods in module Commands are proved against
    the functions here; the lemmas here say what those functions mean.
 */
module Bucket {
  import opened Outcomes
  import opened Keys
  import opened Config
  import opened Site

  /** `s.startswith(prefix)`: the listing filter of `list_objects(Prefix=prefix)`. */
  predicate StartsWith(s: string, prefix: string)
  {
    |prefix| <= |s| && s[..|prefix|] == prefix
  }

  /** No key occurs twice. */
  predicate NoDuplicates(keys: seq<string>)
  {
    forall i, j :: 0 <= i < j < |keys| ==> keys[i] != keys[j]
  }

  /** Two key sequences without duplicates and without a common key concatenate
      to one without duplicates. */
  lemma NoDuplicatesConcat(a: seq<string>, b: seq<string>)
    requires NoDuplicates(a) && NoDuplicates(b)
    requires forall k :: k in a ==> k !in b
    ensures NoDuplicates(a + b)
  {
    forall i, j | 0 <= i < j < |a + b|
      ensures (a + b)[i] != (a + b)[j]
    {
      if i < |a| && j >= |a| {
        assert (a + b)[i] in a;
        assert (a + b)[j] in b;
      }
    }
  }

  /** Every key of a valid album's file starts with the album's prefix. */
  lemma MemberKeyHasPrefix(album: string, file: string)
    ensures StartsWith(MemberKey(album, file), AlbumPrefix(album))
  {
    assert MemberKey(album, file)[..|album| + 1] == AlbumPrefix(album);
  }

  // ---------------------------------------------------------------------------
  // Storage primitives

  /** `list_objects(Prefix=prefix)`: the keys that begin with `prefix`, in order. */
  function Listing(keys: seq<string>, prefix: string): (r: seq<string>)
    ensures |r| <= |keys|
    ensures forall k :: k in r <==> k in keys && StartsWith(k, prefix)
  {
    if keys == [] then []
    else
      var init, last := keys[..|keys| - 1], keys[|keys| - 1];
      assert keys == init + [last];
      if StartsWith(last, prefix) then Listing(init, prefix) + [last] else Listing(init, prefix)
  }

  /** A listing has no contents exactly when no key begins with the prefix. */
  lemma ListingEmpty(keys: seq<string>, prefix: string)
    ensures Listing(keys, prefix) == [] <==> forall k :: k in keys ==> !StartsWith(k, prefix)
  {
    var r := Listing(keys, prefix);
    if r != [] {
      assert r[0] in r;
    }
  }

  /** `put_object(Key=key)`: a new key is appended; an existing one keeps its place. */
  function Put(keys: seq<string>, key: string): (r: seq<string>)
    ensures forall k :: k in r <==> k in keys || k == key
    ensures NoDuplicates(keys) ==> NoDuplicates(r)
    ensures |keys| <= |r| && r[..|keys|] == keys
  {
    if key in keys then keys else keys + [key]
  }

  /** Puts each of `ks` in turn. */
  function PutAll(keys: seq<string>, ks: seq<string>): (r: seq<string>)
    ensures forall k :: k in r <==> k in keys || k in ks
    ensures NoDuplicates(keys) ==> NoDuplicates(r)
    ensures |keys| <= |r| && r[..|keys|] == keys
  {
    if ks == [] then keys
    else
      var init := ks[..|ks| - 1];
      assert ks == init + [ks[|ks| - 1]];
      Put(PutAll(keys, init), ks[|ks| - 1])
  }

  /** Putting two keys is putting one after the other. */
  lemma PutAllPair(keys: seq<string>, a: string, b: string)
    ensures PutAll(keys, [a, b]) == Put(Put(keys, a), b)
  {
    assert PutAll(keys, [a]) == Put(keys, a) by {
      assert [a][..0] == [];
    }
    assert [a, b][..1] == [a];
  }

  /** Putting keys that are all new appends them in order. */
  lemma {:induction false} PutAllFresh(keys: seq<string>, ks: seq<string>)
    requires NoDuplicates(keys + ks)
    ensures PutAll(keys, ks) == keys + ks
  {
    if ks != [] {
      var init, last := ks[..|ks| - 1], ks[|ks| - 1];
      assert keys + ks == (keys + init) + [last];
      assert NoDuplicates(keys + init) by {
        forall i, j | 0 <= i < j < |keys + init|
          ensures (keys + init)[i] != (keys + init)[j]
        {
          assert (keys + init)[i] == (keys + ks)[i];
          assert (keys + init)[j] == (keys + ks)[j];
        }
      }
      PutAllFresh(keys, init);
      assert last !in keys + init by {
        forall i | 0 <= i < |keys + init|
          ensures (keys + init)[i] != last
        {
          assert (keys + init)[i] == (keys + ks)[i];
          assert last == (keys + ks)[|keys + ks| - 1];
        }
      }
    }
  }

  /** `delete_objects` / `delete_object`: every key of `batch` disappears, the
      others keep their order. */
  function Without(keys: seq<string>, batch: seq<string>): (r: seq<string>)
    ensures |r| <= |keys|
    ensures forall k :: k in r <==> k in keys && k !in batch
    ensures NoDuplicates(keys) ==> NoDuplicates(r)
  {
    if keys == [] then []
    else
      var init, last := keys[..|keys| - 1], keys[|keys| - 1];
      assert keys == init + [last];
      if last in batch then Without(init, batch) else Without(init, batch) + [last]
  }

  /** Deleting keys none of which is stored changes nothing. */
  lemma {:induction false} WithoutAbsent(keys: seq<string>, batch: seq<string>)
    requires forall k :: k in keys ==> k !in batch
    ensures Without(keys, batch) == keys
  {
    if keys != [] {
      var init := keys[..|keys| - 1];
      assert keys == init + [keys[|keys| - 1]];
      WithoutAbsent(init, batch);
    }
  }

  /** Deleting one stored key removes exactly that key: the keys before it and
      after it stay, in order. */
  lemma {:induction false} WithoutOne(keys: seq<string>, i: nat)
    requires NoDuplicates(keys) && i < |keys|
    ensures Without(keys, [keys[i]]) == keys[..i] + keys[i + 1..]
    ensures |Without(keys, [keys[i]])| == |keys| - 1
  {
    var init, last := keys[..|keys| - 1], keys[|keys| - 1];
    assert keys == init + [last];
    assert NoDuplicates(init);
    if i == |keys| - 1 {
      WithoutAbsent(init, [last]);
      assert keys[..i] + keys[i + 1..] == init;
    } else {
      assert init[i] == keys[i];
      WithoutOne(init, i);
      assert keys[..i] + keys[i + 1..] == init[..i] + init[i + 1..] + [last];
    }
  }

  // ---------------------------------------------------------------------------
  // upload (cli.py:45-79)

  /** `glob(os.path.join(path, '*' + ext))` tests a directory entry: it ends in
      `ext` and is not hidden. */
  predicate GlobMatches(name: string, ext: string)
  {
    |name| > 0 && name[0] != '.' && |ext| <= |name| && name[|name| - |ext|..] == ext
  }

  /** The entries of the directory that a glob pattern `*<ext>` collects, in
      directory order. */
  function Glob(dir: seq<string>, ext: string): (r: seq<string>)
    ensures |r| <= |dir|
    ensures forall n :: n in r <==> n in dir && GlobMatches(n, ext)
    ensures NoDuplicates(dir) ==> NoDuplicates(r)
  {
    if dir == [] then []
    else
      var init, last := dir[..|dir| - 1], dir[|dir| - 1];
      assert dir == init + [last];
      if GlobMatches(last, ext) then Glob(init, ext) + [last] else Glob(init, ext)
  }

  /** The glob patterns of PHOTO_SUFFIXES, without their `*`. */
  const PhotoSuffixes: seq<string> := [".jpg", ".jpeg"]

  /** The results of globbing each pattern of `exts` in turn, concatenated. */
  function GlobAll(dir: seq<string>, exts: seq<string>): seq<string>
  {
    if exts == [] then [] else GlobAll(dir, exts[..|exts| - 1]) + Glob(dir, exts[|exts| - 1])
  }

  /** Globbing the first i+1 patterns appends the matches of pattern i. */
  lemma {:induction false} GlobAllStep(dir: seq<string>, exts: seq<string>, i: nat)
    requires i < |exts|
    ensures GlobAll(dir, exts[..i + 1]) == GlobAll(dir, exts[..i]) + Glob(dir, exts[i])
  {
    assert exts[..i + 1][..i] == exts[..i];
  }

  /** The photos upload collects: the `*.jpg` entries, then the `*.jpeg` ones. */
  function Photos(dir: seq<string>): (r: seq<string>)
    ensures r == GlobAll(dir, PhotoSuffixes)
  {
    GlobAllStep(dir, PhotoSuffixes, 0);
    GlobAllStep(dir, PhotoSuffixes, 1);
    assert PhotoSuffixes[..2] == PhotoSuffixes;
    Glob(dir, ".jpg") + Glob(dir, ".jpeg")
  }

  /** Each photo upload collects has a photo file name, and none is collected
      twice when the directory lists each entry once. */
  lemma PhotosAreJpeg(dir: seq<string>)
    ensures forall n :: n in Photos(dir) && SlashFree(n) ==> IsPhotoFileName(n)
    ensures NoDuplicates(dir) ==> NoDuplicates(Photos(dir))
  {
    forall n | n in Photos(dir) && SlashFree(n)
      ensures IsPhotoFileName(n)
    {
      if GlobMatches(n, ".jpg") {
        assert n != ".jpg";
      } else {
        assert GlobMatches(n, ".jpeg");
        assert n != ".jpeg";
      }
    }
    if NoDuplicates(dir) {
      forall n | n in Glob(dir, ".jpg")
        ensures n !in Glob(dir, ".jpeg")
      {
        assert n[|n| - 1] == 'g' && n[|n| - 2] == 'p' && n[|n| - 4] == '.';
      }
      NoDuplicatesConcat(Glob(dir, ".jpg"), Glob(dir, ".jpeg"));
    }
  }

  /** The photos that are stored: a file whose reading or transfer raises is
      reported and skipped. */
  function Kept(photos: seq<string>, failing: set<string>): (r: seq<string>)
    ensures |r| <= |photos|
    ensures forall p :: p in r <==> p in photos && p !in failing
    ensures NoDuplicates(photos) ==> NoDuplicates(r)
  {
    if photos == [] then []
    else
      var init, last := photos[..|photos| - 1], photos[|photos| - 1];
      assert photos == init + [last];
      if last in failing then Kept(init, failing) else Kept(init, failing) + [last]
  }

  /** The keys `<album>/<name>` of a sequence of names. */
  function MemberKeys(album: string, names: seq<string>): (r: seq<string>)
    ensures |r| == |names|
    ensures forall i :: 0 <= i < |names| ==> r[i] == MemberKey(album, names[i])
  {
    if names == [] then [] else MemberKeys(album, names[..|names| - 1]) + [MemberKey(album, names[|names| - 1])]
  }

  /** The marker step of upload: `<album>/` is put only when no key begins with it. */
  function WithMarker(keys: seq<string>, album: string): (r: seq<string>)
    ensures forall k :: k in r <==> k in keys || (k == AlbumPrefix(album) && Listing(keys, AlbumPrefix(album)) == [])
    ensures |keys| <= |r| && r[..|keys|] == keys
  {
    if Listing(keys, AlbumPrefix(album)) == [] then Put(keys, AlbumPrefix(album)) else keys
  }

  /** The validations of upload, in the source's order. */
  function UploadCheck(file: ConfigFile, album: string, readable: bool, dir: seq<string>): (r: Outcome<Error>)
    ensures r.Pass? <==> CheckConfigAsWritten(file).Ok? && IsAlbumName(album) && readable && Photos(dir) != []
  {
    var cfg := CheckConfigAsWritten(file);
    if cfg.Err? then Fail(cfg.error)
    else if CheckAlbumName(album).Fail? then CheckAlbumName(album)
    else if !readable then Fail(DirectoryNotAvailable)
    else if Photos(dir) == [] then Fail(NoPhotos)
    else Pass
  }

  /** The keys after a successful upload of `photos` into `album`. */
  function UploadedKeys(keys: seq<string>, album: string, photos: seq<string>, failing: set<string>): (r: seq<string>)
    ensures |keys| <= |r| && r[..|keys|] == keys
  {
    PutAll(WithMarker(keys, album), MemberKeys(album, Kept(photos, failing)))
  }

  /** Upload removes nothing, stores every photo that did not fail under
      `<album>/<photo>`, leaves the album non-empty, and adds no other key than
      those and the marker; the marker is added exactly when the album had no key. */
  lemma UploadEffect(keys: seq<string>, album: string, photos: seq<string>, failing: set<string>)
    requires forall p :: p in photos ==> p != ""
    ensures var after := UploadedKeys(keys, album, photos, failing);
      && (forall k :: k in keys ==> k in after)
      && (forall p :: p in photos && p !in failing ==> MemberKey(album, p) in after)
      && (forall k :: k in after ==>
            k in keys || k == AlbumPrefix(album) || k in MemberKeys(album, Kept(photos, failing)))
      && (AlbumPrefix(album) in after && AlbumPrefix(album) !in keys <==> Listing(keys, AlbumPrefix(album)) == [])
      && Listing(after, AlbumPrefix(album)) != []
  {
    var after := UploadedKeys(keys, album, photos, failing);
    var kept := Kept(photos, failing);
    var mk := MemberKeys(album, kept);
    forall p | p in photos && p !in failing
      ensures MemberKey(album, p) in after
    {
      var i :| 0 <= i < |kept| && kept[i] == p;
      assert mk[i] == MemberKey(album, p);
    }
    var m := AlbumPrefix(album);
    assert m !in mk by {
      forall i | 0 <= i < |mk|
        ensures mk[i] != m
      {
        assert kept[i] in photos;
      }
    }
    assert StartsWith(m, m);
    ListingEmpty(keys, m);
    if Listing(keys, m) == [] {
      assert m in after;
      assert m in Listing(after, m);
    } else {
      var k := Listing(keys, m)[0];
      assert k in Listing(keys, m);
      assert k in Listing(after, m);
    }
  }

  // ---------------------------------------------------------------------------
  // list (cli.py:117-144)

  /** The pattern list applies: S3_ALBUM_REGEX without an album, the album's
      file pattern with one. */
  function MatchName(key: string, album: Option<string>): (r: Option<string>)
    ensures album.None? && r.Some? ==> IsAlbumName(r.value) && key == AlbumPrefix(r.value)
    ensures album.Some? && r.Some? ==>
      r.value != [] && SlashFree(r.value) && key == MemberKey(album.value, r.value)
  {
    match album
    case None => ParseAlbumMarker(key)
    case Some(a) => ParseAlbumMember(a, key)
  }

  /** Conversely, the pattern matches every key of the shape it describes and
      extracts the name the key was built from. */
  lemma MatchNameComplete(key: string, album: Option<string>)
    ensures album.None? ==> forall n :: IsAlbumName(n) && key == AlbumPrefix(n) ==> MatchName(key, album) == Some(n)
    ensures album.Some? ==> forall n :: n != [] && SlashFree(n) && key == MemberKey(album.value, n) ==>
      MatchName(key, album) == Some(n)
  {
    forall n | album.None? && IsAlbumName(n) && key == AlbumPrefix(n) {
      MarkerRoundTrip(n);
    }
    forall n | album.Some? && n != [] && SlashFree(n) && key == MemberKey(album.value, n) {
      MemberRoundTrip(album.value, n);
    }
  }

  /** `match.group(1)` of every listed key the pattern matches, in order. */
  function MatchedNames(listing: seq<string>, album: Option<string>): (r: seq<string>)
    ensures |r| <= |listing|
    ensures forall k {:trigger MatchName(k, album)} :: k in listing && MatchName(k, album).Some? ==> MatchName(k, album).value in r
  {
    if listing == [] then []
    else
      var init, last := listing[..|listing| - 1], listing[|listing| - 1];
      assert listing == init + [last];
      var m := MatchName(last, album);
      if m.Some? then MatchedNames(init, album) + [m.value] else MatchedNames(init, album)
  }

  /** The names keep the order of the listing. */
  lemma {:induction false} MatchedNamesAppend(a: seq<string>, b: seq<string>, album: Option<string>)
    ensures MatchedNames(a + b, album) == MatchedNames(a, album) + MatchedNames(b, album)
  {
    if b == [] {
      assert a + b == a;
    } else {
      var init := b[..|b| - 1];
      assert (a + b)[..|a + b| - 1] == a + init;
      MatchedNamesAppend(a, init, album);
    }
  }

  /** Every printed name comes from a listed key: a marker `<name>/` without an
      album, a file `<album>/<name>` with one. */
  lemma {:induction false} MatchedNamesSound(listing: seq<string>, album: Option<string>)
    ensures forall n :: n in MatchedNames(listing, album) ==>
      && (album.None? ==> IsAlbumName(n) && AlbumPrefix(n) in listing)
      && (album.Some? ==> |n| > 0 && SlashFree(n) && MemberKey(album.value, n) in listing)
  {
    if listing != [] {
      var init := listing[..|listing| - 1];
      assert listing == init + [listing[|listing| - 1]];
      MatchedNamesSound(init, album);
    }
  }

  /** One more listed key adds its name, if it has one, at the end. */
  lemma {:induction false} MatchedNamesSnoc(listing: seq<string>, key: string, album: Option<string>)
    ensures MatchedNames(listing + [key], album) ==
      MatchedNames(listing, album) + (if MatchName(key, album).Some? then [MatchName(key, album).value] else [])
  {
    assert (listing + [key])[..|listing|] == listing;
  }

  /** The names of the first i+1 listed keys are those of the first i, then
      key i's name if it has one. */
  lemma {:induction false} MatchedNamesStep(listing: seq<string>, i: nat, album: Option<string>)
    requires i < |listing|
    ensures MatchedNames(listing[..i + 1], album) ==
      MatchedNames(listing[..i], album) + (if MatchName(listing[i], album).Some? then [MatchName(listing[i], album).value] else [])
  {
    assert listing[..i + 1] == listing[..i] + [listing[i]];
    MatchedNamesSnoc(listing[..i], listing[i], album);
  }

  /** What list prints, or the error it reports: no key under the prefix, or
      no key matching the pattern. */
  function ListResult(keys: seq<string>, album: Option<string>): (r: Result<seq<string>, Error>)
    ensures r.Ok? ==> r.value != []
  {
    var listing := if album.None? then keys else Listing(keys, AlbumPrefix(album.value));
    if listing == [] then Err(AlbumDoesNotExist)
    else
      var names := MatchedNames(listing, album);
      if names == [] then Err(ObjectIsEmpty) else Ok(names)
  }

  /** Without an album, list prints exactly the album names the site generator
      finds: `group(1)` of S3_ALBUM_REGEX equals the key with its slash removed. */
  lemma {:induction false} ListAlbumsAgreesWithSite(keys: seq<string>)
    ensures MatchedNames(keys, None) == AlbumNames(keys)
  {
    if keys != [] {
      var init, last := keys[..|keys| - 1], keys[|keys| - 1];
      ListAlbumsAgreesWithSite(init);
      var m := ParseAlbumMarker(last);
      if m.Some? {
        RemoveSlashesOfMarker(m.value);
      }
    }
  }

  /** Listing under `<album>/` first loses no name the album's pattern would
      extract from the whole bucket. */
  lemma {:induction false} MatchedNamesOfListing(keys: seq<string>, album: string)
    ensures MatchedNames(Listing(keys, AlbumPrefix(album)), Some(album)) == MatchedNames(keys, Some(album))
  {
    if keys != [] {
      var init, last := keys[..|keys| - 1], keys[|keys| - 1];
      MatchedNamesOfListing(init, album);
      var m := ParseAlbumMember(album, last);
      if m.Some? {
        MemberKeyHasPrefix(album, m.value);
      }
    }
  }

  /** The album's pattern extracts the names back from the keys upload writes. */
  lemma {:induction false} MatchedNamesOfMemberKeys(album: string, names: seq<string>)
    requires forall n :: n in names ==> |n| > 0 && SlashFree(n)
    ensures MatchedNames(MemberKeys(album, names), Some(album)) == names
  {
    if names != [] {
      var init, last := names[..|names| - 1], names[|names| - 1];
      var ks := MemberKeys(album, names);
      assert ks[..|ks| - 1] == MemberKeys(album, init);
      MatchedNamesOfMemberKeys(album, init);
      MemberRoundTrip(album, last);
    }
  }

  /** Into an album that has no key yet, upload appends the marker and then
      the keys of the stored files, in order. */
  lemma UploadIntoNewAlbum(keys: seq<string>, album: string, photos: seq<string>, failing: set<string>)
    requires NoDuplicates(keys) && Listing(keys, AlbumPrefix(album)) == []
    requires NoDuplicates(photos)
    requires forall p :: p in photos ==> |p| > 0 && SlashFree(p)
    ensures UploadedKeys(keys, album, photos, failing) ==
      keys + [AlbumPrefix(album)] + MemberKeys(album, Kept(photos, failing))
  {
    var m := AlbumPrefix(album);
    var kept := Kept(photos, failing);
    var mk := MemberKeys(album, kept);
    assert StartsWith(m, m);
    ListingEmpty(keys, m);
    assert WithMarker(keys, album) == keys + [m];
    assert NoDuplicates(mk) by {
      forall i, j | 0 <= i < j < |mk|
        ensures mk[i] != mk[j]
      {
        if mk[i] == mk[j] {
          MemberRoundTrip(album, kept[i]);
          MemberRoundTrip(album, kept[j]);
        }
      }
    }
    forall k | k in mk
      ensures k !in keys + [m]
    {
      var i :| 0 <= i < |mk| && mk[i] == k;
      MemberKeyHasPrefix(album, kept[i]);
    }
    NoDuplicatesConcat(keys + [m], mk);
    PutAllFresh(keys + [m], mk);
  }

  /** An album with no key under its prefix yields no name. */
  lemma MatchedNamesOfAbsentAlbum(keys: seq<string>, album: string)
    requires Listing(keys, AlbumPrefix(album)) == []
    ensures MatchedNames(keys, Some(album)) == []
  {
    ListingEmpty(keys, AlbumPrefix(album));
    var r := MatchedNames(keys, Some(album));
    if r != [] {
      assert r[0] in r;
      MemberKeyHasPrefix(album, r[0]);
    }
  }

  /** The album's pattern finds, in a bucket where the album had no key and
      then got its marker and some file keys, exactly those files' names. */
  lemma MatchedNamesOfNewAlbum(keys: seq<string>, album: string, names: seq<string>)
    requires Listing(keys, AlbumPrefix(album)) == []
    requires forall n :: n in names ==> |n| > 0 && SlashFree(n)
    ensures MatchedNames(keys + [AlbumPrefix(album)] + MemberKeys(album, names), Some(album)) == names
  {
    var m := AlbumPrefix(album);
    MatchedNamesAppend(keys + [m], MemberKeys(album, names), Some(album));
    MatchedNamesAppend(keys, [m], Some(album));
    MatchedNamesOfAbsentAlbum(keys, album);
    MarkerIsNotMember(album);
    assert [m][..0] == [];
    assert MatchedNames([m], Some(album)) == [];
    MatchedNamesOfMemberKeys(album, names);
  }

  /** Upload followed by list: when the album had no key before, listing the
      album prints exactly the uploaded file names that did not fail, in the
      model's listing order; when every file failed it reports that nothing
      matched. */
  lemma UploadThenList(keys: seq<string>, album: string, photos: seq<string>, failing: set<string>)
    requires NoDuplicates(keys) && Listing(keys, AlbumPrefix(album)) == []
    requires NoDuplicates(photos)
    requires forall p :: p in photos ==> |p| > 0 && SlashFree(p)
    ensures var kept := Kept(photos, failing);
      ListResult(UploadedKeys(keys, album, photos, failing), Some(album)) ==
        if kept == [] then Err(ObjectIsEmpty) else Ok(kept)
  {
    var kept := Kept(photos, failing);
    assert UploadedKeys(keys, album, photos, failing) == keys + [AlbumPrefix(album)] + MemberKeys(album, kept) by {
      UploadIntoNewAlbum(keys, album, photos, failing);
    }
    ListNewAlbum(keys, album, kept);
  }

  /** Listing an album that had no key and then got its marker and some file
      keys: the names of those files, or nothing matched. */
  lemma ListNewAlbum(keys: seq<string>, album: string, names: seq<string>)
    requires Listing(keys, AlbumPrefix(album)) == []
    requires forall n :: n in names ==> |n| > 0 && SlashFree(n)
    ensures ListResult(keys + [AlbumPrefix(album)] + MemberKeys(album, names), Some(album)) ==
      if names == [] then Err(ObjectIsEmpty) else Ok(names)
  {
    var m := AlbumPrefix(album);
    var after := keys + [m] + MemberKeys(album, names);
    var listing := Listing(after, m);
    assert listing != [] by {
      assert StartsWith(m, m);
      assert m in after;
    }
    assert MatchedNames(listing, Some(album)) == names by {
      MatchedNamesOfListing(after, album);
      MatchedNamesOfNewAlbum(keys, album, names);
    }
  }

  // ---------------------------------------------------------------------------
  // download (cli.py:82-114)

  /** One file transfer: the object key and the local path it is written to. */
  datatype Transfer = Transfer(key: string, target: string)

  /** `os.path.join(path, name)` for a name that does not start with a slash. */
  function PathJoin(path: string, name: string): (r: string)
    ensures |r| <= |path| + 1 + |name|
    ensures |path| <= |r| && r[..|path|] == path
    ensures |name| <= |r| && r[|r| - |name|..] == name
    ensures path != [] ==> |path| + |name| < |r| + 1 && r[|r| - |name| - 1] == '/'
    ensures path == [] ==> r == name
  {
    if path == [] || path[|path| - 1] == '/' then path + name else path + "/" + name
  }

  /** The transfers download performs, in listing order: each key the photo
      pattern matches goes to `<path>/<file name>`; other keys are skipped. */
  function DownloadPlan(listing: seq<string>, path: string): (r: seq<Transfer>)
    ensures |r| <= |listing|
  {
    if listing == [] then []
    else
      var init, last := listing[..|listing| - 1], listing[|listing| - 1];
      assert listing == init + [last];
      match ParsePhotoKey(last)
      case None => DownloadPlan(init, path)
      case Some(name) => DownloadPlan(init, path) + [Transfer(last, PathJoin(path, name))]
  }

  /** The plan holds exactly one transfer per listed photo key, writing it
      under the file name the photo pattern extracts. */
  lemma {:induction false} DownloadPlanMembers(listing: seq<string>, path: string)
    ensures forall t :: t in DownloadPlan(listing, path) ==>
      t.key in listing && ParsePhotoKey(t.key).Some? && t.target == PathJoin(path, ParsePhotoKey(t.key).value)
    ensures forall k {:trigger ParsePhotoKey(k)} :: k in listing && ParsePhotoKey(k).Some? ==>
      Transfer(k, PathJoin(path, ParsePhotoKey(k).value)) in DownloadPlan(listing, path)
  {
    if listing != [] {
      var init := listing[..|listing| - 1];
      assert listing == init + [listing[|listing| - 1]];
      DownloadPlanMembers(init, path);
    }
  }

  /** The transfers keep the order of the listing. */
  lemma {:induction false} DownloadPlanAppend(a: seq<string>, b: seq<string>, path: string)
    ensures DownloadPlan(a + b, path) == DownloadPlan(a, path) + DownloadPlan(b, path)
  {
    if b == [] {
      assert a + b == a;
    } else {
      var init := b[..|b| - 1];
      assert (a + b)[..|a + b| - 1] == a + init;
      DownloadPlanAppend(a, init, path);
    }
  }

  /** Scanning one more listed key adds its transfer, if it is a photo, at the end. */
  lemma {:induction false} DownloadPlanStep(listing: seq<string>, i: nat, path: string)
    requires i < |listing|
    ensures DownloadPlan(listing[..i + 1], path) ==
      DownloadPlan(listing[..i], path) +
        (if ParsePhotoKey(listing[i]).Some? then [Transfer(listing[i], PathJoin(path, ParsePhotoKey(listing[i]).value))] else [])
  {
    assert listing[..i + 1][..i] == listing[..i];
  }

  /** The transfer of the photo key at position `i` comes right after the
      transfers of the keys before it. */
  lemma DownloadPlanAt(listing: seq<string>, i: nat, path: string)
    requires i < |listing| && ParsePhotoKey(listing[i]).Some?
    ensures var done := DownloadPlan(listing[..i], path);
      var plan := DownloadPlan(listing, path);
      && |done| < |plan|
      && plan[..|done|] == done
      && plan[|done|] == Transfer(listing[i], PathJoin(path, ParsePhotoKey(listing[i]).value))
  {
    var t := Transfer(listing[i], PathJoin(path, ParsePhotoKey(listing[i]).value));
    var done := DownloadPlan(listing[..i], path);
    DownloadPlanStep(listing, i, path);
    assert listing == listing[..i + 1] + listing[i + 1..];
    DownloadPlanAppend(listing[..i + 1], listing[i + 1..], path);
    assert DownloadPlan(listing, path) == done + [t] + DownloadPlan(listing[i + 1..], path);
  }

  /** For a valid album, download never fetches the marker, and each file it
      fetches is written under the name the album's own pattern extracts. */
  lemma DownloadPlanOfAlbum(keys: seq<string>, album: string, path: string)
    requires IsAlbumName(album)
    ensures forall t :: t in DownloadPlan(Listing(keys, AlbumPrefix(album)), path) ==>
      && t.key != AlbumPrefix(album)
      && ParseAlbumMember(album, t.key).Some?
      && t.target == PathJoin(path, ParseAlbumMember(album, t.key).value)
  {
    var p := AlbumPrefix(album);
    DownloadPlanMembers(Listing(keys, p), path);
    forall t | t in DownloadPlan(Listing(keys, p), path)
      ensures t.key != p
      ensures ParseAlbumMember(album, t.key) == ParsePhotoKey(t.key)
    {
      AlbumPhotoKey(album, t.key);
    }
  }

  /** A photo key under a valid album's prefix is not its marker, and the
      album's pattern extracts the same file name as the photo pattern. */
  lemma AlbumPhotoKey(album: string, key: string)
    requires IsAlbumName(album) && StartsWith(key, AlbumPrefix(album)) && ParsePhotoKey(key).Some?
    ensures key != AlbumPrefix(album)
    ensures ParseAlbumMember(album, key) == ParsePhotoKey(key)
  {
    var rest := key[|album| + 1..];
    assert key == album + "/" + rest;
    FirstSlashOfJoin(album, rest);
    assert ParsePhotoKey(key) == Some(rest);
    MemberRoundTrip(album, rest);
  }

  /** The validations of download, in the source's order. */
  function DownloadCheck(file: ConfigFile, keys: seq<string>, album: string, writable: bool): (r: Outcome<Error>)
    ensures r.Pass? <==> CheckConfigAsWritten(file).Ok? && Listing(keys, AlbumPrefix(album)) != [] && writable
  {
    var cfg := CheckConfigAsWritten(file);
    if cfg.Err? then Fail(cfg.error)
    else if Listing(keys, AlbumPrefix(album)) == [] then Fail(AlbumDoesNotExist)
    else if !writable then Fail(DirectoryNotAvailable)
    else Pass
  }

  // ---------------------------------------------------------------------------
  // delete (cli.py:147-177)

  /** The validations of delete, in the source's order. */
  function DeleteCheck(file: ConfigFile, keys: seq<string>, album: string, photo: Option<string>): (r: Outcome<Error>)
    ensures r.Pass? <==>
      && CheckConfigAsWritten(file).Ok?
      && Listing(keys, AlbumPrefix(album)) != []
      && (photo.Some? ==> MemberKey(album, photo.value) in keys)
  {
    var cfg := CheckConfigAsWritten(file);
    var listing := Listing(keys, AlbumPrefix(album));
    if cfg.Err? then Fail(cfg.error)
    else if listing == [] then Fail(AlbumDoesNotExist)
    else if photo.Some? && MemberKey(album, photo.value) !in listing then
      Fail(PhotoDoesNotExist(MemberKey(album, photo.value)))
    else
      MemberKeyHasPrefix(album, if photo.Some? then photo.value else "");
      Pass
  }

  /** Deleting a whole album removes every key that begins with `<album>/` and
      no other key; listing the album afterwards reports that it does not exist. */
  lemma DeleteAlbumEffect(keys: seq<string>, album: string)
    ensures var after := Without(keys, Listing(keys, AlbumPrefix(album)));
      && (forall k :: k in after <==> k in keys && !StartsWith(k, AlbumPrefix(album)))
      && ListResult(after, Some(album)) == Err(AlbumDoesNotExist)
  {
    var after := Without(keys, Listing(keys, AlbumPrefix(album)));
    ListingEmpty(after, AlbumPrefix(album));
  }

  /** Deleting one photo removes exactly its key; every other key stays, in order. */
  lemma DeletePhotoEffect(keys: seq<string>, album: string, photo: string)
    requires NoDuplicates(keys) && MemberKey(album, photo) in keys
    ensures var key := MemberKey(album, photo);
      var after := Without(keys, [key]);
      && |after| == |keys| - 1
      && key !in after
      && exists i :: 0 <= i < |keys| && keys[i] == key && after == keys[..i] + keys[i + 1..]
  {
    var key := MemberKey(album, photo);
    var i :| 0 <= i < |keys| && keys[i] == key;
    WithoutOne(keys, i);
  }

  // ---------------------------------------------------------------------------
  // mksite (cli.py:180-216)

  /** What the published site shows: its root URL, the index entries and the album pages. */
  datatype PublishedSite = PublishedSite(url: string, index: seq<AlbumParam>, pages: seq<PhotoPage>)

  /** WEB_SITE_URL formatted with the bucket (helper.py:24). */
  function WebSiteUrl(bucket: string): (r: string)
    ensures |r| == |bucket| + 32
    ensures r[..7] == "http://" && r[|r| - 25..] == ".website.yandexcloud.net/"
    ensures r[7..|r| - 25] == bucket
  {
    "http://" + bucket + ".website.yandexcloud.net/"
  }

  /** The keys the two fixed pages are published under. */
  const ErrorPageKey := "error.html"
  const IndexPageKey := "index.html"

  /** The pages of the albums, in album order; the first album page that cannot
      be prepared aborts publishing with its error. */
  function SitePages(contents: seq<AlbumContent>, endpoint: string, bucket: string): (r: Result<seq<PhotoPage>, Error>)
    ensures r.Ok? <==> forall i :: 0 <= i < |contents| ==> PhotoPageOf(contents[i], endpoint, bucket).Ok?
    ensures r.Ok? ==> |r.value| == |contents|
    ensures r.Ok? ==> forall i :: 0 <= i < |contents| ==> Ok(r.value[i]) == PhotoPageOf(contents[i], endpoint, bucket)
  {
    if contents == [] then Ok([])
    else
      var init, last := contents[..|contents| - 1], contents[|contents| - 1];
      assert contents == init + [last];
      var prev := SitePages(init, endpoint, bucket);
      if prev.Err? then prev
      else
        match PhotoPageOf(last, endpoint, bucket)
        case Err(e) => Err(e)
        case Ok(page) => Ok(prev.value + [page])
  }

  /** Once the pages of a prefix of the albums fail, the whole site fails with
      the same error. */
  lemma {:induction false} SitePagesFirstFailure(contents: seq<AlbumContent>, t: nat, endpoint: string, bucket: string)
    requires t <= |contents| && SitePages(contents[..t], endpoint, bucket).Err?
    ensures SitePages(contents, endpoint, bucket) == SitePages(contents[..t], endpoint, bucket)
    decreases |contents| - t
  {
    if t < |contents| {
      assert contents[..t + 1][..t] == contents[..t];
      SitePagesFirstFailure(contents, t + 1, endpoint, bucket);
    } else {
      assert contents[..t] == contents;
    }
  }

  /** The keys of a sequence of pages. */
  function PageKeysOf(pages: seq<PhotoPage>): (r: seq<string>)
    ensures |r| == |pages|
    ensures forall i :: 0 <= i < |pages| ==> r[i] == pages[i].key
  {
    if pages == [] then [] else PageKeysOf(pages[..|pages| - 1]) + [pages[|pages| - 1].key]
  }

  /** One more album extends the site by its page, or fails it with the
      page's error; a site that has failed stays failed. */
  lemma {:induction false} SitePagesStep(contents: seq<AlbumContent>, j: nat, endpoint: string, bucket: string)
    requires j < |contents|
    ensures SitePages(contents[..j + 1], endpoint, bucket) ==
      match SitePages(contents[..j], endpoint, bucket)
      case Err(e) => Err(e)
      case Ok(pages) =>
        match PhotoPageOf(contents[j], endpoint, bucket)
        case Err(e) => Err(e)
        case Ok(page) => Ok(pages + [page])
  {
    assert contents[..j + 1][..j] == contents[..j];
  }

  /** The album pages mksite has put when its page loop stops: all of them when
      every album page can be prepared, otherwise those of the albums before
      the first one that cannot. */
  function PagesPut(contents: seq<AlbumContent>, endpoint: string, bucket: string): (r: seq<PhotoPage>)
    ensures |r| <= |contents|
    ensures SitePages(contents, endpoint, bucket).Ok? ==> r == SitePages(contents, endpoint, bucket).value
  {
    if contents == [] then []
    else
      var init, last := contents[..|contents| - 1], contents[|contents| - 1];
      assert contents == init + [last];
      var prev := PagesPut(init, endpoint, bucket);
      if SitePages(init, endpoint, bucket).Err? then prev
      else
        match PhotoPageOf(last, endpoint, bucket)
        case Err(_) => prev
        case Ok(page) => prev + [page]
  }

  /** One more album adds its page to the pages put, unless publishing has
      already stopped or stops at this album. */
  lemma {:induction false} PagesPutStep(contents: seq<AlbumContent>, j: nat, endpoint: string, bucket: string)
    requires j < |contents|
    ensures PagesPut(contents[..j + 1], endpoint, bucket) ==
      if SitePages(contents[..j], endpoint, bucket).Ok? && PhotoPageOf(contents[j], endpoint, bucket).Ok?
      then PagesPut(contents[..j], endpoint, bucket) + [PhotoPageOf(contents[j], endpoint, bucket).value]
      else PagesPut(contents[..j], endpoint, bucket)
  {
    assert contents[..j + 1][..j] == contents[..j];
  }

  /** Once publishing the pages of a prefix of the albums has failed, the
      albums after it put nothing. */
  lemma {:induction false} PagesPutFrozen(contents: seq<AlbumContent>, t: nat, endpoint: string, bucket: string)
    requires t <= |contents| && SitePages(contents[..t], endpoint, bucket).Err?
    ensures PagesPut(contents, endpoint, bucket) == PagesPut(contents[..t], endpoint, bucket)
    decreases |contents| - t
  {
    if t < |contents| {
      SitePagesStep(contents, t, endpoint, bucket);
      PagesPutStep(contents, t, endpoint, bucket);
      PagesPutFrozen(contents, t + 1, endpoint, bucket);
    } else {
      assert contents[..t] == contents;
    }
  }

  /** Publishing stops at album j: the albums before it yield pages, its own
      page cannot be prepared and gives the site's error, and the pages put are
      exactly those of the albums before it. */
  predicate StopsAt(contents: seq<AlbumContent>, j: int, endpoint: string, bucket: string)
  {
    && 0 <= j < |contents|
    && SitePages(contents[..j], endpoint, bucket).Ok?
    && PhotoPageOf(contents[j], endpoint, bucket).Err?
    && SitePages(contents, endpoint, bucket) == Err(PhotoPageOf(contents[j], endpoint, bucket).error)
    && PagesPut(contents, endpoint, bucket) == SitePages(contents[..j], endpoint, bucket).value
  }

  /** When publishing fails, it stops at some album. */
  lemma {:induction false} PagesPutOnFailure(contents: seq<AlbumContent>, endpoint: string, bucket: string)
    requires SitePages(contents, endpoint, bucket).Err?
    ensures exists j :: StopsAt(contents, j, endpoint, bucket)
  {
    var n := |contents| - 1;
    var init := contents[..n];
    SitePagesStep(contents, n, endpoint, bucket);
    PagesPutStep(contents, n, endpoint, bucket);
    assert contents[..n + 1] == contents;
    if SitePages(init, endpoint, bucket).Err? {
      assert SitePages(contents, endpoint, bucket) == SitePages(init, endpoint, bucket);
      assert PagesPut(contents, endpoint, bucket) == PagesPut(init, endpoint, bucket);
      PagesPutOnFailure(init, endpoint, bucket);
      var j :| StopsAt(init, j, endpoint, bucket);
      assert init[..j] == contents[..j];
      assert init[j] == contents[j];
      assert StopsAt(contents, j, endpoint, bucket);
    } else {
      assert StopsAt(contents, n, endpoint, bucket);
    }
  }

  /** Putting the keys of one more page puts that page's key last. */
  lemma {:induction false} PutAllPageKeysSnoc(keys: seq<string>, pages: seq<PhotoPage>, page: PhotoPage)
    ensures PutAll(keys, PageKeysOf(pages + [page])) == Put(PutAll(keys, PageKeysOf(pages)), page.key)
  {
    assert (pages + [page])[..|pages|] == pages;
    var ks := PageKeysOf(pages + [page]);
    assert ks[..|ks| - 1] == PageKeysOf(pages);
  }

  /** Album `i` of the site is published under `album<i+1>.html`. */
  lemma SitePageKeysNumbered(contents: seq<AlbumContent>, endpoint: string, bucket: string)
    requires SitePages(contents, endpoint, bucket).Ok?
    requires forall i :: 0 <= i < |contents| ==> contents[i].album == i + 1
    ensures var pages := SitePages(contents, endpoint, bucket).value;
      forall i :: 0 <= i < |pages| ==> pages[i].key == PageKey(i + 1)
  {
    var pages := SitePages(contents, endpoint, bucket).value;
    forall i | 0 <= i < |pages|
      ensures pages[i].key == PageKey(i + 1)
    {
      assert Ok(pages[i]) == PhotoPageOf(contents[i], endpoint, bucket);
    }
  }

  /** Pages numbered 1, 2, ... have pairwise distinct keys. */
  lemma NumberedPageKeysDistinct(pages: seq<PhotoPage>)
    requires forall i :: 0 <= i < |pages| ==> pages[i].key == PageKey(i + 1)
    ensures forall i, j :: 0 <= i < j < |pages| ==> pages[i].key != pages[j].key
  {
    forall i, j | 0 <= i < j < |pages|
      ensures pages[i].key != pages[j].key
    {
      var a, b := PageKey(i + 1), PageKey(j + 1);
      assert ParseNat(a[5..|a| - 5]) != ParseNat(b[5..|b| - 5]);
    }
  }

  /** Pages with pairwise distinct keys give a key sequence without duplicates. */
  lemma PageKeysOfDistinct(pages: seq<PhotoPage>)
    requires forall i, j :: 0 <= i < j < |pages| ==> pages[i].key != pages[j].key
    ensures NoDuplicates(PageKeysOf(pages))
  {
  }

  /** The pages of distinct albums never overwrite each other. */
  lemma SitePageKeysDistinct(contents: seq<AlbumContent>, endpoint: string, bucket: string)
    requires SitePages(contents, endpoint, bucket).Ok?
    requires forall i :: 0 <= i < |contents| ==> contents[i].album == i + 1
    ensures NoDuplicates(PageKeysOf(SitePages(contents, endpoint, bucket).value))
  {
    var pages := SitePages(contents, endpoint, bucket).value;
    SitePageKeysNumbered(contents, endpoint, bucket);
    NumberedPageKeysDistinct(pages);
    PageKeysOfDistinct(pages);
  }

  /** On a published site, index entry `i` links to the page album `i` is
      published under, and no two album pages share a key. */
  lemma SiteLinksPages(objects: seq<string>, endpoint: string, bucket: string)
    requires SitePages(AlbumContents(objects), endpoint, bucket).Ok?
    ensures var index := AlbumParams(AlbumNames(objects));
      var pages := SitePages(AlbumContents(objects), endpoint, bucket).value;
      && |pages| == |index|
      && (forall i :: 0 <= i < |index| ==> pages[i].key == PageKey(index[i].id))
      && NoDuplicates(PageKeysOf(pages))
  {
    var contents := AlbumContents(objects);
    SitePageKeysNumbered(contents, endpoint, bucket);
    SitePageKeysDistinct(contents, endpoint, bucket);
  }
}

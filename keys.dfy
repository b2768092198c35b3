/** The object-key naming convention of the photo store.

    An album `a` is the key prefix `a/`; an empty album is kept alive by a
    marker object whose key is exactly `a/`; a file `f` of album `a` is stored
    under `a/f`. The source states the convention as four regular expressions
    (helper.py:30-33); each becomes a parser here that scans the key the way
    the regular expression would, with an `ensures` saying what a match means,
    and a completeness lemma saying which keys match.

    The album name is spliced into one of the patterns unescaped; the model
    gives the name its literal meaning, which is the source's meaning for every
    name without regular-expression metacharacters. Keys are assumed to hold
    no newline (Python's `$` would also match before a final newline).
 */
module Keys {
  import opened Outcomes

  /** `[^/]*`: no character of `s` is a slash. */
  function SlashFree(s: string): (r: bool)
    ensures r <==> forall i :: 0 <= i < |s| ==> s[i] != '/'
  {
    s == [] || (s[0] != '/' && SlashFree(s[1..]))
  }

  /** Position of the first slash of `s`, or `|s|` when it has none. */
  function FirstSlash(s: string): (i: nat)
    ensures i <= |s| && SlashFree(s[..i])
    ensures i < |s| ==> s[i] == '/'
  {
    if s == [] || s[0] == '/' then 0
    else
      var j := FirstSlash(s[1..]);
      assert s[..j + 1] == [s[0]] + s[1..][..j];
      j + 1
  }

  /** The marker key of album `album`, and the prefix of all its keys. */
  function AlbumPrefix(album: string): string
  {
    album + "/"
  }

  /** The key under which `file` is stored in album `album`. */
  function MemberKey(album: string, file: string): string
  {
    album + "/" + file
  }

  /** ALBUM_NAME_REGEX, `^[^/]+$`: a non-empty name without a slash. */
  predicate IsAlbumName(name: string): (r: bool)
    ensures r <==> name != [] && '/' !in name
  {
    |name| > 0 && SlashFree(name)
  }

  /** `file` ends in `ext` and has at least one character before it. */
  predicate HasExtension(file: string, ext: string)
  {
    |file| > |ext| && file[|file| - |ext|..] == ext
  }

  /** The file part of PHOTO_FILE_REGEX, `[^/]+\.(jpg|jpeg)`. */
  predicate IsPhotoFileName(file: string): (r: bool)
    ensures r <==>
      && '/' !in file
      && ((|file| > 4 && file[|file| - 4..] == ".jpg") || (|file| > 5 && file[|file| - 5..] == ".jpeg"))
  {
    SlashFree(file) && (HasExtension(file, ".jpg") || HasExtension(file, ".jpeg"))
  }

  /** The part of `key` before its first slash. */
  function DirOf(key: string): string
  {
    key[..FirstSlash(key)]
  }

  /** check_album_name (helper.py:105-107): ALBUM_NAME_REGEX must match the whole name. */
  function CheckAlbumName(name: string): (r: Outcome<Error>)
    ensures r.Pass? <==> |name| > 0 && forall i :: 0 <= i < |name| ==> name[i] != '/'
    ensures r.Fail? ==> r.error == InvalidAlbumName(name)
  {
    if |name| > 0 && FirstSlash(name) == |name| then Pass else Fail(InvalidAlbumName(name))
  }

  /** S3_ALBUM_REGEX, `^([^/]+)/$`: an album marker, giving the album name. */
  function ParseAlbumMarker(key: string): (r: Option<string>)
    ensures r.Some? ==> IsAlbumName(r.value) && key == AlbumPrefix(r.value)
  {
    var i := FirstSlash(key);
    if 0 < i && i + 1 == |key| then Some(key[..i]) else None
  }

  /** ALBUM_FILE_REGEX formatted with `album`, `^<album>/([^/]+)$`: a file of
      that album, giving the file name. */
  function ParseAlbumMember(album: string, key: string): (r: Option<string>)
    ensures r.Some? ==> |r.value| > 0 && SlashFree(r.value) && key == MemberKey(album, r.value)
  {
    var n := |album| + 1;
    if n < |key| && key[..n] == AlbumPrefix(album) && FirstSlash(key[n..]) == |key| - n then
      assert key == key[..n] + key[n..];
      Some(key[n..])
    else
      None
  }

  /** PHOTO_FILE_REGEX, `^[^/]+/([^/]+\.(jpg|jpeg))$`: a photo in some album,
      giving the photo's file name. */
  function ParsePhotoKey(key: string): (r: Option<string>)
    ensures r.Some? ==> IsPhotoFileName(r.value) && IsAlbumName(DirOf(key))
    ensures r.Some? ==> key == MemberKey(DirOf(key), r.value)
  {
    var i := FirstSlash(key);
    if 0 < i < |key| && IsPhotoFileName(key[i + 1..]) then
      assert key == key[..i] + [key[i]] + key[i + 1..];
      Some(key[i + 1..])
    else
      None
  }

  /** A key `a/b` whose `a` has no slash has its first slash right after `a`. */
  lemma FirstSlashOfJoin(a: string, b: string)
    requires SlashFree(a)
    ensures FirstSlash(a + "/" + b) == |a|
  {
    var s := a + "/" + b;
    assert s[|a|] == '/';
    assert forall j :: 0 <= j < |a| ==> s[j] == a[j];
  }

  /** A name without a slash is scanned to its end. */
  lemma FirstSlashOfSlashFree(s: string)
    requires SlashFree(s)
    ensures FirstSlash(s) == |s|
  {
  }

  /** Every valid album name is recovered from its marker key. */
  lemma MarkerRoundTrip(name: string)
    requires IsAlbumName(name)
    ensures ParseAlbumMarker(AlbumPrefix(name)) == Some(name)
  {
    FirstSlashOfJoin(name, "");
    assert AlbumPrefix(name) == name + "/" + "";
    assert AlbumPrefix(name)[..|name|] == name;
  }

  /** A key written as `album + "/" + file`, with `file` non-empty and slash-free,
      is matched by the album's file pattern, which extracts exactly `file`. */
  lemma MemberRoundTrip(album: string, file: string)
    requires |file| > 0 && SlashFree(file)
    ensures ParseAlbumMember(album, MemberKey(album, file)) == Some(file)
  {
    var key := MemberKey(album, file);
    var n := |album| + 1;
    assert key[..n] == AlbumPrefix(album);
    assert key[n..] == file;
    FirstSlashOfSlashFree(file);
  }

  /** A photo file stored in a valid album is matched by the photo pattern. */
  lemma PhotoRoundTrip(album: string, file: string)
    requires IsAlbumName(album) && IsPhotoFileName(file)
    ensures ParsePhotoKey(MemberKey(album, file)) == Some(file)
  {
    var key := MemberKey(album, file);
    FirstSlashOfJoin(album, file);
    assert key[|album| + 1..] == file;
  }

  /** The marker of an album is never one of its files. */
  lemma MarkerIsNotMember(album: string)
    ensures ParseAlbumMember(album, AlbumPrefix(album)) == None
  {
  }

  /** Inside a valid album, the photo pattern and the album's file pattern agree:
      the photo pattern matches a file of the album exactly when the file name
      has a photo extension, and then both extract the same name. */
  lemma MemberPhotoAgree(album: string, key: string)
    requires IsAlbumName(album) && ParseAlbumMember(album, key).Some?
    ensures ParsePhotoKey(key).Some? <==> IsPhotoFileName(ParseAlbumMember(album, key).value)
    ensures ParsePhotoKey(key).Some? ==> ParsePhotoKey(key) == ParseAlbumMember(album, key)
  {
    var f := ParseAlbumMember(album, key).value;
    FirstSlashOfJoin(album, f);
    assert key[|album| + 1..] == f;
  }
}

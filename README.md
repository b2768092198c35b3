# cloudphoto — a Dafny model

cloudphoto is a command-line photo archive that uses an S3-compatible bucket. Its commands are:

- `init` writes the credentials and bucket name to a configuration file and creates the bucket.
- `upload` stores the `*.jpg` and `*.jpeg` files of a directory as an album.
- `download` fetches an album's photos.
- `list` prints the albums, or the files of one album.
- `delete` removes an album or one photo.
- `mksite` publishes the bucket as a static web gallery: an index page plus one page per album.

The bucket is organised by a key naming convention:

- Album `a` is the key prefix `a/`.
- An album is kept alive by a marker object whose key is exactly `a/`.
- File `f` of album `a` is stored under `a/f`.

The model has six modules, one file each:

- `Outcomes` (outcomes.dfy) holds the result wrappers and one `Error` value per message the tool can fail with.
- `Keys` (keys.dfy) turns the four regular expressions of helper.py into scanners. Each scanner's contract says what a match means, and lemmas give the round trips from album and file names to keys.
- `Config` (config.dfy) covers the configuration check that every storage command runs first, and `init`'s effect on the configuration and the bucket.
- `Site` (site.dfy) covers the site-content preparation (`prepare_albums_content` and `prepare_photos_content`), written as loops proved against specification functions.
- `Bucket` (bucket.dfy) holds the specification functions:
  - the bucket as a sequence of unique keys, with `list_objects(Prefix=…)`, `put_object` and `delete_objects` over it;
  - for each command, its checks in source order and its effect on the keys;
  - the lemmas relating the commands to each other (upload then list, delete then list, list vs. the site generator).
- `Commands` (commands.dfy) defines the class `Store`. Its `keys` field is changed in place by `PutObject` and `DeleteObjects`. Each command is a method that runs the checks and then the storage calls one at a time, and is proved against the `Bucket` functions.

What the model treats as inputs:

- **The configuration file** is a map from option name to value.
- **A directory** is the sequence of its entry names, plus a flag saying whether it passes the access check.
- **Network failures** are a set of keys or file names whose transfer raises.

`init` (cli.py:21-25) sets only the access key, the secret key and the bucket, so the region and the endpoint must already be in the configuration file:

- `Config.InitThenCheckConfig` shows that after `init` the configuration is usable only if the file already held a region and an endpoint.
- `Config.Init` fails with `ClientOptionMissing` when the file lacks either, because building the storage client at cli.py:33 reads both. The file has been written by then.

Python's configparser strips the whitespace around every value it reads. The model applies that strip (`Config.Reread`) wherever a command reads a file that `init` wrote. The bucket placeholder's trailing space therefore never reads back, so the check the commands run (`Config.CheckConfigAsWritten`, as in helper.py:90) never refuses it; see "## Findings" for the corrected check.

## Model

| member | source | states |
|---|---|---|
| Keys.IsAlbumName | helper.py:32 | ALBUM_NAME_REGEX: a name matches exactly when it is non-empty and contains no slash |
| Keys.IsPhotoFileName | helper.py:33 | the file part of PHOTO_FILE_REGEX: no slash, and at least one character followed by `.jpg` or `.jpeg` |
| Keys.SlashFree | helper.py:31-33 | the `[^/]*` test: true exactly when no character of the string is a slash |
| Keys.FirstSlash | helper.py:31-33 | the scan the patterns perform: the prefix before the returned position has no slash, and the position holds a slash unless it is the end |
| Keys.CheckAlbumName | helper.py:105-107 | an album name passes exactly when it is non-empty and has no slash; otherwise the error names the rejected album |
| Keys.ParseAlbumMarker | helper.py:31 | a match of S3_ALBUM_REGEX yields a valid album name whose marker key is the matched key |
| Keys.ParseAlbumMember | helper.py:30 | a match of ALBUM_FILE_REGEX for an album yields a non-empty slash-free file name, and the key is `<album>/<name>` |
| Keys.ParsePhotoKey | helper.py:33 | a match of PHOTO_FILE_REGEX yields a `.jpg`/`.jpeg` file name, the part before the slash is a valid album name, and the key is `<album>/<name>` |
| Keys.FirstSlashOfJoin | helper.py:30-33 | in `a/b` with slash-free `a`, the first slash is right after `a` |
| Keys.MarkerRoundTrip | helper.py:31 | every valid album name is recovered from its marker key |
| Keys.MemberRoundTrip | helper.py:30 | every non-empty slash-free file name is recovered from `<album>/<file>` by the album's pattern |
| Keys.PhotoRoundTrip | helper.py:33 | a photo file stored in a valid album is matched by the photo pattern, which yields the file name |
| Keys.MarkerIsNotMember | helper.py:30 | an album's marker key is never one of its files |
| Keys.MemberPhotoAgree | helper.py:30-33 | within a valid album, the photo pattern matches a file exactly when its name has a photo extension, and then both patterns extract the same name |
| Config.Strip | helper.py:82-86 | the strip configparser applies to each value read: neither end of the result is whitespace, and it is no longer than the value |
| Config.StripCutsOnlySpace | helper.py:82-86 | stripping removes only whitespace and adds no character |
| Config.StripNeverEndsInSpace | helper.py:19 | no value read back from the file equals the bucket placeholder, whose last character is a space |
| Config.StripOfDefaultBucket | helper.py:19 | the bucket placeholder reads back as `INPUT_BUCKET_NAME`, without its trailing space |
| Config.Reread | helper.py:78-86 | reading back a written configuration keeps every option and strips every value |
| Config.IsConfigParamInvalid | helper.py:70-74 | an option is unfilled exactly when it is empty or, if it has a placeholder, equal to it |
| Config.CheckConfigWith | helper.py:77-97 | for a given bucket placeholder: a missing option gives InvalidConfigFile; otherwise the file passes exactly when all five values are filled, else ConfigNotFilled; on success it returns the five values |
| Config.CheckConfigAsWritten | helper.py:77-97 | the check as written, which every storage command runs: a missing option gives InvalidConfigFile; otherwise it passes exactly when all five values are filled, the bucket compared with `"INPUT_BUCKET_NAME "`, else ConfigNotFilled; on success it returns the five values |
| Config.PlaceholderBucketAccepted | helper.py:88-93 | as written, an otherwise valid configuration whose bucket was written as the placeholder passes the check once read back |
| Config.RereadPlaceholderBucket | helper.py:82-86 | writing the bucket placeholder changes only the bucket value read back, which becomes `INPUT_BUCKET_NAME` |
| Config.CheckConfig | helper.py:77-97 | the corrected check of "## Findings": as written, but an unfilled bucket is compared with the placeholder as it reads back; missing option → InvalidConfigFile, unfilled → ConfigNotFilled, else the five values |
| Config.PlaceholderBucketRejected | helper.py:88-93 | with the corrected comparison, any complete configuration whose bucket was written as the placeholder is reported unfilled |
| Config.Init | cli.py:11-42 | fails exactly when an input is empty (RequiredParamsMissing, nothing written) or the file lacks the endpoint or region (ClientOptionMissing). Whenever the inputs are non-empty it writes the file with the three options set and every other option kept. It creates the bucket exactly when it passes and the bucket is not among the existing ones |
| Config.InitThenCheckConfig | cli.py:21-29 | once `init` has written the file, the next command's check, on the values read back stripped, passes exactly when no stripped input is empty, neither key is its placeholder, and the file already held a non-empty endpoint and region; the bucket placeholder never reads back, so it is not refused |
| Config.InitBlankKeyNotFilled | cli.py:18-29 | an access key of one space passes `init`, yet the next command reports the configuration unfilled |
| Config.InitBucketIdempotent | cli.py:35-38 | running `init` again on the file it wrote, after it created the bucket, creates nothing |
| Site.RemoveSlashes | helper.py:117 | `replace('/', '')`: the result has no slash, and a slash-free string is unchanged |
| Site.RemoveSlashesOfMarker | helper.py:117 | removing the slashes of an album's marker key gives the album name back |
| Site.AlbumNames | helper.py:117 | every key that S3_ALBUM_REGEX matches contributes its album name |
| Site.AlbumNamesSound | helper.py:117 | every album name found is valid, and its marker key is in the listing |
| Site.AlbumNamesAppend | helper.py:117 | album names keep listing order: the names of a concatenation are the concatenated names |
| Site.AlbumParams | helper.py:118 | the album at position i gets id i+1 and its own name |
| Site.AlbumIdsDistinct | helper.py:118 | album ids are strictly increasing, so distinct |
| Site.AlbumPhotos | helper.py:121-125 | a key is in an album's photo list exactly when the album's file pattern matches it |
| Site.AlbumPhotosAppend | helper.py:121-125 | an album's photo list keeps listing order |
| Site.AlbumPhotosExact | helper.py:121-125 | the photo list of album `a` is exactly the `a/<file>` keys of the listing, the marker excluded |
| Site.PrepareAlbumsContent | helper.py:115-132 | returns the index entries of all albums found and the album contents AlbumContents describes |
| Site.AlbumContents | helper.py:118-130 | one album content per album found, in order: the i-th has id i+1 and holds exactly the keys that album's file pattern matches |
| Site.CollectAlbumPhotos | helper.py:121-125 | the inner loop returns exactly the album's photo list |
| Site.NatToString | helper.py:137 | the decimal numeral of an id is non-empty |
| Site.ParseNatToString | helper.py:137 | the decimal numeral of n reads back as n |
| Site.PageKey | helper.py:137 | the page key is `album`, the decimal id, `.html`, and the id reads back from it, so distinct ids give distinct keys |
| Site.PhotoUrl | helper.py:141 | the URL starts with `<endpoint>/` and ends with `/<key>` |
| Site.PhotoEntries | helper.py:139-145 | succeeds exactly when the photo pattern matches every key; otherwise the error names a rejected key; on success one entry per photo in order, with URL `<endpoint>/<bucket>/<key>` and a photo file name that the key ends with |
| Site.PhotoEntriesStep | helper.py:139-145 | one more photo extends the entries by its own, or fails them with its key |
| Site.PhotoEntriesFirstFailure | helper.py:139-140 | the first photo key the pattern rejects decides the error |
| Site.PhotoPageOf | helper.py:135-147 | a prepared page is keyed `album<id>.html`, exists exactly when every photo key matches, and then holds exactly the photo entries; otherwise it fails with the entries' error |
| Site.PreparePhotosContent | helper.py:135-147 | the loop computes exactly the album's page, or the first rejected key |
| Site.PageNamesAreFileNames | helper.py:140 | on a valid album's page, each entry's name is the file name after the album's slash |
| Site.NonPhotoMemberFailsPage | helper.py:121-140 | a non-`.jpg`/`.jpeg` file of an album is on the album's photo list but makes its page fail |
| Site.PhotoAlbumsYieldPages | helper.py:121-145 | an album whose files all have photo names always yields a page |
| Bucket.NoDuplicatesConcat | cli.py:69-75 | two duplicate-free key sequences with no common key concatenate without duplicates |
| Bucket.MemberKeyHasPrefix | cli.py:168-169 | a file key of an album starts with the album's prefix |
| Bucket.Listing | cli.py:67 | `list_objects(Prefix=p)`: exactly the stored keys that start with p, no more of them than stored |
| Bucket.ListingEmpty | cli.py:69 | a listing is empty exactly when no stored key starts with the prefix |
| Bucket.Put | cli.py:70 | `put_object`: adds the key, keeps the old keys in place, keeps keys unique |
| Bucket.PutAll | cli.py:72-77 | putting several keys keeps the old keys in place and adds exactly the new ones, keeping keys unique |
| Bucket.PutAllPair | cli.py:201-209 | putting two keys is putting one after the other |
| Bucket.PutAllFresh | cli.py:72-77 | putting keys that are all new appends them in order |
| Bucket.Without | cli.py:162-166 | `delete_objects`: keeps exactly the stored keys not in the batch |
| Bucket.WithoutAbsent | cli.py:162-166 | deleting keys none of which is stored changes nothing |
| Bucket.WithoutOne | cli.py:172-175 | deleting one stored key removes exactly it; the keys before and after it stay in order |
| Bucket.Glob | cli.py:61-62 | a glob for `*<ext>` collects exactly the non-hidden entries ending in ext |
| Bucket.GlobAllStep | cli.py:61-62 | globbing one more pattern appends its matches |
| Bucket.Photos | cli.py:60-62 | the photos are the results of globbing each PHOTO_SUFFIXES pattern in turn |
| Bucket.PhotosAreJpeg | cli.py:60-62 | every slash-free name upload collects is a photo file name, and none is collected twice |
| Bucket.Kept | cli.py:72-77 | the files stored are exactly those whose transfer did not raise |
| Bucket.MemberKeys | cli.py:75 | each stored file gets key `<album>/<name>` |
| Bucket.WithMarker | cli.py:67-70 | the marker `<album>/` is added exactly when no stored key starts with it; the old keys stay in place |
| Bucket.UploadCheck | cli.py:51-65 | upload proceeds exactly when the configuration is valid, the album name is valid, the directory is readable, and it holds a photo |
| Bucket.UploadedKeys | cli.py:67-77 | the keys after upload keep the old keys in place, followed by what upload added (UploadEffect gives what that is) |
| Bucket.UploadEffect | cli.py:67-77 | upload removes nothing and stores every photo that did not fail; it adds no other key except the marker, which it adds exactly when the album had no key; the album is non-empty afterwards |
| Bucket.UploadIntoNewAlbum | cli.py:67-77 | uploading into an album with no key appends its marker and then the file keys, in the model's listing order |
| Bucket.MatchName | cli.py:126-131 | without an album, an extracted name is a valid album name whose marker is the key; with one, a non-empty slash-free name `n` with key `<album>/n` |
| Bucket.MatchNameComplete | cli.py:126-131 | conversely, every valid album's marker key, or every `<album>/<n>` key with a non-empty slash-free `n`, matches and yields that name |
| Bucket.MatchedNames | cli.py:136-139 | every listed key the pattern matches contributes its `group(1)` |
| Bucket.MatchedNamesSound | cli.py:136-139 | each printed name comes from a listed marker (no album) or a listed `<album>/<name>` key |
| Bucket.MatchedNamesAppend | cli.py:136-139 | printed names keep listing order |
| Bucket.MatchedNamesSnoc | cli.py:136-139 | one more listed key adds its name, if it has one, at the end |
| Bucket.MatchedNamesStep | cli.py:136-139 | the names of the first i+1 listed keys are those of the first i, then key i's name if it has one |
| Bucket.ListResult | cli.py:126-144 | a successful list prints at least one name |
| Bucket.ListAlbumsAgreesWithSite | cli.py:126-139 | listing without an album prints exactly the album names the site generator finds |
| Bucket.MatchedNamesOfListing | cli.py:130-139 | matching the album's pattern over its prefix listing gives the same names as over the whole bucket |
| Bucket.MatchedNamesOfMemberKeys | cli.py:136-139 | the album's pattern recovers exactly the names stored under it, in order |
| Bucket.MatchedNamesOfAbsentAlbum | cli.py:136-139 | an album with no key yields no name |
| Bucket.MatchedNamesOfNewAlbum | cli.py:136-139 | a new album with its marker and file keys yields exactly the file names |
| Bucket.ListNewAlbum | cli.py:130-144 | listing a new album prints exactly its file names, or reports that nothing matched |
| Bucket.UploadThenList | cli.py:45-144 | after uploading into an album with no key, listing it prints exactly the files that did not fail, in the model's listing order; if all failed it reports ObjectIsEmpty |
| Bucket.PathJoin | cli.py:107 | `os.path.join`: the result starts with the directory and ends with the name, with one separator between them when the directory is non-empty |
| Bucket.DownloadPlan | cli.py:101-107 | the transfer plan has at most one transfer per listed key |
| Bucket.DownloadPlanMembers | cli.py:101-107 | the plan holds a transfer for exactly the listed photo keys, each written to `<path>/<file name>` |
| Bucket.DownloadPlanAppend | cli.py:101-107 | transfers keep listing order |
| Bucket.DownloadPlanStep | cli.py:101-107 | one more listed key adds its transfer, if it is a photo, at the end |
| Bucket.DownloadPlanAt | cli.py:101-112 | a photo key's transfer comes right after the transfers of the keys before it |
| Bucket.DownloadPlanOfAlbum | cli.py:92-107 | for a valid album, download never fetches the marker, and writes each file under the name the album's pattern extracts |
| Bucket.AlbumPhotoKey | cli.py:101-107 | a photo key under a valid album's prefix is not its marker, and the album's pattern extracts the same file name as the photo pattern |
| Bucket.DownloadCheck | cli.py:88-99 | download proceeds exactly when the configuration is valid, the album has a key, and the directory is writable |
| Bucket.DeleteCheck | cli.py:153-170 | delete proceeds exactly when the configuration is valid, the album has a key, and a named photo's key is stored |
| Bucket.DeleteAlbumEffect | cli.py:161-166 | deleting an album keeps exactly the keys outside its prefix; listing it afterwards reports AlbumDoesNotExist |
| Bucket.DeletePhotoEffect | cli.py:167-175 | deleting a photo removes exactly its key and keeps the others in order |
| Bucket.WebSiteUrl | helper.py:24 | the site URL is `http://`, the bucket, `.website.yandexcloud.net/`, and the bucket reads back from it |
| Bucket.SitePages | cli.py:211-214 | the site's pages exist exactly when every album page can be prepared; page i is album i's page |
| Bucket.SitePagesFirstFailure | cli.py:211-214 | the first album whose page fails decides the error |
| Bucket.SitePagesStep | cli.py:211-214 | one more album extends the site by its page, or fails it |
| Bucket.PagesPut | cli.py:211-214 | the pages put when the page loop stops: at most one per album, and all of the site's pages when every album page can be prepared |
| Bucket.PagesPutStep | cli.py:211-214 | one more album adds its page to the pages put, unless publishing has already stopped or stops at it |
| Bucket.PagesPutFrozen | cli.py:211-214 | once a prefix of the albums has failed, the albums after it put nothing |
| Bucket.PagesPutOnFailure | cli.py:211-214 | when publishing fails, it stops at an album whose page cannot be prepared, with that page's error, having put exactly the pages of the albums before it |
| Bucket.PageKeysOf | cli.py:214 | the put keys are the pages' keys, in order |
| Bucket.PutAllPageKeysSnoc | cli.py:214 | putting one more page puts its key last |
| Bucket.SitePageKeysNumbered | helper.py:137 | album i's page is published as `album<i+1>.html` |
| Bucket.NumberedPageKeysDistinct | helper.py:137 | pages numbered 1, 2, … have pairwise distinct keys |
| Bucket.SitePageKeysDistinct | cli.py:211-214 | no two album pages overwrite each other |
| Bucket.SiteLinksPages | cli.py:206-214 | index entry i links to the key album i's page is published under, and page keys are distinct |
| Commands.CollectPhotos | cli.py:60-62 | the glob loop collects the `*.jpg` entries, then the `*.jpeg` ones: exactly the non-hidden entries with those endings |
| Commands.CollectNames | cli.py:136-139 | the matching loop computes exactly the printed names |
| Commands.FetchPhotos | cli.py:101-112 | the completed transfers are a prefix of the plan and include no failing key; success exactly when the whole plan completed, otherwise the error names the failing key that stopped it |
| Commands.Store.PutObject | cli.py:70 | the keys become `Put(old keys, key)` and stay unique |
| Commands.Store.DeleteObjects | cli.py:163-175 | the keys become `Without(old keys, batch)` and stay unique |
| Commands.Store.PutPhotos | cli.py:72-77 | the keys become the old keys with each non-failing photo's key put, in order |
| Commands.Store.Upload | cli.py:45-79 | returns UploadCheck's verdict; on failure the bucket is unchanged, on success the keys are UploadedKeys |
| Commands.Store.Download | cli.py:82-114 | a failed check returns its error with no transfer; otherwise the transfers are a prefix of the plan ending exactly at the first failing key |
| Commands.Store.List | cli.py:117-144 | a configuration error is returned as is; otherwise the result is ListResult of the bucket |
| Commands.Store.Delete | cli.py:147-177 | returns DeleteCheck's verdict; on failure the bucket is unchanged; on success the album's keys, or the one photo key, are removed |
| Commands.Store.PublishPages | cli.py:211-214 | returns SitePages; the keys become the old keys with the keys of PagesPut put in order, on success and on failure alike, and no key is ever removed |
| Commands.Store.MakeSite | cli.py:180-216 | on an empty bucket it puts `error.html` and `index.html` and returns an empty site. Otherwise it returns the index of all albums and the pages SitePages computes, or SitePages' error. In both cases the keys are the old keys with `error.html`, `index.html` and then the keys of PagesPut put, so no key is removed |

## Left out

- The network and the storage client are not modelled. A transfer that raises is an input set, and file contents and page bodies are not tracked: only keys are.
- Real `list_objects` sorts keys lexicographically and pages after 1000 keys. The model lists keys in the order of the key sequence, with no paging limit. `delete_objects`' limit of 1000 keys per request is not modelled either.
- Template rendering (jinja2) and the coloured console output are not modelled. Each failure message becomes an `Error` value, and the two "does not exist" texts (download names the album, list and delete do not) share `AlbumDoesNotExist`.
- Setting the bucket's ACL and website configuration in mksite is not modelled (no effect on the keys).
- The configuration file's text is not modelled: a command receives the options as configparser returns them, and a file `init` wrote is read back through `Config.Reread`. This leaves out configparser's `%` interpolation, parse errors of a malformed file, and `init`'s "Config file not found" error when the file cannot be written.
- Config.Strip: removes the ASCII whitespace `str.strip()` removes (space, tab to carriage return, U+001C to U+001F) but no non-ASCII whitespace such as U+0085 or U+00A0, which `str.strip()` also removes. configparser also lower-cases option names and joins continuation lines into multi-line values; none of these is modelled.
- `init`'s bucket listing and creation failures ("Can not create bucket") are not modelled; the existing bucket names are an input.
- Album names are given their literal meaning inside ALBUM_FILE_REGEX. A name containing regular-expression metacharacters would be read as a pattern by the source. Keys are assumed to hold no newline, which Python's `$` would also accept before a final newline.
- The typer option bounds (`min=1, max=100`) are not modelled.
- The directory checks are a flag per command. Upload's separate "does not exist" check (cli.py:57-58) is subsumed by the access check that precedes it, and download's directory creation (cli.py:97-98) is folded into the writability flag.
- Glob matching is modelled for the two fixed patterns only (a non-hidden entry with the suffix). Which entries are regular files, and the order the file system returns them in, are taken as given.
- Bucket.ListResult: its contract states only that success prints something; `Commands.Store.List`, `Bucket.ListNewAlbum` and `Bucket.UploadThenList` give its meaning.

## Findings

| source | as written | input that shows it | evidently intended | confidence | as-written member | corrected member |
|---|---|---|---|---|---|---|
| helper.py:19, helper.py:90 | the bucket is compared with `"INPUT_BUCKET_NAME "`, trailing space included, but configparser strips every value it reads, so no bucket read from the file can equal it | a configuration file holding `bucket = INPUT_BUCKET_NAME ` with the other options filled: the bucket reads back as `INPUT_BUCKET_NAME` and the check accepts it | the unfilled bucket placeholder is rejected like the two key placeholders | medium, not executed | Config.PlaceholderBucketAccepted | Config.PlaceholderBucketRejected |

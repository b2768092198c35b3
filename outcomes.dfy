/** Result wrappers shared by the model, and the error conditions the tool reports.

    Every command of the tool ends either with exit status 0 or by writing one
    message to standard error and exiting with status 1; the model returns the
    message as an `Error` value instead of exiting. The two exceptions the tool
    does not catch (`ClientOptionMissing`, `NotAPhotoKey`) are errors here too.
 */
module Outcomes {

  datatype Option<+T> = None | Some(value: T)

  datatype Result<+T, +E> = Ok(value: T) | Err(error: E)

  /** A command that returns nothing on success. */
  datatype Outcome<+E> = Pass | Fail(error: E)

  /** One variant per error message the tool can emit. */
  datatype Error =
    | InvalidConfigFile         // an option is missing from the configuration file
    | ConfigNotFilled           // an option is empty or still holds its placeholder
    | RequiredParamsMissing     // init: empty access key, secret key or bucket
    | ClientOptionMissing       // init: the endpoint or region option is absent, so building the client raised
    | InvalidAlbumName(name: string)
    | DirectoryNotAvailable     // the directory fails the access check
    | NoPhotos                  // upload: no *.jpg or *.jpeg file in the directory
    | AlbumDoesNotExist         // the listing under the album prefix is empty
    | DownloadFailed(key: string)
    | ObjectIsEmpty             // list: no key matched the pattern
    | PhotoDoesNotExist(key: string)
    | NotAPhotoKey(key: string) // mksite: the photo pattern did not match, so `.group(1)` raised
}

/** The argument checks of the command line (`meme/utils/cli.py`). */
module Validators {
  import opened Wrappers
  import opened Catalog

  /** Python truthiness of an optional string argument: `None` and `''` are false. */
  predicate Given(arg: Option<string>) {
    arg.Some? && arg.value != ""
  }

  /** `validate_image_name(name, metadata)`. */
  function ValidImageName(name: Option<string>, images: Catalog): (ok: bool)
    ensures !Given(name) ==> !ok
    ensures Given(name) && name.value !in images ==> !ok
    ensures ok <==> name.Some? && name.value != "" && name.value in images
  {
    !(!Given(name) || name.value !in images)
  }

  /** `validate_upload_args(image_name, pending, upload_all)`. */
  function ValidUploadArgs(imageName: Option<string>, pending: bool, uploadAll: bool): (ok: bool)
    ensures ok <==> (imageName.Some? && imageName.value != "") || pending || uploadAll
  {
    Given(imageName) || pending || uploadAll
  }

  /** `validate_delete_args(image_name, delete_all)`. */
  function ValidDeleteArgs(imageName: Option<string>, deleteAll: bool): (ok: bool)
    ensures ok <==> (imageName.Some? && imageName.value != "") || deleteAll
  {
    Given(imageName) || deleteAll
  }
}

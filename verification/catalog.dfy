/**
 * The catalog's records and the two stores around them: the local metadata file
 * (a JSON object `{"meme_images": {name: entry}}`) and the hosted asset store, whose
 * primitives are stubs that only record, in a ghost log, that they were called.
 */
module Catalog {
  import opened Wrappers
  import opened Text

  /** The `tags` key of a local entry: absent, JSON `null`, or a list of strings. */
  datatype TagsField = NoTags | NullTags | TagList(list: seq<string>)

  /** The nested `properties` object of a local entry. */
  datatype Props = Props(kind: string, format: string, dimensions: string)

  /** One value of `meme_images`; `None` stands for a key the JSON object does not have. */
  datatype LocalEntry = LocalEntry(
    fileName: Option<string>,
    title: Option<string>,
    width: Option<nat>,
    height: Option<nat>,
    boxCount: Option<int>,
    props: Option<Props>,
    tags: TagsField,
    keywords: Option<seq<string>>,
    language: Option<string>)

  /** `meta['meme_images']`: asset name to entry. */
  type Catalog = map<string, LocalEntry>

  /** The `{}` that `dict.get(name, {})` falls back to. */
  const Blank := LocalEntry(None, None, None, None, None, None, NoTags, None, None)

  /** `catalog.get(name, {})`. */
  function Lookup(catalog: Catalog, name: string): LocalEntry {
    if name in catalog then catalog[name] else Blank
  }

  /**
   * One resource of the hosted store as `resources(tags=True, context=True)` lists it;
   * `custom` is `resource.get('context', {}).get('custom', {})`.
   */
  datatype Resource = Resource(
    publicId: string,
    secureUrl: string,
    width: Option<int>,
    height: Option<int>,
    tags: Option<seq<string>>,
    custom: map<string, string>)

  /** Every asset lives in this folder of the hosted store. */
  const Folder := "memes/"

  /** The public id under which an asset is stored, `f"memes/{name}"`. */
  function PublicId(name: string): string {
    Folder + name
  }

  /** `resource['public_id'].replace('memes/', '')`. */
  function NameOf(r: Resource): string {
    RemoveAll(r.publicId, Folder)
  }

  /** A name that does not itself contain `memes/` survives the trip to the store and back. */
  lemma NameOfPublicId(name: string, r: Resource)
    requires r.publicId == PublicId(name) && !IsSubstring(Folder, name)
    ensures NameOf(r) == name
  {
    RemoveAllPrefix(Folder, name);
  }

  /** `resource.get('tags', [])`. */
  function TagsOf(r: Resource): seq<string> {
    r.tags.GetOr([])
  }

  /** `context.get(key)`. */
  function ContextValue(r: Resource, key: string): Option<string> {
    if key in r.custom then Some(r.custom[key]) else None
  }

  /** What lies on disk where the metadata file should be. */
  datatype Stored = Missing | Corrupt | Present(catalog: Catalog)

  /** The local metadata file. */
  class MetadataFile {
    var stored: Stored

    constructor (stored: Stored)
      ensures this.stored == stored
    {
      this.stored := stored;
    }

    /** `load_metadata()['meme_images']`: a missing or unreadable file loads as an empty catalog. */
    function Load(): (c: Catalog)
      reads this
      ensures stored.Present? ==> c == stored.catalog
      ensures !stored.Present? ==> c == map[]
    {
      if stored.Present? then stored.catalog else map[]
    }

    /** `save_metadata(meta)`: the whole catalog is written back. */
    method Save(c: Catalog)
      modifies this
      ensures stored == Present(c)
    {
      stored := Present(c);
    }
  }

  /** The two local image directories. */
  datatype Dir = Pending | Uploaded

  /**
   * One entry of a directory listing: its file name, whether it is a regular file, and the
   * pixel size PIL reads from it (`None` when it cannot be opened as an image).
   */
  datatype DirEntry = DirEntry(name: string, isFile: bool, size: Option<(nat, nat)>)

  /** The suffixes the tool treats as images, in the order the single-image lookup tries them. */
  const ImageSuffixes: seq<string> := [".jpg", ".jpeg", ".png", ".gif"]

  /** `path.suffix.lower() in ['.jpg', '.jpeg', '.png', '.gif']`. */
  predicate IsImageName(name: string) {
    Lower(Suffix(name)) in ImageSuffixes
  }

  /** A call into the hosted store, with the arguments it was given. */
  datatype Call =
    | MetadataUpdate(name: string, tagSet: set<string>, language: string)
    | ImageUpload(dir: Dir, file: string, name: string, tagArg: Option<seq<string>>, title: string, language: string)
    | ImageDelete(name: string)
    | RawUpload(publicId: string, fileName: string, tags: seq<string>)
    | RawDestroy(publicId: string)

  /** A file posted to the API, with the pixel size the store will report for it. */
  datatype UploadFile = UploadFile(filename: string, width: nat, height: nat)

  /**
   * The hosted store. Its primitives record each call in `log`; `failing` holds the public
   * ids for which the store raises, which the wrappers turn into a `False` result.
   */
  class Cloud {
    ghost var log: seq<Call>
    const failing: set<string>

    constructor (failing: set<string>)
      ensures log == [] && this.failing == failing
    {
      log := [];
      this.failing := failing;
    }

    /** `update_image_metadata(name, tags=..., language=...)`. */
    method UpdateImageMetadata(name: string, tags: set<string>, language: string) returns (ok: bool)
      modifies this
      ensures log == old(log) + [MetadataUpdate(name, tags, language)]
      ensures ok == (PublicId(name) !in failing)
    {
      log := log + [MetadataUpdate(name, tags, language)];
      ok := PublicId(name) !in failing;
    }

    /** `upload_image(file, name, tags=..., title=..., language=...)`; `tags=None` is `None`. */
    method UploadImage(dir: Dir, file: string, name: string, tags: Option<seq<string>>, title: string, language: string)
      returns (ok: bool)
      modifies this
      ensures log == old(log) + [ImageUpload(dir, file, name, tags, title, language)]
      ensures ok == (PublicId(name) !in failing)
    {
      log := log + [ImageUpload(dir, file, name, tags, title, language)];
      ok := PublicId(name) !in failing;
    }

    /** `delete_image(name)`. */
    method DeleteImage(name: string) returns (ok: bool)
      modifies this
      ensures log == old(log) + [ImageDelete(name)]
      ensures ok == (PublicId(name) !in failing)
    {
      log := log + [ImageDelete(name)];
      ok := PublicId(name) !in failing;
    }

    /** `cloudinary.uploader.upload(file, public_id=..., tags=...)`: the stored size, or `None` when it raises. */
    method StoreUpload(publicId: string, file: UploadFile, tags: seq<string>) returns (size: Option<(nat, nat)>)
      modifies this
      ensures log == old(log) + [RawUpload(publicId, file.filename, tags)]
      ensures size == if publicId in failing then None else Some((file.width, file.height))
    {
      log := log + [RawUpload(publicId, file.filename, tags)];
      size := if publicId in failing then None else Some((file.width, file.height));
    }

    /** `cloudinary.uploader.destroy(public_id)`: whether it returned without raising. */
    method StoreDestroy(publicId: string) returns (ok: bool)
      modifies this
      ensures log == old(log) + [RawDestroy(publicId)]
      ensures ok == (publicId !in failing)
    {
      log := log + [RawDestroy(publicId)];
      ok := publicId !in failing;
    }
  }
}

/**
 * The `upload`, `delete` and `meta NAME --add` commands (main.py): which hosted-store
 * primitives they call behind their dry-run and confirm gates, the single-image file lookup,
 * and the tag edit they write to the local catalog.
 */
module Commands {
  import opened Wrappers
  import opened Lists
  import opened Text
  import opened Order
  import opened Catalog
  import opened Validators

  // ---------------------------------------------------------------- finding one image

  /** `path.exists()` for a file name in a directory listing. */
  predicate ExistsIn(listing: seq<DirEntry>, name: string) {
    listing != [] && (listing[0].name == name || ExistsIn(listing[1..], name))
  }

  /** The candidate `dir / f"{name}{ext}"` exists. */
  predicate Found(c: (Dir, string), pendingDir: seq<DirEntry>, uploadedDir: seq<DirEntry>) {
    ExistsIn(if c.0 == Pending then pendingDir else uploadedDir, c.1)
  }

  /** The files the lookup tries in one directory, one per image suffix in order. */
  function Tries(dir: Dir, name: string): (cs: seq<(Dir, string)>)
    ensures |cs| == |ImageSuffixes|
    ensures forall k :: 0 <= k < |ImageSuffixes| ==> cs[k] == (dir, name + ImageSuffixes[k])
  {
    seq(|ImageSuffixes|, k requires 0 <= k < |ImageSuffixes| => (dir, name + ImageSuffixes[k]))
  }

  /** The files tried for each directory of `dirs`, directory by directory. */
  function TriesAll(dirs: seq<Dir>, name: string): seq<(Dir, string)> {
    if dirs == [] then [] else TriesAll(dirs[..|dirs| - 1], name) + Tries(dirs[|dirs| - 1], name)
  }

  /** Every image suffix in `pending`, then every one in `uploaded`. */
  function Candidates(name: string): (cs: seq<(Dir, string)>)
    ensures cs == Tries(Pending, name) + Tries(Uploaded, name)
  {
    assert TriesAll([Pending], name) == Tries(Pending, name) by {
      assert [Pending][..0] == [];
      assert [] + Tries(Pending, name) == Tries(Pending, name);
    }
    assert [Pending, Uploaded][..1] == [Pending];
    TriesAll([Pending, Uploaded], name)
  }

  /** The first candidate that exists, if any. */
  function FirstFound(cs: seq<(Dir, string)>, pendingDir: seq<DirEntry>, uploadedDir: seq<DirEntry>): (r: Option<(Dir, string)>)
    ensures r.None? <==> forall k :: 0 <= k < |cs| ==> !Found(cs[k], pendingDir, uploadedDir)
    ensures r.Some? ==> r.value in cs && Found(r.value, pendingDir, uploadedDir)
  {
    if cs == [] then None
    else if Found(cs[0], pendingDir, uploadedDir) then Some(cs[0])
    else
      var r := FirstFound(cs[1..], pendingDir, uploadedDir);
      assert forall k :: 0 < k < |cs| ==> cs[k] == cs[1..][k - 1];
      r
  }

  /** A candidate that exists after only missing ones is the one the lookup picks. */
  lemma {:induction false} FirstFoundAt(cs: seq<(Dir, string)>, k: nat, pendingDir: seq<DirEntry>, uploadedDir: seq<DirEntry>)
    requires k < |cs| && Found(cs[k], pendingDir, uploadedDir)
    requires forall j :: 0 <= j < k ==> !Found(cs[j], pendingDir, uploadedDir)
    ensures FirstFound(cs, pendingDir, uploadedDir) == Some(cs[k])
  {
    if k > 0 {
      assert cs[1..][k - 1] == cs[k];
      FirstFoundAt(cs[1..], k - 1, pendingDir, uploadedDir);
    }
  }

  /** Searching two lists one after the other finds what the first one has, else what the second one has. */
  lemma {:induction false} FirstFoundConcat(a: seq<(Dir, string)>, b: seq<(Dir, string)>, pendingDir: seq<DirEntry>, uploadedDir: seq<DirEntry>)
    ensures FirstFound(a + b, pendingDir, uploadedDir) ==
            if FirstFound(a, pendingDir, uploadedDir).Some? then FirstFound(a, pendingDir, uploadedDir)
            else FirstFound(b, pendingDir, uploadedDir)
  {
    if a == [] {
      assert a + b == b;
    } else {
      assert (a + b)[0] == a[0] && (a + b)[1..] == a[1..] + b;
      FirstFoundConcat(a[1..], b, pendingDir, uploadedDir);
    }
  }

  lemma {:induction false} TriesAllConcat(xs: seq<Dir>, ys: seq<Dir>, name: string)
    ensures TriesAll(xs + ys, name) == TriesAll(xs, name) + TriesAll(ys, name)
  {
    if ys == [] {
      assert xs + ys == xs;
    } else {
      assert (xs + ys)[..|xs + ys| - 1] == xs + ys[..|ys| - 1];
      TriesAllConcat(xs, ys[..|ys| - 1], name);
    }
  }

  /** The inner loop of the lookup: the suffixes of one directory, stopping at the first file that exists. */
  method FindInDir(dir: Dir, name: string, pendingDir: seq<DirEntry>, uploadedDir: seq<DirEntry>)
    returns (found: Option<(Dir, string)>)
    ensures found == FirstFound(Tries(dir, name), pendingDir, uploadedDir)
  {
    ghost var cs := Tries(dir, name);
    var listing := if dir == Pending then pendingDir else uploadedDir;
    found := None;
    for e := 0 to |ImageSuffixes|
      invariant forall k :: 0 <= k < e ==> !Found(cs[k], pendingDir, uploadedDir)
    {
      var file := name + ImageSuffixes[e];
      if ExistsIn(listing, file) {
        FirstFoundAt(cs, e, pendingDir, uploadedDir);
        found := Some((dir, file));
        return;
      }
    }
  }

  /** The lookup of `upload IMAGE_NAME`: the outer loop over the two directories, with its `break`. */
  method FindImage(name: string, pendingDir: seq<DirEntry>, uploadedDir: seq<DirEntry>) returns (found: Option<(Dir, string)>)
    ensures found == FirstFound(Candidates(name), pendingDir, uploadedDir)
  {
    var dirs := [Pending, Uploaded];
    ghost var all := TriesAll(dirs, name);
    assert all == Candidates(name);
    found := None;
    var d := 0;
    while d < |dirs|
      invariant 0 <= d <= |dirs|
      invariant found.None? && FirstFound(TriesAll(dirs[..d], name), pendingDir, uploadedDir).None?
    {
      found := FindInDir(dirs[d], name, pendingDir, uploadedDir);
      assert dirs[..d + 1][..d] == dirs[..d];
      assert TriesAll(dirs[..d + 1], name) == TriesAll(dirs[..d], name) + Tries(dirs[d], name);
      FirstFoundConcat(TriesAll(dirs[..d], name), Tries(dirs[d], name), pendingDir, uploadedDir);
      if found.Some? {
        assert dirs == dirs[..d + 1] + dirs[d + 1..];
        TriesAllConcat(dirs[..d + 1], dirs[d + 1..], name);
        FirstFoundConcat(TriesAll(dirs[..d + 1], name), TriesAll(dirs[d + 1..], name), pendingDir, uploadedDir);
        break;
      }
      d := d + 1;
    }
    assert found.None? ==> dirs[..d] == dirs;
  }

  // ---------------------------------------------------------------- upload

  /** `meme_data.get('tags', [])`, as handed to `upload_image`: a JSON `null` is passed on as `None`. */
  function TagArg(e: LocalEntry): Option<seq<string>> {
    match e.tags
    case NoTags => Some([])
    case NullTags => None
    case TagList(list) => Some(list)
  }

  /** The `upload_image` call for the file `file` of directory `dir`, stored under `name`. */
  function UploadCall(dir: Dir, file: string, name: string, meta: Catalog): Call {
    var e := Lookup(meta, name);
    ImageUpload(dir, file, name, TagArg(e), e.title.GetOr(name), e.language.GetOr("en"))
  }

  /** `[f for f in dir.iterdir() if f.is_file() and f.suffix.lower() in IMAGE_SUFFIXES]`. */
  function ImagesIn(listing: seq<DirEntry>): seq<DirEntry> {
    if listing == [] then []
    else
      var e := listing[|listing| - 1];
      ImagesIn(listing[..|listing| - 1]) + (if e.isFile && IsImageName(e.name) then [e] else [])
  }

  /** The batch keeps exactly the regular files with an image suffix, in listing order. */
  lemma {:induction false} ImagesInSpec(listing: seq<DirEntry>)
    ensures forall e :: e in ImagesIn(listing) <==> e in listing && e.isFile && IsImageName(e.name)
  {
    if listing != [] {
      var init := listing[..|listing| - 1];
      ImagesInSpec(init);
      assert listing == init + [listing[|listing| - 1]];
    }
  }

  /** The calls of the batch loop: one per image of the listing, in listing order, named by its stem. */
  function BatchCalls(dir: Dir, images: seq<DirEntry>, meta: Catalog): seq<Call> {
    if images == [] then []
    else
      var img := images[|images| - 1];
      BatchCalls(dir, images[..|images| - 1], meta) + [UploadCall(dir, img.name, Stem(img.name), meta)]
  }

  lemma {:induction false} BatchCallsSpec(dir: Dir, images: seq<DirEntry>, meta: Catalog)
    ensures |BatchCalls(dir, images, meta)| == |images|
    ensures forall i :: 0 <= i < |images| ==>
              BatchCalls(dir, images, meta)[i] == UploadCall(dir, images[i].name, Stem(images[i].name), meta)
  {
    if images != [] {
      BatchCallsSpec(dir, images[..|images| - 1], meta);
    }
  }

  /** The store call of `upload IMAGE_NAME`: one upload of the first file found, or none. */
  function SingleCalls(name: string, meta: Catalog, pendingDir: seq<DirEntry>, uploadedDir: seq<DirEntry>): seq<Call> {
    match FirstFound(Candidates(name), pendingDir, uploadedDir)
    case None => []
    case Some(found) => [UploadCall(found.0, found.1, name, meta)]
  }

  /** The store calls `upload` makes, given its flags, the catalog and the two directory listings. */
  function UploadCalls(configured: bool, imageName: Option<string>, pending: bool, uploadAll: bool, dryrun: bool,
                       meta: Catalog, pendingDir: seq<DirEntry>, uploadedDir: seq<DirEntry>): seq<Call>
  {
    if !configured || !ValidUploadArgs(imageName, pending, uploadAll) || dryrun then []
    else if Given(imageName) then SingleCalls(imageName.value, meta, pendingDir, uploadedDir)
    else if pending then BatchCalls(Pending, ImagesIn(pendingDir), meta)
    else BatchCalls(Uploaded, ImagesIn(uploadedDir), meta)
  }

  /**
   * What `upload` sends to the store: nothing in a dry run, nothing when the named image is
   * in neither directory, otherwise exactly one upload of the first file found, and for
   * `--pending` / `--all` one upload per image file of that directory, with the catalog's
   * tags, title (default: the name) and language (default `en`).
   */
  lemma UploadCallsSpec(configured: bool, imageName: Option<string>, pending: bool, uploadAll: bool, dryrun: bool,
                        meta: Catalog, pendingDir: seq<DirEntry>, uploadedDir: seq<DirEntry>)
    ensures dryrun || !configured ==> UploadCalls(configured, imageName, pending, uploadAll, dryrun, meta, pendingDir, uploadedDir) == []
    ensures configured && !dryrun && Given(imageName) ==>
              var calls := UploadCalls(configured, imageName, pending, uploadAll, dryrun, meta, pendingDir, uploadedDir);
              var found := FirstFound(Candidates(imageName.value), pendingDir, uploadedDir);
              (found.None? <==> calls == [])
              && (found.Some? ==> calls == [UploadCall(found.value.0, found.value.1, imageName.value, meta)]
                                  && Found(found.value, pendingDir, uploadedDir))
    ensures configured && !dryrun && !Given(imageName) && (pending || uploadAll) ==>
              var dir := if pending then Pending else Uploaded;
              var images := ImagesIn(if pending then pendingDir else uploadedDir);
              var calls := UploadCalls(configured, imageName, pending, uploadAll, dryrun, meta, pendingDir, uploadedDir);
              |calls| == |images|
              && forall i :: 0 <= i < |calls| ==>
                   calls[i].ImageUpload? && calls[i].dir == dir && calls[i].file == images[i].name
                   && images[i].isFile && IsImageName(images[i].name) && calls[i].name == Stem(images[i].name)
  {
    if dryrun || !configured {
    } else if Given(imageName) {
      var found := FirstFound(Candidates(imageName.value), pendingDir, uploadedDir);
      assert UploadCalls(configured, imageName, pending, uploadAll, dryrun, meta, pendingDir, uploadedDir)
             == SingleCalls(imageName.value, meta, pendingDir, uploadedDir);
    } else if pending || uploadAll {
      var dir := if pending then Pending else Uploaded;
      var listing := if pending then pendingDir else uploadedDir;
      assert UploadCalls(configured, imageName, pending, uploadAll, dryrun, meta, pendingDir, uploadedDir)
             == BatchCalls(dir, ImagesIn(listing), meta);
      BatchOfImages(dir, listing, meta);
    }
  }

  /** The batch over a directory listing: one upload per image file, in order, named by its stem. */
  lemma BatchOfImages(dir: Dir, listing: seq<DirEntry>, meta: Catalog)
    ensures var images := ImagesIn(listing);
            var calls := BatchCalls(dir, images, meta);
            |calls| == |images|
            && forall i :: 0 <= i < |calls| ==>
                 calls[i].ImageUpload? && calls[i].dir == dir && calls[i].file == images[i].name
                 && images[i].isFile && IsImageName(images[i].name) && calls[i].name == Stem(images[i].name)
  {
    var images := ImagesIn(listing);
    ImagesInSpec(listing);
    BatchCallsSpec(dir, images, meta);
    forall i | 0 <= i < |images| ensures images[i].isFile && IsImageName(images[i].name) {
      assert images[i] in images;
    }
  }

  /** `upload IMAGE_NAME` once the arguments are checked. */
  method UploadSingle(cloud: Cloud, meta: Catalog, name: string, dryrun: bool, pendingDir: seq<DirEntry>, uploadedDir: seq<DirEntry>)
    modifies cloud
    ensures cloud.log == old(cloud.log) + (if dryrun then [] else SingleCalls(name, meta, pendingDir, uploadedDir))
  {
    var found := FindImage(name, pendingDir, uploadedDir);
    if found.None? {
      return;
    }
    if !dryrun {
      var e := Lookup(meta, name);
      var _ := cloud.UploadImage(found.value.0, found.value.1, name, TagArg(e), e.title.GetOr(name), e.language.GetOr("en"));
    }
  }

  /** One upload of the batch: the image stored under its stem, with that stem's catalog entry. */
  method UploadOne(cloud: Cloud, meta: Catalog, dir: Dir, img: DirEntry)
    modifies cloud
    ensures cloud.log == old(cloud.log) + [UploadCall(dir, img.name, Stem(img.name), meta)]
  {
    var stem := Stem(img.name);
    var e := Lookup(meta, stem);
    var _ := cloud.UploadImage(dir, img.name, stem, TagArg(e), e.title.GetOr(stem), e.language.GetOr("en"));
  }

  /** `upload --pending` / `upload --all` once the arguments are checked: the loop over the listed images. */
  method UploadBatch(cloud: Cloud, meta: Catalog, dir: Dir, images: seq<DirEntry>, dryrun: bool)
    modifies cloud
    ensures cloud.log == old(cloud.log) + (if dryrun then [] else BatchCalls(dir, images, meta))
  {
    ghost var start := cloud.log;
    for i := 0 to |images|
      invariant dryrun ==> cloud.log == start
      invariant !dryrun ==> |cloud.log| == |start| + i && cloud.log[..|start|] == start
      invariant !dryrun ==> forall k :: 0 <= k < i ==> cloud.log[|start| + k] == UploadCall(dir, images[k].name, Stem(images[k].name), meta)
    {
      if !dryrun {
        UploadOne(cloud, meta, dir, images[i]);
      }
    }
    if !dryrun {
      BatchCallsSpec(dir, images, meta);
      assert cloud.log == start + BatchCalls(dir, images, meta);
    }
  }

  /** The `upload` command against the store. */
  method UploadCommand(cloud: Cloud, configured: bool, file: MetadataFile, imageName: Option<string>,
                       pending: bool, uploadAll: bool, dryrun: bool,
                       pendingDir: seq<DirEntry>, uploadedDir: seq<DirEntry>)
    modifies cloud
    ensures cloud.log == old(cloud.log) + UploadCalls(configured, imageName, pending, uploadAll, dryrun, file.Load(), pendingDir, uploadedDir)
    ensures dryrun ==> cloud.log == old(cloud.log)
  {
    if !configured || !ValidUploadArgs(imageName, pending, uploadAll) {
      return;
    }
    var meta := file.Load();
    if Given(imageName) {
      UploadSingle(cloud, meta, imageName.value, dryrun, pendingDir, uploadedDir);
    } else if pending {
      UploadBatch(cloud, meta, Pending, ImagesIn(pendingDir), dryrun);
    } else {
      UploadBatch(cloud, meta, Uploaded, ImagesIn(uploadedDir), dryrun);
    }
  }

  // ---------------------------------------------------------------- delete

  /** One `delete_image` call per name, in order. */
  function Deletes(names: seq<string>): seq<Call> {
    if names == [] then [] else Deletes(names[..|names| - 1]) + [ImageDelete(names[|names| - 1])]
  }

  lemma DeletesSnoc(names: seq<string>, x: string)
    ensures Deletes(names + [x]) == Deletes(names) + [ImageDelete(x)]
  {
    assert (names + [x])[..|names|] == names;
  }

  /** The `--all --confirm` loop: every name of `names` deleted once, in the order returned as `order`. */
  method DeleteAll(cloud: Cloud, names: set<string>) returns (ghost order: seq<string>)
    modifies cloud
    ensures Distinct(order) && Elems(order) == names
    ensures cloud.log == old(cloud.log) + Deletes(order)
  {
    order := [];
    var remaining := names;
    while remaining != {}
      invariant remaining <= names && Elems(order) == names - remaining
      invariant Distinct(order)
      invariant cloud.log == old(cloud.log) + Deletes(order)
      decreases |remaining|
    {
      var name :| name in remaining;
      ghost var before := cloud.log;
      var _ := cloud.DeleteImage(name);
      ElemsSnoc(order, name);
      DistinctSnoc(order, name);
      DeletesSnoc(order, name);
      assert cloud.log == old(cloud.log) + Deletes(order + [name]) by {
        assert cloud.log == before + [ImageDelete(name)];
      }
      order := order + [name];
      remaining := remaining - {name};
    }
  }

  /**
   * The `delete` command. Without `--confirm` nothing reaches the store. With it, a named
   * image is deleted once; `--all` deletes every catalog name exactly once, in the order
   * returned as `order`.
   */
  method DeleteCommand(cloud: Cloud, configured: bool, file: MetadataFile, imageName: Option<string>,
                       deleteAll: bool, confirm: bool)
    returns (ghost order: seq<string>)
    modifies cloud
    ensures !configured || !confirm || !ValidDeleteArgs(imageName, deleteAll) ==> cloud.log == old(cloud.log)
    ensures configured && confirm && Given(imageName) ==> cloud.log == old(cloud.log) + [ImageDelete(imageName.value)]
    ensures configured && confirm && !Given(imageName) && deleteAll ==>
              Distinct(order) && Elems(order) == file.Load().Keys && cloud.log == old(cloud.log) + Deletes(order)
  {
    order := [];
    if !configured || !ValidDeleteArgs(imageName, deleteAll) || !confirm {
      return;
    }
    var meta := file.Load();
    if Given(imageName) {
      var _ := cloud.DeleteImage(imageName.value);
    } else {
      order := DeleteAll(cloud, meta.Keys);
    }
  }

  // ---------------------------------------------------------------- meta NAME --add

  /** `{k.strip() for k in add.split(',') if k.strip()}`. */
  function NewTags(add: string): (tags: set<string>)
    ensures forall t :: t in tags ==> t != "" && ',' !in t && !IsSpace(t[0]) && !IsSpace(t[|t| - 1])
  {
    var pieces := Split(add, ',');
    assert forall p :: p in pieces ==> ',' !in Strip(p) by {
      forall p | p in pieces ensures ',' !in Strip(p) {
        var i, j :| 0 <= i <= j <= |p| && Strip(p) == p[i..j];
        assert forall k :: 0 <= k < j - i ==> Strip(p)[k] == p[i + k];
      }
    }
    set p | p in pieces && Strip(p) != "" :: Strip(p)
  }

  /**
   * The new tags of comma-joined pieces are the pieces, stripped, that are not blank. Every
   * `add` is such a join (`Text.JoinSplit`), so this says what `NewTags` is for all inputs.
   */
  lemma NewTagsOfPieces(ps: seq<string>)
    requires |ps| >= 1 && forall i :: 0 <= i < |ps| ==> ',' !in ps[i]
    ensures NewTags(Join(ps, ",")) == set p | p in ps && Strip(p) != "" :: Strip(p)
  {
    SplitJoin(ps, ',');
  }

  /**
   * Tags written out as `--add "t1,t2,..."` come back as exactly that set, provided each is
   * non-empty, comma-free and without surrounding whitespace.
   */
  lemma NewTagsOfJoin(ts: seq<string>)
    requires |ts| >= 1
    requires forall i :: 0 <= i < |ts| ==> ts[i] != "" && ',' !in ts[i] && !IsSpace(ts[i][0]) && !IsSpace(ts[i][|ts[i]| - 1])
    ensures NewTags(Join(ts, ",")) == Elems(ts)
  {
    NewTagsOfPieces(ts);
    forall t | t in ts ensures Strip(t) == t {
      StripByKeeps(t, IsSpace);
    }
  }

  /** `meta['meme_images'][name].get('tags', [])`, read as `[]` when it is not a list. */
  function CurrentTags(e: LocalEntry): seq<string> {
    if e.tags.TagList? then e.tags.list else []
  }

  /** `sorted(set(current) | new_tags)`. */
  function TagsAfterAdd(e: LocalEntry, add: string): (tags: seq<string>)
    ensures StrictlySorted(tags)
    ensures Elems(tags) == Elems(CurrentTags(e)) + NewTags(add)
  {
    SortedOf(Elems(CurrentTags(e)) + NewTags(add))
  }

  /** Adding the same tags a second time writes the same list again. */
  lemma AddTagsIdempotent(e: LocalEntry, add: string)
    ensures TagsAfterAdd(e.(tags := TagList(TagsAfterAdd(e, add))), add) == TagsAfterAdd(e, add)
  {
    var once := TagsAfterAdd(e, add);
    var twice := TagsAfterAdd(e.(tags := TagList(once)), add);
    SortedUnique(once, twice);
  }

  /** The catalog name `meta NAME` works on: `name.strip('"').strip("'")`. */
  function Unquoted(name: string): string {
    StripChar(StripChar(name, '"'), '\'')
  }

  /** The catalog `meta NAME --add TAGS --confirm` saves, or `None` when it saves nothing. */
  function AddTagsResult(configured: bool, meta: Catalog, nameArg: Option<string>, add: Option<string>, confirm: bool): (r: Option<Catalog>)
    ensures r.Some? <==> configured && confirm && Given(nameArg) && Given(add)
                         && ValidImageName(Some(Unquoted(nameArg.value)), meta)
    ensures r.Some? ==>
              var name := Unquoted(nameArg.value);
              r.value.Keys == meta.Keys
              && (forall n :: n in meta && n != name ==> r.value[n] == meta[n])
              && r.value[name] == meta[name].(tags := TagList(TagsAfterAdd(meta[name], add.value)))
  {
    if !configured || !Given(nameArg) then None
    else
      var name := Unquoted(nameArg.value);
      if !ValidImageName(Some(name), meta) || !Given(add) || !confirm then None
      else Some(meta[name := meta[name].(tags := TagList(TagsAfterAdd(meta[name], add.value)))])
  }

  /** The `meta NAME --add TAGS` branch: the file is saved only with `--confirm`. */
  method AddTags(configured: bool, file: MetadataFile, nameArg: Option<string>, add: Option<string>, confirm: bool)
    modifies file
    ensures var r := AddTagsResult(configured, old(file.Load()), nameArg, add, confirm);
            (r.None? ==> file.stored == old(file.stored)) && (r.Some? ==> file.stored == Present(r.value))
    ensures !confirm ==> file.stored == old(file.stored)
  {
    if !configured || !Given(nameArg) {
      return;
    }
    var meta := file.Load();
    var name := Unquoted(nameArg.value);
    if !ValidImageName(Some(name), meta) {
      return;
    }
    if Given(add) {
      var tagSet := Elems(CurrentTags(meta[name]));
      var newTags := NewTags(add.value);
      if confirm {
        tagSet := tagSet + newTags;
        var entry := meta[name].(tags := TagList(SortedOf(tagSet)));
        file.Save(meta[name := entry]);
      }
    }
  }
}

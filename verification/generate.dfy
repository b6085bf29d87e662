/**
 * `meme/utils/generate_metadata.py`: keywords drawn from an image's name, and the rebuild
 * of the catalog from the two image directories. The language model is an oracle that
 * either fails or returns the tokens of the cleaned name; the image library's size reading
 * is the `size` of each directory entry.
 */
module Generate {
  import opened Wrappers
  import opened Lists
  import opened Text
  import opened Order
  import opened Catalog

  // ---------------------------------------------------------------- extract_keywords

  /** One token as the language model reports it. */
  datatype Token = Token(text: string, baseForm: string, pos: string)

  /** The language model: the tokens of a text, or `None` when loading or running it raises. */
  type Tagger = string -> Option<seq<Token>>

  /** The words never kept as they are written. */
  const TextStops: set<string> := {
    "are", "is", "was", "were",
    "why", "what", "when", "where", "who", "how",
    "the", "a", "an",
    "this", "that", "these", "those",
    "in", "on", "at", "to", "for", "of", "with",
    "and", "or", "but",
    "you", "your", "my", "mine", "their", "our"}

  /** The lemmas never kept: the same words, and `be`. */
  const LemmaStops: set<string> := TextStops + {"be"}

  /** The parts of speech whose lemmas are kept. */
  const KeptPos: set<string> := {"NOUN", "VERB", "ADJ"}

  /** `re.sub(r'[-_]', ' ', text.lower())`. */
  function Clean(text: string): (c: string)
    ensures |c| == |text|
    ensures forall i :: 0 <= i < |c| ==> c[i] != '-' && c[i] != '_' && !('A' <= c[i] <= 'Z')
    ensures forall i :: 0 <= i < |c| ==> c[i] == if text[i] == '-' || text[i] == '_' then ' ' else Lower(text)[i]
  {
    seq(|text|, i requires 0 <= i < |text| =>
      var ch := LowerChar(text[i]);
      if ch == '-' || ch == '_' then ' ' else ch)
  }

  /** What the token loop adds for one token: its lemma, and its text when that differs from the lemma. */
  function TokenAdds(t: Token): set<string> {
    (if t.pos in KeptPos && t.baseForm !in LemmaStops then {t.baseForm} else {})
    + (if t.text != t.baseForm && t.text !in TextStops then {t.text} else {})
  }

  /** The set the token loop builds. */
  function TokenKeywords(tokens: seq<Token>): set<string> {
    UnionOf(tokens, TokenAdds)
  }

  /** The words of the cleaned name that are not stop words. */
  function NameWords(clean: string): set<string> {
    set w | w in Words(clean) && w !in TextStops
  }

  /** The keywords kept from the token loop and the name words: those longer than one character. */
  function KeywordSet(tokens: seq<Token>, clean: string): set<string> {
    set k | k in TokenKeywords(tokens) + NameWords(clean) && |k| > 1
  }

  /** `extract_keywords(text)`. */
  function Keywords(text: string, tagger: Tagger): seq<string> {
    var clean := Clean(text);
    match tagger(clean)
    case None => []
    case Some(tokens) => SortedOf(KeywordSet(tokens, clean))
  }

  /**
   * A keyword is a string longer than one character that is either a word of the cleaned
   * name other than a stop word, or something the token loop added for some token.
   */
  lemma KeywordSetSpec(tokens: seq<Token>, clean: string)
    ensures forall k :: k in KeywordSet(tokens, clean) <==>
              |k| > 1 && ((k in Words(clean) && k !in TextStops) || exists t :: t in tokens && k in TokenAdds(t))
  {
    forall k ensures k in TokenKeywords(tokens) <==> exists t :: t in tokens && k in TokenAdds(t) {
      UnionOfMember(tokens, TokenAdds, k);
    }
  }

  /**
   * The keywords are sorted and free of repetitions; a failing model gives none; otherwise
   * they are exactly the strings `KeywordSetSpec` describes for the cleaned name.
   */
  lemma KeywordsSpec(text: string, tagger: Tagger)
    ensures StrictlySorted(Keywords(text, tagger))
    ensures tagger(Clean(text)).None? ==> Keywords(text, tagger) == []
    ensures tagger(Clean(text)).Some? ==>
              forall k :: k in Keywords(text, tagger) <==>
                |k| > 1
                && ((k in Words(Clean(text)) && k !in TextStops)
                    || exists t :: t in tagger(Clean(text)).value && k in TokenAdds(t))
  {
    var clean := Clean(text);
    if tagger(clean).Some? {
      var tokens := tagger(clean).value;
      KeywordSetSpec(tokens, clean);
      SortedOfMembers(KeywordSet(tokens, clean));
    }
  }

  /** `extract_keywords(text)`: the token loop, the name words, the length filter and the sort. */
  method ExtractKeywords(text: string, tagger: Tagger) returns (keywords: seq<string>)
    ensures keywords == Keywords(text, tagger)
  {
    var clean := Clean(text);
    var doc := tagger(clean);
    if doc.None? {
      return [];
    }
    var tokens := doc.value;
    var found: set<string> := {};
    for i := 0 to |tokens|
      invariant found == TokenKeywords(tokens[..i])
    {
      var token := tokens[i];
      if token.pos in KeptPos {
        if token.baseForm !in LemmaStops {
          found := found + {token.baseForm};
        }
      }
      if token.text != token.baseForm && token.text !in TextStops {
        found := found + {token.text};
      }
      assert tokens[..i + 1][..i] == tokens[..i];
      assert found == UnionOf(tokens[..i + 1], TokenAdds);
    }
    assert tokens[..|tokens|] == tokens;
    found := found + NameWords(clean);
    keywords := SortedOf(set k | k in found && |k| > 1);
    assert (set k | k in found && |k| > 1) == KeywordSet(tokens, clean);
  }

  // ---------------------------------------------------------------- tag merge

  /** `existing_entry.get("tags", [])`, as a list: a JSON `null` reads as falsy, like `[]`. */
  function ExistingTags(tags: TagsField): seq<string> {
    if tags.TagList? then tags.list else []
  }

  /**
   * The tags a processed image gets: the extracted ones when it had none; otherwise the
   * sorted union when extraction found something new, else the existing list untouched.
   */
  function MergeTags(existing: TagsField, extracted: seq<string>): seq<string> {
    var current := ExistingTags(existing);
    if current == [] then extracted
    else if Elems(extracted) - Elems(current) != {} then SortedOf(Elems(current) + Elems(extracted))
    else current
  }

  /**
   * Existing tags are never lost and the extracted ones are always present: the merged tags
   * hold exactly the union. The existing list is kept as it stands when nothing is new.
   */
  lemma MergeTagsSpec(existing: TagsField, extracted: seq<string>)
    ensures Elems(MergeTags(existing, extracted)) == Elems(ExistingTags(existing)) + Elems(extracted)
    ensures ExistingTags(existing) == [] ==> MergeTags(existing, extracted) == extracted
    ensures ExistingTags(existing) != [] && Elems(extracted) <= Elems(ExistingTags(existing)) ==>
              MergeTags(existing, extracted) == ExistingTags(existing)
    ensures ExistingTags(existing) != [] && !(Elems(extracted) <= Elems(ExistingTags(existing))) ==>
              StrictlySorted(MergeTags(existing, extracted))
  {
    var current := ExistingTags(existing);
    ElemsEmpty(current);
    if current == [] {
      assert Elems(current) + Elems(extracted) == Elems(extracted);
    } else if Elems(extracted) - Elems(current) == {} {
      forall x | x in Elems(extracted) ensures x in Elems(current) {
        assert x !in Elems(extracted) - Elems(current);
      }
      assert Elems(current) + Elems(extracted) == Elems(current);
    }
  }

  /** Running the merge again with the same keywords changes nothing. */
  lemma MergeTagsIdempotent(existing: TagsField, extracted: seq<string>)
    ensures MergeTags(TagList(MergeTags(existing, extracted)), extracted) == MergeTags(existing, extracted)
  {
    var once := MergeTags(existing, extracted);
    MergeTagsSpec(existing, extracted);
    MergeTagsSpec(TagList(once), extracted);
    ElemsEmpty(once);
  }

  // ---------------------------------------------------------------- entry rebuild

  /** `path.suffix[1:]`. */
  function Format(fileName: string): string {
    var s := Suffix(fileName);
    if s == [] then [] else s[1..]
  }

  /** The entry written under `name` for the image file `fileName` of size `width` x `height`. */
  function Rebuilt(existing: LocalEntry, name: string, fileName: string, width: nat, height: nat, tags: seq<string>): LocalEntry {
    LocalEntry(Some(fileName), Some(name), Some(width), Some(height),
               Some(existing.boxCount.GetOr(2)),
               Some(Props("image", Format(fileName), Dimensions(width, height))),
               TagList(tags), None, Some(existing.language.GetOr("en")))
  }

  /**
   * The rebuilt entry is titled by its name, keeps the box count (default 2) and the
   * language (default `en`), records the suffix without its dot and dimensions that read
   * back as the size, and drops any other key, such as `keywords`.
   */
  lemma RebuiltSpec(existing: LocalEntry, name: string, fileName: string, width: nat, height: nat, tags: seq<string>)
    ensures var e := Rebuilt(existing, name, fileName, width, height, tags);
            e.title == Some(name) && e.fileName == Some(fileName)
            && e.boxCount == Some(if existing.boxCount.Some? then existing.boxCount.value else 2)
            && e.language == Some(if existing.language.Some? then existing.language.value else "en")
            && e.props.Some? && (Suffix(fileName) != [] ==> Stem(fileName) + "." + e.props.value.format == fileName)
            && ParseDimensions(e.props.value.dimensions) == Some((width, height))
            && e.tags == TagList(tags) && e.keywords.None?
  {
    DimensionsRoundTrip(width, height);
    var s := Suffix(fileName);
    if s != [] {
      assert s == "." + s[1..];
    }
  }

  // ---------------------------------------------------------------- generate_metadata

  /** A file the run processes without error, reduced to what the rebuild uses. */
  datatype Job = Job(name: string, fileName: string, width: nat, height: nat)

  /**
   * The job for a directory entry: a regular file whose lower-cased suffix is an image
   * suffix and that opens as an image; it is recorded under its stem.
   */
  function JobOf(f: DirEntry): Option<Job> {
    if f.isFile && IsImageName(f.name) && f.size.Some? then Some(Job(Stem(f.name), f.name, f.size.value.0, f.size.value.1))
    else None
  }

  /** The jobs of a listing, in listing order. */
  function Jobs(files: seq<DirEntry>): seq<Job> {
    FilterMap(files, JobOf)
  }

  /** The entry written for a job, given the one the catalog held under its name. */
  function Entry(existing: LocalEntry, j: Job, tagger: Tagger): LocalEntry {
    Rebuilt(existing, j.name, j.fileName, j.width, j.height, MergeTags(existing.tags, Keywords(j.name, tagger)))
  }

  /** How one job turns the entry held under its name into the one written there. */
  type Rebuild = (LocalEntry, Job) -> LocalEntry

  /** The rebuild `generate_metadata` performs with a given language model. */
  function Rebuilder(tagger: Tagger): Rebuild {
    (existing, j) => Entry(existing, j, tagger)
  }

  /** The catalog after the jobs, in order; a later file with the same stem sees the earlier one's entry. */
  function Run(meta: Catalog, jobs: seq<Job>, rebuild: Rebuild): Catalog {
    if jobs == [] then meta
    else
      var before := Run(meta, jobs[..|jobs| - 1], rebuild);
      var j := jobs[|jobs| - 1];
      before[j.name := rebuild(Lookup(before, j.name), j)]
  }

  /** The names the jobs assign. */
  function Names(jobs: seq<Job>): set<string> {
    set j | j in jobs :: j.name
  }

  lemma {:induction false} RunConcat(meta: Catalog, a: seq<Job>, b: seq<Job>, rebuild: Rebuild)
    ensures Run(meta, a + b, rebuild) == Run(Run(meta, a, rebuild), b, rebuild)
  {
    if b == [] {
      assert a + b == a;
    } else {
      assert (a + b)[..|a + b| - 1] == a + b[..|b| - 1];
      assert (a + b)[|a + b| - 1] == b[|b| - 1];
      RunConcat(meta, a, b[..|b| - 1], rebuild);
    }
  }

  lemma RunSnoc(meta: Catalog, jobs: seq<Job>, j: Job, rebuild: Rebuild)
    ensures Run(meta, jobs + [j], rebuild)
            == Run(meta, jobs, rebuild)[j.name := rebuild(Lookup(Run(meta, jobs, rebuild), j.name), j)]
  {
    assert (jobs + [j])[..|jobs|] == jobs;
  }

  lemma NamesSnoc(jobs: seq<Job>, j: Job)
    ensures Names(jobs + [j]) == Names(jobs) + {j.name}
  {
    assert forall x :: x in jobs + [j] <==> x in jobs || x == j;
  }

  /**
   * Only the names of processed files are assigned: the run adds exactly those names, and
   * every other entry is left as it was.
   */
  lemma {:induction false} RunFrame(meta: Catalog, jobs: seq<Job>, rebuild: Rebuild)
    ensures Run(meta, jobs, rebuild).Keys == meta.Keys + Names(jobs)
    ensures forall n :: n in meta && n !in Names(jobs) ==> Run(meta, jobs, rebuild)[n] == meta[n]
  {
    if jobs != [] {
      var init, j := jobs[..|jobs| - 1], jobs[|jobs| - 1];
      RunFrame(meta, init, rebuild);
      assert jobs == init + [j];
      NamesSnoc(init, j);
    }
  }

  /**
   * A rebuild that titles each entry by its job's name, writes a tag list and keeps the
   * language (default `en`) and the box count (default 2) of the entry it replaces.
   */
  ghost predicate KeepsDefaults(rebuild: Rebuild) {
    forall existing, j ::
      rebuild(existing, j).title == Some(j.name)
      && rebuild(existing, j).tags.TagList?
      && rebuild(existing, j).language == Some(existing.language.GetOr("en"))
      && rebuild(existing, j).boxCount == Some(existing.boxCount.GetOr(2))
  }

  /** The rebuild of `generate_metadata` is such a rebuild, whatever the language model says. */
  lemma RebuilderKeepsDefaults(tagger: Tagger)
    ensures KeepsDefaults(Rebuilder(tagger))
  {
    forall existing, j
      ensures Rebuilder(tagger)(existing, j) == Entry(existing, j, tagger)
    {
    }
  }

  /**
   * What a run leaves under an assigned name `n`: an entry titled `n`, with a tag list,
   * and the language (default `en`) and box count (default 2) that `meta` held for it.
   */
  predicate Assigned(after: Catalog, meta: Catalog, n: string) {
    n in after
    && after[n].title == Some(n)
    && after[n].tags.TagList?
    && after[n].language == Some(Lookup(meta, n).language.GetOr("en"))
    && after[n].boxCount == Some(Lookup(meta, n).boxCount.GetOr(2))
  }

  /**
   * Every name a job assigns ends up as `Assigned` describes: a stem that occurs in both
   * directories is rebuilt twice, and the second rebuild keeps what the first kept.
   */
  lemma {:induction false} RunAssigned(meta: Catalog, jobs: seq<Job>, rebuild: Rebuild)
    requires KeepsDefaults(rebuild)
    ensures forall n :: n in Names(jobs) ==> Assigned(Run(meta, jobs, rebuild), meta, n)
  {
    if jobs != [] {
      var init, j := jobs[..|jobs| - 1], jobs[|jobs| - 1];
      RunAssigned(meta, init, rebuild);
      RunFrame(meta, init, rebuild);
      assert jobs == init + [j];
      NamesSnoc(init, j);
      var before := Run(meta, init, rebuild);
      assert Lookup(before, j.name).language.GetOr("en") == Lookup(meta, j.name).language.GetOr("en");
      assert Lookup(before, j.name).boxCount.GetOr(2) == Lookup(meta, j.name).boxCount.GetOr(2);
    }
  }

  /**
   * The body of the inner loop of `generate_metadata` for one directory entry: an image file
   * that opens is rebuilt into the catalog under its stem; any other entry is skipped.
   */
  method ProcessFile(meta: Catalog, imageFile: DirEntry, tagger: Tagger) returns (result: Catalog, processed: bool)
    ensures processed == JobOf(imageFile).Some?
    ensures processed ==>
              var j := JobOf(imageFile).value;
              result == meta[j.name := Rebuilder(tagger)(Lookup(meta, j.name), j)]
    ensures !processed ==> result == meta
  {
    if imageFile.isFile && IsImageName(imageFile.name) && imageFile.size.Some? {
      var (width, height) := imageFile.size.value;
      var name := Stem(imageFile.name);
      var existing := Lookup(meta, name);
      var newTags := ExtractKeywords(name, tagger);
      var tags := MergeTags(existing.tags, newTags);
      ghost var j := Job(name, imageFile.name, width, height);
      assert Rebuilder(tagger)(existing, j) == Entry(existing, j, tagger);
      result := meta[name := Rebuilt(existing, name, imageFile.name, width, height, tags)];
      processed := true;
    } else {
      result, processed := meta, false;
    }
  }

  /** One turn of the inner loop: the entry at `i` extends the run over the entries before it. */
  lemma ProcessStep(meta: Catalog, listing: seq<DirEntry>, i: nat, rebuild: Rebuild, before: Catalog, after: Catalog, processed: bool)
    requires i < |listing| && before == Run(meta, Jobs(listing[..i]), rebuild)
    requires processed == JobOf(listing[i]).Some?
    requires processed ==>
               var j := JobOf(listing[i]).value;
               after == before[j.name := rebuild(Lookup(before, j.name), j)]
    requires !processed ==> after == before
    ensures after == Run(meta, Jobs(listing[..i + 1]), rebuild)
    ensures |Jobs(listing[..i + 1])| == |Jobs(listing[..i])| + (if processed then 1 else 0)
  {
    assert listing[..i + 1] == listing[..i] + [listing[i]];
    FilterMapSnoc(listing[..i], listing[i], JobOf);
    if processed {
      assert Jobs(listing[..i + 1]) == Jobs(listing[..i]) + [JobOf(listing[i]).value];
      RunSnoc(meta, Jobs(listing[..i]), JobOf(listing[i]).value, rebuild);
    } else {
      assert Jobs(listing[..i + 1]) == Jobs(listing[..i]);
    }
  }

  /** The inner loop of `generate_metadata` over one directory's listing. */
  method ProcessDir(meta: Catalog, listing: seq<DirEntry>, tagger: Tagger) returns (result: Catalog, count: nat)
    ensures result == Run(meta, Jobs(listing), Rebuilder(tagger))
    ensures count == |Jobs(listing)|
  {
    result, count := meta, 0;
    for i := 0 to |listing|
      invariant result == Run(meta, Jobs(listing[..i]), Rebuilder(tagger))
      invariant count == |Jobs(listing[..i])|
    {
      var next, processed := ProcessFile(result, listing[i], tagger);
      ProcessStep(meta, listing, i, Rebuilder(tagger), result, next, processed);
      result := next;
      if processed {
        count := count + 1;
      }
    }
    assert listing[..|listing|] == listing;
  }

  /**
   * `generate_metadata()`: the pending images, then the uploaded ones, folded into the
   * catalog, which is then saved; the answer is how many images were processed. A metadata
   * file that does not parse makes the call raise before anything is written.
   */
  method GenerateMetadata(file: MetadataFile, pendingDir: seq<DirEntry>, uploadedDir: seq<DirEntry>, tagger: Tagger)
    returns (imageCount: Option<nat>)
    modifies file
    ensures old(file.stored).Corrupt? ==> imageCount.None? && file.stored == old(file.stored)
    ensures !old(file.stored).Corrupt? ==>
              imageCount == Some(|Jobs(pendingDir + uploadedDir)|)
              && file.stored == Present(Run(old(file.Load()), Jobs(pendingDir + uploadedDir), Rebuilder(tagger)))
  {
    if file.stored.Corrupt? {
      return None;
    }
    var meta := file.Load();
    ghost var start := meta;
    FilterMapConcat(pendingDir, uploadedDir, JobOf);
    RunConcat(start, Jobs(pendingDir), Jobs(uploadedDir), Rebuilder(tagger));
    var directories := [pendingDir, uploadedDir];
    var count := 0;
    for d := 0 to |directories|
      invariant d == 0 ==> meta == start && count == 0
      invariant d == 1 ==> meta == Run(start, Jobs(pendingDir), Rebuilder(tagger)) && count == |Jobs(pendingDir)|
      invariant d == 2 ==> meta == Run(start, Jobs(pendingDir + uploadedDir), Rebuilder(tagger)) && count == |Jobs(pendingDir + uploadedDir)|
    {
      var dirMeta, dirCount := ProcessDir(meta, directories[d], tagger);
      meta, count := dirMeta, count + dirCount;
    }
    file.Save(meta);
    imageCount := Some(count);
  }

  /**
   * After a run over a listing, every image found in it is recorded under its stem as
   * `Assigned` describes, and every other entry is left as it was.
   */
  lemma GeneratedEntries(meta: Catalog, files: seq<DirEntry>, tagger: Tagger)
    ensures forall k :: 0 <= k < |files| && JobOf(files[k]).Some? ==>
              Assigned(Run(meta, Jobs(files), Rebuilder(tagger)), meta, Stem(files[k].name))
    ensures forall n :: n in meta && n !in Names(Jobs(files)) ==>
              n in Run(meta, Jobs(files), Rebuilder(tagger)) && Run(meta, Jobs(files), Rebuilder(tagger))[n] == meta[n]
  {
    FilterMapSpec(files, JobOf);
    RebuilderKeepsDefaults(tagger);
    RunAssigned(meta, Jobs(files), Rebuilder(tagger));
    RunFrame(meta, Jobs(files), Rebuilder(tagger));
    forall k | 0 <= k < |files| && JobOf(files[k]).Some?
      ensures Stem(files[k].name) in Names(Jobs(files))
    {
      assert JobOf(files[k]).value in Jobs(files);
    }
  }
}

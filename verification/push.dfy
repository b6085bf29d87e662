/**
 * `meme meta --push` (main.py, `manage_metadata`): compares every asset that is both in the
 * hosted store's listing and in the local catalog, counts the ones already in sync, and
 * (only with `--confirm`) sends the local tags and language of the others to the store.
 */
module Push {
  import opened Wrappers
  import opened Lists
  import opened Text
  import opened Order
  import opened Catalog

  // ---------------------------------------------------------------- the listing, by name

  /**
   * A dictionary built by a comprehension: its keys in insertion order, and the value of
   * each key. For `cloud_files` the keys are asset names and the values resources.
   */
  datatype Snapshot<K, V> = Snapshot(names: seq<K>, byName: map<K, V>)

  /** Every listed resource paired with its asset name, in listing order. */
  function Keyed(rs: seq<Resource>): (ps: seq<(string, Resource)>)
    ensures |ps| == |rs| && forall i :: 0 <= i < |rs| ==> ps[i] == (NameOf(rs[i]), rs[i])
  {
    seq(|rs|, i requires 0 <= i < |rs| => (NameOf(rs[i]), rs[i]))
  }

  /** The names of `Keyed(rs)` are the listed resources' names. */
  lemma KeyedNames(rs: seq<Resource>)
    ensures NamesIn(Keyed(rs)) == set r | r in rs :: NameOf(r)
  {
    var ps := Keyed(rs);
    forall n | n in NamesIn(ps) ensures n in set r | r in rs :: NameOf(r) {
      var i :| 0 <= i < |ps| && ps[i].0 == n;
      assert rs[i] in rs && NameOf(rs[i]) == n;
    }
    forall r | r in rs ensures NameOf(r) in NamesIn(ps) {
      var i :| 0 <= i < |rs| && rs[i] == r;
      assert ps[i].0 == NameOf(r);
    }
  }

  /**
   * `cloud_files`, built from the listing: its names are exactly the listed resources'
   * names, and each name maps to a listed resource of that name.
   */
  lemma CloudFiles(rs: seq<Resource>)
    ensures Index(Keyed(rs)).byName.Keys == set r | r in rs :: NameOf(r)
    ensures forall n :: n in Index(Keyed(rs)).byName ==>
              Index(Keyed(rs)).byName[n] in rs && NameOf(Index(Keyed(rs)).byName[n]) == n
  {
    var m := Index(Keyed(rs)).byName;
    assert m.Keys == set r | r in rs :: NameOf(r) by {
      KeyedNames(rs);
    }
    assert forall n :: n in m ==> LastNamed(Keyed(rs), n, m[n]) by {
      IndexKeepsLast(Keyed(rs));
    }
    forall n | n in m ensures m[n] in rs && NameOf(m[n]) == n {
      LastNamedKeyed(rs, n, m[n]);
    }
  }

  lemma LastNamedKeyed(rs: seq<Resource>, n: string, r: Resource)
    requires LastNamed(Keyed(rs), n, r)
    ensures r in rs && NameOf(r) == n
  {
    var ps := Keyed(rs);
    var i :| 0 <= i < |ps| && ps[i] == (n, r) && forall j :: i < j < |ps| ==> ps[j].0 != n;
    assert ps[i] == (NameOf(rs[i]), rs[i]);
  }

  /** The keys occurring in `ps`. */
  function NamesIn<K(==), V>(ps: seq<(K, V)>): (ns: set<K>)
    ensures forall i :: 0 <= i < |ps| ==> ps[i].0 in ns
    ensures forall n :: n in ns ==> exists i :: 0 <= i < |ps| && ps[i].0 == n
  {
    if ps == [] then {}
    else
      var init := ps[..|ps| - 1];
      assert forall i :: 0 <= i < |init| ==> ps[i] == init[i];
      NamesIn(init) + {ps[|ps| - 1].0}
  }

  /**
   * `{key: value for (key, value) in ps}`, as `cloud_files` is built from the listing: one
   * entry per key, the keys in order of first appearance (a later assignment keeps the place).
   */
  function Index<K(==), V>(ps: seq<(K, V)>): (s: Snapshot<K, V>)
    ensures Distinct(s.names) && Elems(s.names) == s.byName.Keys == NamesIn(ps)
  {
    if ps == [] then Snapshot([], map[])
    else
      var prev := Index(ps[..|ps| - 1]);
      var (n, r) := ps[|ps| - 1];
      var names := if n in prev.byName then prev.names else prev.names + [n];
      assert Elems(names) == Elems(prev.names) + {n} by {
        if n !in prev.byName { assert Elems(prev.names + [n]) == Elems(prev.names) + {n}; }
      }
      Snapshot(names, prev.byName[n := r])
  }

  /** `v` is the value of the last pair of `ps` with key `n`. */
  ghost predicate LastNamed<K, V>(ps: seq<(K, V)>, n: K, v: V) {
    exists i :: 0 <= i < |ps| && ps[i] == (n, v) && forall j :: i < j < |ps| ==> ps[j].0 != n
  }

  /** Each key maps to the value of its last pair: a later assignment overwrites an earlier one. */
  lemma {:induction false} IndexKeepsLast<K, V>(ps: seq<(K, V)>)
    ensures forall n :: n in Index(ps).byName ==> LastNamed(ps, n, Index(ps).byName[n])
  {
    if ps != [] {
      var init, last := ps[..|ps| - 1], ps[|ps| - 1];
      assert ps == init + [last];
      IndexKeepsLast(init);
      var prev := Index(init);
      var m0 := Index(ps).byName;
      assert m0 == prev.byName[last.0 := last.1];
      forall m | m in m0 ensures LastNamed(ps, m, m0[m]) {
        LastNamedExtended(init, last, m, prev.byName);
      }
    }
  }

  lemma LastNamedExtended<K, V>(init: seq<(K, V)>, last: (K, V), m: K, prev: map<K, V>)
    requires m in prev[last.0 := last.1]
    requires m in prev ==> LastNamed(init, m, prev[m])
    ensures LastNamed(init + [last], m, prev[last.0 := last.1][m])
  {
    var ps := init + [last];
    if m == last.0 {
      assert ps[|ps| - 1] == (m, last.1);
    } else {
      var i :| 0 <= i < |init| && init[i] == (m, prev[m]) && forall j :: i < j < |init| ==> init[j].0 != m;
      assert ps[i] == init[i];
      forall j | i < j < |ps| ensures ps[j].0 != m {
        if j < |init| { assert ps[j] == init[j]; }
      }
    }
  }

  /** The position of the first pair with key `n`, or `|ps|` when there is none. */
  function FirstIndex<K(==), V>(ps: seq<(K, V)>, n: K): (p: nat)
    ensures p <= |ps|
  {
    if ps == [] then 0
    else if ps[0].0 == n then 0
    else 1 + FirstIndex(ps[1..], n)
  }

  /** `FirstIndex` finds the first occurrence: no earlier pair has the key, the found one has. */
  lemma {:induction false} FirstIndexSpec<K, V>(ps: seq<(K, V)>, n: K)
    ensures forall k :: 0 <= k < FirstIndex(ps, n) ==> ps[k].0 != n
    ensures FirstIndex(ps, n) < |ps| ==> ps[FirstIndex(ps, n)].0 == n
  {
    if ps != [] && ps[0].0 != n {
      FirstIndexSpec(ps[1..], n);
    }
  }

  lemma FirstIndexIs<K, V>(ps: seq<(K, V)>, n: K, p: nat)
    requires p < |ps| && ps[p].0 == n && forall k :: 0 <= k < p ==> ps[k].0 != n
    ensures FirstIndex(ps, n) == p
  {
    FirstIndexSpec(ps, n);
  }

  lemma FirstIndexKept<K, V>(init: seq<(K, V)>, last: (K, V), m: K)
    requires m in NamesIn(init)
    ensures FirstIndex(init + [last], m) == FirstIndex(init, m) < |init|
  {
    var ps := init + [last];
    FirstIndexSpec(init, m);
    var f := FirstIndex(init, m);
    assert f < |init| by {
      var i :| 0 <= i < |init| && init[i].0 == m;
    }
    assert ps[f] == init[f];
    forall k | 0 <= k < f ensures ps[k].0 != m { assert ps[k] == init[k]; }
    FirstIndexIs(ps, m, f);
  }

  lemma FirstIndexNew<K, V>(init: seq<(K, V)>, last: (K, V))
    requires last.0 !in NamesIn(init)
    ensures FirstIndex(init + [last], last.0) == |init|
  {
    var ps := init + [last];
    forall k | 0 <= k < |init| ensures ps[k].0 != last.0 {
      assert ps[k] == init[k];
    }
    FirstIndexIs(ps, last.0, |init|);
  }

  /** The keys of `ns` come in the order of their first appearance in `ps`. */
  ghost predicate InListingOrder<K, V>(ps: seq<(K, V)>, ns: seq<K>) {
    forall i, j :: 0 <= i < j < |ns| ==> FirstIndex(ps, ns[i]) < FirstIndex(ps, ns[j])
  }

  /** A pair whose key was seen before leaves the order of the keys seen so far unchanged. */
  lemma OrderKept<K, V>(init: seq<(K, V)>, last: (K, V), ns: seq<K>)
    requires InListingOrder(init, ns) && Elems(ns) <= NamesIn(init)
    ensures InListingOrder(init + [last], ns)
  {
    forall i, j | 0 <= i < j < |ns| ensures FirstIndex(init + [last], ns[i]) < FirstIndex(init + [last], ns[j]) {
      assert ns[i] in Elems(ns) && ns[j] in Elems(ns);
      FirstIndexKept(init, last, ns[i]);
      FirstIndexKept(init, last, ns[j]);
    }
  }

  /** A pair with a new key puts that key after all the keys seen so far. */
  lemma OrderExtended<K, V>(init: seq<(K, V)>, last: (K, V), ns: seq<K>)
    requires InListingOrder(init, ns) && Elems(ns) <= NamesIn(init) && last.0 !in NamesIn(init)
    ensures InListingOrder(init + [last], ns + [last.0])
  {
    var ps, ms := init + [last], ns + [last.0];
    FirstIndexNew(init, last);
    forall i, j | 0 <= i < j < |ms| ensures FirstIndex(ps, ms[i]) < FirstIndex(ps, ms[j]) {
      assert ms[i] == ns[i] && ns[i] in Elems(ns);
      FirstIndexKept(init, last, ns[i]);
      if j < |ns| {
        assert ms[j] == ns[j] && ns[j] in Elems(ns);
        FirstIndexKept(init, last, ns[j]);
      }
    }
  }

  /** The push loop visits the names in the order in which they first appear in the listing. */
  lemma {:induction false} IndexFollowsListing<K, V>(ps: seq<(K, V)>)
    ensures InListingOrder(ps, Index(ps).names)
  {
    if ps != [] {
      var init, last := ps[..|ps| - 1], ps[|ps| - 1];
      assert ps == init + [last];
      var prev := Index(init);
      IndexFollowsListing(init);
      if last.0 in prev.byName {
        OrderKept(init, last, prev.names);
      } else {
        OrderExtended(init, last, prev.names);
      }
    }
  }

  // ---------------------------------------------------------------- one asset

  /** What the loop does with one asset found in both stores. */
  datatype Outcome =
    | Skipped(name: string)
    | Updated(name: string, tags: set<string>, language: string)
    | Failed(name: string)

  /** `meme_data.get('language', 'en')`. */
  function LocalLanguage(e: LocalEntry): string {
    e.language.GetOr("en")
  }

  /**
   * The comparison of one local entry with its remote resource: the tags as sets, the
   * remote `language` context value (possibly absent) with the local language. Reading
   * `meme_data['tags']` raises when the key is missing, and `set(None)` raises too.
   */
  function Classify(name: string, e: LocalEntry, r: Resource): Outcome {
    match e.tags
    case TagList(list) =>
      if Elems(TagsOf(r)) != Elems(list) || ContextValue(r, "language") != Some(LocalLanguage(e))
      then Updated(name, Elems(list), LocalLanguage(e))
      else Skipped(name)
    case _ => Failed(name)
  }

  /**
   * An asset is skipped exactly when its tag sets and languages agree; otherwise it is
   * updated with the whole local tag set (not a merge) and the local language, unless
   * reading the local tags raises.
   */
  lemma ClassifySpec(name: string, e: LocalEntry, r: Resource)
    ensures Classify(name, e, r).name == name
    ensures Classify(name, e, r).Failed? <==> !e.tags.TagList?
    ensures Classify(name, e, r).Skipped? <==>
              e.tags.TagList? && Elems(TagsOf(r)) == Elems(e.tags.list)
              && ContextValue(r, "language") == Some(LocalLanguage(e))
    ensures Classify(name, e, r).Updated? ==>
              Classify(name, e, r) == Updated(name, Elems(e.tags.list), LocalLanguage(e))
    ensures ContextValue(r, "language") == None ==> !Classify(name, e, r).Skipped?
  {
  }

  // ---------------------------------------------------------------- the whole loop

  /** The outcomes of the loop over `names`, in order; names not in the catalog are passed over. */
  function Plan(names: seq<string>, cloud: map<string, Resource>, local: Catalog): seq<Outcome>
    requires forall n :: n in names ==> n in cloud
  {
    if names == [] then []
    else
      var n := names[|names| - 1];
      Plan(names[..|names| - 1], cloud, local) + (if n in local then [Classify(n, local[n], cloud[n])] else [])
  }

  /** The names the loop handles: those also in the local catalog, in listing order. */
  function Visited(names: seq<string>, local: Catalog): (v: seq<string>)
    ensures forall n :: n in v ==> n in names && n in local
  {
    if names == [] then []
    else
      var n := names[|names| - 1];
      Visited(names[..|names| - 1], local) + (if n in local then [n] else [])
  }

  /** `Visited` is the intersection of the two stores' names, and the plan has one outcome per visited name. */
  lemma {:induction false} PlanVisitsIntersection(names: seq<string>, cloud: map<string, Resource>, local: Catalog)
    requires forall n :: n in names ==> n in cloud
    ensures Elems(Visited(names, local)) == Elems(names) * local.Keys
    ensures Distinct(names) ==> Distinct(Visited(names, local))
    ensures |Plan(names, cloud, local)| == |Visited(names, local)|
    ensures forall i :: 0 <= i < |Visited(names, local)| ==>
              Plan(names, cloud, local)[i].name == Visited(names, local)[i]
              && Plan(names, cloud, local)[i] == Classify(Visited(names, local)[i], local[Visited(names, local)[i]], cloud[Visited(names, local)[i]])
  {
    if names != [] {
      var init, n := names[..|names| - 1], names[|names| - 1];
      assert names == init + [n];
      PlanVisitsIntersection(init, cloud, local);
      assert Elems(names) == Elems(init) + {n};
      var v := Visited(init, local);
      if n !in local {
        assert Visited(names, local) == v;
      } else {
        assert Visited(names, local) == v + [n];
        assert Elems(v + [n]) == Elems(v) + {n};
        if Distinct(names) {
          DistinctInit(names);
        }
      }
    }
  }

  function CountUpdated(p: seq<Outcome>): nat {
    if p == [] then 0 else CountUpdated(p[..|p| - 1]) + (if p[|p| - 1].Updated? then 1 else 0)
  }

  function CountSkipped(p: seq<Outcome>): nat {
    if p == [] then 0 else CountSkipped(p[..|p| - 1]) + (if p[|p| - 1].Skipped? then 1 else 0)
  }

  function CountFailed(p: seq<Outcome>): nat {
    if p == [] then 0 else CountFailed(p[..|p| - 1]) + (if p[|p| - 1].Failed? then 1 else 0)
  }

  lemma {:induction false} CountsAddUp(p: seq<Outcome>)
    ensures CountUpdated(p) + CountSkipped(p) + CountFailed(p) == |p|
    ensures CountFailed(p) == 0 <==> forall i :: 0 <= i < |p| ==> !p[i].Failed?
  {
    if p != [] {
      CountsAddUp(p[..|p| - 1]);
      assert forall i :: 0 <= i < |p| - 1 ==> p[..|p| - 1][i] == p[i];
    }
  }

  /**
   * `updated_count + skipped_count` never exceeds the number of names in both stores, and
   * reaches it exactly when no asset raised (every visited entry has a list of tags).
   */
  lemma PushCounts(names: seq<string>, cloud: map<string, Resource>, local: Catalog)
    requires forall n :: n in names ==> n in cloud
    ensures var p := Plan(names, cloud, local);
            CountUpdated(p) + CountSkipped(p) <= |Visited(names, local)|
    ensures var p := Plan(names, cloud, local);
            CountUpdated(p) + CountSkipped(p) == |Visited(names, local)| <==>
            forall n :: n in Visited(names, local) ==> local[n].tags.TagList?
  {
    var p := Plan(names, cloud, local);
    var v := Visited(names, local);
    PlanVisitsIntersection(names, cloud, local);
    CountsAddUp(p);
    forall i | 0 <= i < |p| ensures p[i].Failed? <==> !local[v[i]].tags.TagList? {
      ClassifySpec(v[i], local[v[i]], cloud[v[i]]);
    }
    if forall n :: n in v ==> local[n].tags.TagList? {
      forall i | 0 <= i < |p| ensures !p[i].Failed? { assert v[i] in v; }
    }
  }

  /** The store calls a confirmed push issues: one per updated asset, in order. */
  function Calls(p: seq<Outcome>): seq<Call> {
    if p == [] then []
    else
      Calls(p[..|p| - 1]) +
      (match p[|p| - 1]
       case Updated(n, tags, language) => [MetadataUpdate(n, tags, language)]
       case _ => [])
  }

  lemma {:induction false} CallsConcat(a: seq<Outcome>, b: seq<Outcome>)
    ensures Calls(a + b) == Calls(a) + Calls(b)
  {
    if b == [] {
      assert a + b == a;
    } else {
      assert (a + b)[..|a + b| - 1] == a + b[..|b| - 1];
      CallsConcat(a, b[..|b| - 1]);
    }
  }

  /**
   * A confirmed push calls the store exactly once per updated asset, every call carrying
   * that asset's whole local tag set and its local language, and never for another name.
   */
  lemma {:induction false} CallsPerUpdate(names: seq<string>, cloud: map<string, Resource>, local: Catalog)
    requires forall n :: n in names ==> n in cloud
    ensures var calls := Calls(Plan(names, cloud, local));
            |calls| == CountUpdated(Plan(names, cloud, local))
            && forall c :: c in calls ==>
                 c.MetadataUpdate? && c.name in names && c.name in local && local[c.name].tags.TagList?
                 && c.tagSet == Elems(local[c.name].tags.list) && c.language == LocalLanguage(local[c.name])
  {
    if names != [] {
      var init, n := names[..|names| - 1], names[|names| - 1];
      CallsPerUpdate(init, cloud, local);
      var p0 := Plan(init, cloud, local);
      var step := if n in local then [Classify(n, local[n], cloud[n])] else [];
      CallsConcat(p0, step);
      if n in local {
        ClassifySpec(n, local[n], cloud[n]);
        assert ([] + step)[..0] == [];
      } else {
        assert p0 + step == p0;
      }
    }
  }

  // ---------------------------------------------------------------- convergence

  /**
   * The store after it has honoured `update_image_metadata(name, tags, language)`: the
   * resource lists exactly the given tags (in some order) and carries the given language.
   */
  function Applied(r: Resource, tags: set<string>, language: string): Resource {
    r.(tags := Some(SortedOf(tags)), custom := r.custom["language" := language])
  }

  /** The name-indexed listing after the store has honoured every call of `calls`. */
  function Refreshed(cloud: map<string, Resource>, calls: seq<Call>): map<string, Resource> {
    if calls == [] then cloud
    else
      var c := calls[|calls| - 1];
      var prev := Refreshed(cloud, calls[..|calls| - 1]);
      if c.MetadataUpdate? && c.name in prev then prev[c.name := Applied(prev[c.name], c.tagSet, c.language)]
      else prev
  }

  /** What a second push reports for an asset the first one updated. */
  function Settled(o: Outcome): Outcome {
    if o.Updated? then Skipped(o.name) else o
  }

  function SettledAll(p: seq<Outcome>): seq<Outcome> {
    seq(|p|, i requires 0 <= i < |p| => Settled(p[i]))
  }

  lemma {:induction false} RefreshedKeys(cloud: map<string, Resource>, calls: seq<Call>)
    ensures Refreshed(cloud, calls).Keys == cloud.Keys
  {
    if calls != [] { RefreshedKeys(cloud, calls[..|calls| - 1]); }
  }

  lemma {:induction false} RefreshedConcat(cloud: map<string, Resource>, a: seq<Call>, b: seq<Call>)
    ensures Refreshed(cloud, a + b) == Refreshed(Refreshed(cloud, a), b)
  {
    if b == [] {
      assert a + b == a;
    } else {
      assert (a + b)[..|a + b| - 1] == a + b[..|b| - 1];
      RefreshedConcat(cloud, a, b[..|b| - 1]);
    }
  }

  lemma {:induction false} RefreshedElsewhere(cloud: map<string, Resource>, calls: seq<Call>, n: string)
    requires n in cloud
    requires forall c :: c in calls && c.MetadataUpdate? ==> c.name != n
    ensures n in Refreshed(cloud, calls) && Refreshed(cloud, calls)[n] == cloud[n]
  {
    if calls != [] {
      RefreshedElsewhere(cloud, calls[..|calls| - 1], n);
    }
  }

  lemma {:induction false} PlanFrame(names: seq<string>, c1: map<string, Resource>, c2: map<string, Resource>, local: Catalog)
    requires forall n :: n in names ==> n in c1 && n in c2 && c1[n] == c2[n]
    ensures Plan(names, c1, local) == Plan(names, c2, local)
  {
    if names != [] { PlanFrame(names[..|names| - 1], c1, c2, local); }
  }

  /** Once the store holds the local tags and language, the asset compares as in sync. */
  lemma ClassifyApplied(name: string, e: LocalEntry, r: Resource)
    requires e.tags.TagList?
    ensures Classify(name, e, Applied(r, Elems(e.tags.list), LocalLanguage(e))) == Skipped(name)
  {
  }

  /** Refreshing the store with the calls of one outcome changes at most that outcome's asset. */
  lemma RefreshedByOne(mid: map<string, Resource>, o: Outcome)
    requires o.name in mid
    ensures Refreshed(mid, Calls([o])) ==
              if o.Updated? then mid[o.name := Applied(mid[o.name], o.tags, o.language)] else mid
  {
    assert [o][..0] == [];
  }

  /** Re-examining an asset after the store honoured its update yields the settled outcome. */
  lemma ClassifySettles(name: string, e: LocalEntry, r: Resource)
    ensures var o := Classify(name, e, r);
            Classify(name, e, if o.Updated? then Applied(r, o.tags, o.language) else r) == Settled(o)
  {
  }

  lemma SettledAllConcat(a: seq<Outcome>, b: seq<Outcome>)
    ensures SettledAll(a + b) == SettledAll(a) + SettledAll(b)
  {
  }

  /** The plan against the refreshed store, for the prefix `names` of the listing. */
  function Replanned(names: seq<string>, cloud: map<string, Resource>, local: Catalog): seq<Outcome>
    requires forall n :: n in names ==> n in cloud
  {
    RefreshedKeys(cloud, Calls(Plan(names, cloud, local)));
    Plan(names, Refreshed(cloud, Calls(Plan(names, cloud, local))), local)
  }

  /**
   * Convergence: after a confirmed push whose every call the store honoured, pushing again
   * against the refreshed listing skips every asset the first push updated and leaves the
   * other outcomes as they were.
   */
  lemma {:induction false} Convergence(names: seq<string>, cloud: map<string, Resource>, local: Catalog)
    requires Distinct(names) && forall n :: n in names ==> n in cloud
    ensures Replanned(names, cloud, local) == SettledAll(Plan(names, cloud, local))
  {
    if names != [] {
      var init := names[..|names| - 1];
      DistinctInit(names);
      Convergence(init, cloud, local);
      ConvergenceStep(names, cloud, local);
    }
  }

  /** The inductive step of `Convergence`: one more name at the end of the listing. */
  lemma {:induction false} ConvergenceStep(names: seq<string>, cloud: map<string, Resource>, local: Catalog)
    requires names != [] && forall n :: n in names ==> n in cloud
    requires names[|names| - 1] !in names[..|names| - 1]
    requires Replanned(names[..|names| - 1], cloud, local) == SettledAll(Plan(names[..|names| - 1], cloud, local))
    ensures Replanned(names, cloud, local) == SettledAll(Plan(names, cloud, local))
  {
    var init, n := names[..|names| - 1], names[|names| - 1];
    assert names == init + [n];
    var p0 := Plan(init, cloud, local);
    var step := if n in local then [Classify(n, local[n], cloud[n])] else [];
    var mid := Refreshed(cloud, Calls(p0));
    var after := Refreshed(cloud, Calls(Plan(names, cloud, local)));
    assert after == Refreshed(mid, Calls(step)) by {
      assert Plan(names, cloud, local) == p0 + step;
      CallsConcat(p0, step);
      RefreshedConcat(cloud, Calls(p0), Calls(step));
    }
    assert mid.Keys == cloud.Keys && mid[n] == cloud[n] by {
      RefreshedKeys(cloud, Calls(p0));
      CallsPerUpdate(init, cloud, local);
      RefreshedElsewhere(cloud, Calls(p0), n);
    }
    assert after.Keys == cloud.Keys by {
      RefreshedKeys(cloud, Calls(Plan(names, cloud, local)));
    }
    assert Plan(init, mid, local) == SettledAll(p0) by {
      assert Replanned(init, cloud, local) == Plan(init, mid, local);
    }
    assert Plan(names, after, local) == SettledAll(Plan(names, cloud, local)) by {
      if n in local {
        ConvergenceListed(init, n, cloud, local, mid, after);
      } else {
        assert Calls(step) == [] && after == mid;
        assert Plan(names, after, local) == Plan(init, after, local);
        assert Plan(names, cloud, local) == p0;
      }
    }
  }

  lemma {:induction false} ConvergenceListed(init: seq<string>, n: string, cloud: map<string, Resource>, local: Catalog,
                          mid: map<string, Resource>, after: map<string, Resource>)
    requires n !in init && n in local && n in cloud && forall m :: m in init ==> m in cloud
    requires mid.Keys == cloud.Keys && mid[n] == cloud[n]
    requires after == Refreshed(mid, Calls([Classify(n, local[n], cloud[n])])) && after.Keys == cloud.Keys
    requires Plan(init, mid, local) == SettledAll(Plan(init, cloud, local))
    ensures Plan(init + [n], after, local) == SettledAll(Plan(init + [n], cloud, local))
  {
    var names := init + [n];
    var o := Classify(n, local[n], cloud[n]);
    var p0 := Plan(init, cloud, local);
    var r := if o.Updated? then Applied(cloud[n], o.tags, o.language) else cloud[n];
    assert after == mid[n := r] by {
      RefreshedByOne(mid, o);
    }
    assert Plan(init, after, local) == SettledAll(p0) by {
      PlanFrame(init, after, mid, local);
    }
    assert Classify(n, local[n], r) == Settled(o) by {
      ClassifySettles(n, local[n], cloud[n]);
    }
    assert Plan(names, after, local) == Plan(init, after, local) + [Classify(n, local[n], r)] by {
      assert names[..|names| - 1] == init;
    }
    assert Plan(names, cloud, local) == p0 + [o] by {
      assert names[..|names| - 1] == init;
    }
    assert SettledAll(p0 + [o]) == SettledAll(p0) + [Settled(o)] by {
      SettledAllConcat(p0, [o]);
    }
  }

  /** A plan in which nothing needs updating issues no call. */
  lemma {:induction false} SettledIssuesNoCalls(p: seq<Outcome>)
    ensures Calls(SettledAll(p)) == []
  {
    if p != [] {
      var init := p[..|p| - 1];
      SettledIssuesNoCalls(init);
      assert SettledAll(p)[..|p| - 1] == SettledAll(init);
    }
  }

  /** Idempotence: a second confirmed push right after the first one calls the store for nothing. */
  lemma SecondPushIsQuiet(names: seq<string>, cloud: map<string, Resource>, local: Catalog)
    requires Distinct(names) && forall n :: n in names ==> n in cloud
    ensures Calls(Replanned(names, cloud, local)) == []
    ensures CountSkipped(Replanned(names, cloud, local)) ==
              CountSkipped(Plan(names, cloud, local)) + CountUpdated(Plan(names, cloud, local))
  {
    Convergence(names, cloud, local);
    SettledIssuesNoCalls(Plan(names, cloud, local));
    SettledCounts(Plan(names, cloud, local));
  }

  lemma {:induction false} SettledCounts(p: seq<Outcome>)
    ensures CountSkipped(SettledAll(p)) == CountSkipped(p) + CountUpdated(p)
  {
    if p != [] {
      var init := p[..|p| - 1];
      SettledCounts(init);
      assert SettledAll(p)[..|p| - 1] == SettledAll(init);
    }
  }

  // ---------------------------------------------------------------- the command

  /** One more name of the listing adds at most one outcome to the plan. */
  lemma PlanPrefix(names: seq<string>, i: nat, cloud: map<string, Resource>, local: Catalog)
    requires i < |names| && forall n :: n in names ==> n in cloud
    ensures Plan(names[..i + 1], cloud, local) ==
              Plan(names[..i], cloud, local) +
              (if names[i] in local then [Classify(names[i], local[names[i]], cloud[names[i]])] else [])
  {
    assert names[..i + 1][..i] == names[..i];
  }

  /** The counters and the calls after one more outcome. */
  lemma TallyStep(p: seq<Outcome>, o: Outcome)
    ensures CountUpdated(p + [o]) == CountUpdated(p) + (if o.Updated? then 1 else 0)
    ensures CountSkipped(p + [o]) == CountSkipped(p) + (if o.Skipped? then 1 else 0)
    ensures Calls(p + [o]) == Calls(p) + (if o.Updated? then [MetadataUpdate(o.name, o.tags, o.language)] else [])
  {
    assert (p + [o])[..|p|] == p;
  }

  /**
   * The `--push` branch. `listed` is what `list_images(with_metadata=True)` returned (`None`
   * when it failed); the local catalog is loaded from `file`. Returns the per-asset report
   * and the two printed counters.
   */
  method PushMetadata(cloud: Cloud, configured: bool, file: MetadataFile, listed: Option<seq<Resource>>, confirm: bool)
    returns (report: seq<Outcome>, updated: nat, skipped: nat)
    modifies cloud
    ensures !configured || listed.None? ==> report == [] && updated == 0 && skipped == 0
    ensures configured && listed.Some? ==>
              var s := Index(Keyed(listed.value));
              report == Plan(s.names, s.byName, file.Load())
    ensures updated == CountUpdated(report) && skipped == CountSkipped(report)
    ensures cloud.log == old(cloud.log) + (if confirm then Calls(report) else [])
  {
    if !configured || listed.None? {
      return [], 0, 0;
    }
    var local := file.Load();
    var s := Index(Keyed(listed.value));
    forall n | n in s.names ensures n in s.byName { assert n in Elems(s.names); }
    report, updated, skipped := PushListed(cloud, s.names, s.byName, local, confirm);
  }

  /** The loop over `cloud_files.items()` against the loaded catalog `local`. */
  method PushListed(cloud: Cloud, names: seq<string>, byName: map<string, Resource>, local: Catalog, confirm: bool)
    returns (report: seq<Outcome>, updated: nat, skipped: nat)
    requires forall n :: n in names ==> n in byName
    modifies cloud
    ensures report == Plan(names, byName, local)
    ensures updated == CountUpdated(report) && skipped == CountSkipped(report)
    ensures cloud.log == old(cloud.log) + (if confirm then Calls(report) else [])
  {
    report, updated, skipped := [], 0, 0;
    for i := 0 to |names|
      invariant report == Plan(names[..i], byName, local)
      invariant updated == CountUpdated(report) && skipped == CountSkipped(report)
      invariant confirm ==> cloud.log == old(cloud.log) + Calls(report)
      invariant !confirm ==> cloud.log == old(cloud.log)
    {
      var name := names[i];
      PlanPrefix(names, i, byName, local);
      if name in local {
        var outcome := Classify(name, local[name], byName[name]);
        TallyStep(report, outcome);
        match outcome {
          case Updated(_, tags, language) =>
            updated := updated + 1;
            if confirm {
              var _ := cloud.UpdateImageMetadata(name, tags, language);
            }
          case Skipped(_) =>
            skipped := skipped + 1;
          case Failed(_) =>
        }
        report := report + [outcome];
      }
    }
    assert names[..|names|] == names;
  }
}

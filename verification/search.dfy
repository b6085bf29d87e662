/**
 * Searching the hosted store, in its two variants: the `search` command (main.py), which
 * scores a keyword against the asset name and every tag with `fuzz.partial_ratio`, and the
 * `/api/memes/search` endpoint (meme/app.py), which scores a query against the tags only,
 * with a substring short-cut and `fuzz.ratio`. Both keep the results scoring at least the
 * threshold and sort them stably by descending score.
 */
module Search {
  import opened Wrappers
  import opened Lists
  import opened Text
  import opened Ranking
  import opened Catalog

  /** A fuzzy string scorer such as `fuzz.partial_ratio` or `fuzz.ratio` (library code). */
  type Scorer = (string, string) -> int

  // ---------------------------------------------------------------- the `search` command

  /** One row of the command's result table. */
  datatype Hit = Hit(name: string, score: int, tags: seq<string>, url: string)

  function HitScore(h: Hit): int {
    h.score
  }

  /** The scores of the keyword against each tag, in tag order. */
  function TagScores(query: string, tags: seq<string>, scorer: Scorer): (scores: seq<int>)
    ensures |scores| == |tags|
    ensures forall i :: 0 <= i < |tags| ==> scores[i] == scorer(query, Lower(tags[i]))
  {
    seq(|tags|, i requires 0 <= i < |tags| => scorer(query, Lower(tags[i])))
  }

  /**
   * `max([partial_ratio(kw, name)] + [partial_ratio(kw, tag) for tag in tags])`, everything
   * lowercased: the best of the name score and every tag score.
   */
  function CliScore(keyword: string, r: Resource, partialRatio: Scorer): (score: int)
    ensures score >= partialRatio(Lower(keyword), Lower(NameOf(r)))
    ensures forall i :: 0 <= i < |TagsOf(r)| ==> score >= partialRatio(Lower(keyword), Lower(TagsOf(r)[i]))
    ensures score == partialRatio(Lower(keyword), Lower(NameOf(r)))
            || exists i :: 0 <= i < |TagsOf(r)| && score == partialRatio(Lower(keyword), Lower(TagsOf(r)[i]))
  {
    var tags := TagsOf(r);
    var tagScores := TagScores(Lower(keyword), tags, partialRatio);
    var all := [partialRatio(Lower(keyword), Lower(NameOf(r)))] + tagScores;
    MaxOfHead(all[0], tagScores);
    MaxOf(all)
  }

  /** The table row for a resource. */
  function CliHit(keyword: string, r: Resource, partialRatio: Scorer): Hit {
    Hit(NameOf(r), CliScore(keyword, r, partialRatio), TagsOf(r), r.secureUrl)
  }

  /** The rows appended while scanning `rs`: those scoring at least `threshold`, in fetch order. */
  function CliHits(keyword: string, rs: seq<Resource>, threshold: int, partialRatio: Scorer): seq<Hit> {
    if rs == [] then []
    else
      var r := rs[|rs| - 1];
      CliHits(keyword, rs[..|rs| - 1], threshold, partialRatio)
      + (if CliScore(keyword, r, partialRatio) >= threshold then [CliHit(keyword, r, partialRatio)] else [])
  }

  /** Every appended row scores at least the threshold, and every such resource gets its row. */
  lemma {:induction false} CliHitsSpec(keyword: string, rs: seq<Resource>, threshold: int, partialRatio: Scorer)
    ensures forall h :: h in CliHits(keyword, rs, threshold, partialRatio) ==>
              h.score >= threshold && exists r :: r in rs && h == CliHit(keyword, r, partialRatio)
    ensures forall r :: r in rs && CliScore(keyword, r, partialRatio) >= threshold ==>
              CliHit(keyword, r, partialRatio) in CliHits(keyword, rs, threshold, partialRatio)
  {
    if rs != [] {
      var init, r := rs[..|rs| - 1], rs[|rs| - 1];
      assert rs == init + [r];
      CliHitsSpec(keyword, init, threshold, partialRatio);
    }
  }

  /** The rows keep the fetch order: the rows of an earlier batch come before those of a later one. */
  lemma {:induction false} CliHitsConcat(keyword: string, a: seq<Resource>, b: seq<Resource>, threshold: int, partialRatio: Scorer)
    ensures CliHits(keyword, a + b, threshold, partialRatio)
            == CliHits(keyword, a, threshold, partialRatio) + CliHits(keyword, b, threshold, partialRatio)
  {
    if b == [] {
      assert a + b == a;
    } else {
      assert (a + b)[..|a + b| - 1] == a + b[..|b| - 1];
      CliHitsConcat(keyword, a, b[..|b| - 1], threshold, partialRatio);
    }
  }

  /** The scoring loop of `search`, then `results.sort(key=score, reverse=True)`. */
  method SearchCommand(keyword: string, resources: seq<Resource>, threshold: int, partialRatio: Scorer)
    returns (results: seq<Hit>)
    ensures results == SortDescending(CliHits(keyword, resources, threshold, partialRatio), HitScore)
  {
    results := [];
    for i := 0 to |resources|
      invariant results == CliHits(keyword, resources[..i], threshold, partialRatio)
    {
      assert resources[..i + 1][..i] == resources[..i];
      var r := resources[i];
      var name := NameOf(r);
      var tags := TagsOf(r);
      var score := CliScore(keyword, r, partialRatio);
      if score >= threshold {
        results := results + [Hit(name, score, tags, r.secureUrl)];
      }
    }
    assert resources[..|resources|] == resources;
    results := SortDescending(results, HitScore);
  }

  /**
   * The command's table: exactly the resources scoring at least the threshold (each with its
   * score and data), in non-increasing score order, equal scores in fetch order.
   */
  lemma SearchCommandCorrect(keyword: string, rs: seq<Resource>, threshold: int, partialRatio: Scorer)
    ensures forall h :: h in SortDescending(CliHits(keyword, rs, threshold, partialRatio), HitScore) ==>
              h.score >= threshold && exists r :: r in rs && h == CliHit(keyword, r, partialRatio)
    ensures forall r :: r in rs && CliScore(keyword, r, partialRatio) >= threshold ==>
              CliHit(keyword, r, partialRatio) in SortDescending(CliHits(keyword, rs, threshold, partialRatio), HitScore)
    ensures Descending(SortDescending(CliHits(keyword, rs, threshold, partialRatio), HitScore), HitScore)
    ensures forall k :: WithKey(SortDescending(CliHits(keyword, rs, threshold, partialRatio), HitScore), HitScore, k)
                        == WithKey(CliHits(keyword, rs, threshold, partialRatio), HitScore, k)
  {
    var hits := CliHits(keyword, rs, threshold, partialRatio);
    CliHitsSpec(keyword, rs, threshold, partialRatio);
    SortDescendingCorrect(hits, HitScore);
    var sorted := SortDescending(hits, HitScore);
    forall h | h in sorted ensures h in hits {
      assert h in multiset(sorted);
    }
    forall h | h in hits ensures h in sorted {
      assert h in multiset(hits);
    }
  }

  // ---------------------------------------------------------------- the search endpoint

  /** The `threshold` default of the search endpoint. */
  const ApiDefaultThreshold := 75

  /** Some tag, lowercased, contains the (already lowercased) query. */
  predicate AnyTagContains(query: string, tags: seq<string>) {
    exists i :: 0 <= i < |tags| && IsSubstring(query, Lower(tags[i]))
  }

  /**
   * The endpoint's score of an asset: 100 as soon as a tag contains the query, otherwise the
   * best `fuzz.ratio` over the tags, and 0 for an asset without tags. The name is not scored.
   */
  function ApiScore(query: string, tags: seq<string>, ratio: Scorer): (score: int)
    ensures AnyTagContains(query, tags) ==> score == 100
    ensures tags == [] ==> score == 0
    ensures !AnyTagContains(query, tags) ==>
              score >= 0 && (forall i :: 0 <= i < |tags| ==> score >= ratio(query, Lower(tags[i])))
              && (score == 0 || exists i :: 0 <= i < |tags| && score == ratio(query, Lower(tags[i])))
  {
    if AnyTagContains(query, tags) then 100
    else
      var scores := TagScores(query, tags, ratio);
      MaxOfHead(0, scores);
      MaxOf([0] + scores)
  }

  /** One more tag that does not contain the query: the best score takes its ratio into account. */
  lemma ScoreStep(query: string, tags: seq<string>, i: nat, ratio: Scorer)
    requires i < |tags| && !AnyTagContains(query, tags[..i]) && !IsSubstring(query, Lower(tags[i]))
    ensures !AnyTagContains(query, tags[..i + 1])
    ensures MaxOf([0] + TagScores(query, tags[..i + 1], ratio))
            == Max(MaxOf([0] + TagScores(query, tags[..i], ratio)), ratio(query, Lower(tags[i])))
  {
    var score := ratio(query, Lower(tags[i]));
    assert TagScores(query, tags[..i + 1], ratio) == TagScores(query, tags[..i], ratio) + [score];
    MaxOfSnoc([0] + TagScores(query, tags[..i], ratio), score);
    assert [0] + TagScores(query, tags[..i + 1], ratio) == [0] + TagScores(query, tags[..i], ratio) + [score];
    var seen := tags[..i + 1];
    forall k | 0 <= k < |seen| ensures !IsSubstring(query, Lower(seen[k])) {
      if k < i {
        assert seen[k] == tags[..i][k];
      }
    }
  }

  /** The inner loop of `search_memes`: `best_score`, with its early `break` on a substring match. */
  method BestTagScore(query: string, tags: seq<string>, ratio: Scorer) returns (best: int)
    ensures best == ApiScore(query, tags, ratio)
  {
    best := 0;
    var i := 0;
    while i < |tags|
      invariant 0 <= i <= |tags|
      invariant !AnyTagContains(query, tags[..i])
      invariant best == MaxOf([0] + TagScores(query, tags[..i], ratio))
    {
      var tag := Lower(tags[i]);
      if IsSubstring(query, tag) {
        best := 100;
        assert AnyTagContains(query, tags);
        break;
      }
      var score := ratio(query, tag);
      ScoreStep(query, tags, i, ratio);
      best := Max(best, score);
      i := i + 1;
    }
    if i == |tags| {
      assert tags[..i] == tags;
    }
  }

  /** One record of the endpoint's (and of `get_memes`') answer. */
  datatype Meme = Meme(name: string, url: string, width: int, height: int, tags: seq<string>, language: string, title: string)

  /** The record for a resource: sizes default to 0, the language to `en`, the title to the name. */
  function MemeOf(r: Resource): (m: Meme)
    ensures m.name == NameOf(r) && m.url == r.secureUrl && m.tags == TagsOf(r)
    ensures m.width == (if r.width.Some? then r.width.value else 0)
    ensures m.height == (if r.height.Some? then r.height.value else 0)
    ensures m.language == (if "language" in r.custom then r.custom["language"] else "en")
    ensures m.title == (if "caption" in r.custom then r.custom["caption"] else NameOf(r))
  {
    Meme(NameOf(r), r.secureUrl, r.width.GetOr(0), r.height.GetOr(0), TagsOf(r),
         ContextValue(r, "language").GetOr("en"), ContextValue(r, "caption").GetOr(NameOf(r)))
  }

  /** A record of the endpoint's answer, with its score. */
  datatype Match = Match(meme: Meme, score: int)

  function MatchScore(m: Match): int {
    m.score
  }

  /** The matches appended while scanning `rs`: those scoring at least `threshold`, in fetch order. */
  function ApiMatches(query: string, rs: seq<Resource>, threshold: int, ratio: Scorer): seq<Match> {
    if rs == [] then []
    else
      var r := rs[|rs| - 1];
      var score := ApiScore(query, TagsOf(r), ratio);
      ApiMatches(query, rs[..|rs| - 1], threshold, ratio)
      + (if score >= threshold then [Match(MemeOf(r), score)] else [])
  }

  lemma {:induction false} ApiMatchesSpec(query: string, rs: seq<Resource>, threshold: int, ratio: Scorer)
    ensures forall m :: m in ApiMatches(query, rs, threshold, ratio) ==>
              m.score >= threshold && exists r :: r in rs && m == Match(MemeOf(r), ApiScore(query, TagsOf(r), ratio))
    ensures forall r :: r in rs && ApiScore(query, TagsOf(r), ratio) >= threshold ==>
              Match(MemeOf(r), ApiScore(query, TagsOf(r), ratio)) in ApiMatches(query, rs, threshold, ratio)
  {
    if rs != [] {
      var init, r := rs[..|rs| - 1], rs[|rs| - 1];
      assert rs == init + [r];
      ApiMatchesSpec(query, init, threshold, ratio);
    }
  }

  /** The scan of `search_memes` over the fetched resources, then the sort by descending score. */
  method ApiSearch(query: string, resources: seq<Resource>, threshold: int, ratio: Scorer)
    returns (matches: seq<Match>)
    ensures matches == SortDescending(ApiMatches(query, resources, threshold, ratio), MatchScore)
  {
    matches := [];
    for i := 0 to |resources|
      invariant matches == ApiMatches(query, resources[..i], threshold, ratio)
    {
      assert resources[..i + 1][..i] == resources[..i];
      var r := resources[i];
      var best := BestTagScore(query, TagsOf(r), ratio);
      if best >= threshold {
        matches := matches + [Match(MemeOf(r), best)];
      }
    }
    assert resources[..|resources|] == resources;
    matches := SortDescending(matches, MatchScore);
  }

  /**
   * The endpoint's answer: exactly the resources whose tag score reaches the threshold, in
   * non-increasing score order, equal scores in fetch order.
   */
  lemma ApiSearchCorrect(query: string, rs: seq<Resource>, threshold: int, ratio: Scorer)
    ensures forall m :: m in SortDescending(ApiMatches(query, rs, threshold, ratio), MatchScore) ==>
              m.score >= threshold && exists r :: r in rs && m == Match(MemeOf(r), ApiScore(query, TagsOf(r), ratio))
    ensures forall r :: r in rs && ApiScore(query, TagsOf(r), ratio) >= threshold ==>
              Match(MemeOf(r), ApiScore(query, TagsOf(r), ratio)) in SortDescending(ApiMatches(query, rs, threshold, ratio), MatchScore)
    ensures Descending(SortDescending(ApiMatches(query, rs, threshold, ratio), MatchScore), MatchScore)
    ensures forall k :: WithKey(SortDescending(ApiMatches(query, rs, threshold, ratio), MatchScore), MatchScore, k)
                        == WithKey(ApiMatches(query, rs, threshold, ratio), MatchScore, k)
  {
    var ms := ApiMatches(query, rs, threshold, ratio);
    ApiMatchesSpec(query, rs, threshold, ratio);
    SortDescendingCorrect(ms, MatchScore);
    var sorted := SortDescending(ms, MatchScore);
    forall m | m in sorted ensures m in ms {
      assert m in multiset(sorted);
    }
    forall m | m in ms ensures m in sorted {
      assert m in multiset(ms);
    }
  }
}

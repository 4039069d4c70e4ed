/**
 * `TenantMatcher`: the source filter applied at construction, `classify`
 * (scoring followed by adjudication of the ambiguous band), and the ordering
 * the screening run applies to what `classify` returns.
 */
module Matcher {
  import opened Wrappers
  import opened Records
  import Scoring
  import AiHelper
  import Ranking

  /** The `pipeline.type` of the entries a matcher keeps. */
  const BlacklistSource := "refinitiv-blacklist"

  /** `entry.get("pipeline", {}).get("type") == "refinitiv-blacklist"`. */
  predicate IsBlacklisted(e: Record) {
    e.pipelineType == Some(Text(BlacklistSource))
  }

  /** The list comprehension of the constructor: the blacklisted entries, in input order. */
  function FilterBlacklist(entries: seq<Record>): (r: seq<Record>)
    ensures forall e | e in r :: IsBlacklisted(e)
    ensures forall e | e in entries && IsBlacklisted(e) :: e in r
  {
    if entries == [] then []
    else
      (if IsBlacklisted(entries[0]) then [entries[0]] else []) + FilterBlacklist(entries[1..])
  }

  /** The filter keeps every blacklisted entry as often as it occurs, and no other entry. */
  lemma {:induction false} FilterCounts(entries: seq<Record>)
    ensures forall e :: multiset(FilterBlacklist(entries))[e] == if IsBlacklisted(e) then multiset(entries)[e] else 0
    decreases |entries|
  {
    if entries != [] {
      FilterCounts(entries[1..]);
      assert entries == [entries[0]] + entries[1..];
    }
  }

  /** Filtering a concatenation filters each part and keeps them in order. */
  lemma {:induction false} FilterConcat(a: seq<Record>, b: seq<Record>)
    ensures FilterBlacklist(a + b) == FilterBlacklist(a) + FilterBlacklist(b)
    decreases |a|
  {
    if a != [] {
      assert (a + b)[0] == a[0] && (a + b)[1..] == a[1..] + b;
      FilterConcat(a[1..], b);
      var h := if IsBlacklisted(a[0]) then [a[0]] else [];
      assert FilterBlacklist(a + b) == h + FilterBlacklist(a[1..] + b);
      assert FilterBlacklist(a) == h + FilterBlacklist(a[1..]);
    } else {
      assert a + b == b;
    }
  }

  /** A list of blacklisted entries passes through the filter unchanged; in particular the filter is idempotent. */
  lemma {:induction false} FilterKeepsBlacklisted(entries: seq<Record>)
    requires forall i :: 0 <= i < |entries| ==> IsBlacklisted(entries[i])
    ensures FilterBlacklist(entries) == entries
    decreases |entries|
  {
    if entries != [] {
      FilterKeepsBlacklisted(entries[1..]);
    }
  }

  /** What a `TenantMatcher` holds after construction. */
  datatype TenantMatcher = TenantMatcher(tenant: Record, blacklist: seq<Record>, helper: AiHelper.Helper)

  /** `TenantMatcher.__init__`. */
  function NewMatcher(tenant: Record, blacklistData: seq<Record>, helper: AiHelper.Helper): (m: TenantMatcher)
    ensures m.tenant == tenant && m.helper == helper
    ensures m.blacklist == FilterBlacklist(blacklistData)
    ensures forall e :: e in m.blacklist <==> e in blacklistData && IsBlacklisted(e)
    ensures forall e :: multiset(m.blacklist)[e] == if IsBlacklisted(e) then multiset(blacklistData)[e] else 0
  {
    FilterCounts(blacklistData);
    TenantMatcher(tenant, FilterBlacklist(blacklistData), helper)
  }

  /**
   * `classify` as written. Scoring errors propagate. If adjudication raises,
   * the exception is caught, but the list returned is the one the helper was
   * editing in place, so answers it had already written stay in it.
   */
  function ClassifyAsWritten(m: TenantMatcher, ask: AiHelper.Oracle, ratio: Scoring.Ratio, c: Record, rs: seq<Record>)
    : (r: Result<seq<Record>, Error>)
    ensures r.Success? <==> Scoring.CalculateMatchScore(c, rs, ratio).Success?
    ensures r.Failure? ==> r.error.KeyError?
    ensures r.Success? ==>
              r.value == AiHelper.QueryChatGpt(m.helper, ask, c, Scoring.CalculateMatchScore(c, rs, ratio).value).results
    ensures r.Success? ==>
              var scored := Scoring.CalculateMatchScore(c, rs, ratio).value;
              |r.value| == |rs| && forall i :: 0 <= i < |rs| ==> AiHelper.Edited(scored[i], r.value[i])
  {
    match Scoring.CalculateMatchScore(c, rs, ratio)
    case Failure(err) => Failure(err)
    case Success(scored) =>
      match AiHelper.QueryChatGpt(m.helper, ask, c, scored)
      case Completed(t) => Success(t)
      case Raised(_, t) => Success(t)
  }

  /**
   * A classified result: it has a score, its confidence is the tier of that
   * score, and unless the score is in the 60..80 band its classification is the
   * provisional one.
   */
  predicate Settled(e: Record) {
    && e.matchScore.Some?
    && e.confidence == Some(Scoring.Confidence(e.matchScore.value))
    && (!AiHelper.InBand(e) ==> e.classification == Some(Scoring.Provisional(e.matchScore.value)))
  }

  /**
   * `classify` as its handler describes it: when adjudication raises, the
   * result is exactly the scored list. Every result is settled.
   */
  function Classify(m: TenantMatcher, ask: AiHelper.Oracle, ratio: Scoring.Ratio, c: Record, rs: seq<Record>)
    : (r: Result<seq<Record>, Error>)
    ensures r.Success? <==> Scoring.CalculateMatchScore(c, rs, ratio).Success?
    ensures r.Failure? ==> r.error.KeyError?
    ensures r.Success? ==>
              var scored := Scoring.CalculateMatchScore(c, rs, ratio).value;
              var o := AiHelper.QueryChatGpt(m.helper, ask, c, scored);
              && (o.Raised? ==> r.value == scored)
              && (o.Completed? ==> r.value == o.results)
    ensures r.Success? ==> |r.value| == |rs| && forall i :: 0 <= i < |rs| ==> Settled(r.value[i])
  {
    match Scoring.CalculateMatchScore(c, rs, ratio)
    case Failure(err) => Failure(err)
    case Success(scored) =>
      ScoredSettled(c, rs, ratio);
      match AiHelper.QueryChatGpt(m.helper, ask, c, scored)
      case Completed(t) =>
        AdjudicationSettles(m.helper, ask, c, scored);
        Success(t)
      case Raised(_, _) => Success(scored)
  }

  /** Freshly scored results are settled. */
  lemma ScoredSettled(c: Record, rs: seq<Record>, ratio: Scoring.Ratio)
    ensures var cs := Scoring.CalculateMatchScore(c, rs, ratio);
            cs.Success? ==> forall i :: 0 <= i < |cs.value| ==> Settled(cs.value[i])
  {
  }

  /** Adjudication keeps settled results settled. */
  lemma AdjudicationSettles(h: AiHelper.Helper, ask: AiHelper.Oracle, c: Record, scored: seq<Record>)
    requires forall i :: 0 <= i < |scored| ==> Settled(scored[i])
    ensures forall i :: 0 <= i < |scored| ==> Settled(AiHelper.QueryChatGpt(h, ask, c, scored).results[i])
  {
    var t := AiHelper.QueryChatGpt(h, ask, c, scored).results;
    forall i | 0 <= i < |scored| ensures Settled(t[i]) {
      assert t[i].(classification := scored[i].classification) == scored[i];
    }
  }

  /**
   * The screening run: `classify` as written, followed by the ordering the run
   * applies, highest score first and equal scores in input order.
   */
  function ClassifyAndSort(m: TenantMatcher, ask: AiHelper.Oracle, ratio: Scoring.Ratio, c: Record, rs: seq<Record>)
    : (r: Result<seq<Record>, Error>)
    ensures r.Success? <==> ClassifyAsWritten(m, ask, ratio, c, rs).Success?
    ensures r.Success? ==>
              && Ranking.Descending(r.value)
              && multiset(r.value) == multiset(ClassifyAsWritten(m, ask, ratio, c, rs).value)
              && forall k :: Ranking.WithKey(r.value, k) == Ranking.WithKey(ClassifyAsWritten(m, ask, ratio, c, rs).value, k)
  {
    match ClassifyAsWritten(m, ask, ratio, c, rs)
    case Failure(err) => Failure(err)
    case Success(t) => Success(Ranking.SortByScore(t))
  }

  /**
   * When adjudication raises, the run as written sorts the list the loop left:
   * the results before the first failing one adjudicated, that one and the
   * rest as scored.
   */
  lemma AdjudicationFailureKeepsAnswers(m: TenantMatcher, ask: AiHelper.Oracle, ratio: Scoring.Ratio, c: Record, rs: seq<Record>)
    ensures var cs := Scoring.CalculateMatchScore(c, rs, ratio);
            var o := if cs.Success? then AiHelper.QueryChatGpt(m.helper, ask, c, cs.value) else AiHelper.Completed([]);
            cs.Success? && o.Raised? ==>
              && ClassifyAndSort(m, ask, ratio, c, rs) == Success(Ranking.SortByScore(o.results))
              && exists k :: AiHelper.StopsAt(ask, c, cs.value, 0, o.results, k)
  {
    var cs := Scoring.CalculateMatchScore(c, rs, ratio);
    if cs.Success? {
      AiHelper.AdjudicateRaised(ask, c, cs.value, 0);
    }
  }

  /** The screening run with the corrected `classify`. */
  function ClassifyAndSortCorrected(m: TenantMatcher, ask: AiHelper.Oracle, ratio: Scoring.Ratio, c: Record, rs: seq<Record>)
    : (r: Result<seq<Record>, Error>)
    ensures r.Success? <==> Classify(m, ask, ratio, c, rs).Success?
    ensures r.Success? ==>
              && Ranking.Descending(r.value)
              && multiset(r.value) == multiset(Classify(m, ask, ratio, c, rs).value)
              && forall k :: Ranking.WithKey(r.value, k) == Ranking.WithKey(Classify(m, ask, ratio, c, rs).value, k)
  {
    match Classify(m, ask, ratio, c, rs)
    case Failure(err) => Failure(err)
    case Success(t) => Success(Ranking.SortByScore(t))
  }

  /**
   * With the corrected `classify`, a run whose adjudication raises yields the
   * scored results in the stable descending order and nothing else.
   */
  lemma AdjudicationFailureFallsBack(m: TenantMatcher, ask: AiHelper.Oracle, ratio: Scoring.Ratio, c: Record, rs: seq<Record>)
    ensures var cs := Scoring.CalculateMatchScore(c, rs, ratio);
            cs.Success? && AiHelper.QueryChatGpt(m.helper, ask, c, cs.value).Raised? ==>
              ClassifyAndSortCorrected(m, ask, ratio, c, rs) == Success(Ranking.SortByScore(cs.value))
  {
  }
}

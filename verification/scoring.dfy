/**
 * `TenantMatcher.calculate_match_score`: a name-similarity ratio plus ten
 * points per agreeing attribute, clamped at 100, with a confidence tier and a
 * provisional classification derived from the total.
 */
module Scoring {
  import opened Wrappers
  import opened Records
  import Names

  /** A score on the 0..100 scale. */
  type Percent = n: int | 0 <= n <= 100

  /** `fuzz.ratio`: some similarity of two strings on the 0..100 scale. */
  type Ratio = (string, string) -> Percent

  const RelevantMatch := "relevant match"
  const NotRelevant := "probably not relevant"

  /** The attributes compared besides the name. */
  datatype Attribute = Birthdate | Nationality | Age

  function Attr(r: Record, a: Attribute): Option<Value> {
    match a
    case Birthdate => r.birthdate
    case Nationality => r.nationality
    case Age => r.age
  }

  /** The attributes on which candidate and result agree; absent on both sides counts as agreeing. */
  function Agreeing(c: Record, e: Record): set<Attribute> {
    set a: Attribute | a in {Birthdate, Nationality, Age} && Attr(c, a) == Attr(e, a)
  }

  /** `sum([birthdate_match, nationality_match, age_match]) * 10`. */
  function AttributeBonus(c: Record, e: Record): (bonus: nat)
    ensures bonus == 10 * |Agreeing(c, e)|
    ensures bonus in {0, 10, 20, 30}
  {
    var b := if c.birthdate == e.birthdate then 1 else 0;
    var n := if c.nationality == e.nationality then 1 else 0;
    var a := if c.age == e.age then 1 else 0;
    AgreeingCount(c, e);
    (b + n + a) * 10
  }

  /** The agreeing attributes, counted one by one. */
  lemma AgreeingCount(c: Record, e: Record)
    ensures |Agreeing(c, e)| == (if c.birthdate == e.birthdate then 1 else 0)
                                + (if c.nationality == e.nationality then 1 else 0)
                                + (if c.age == e.age then 1 else 0)
  {
    var b: set<Attribute> := if c.birthdate == e.birthdate then {Birthdate} else {};
    var n: set<Attribute> := if c.nationality == e.nationality then {Nationality} else {};
    var a: set<Attribute> := if c.age == e.age then {Age} else {};
    AgreeingParts(c, e);
    DisjointCount(b, n, a);
  }

  /** The agreeing set is the union of one candidate singleton per attribute. */
  lemma AgreeingParts(c: Record, e: Record)
    ensures Agreeing(c, e) == (if c.birthdate == e.birthdate then {Birthdate} else {})
                              + (if c.nationality == e.nationality then {Nationality} else {})
                              + (if c.age == e.age then {Age} else {})
  {
    var b: set<Attribute> := if c.birthdate == e.birthdate then {Birthdate} else {};
    var n: set<Attribute> := if c.nationality == e.nationality then {Nationality} else {};
    var a: set<Attribute> := if c.age == e.age then {Age} else {};
    forall x: Attribute ensures x in Agreeing(c, e) <==> x in b + n + a {
      match x
      case Birthdate =>
      case Nationality =>
      case Age =>
    }
  }

  /** Sets that share no attribute add up. */
  lemma DisjointCount(b: set<Attribute>, n: set<Attribute>, a: set<Attribute>)
    requires b <= {Birthdate} && n <= {Nationality} && a <= {Age}
    ensures |b + n + a| == |b| + |n| + |a|
  {
    assert b * n == {};
    assert |b + n| == |b| + |n|;
    assert (b + n) * a == {};
  }

  /** `min(score + additional_score, 100)`. */
  function FinalScore(similarity: Percent, bonus: nat): (s: Percent)
    ensures similarity <= s <= similarity + bonus
    ensures s == 100 || s == similarity + bonus
  {
    if similarity + bonus < 100 then similarity + bonus else 100
  }

  /** The confidence tier: strictly above 90 is "High", strictly above 75 is "Medium". */
  function Confidence(score: int): (tier: string)
    ensures tier == "High" <==> score > 90
    ensures tier == "Medium" <==> 75 < score <= 90
    ensures tier == "Low" <==> score <= 75
  {
    if score > 90 then "High" else if score > 75 then "Medium" else "Low"
  }

  /** The classification `calculate_match_score` writes before any adjudication. */
  function Provisional(score: int): (cls: string)
    ensures cls == RelevantMatch <==> score > 80
    ensures cls == NotRelevant <==> score <= 80
  {
    if score > 80 then RelevantMatch else NotRelevant
  }

  /** Position of a tier in the order Low < Medium < High. */
  function TierRank(tier: string): int {
    if tier == "High" then 2 else if tier == "Medium" then 1 else 0
  }

  /** A higher score never gets a lower tier, and a relevant match is never "Low". */
  lemma TiersAgree(s1: int, s2: int)
    requires s1 <= s2
    ensures TierRank(Confidence(s1)) <= TierRank(Confidence(s2))
    ensures Provisional(s1) == RelevantMatch ==> Provisional(s2) == RelevantMatch
    ensures Provisional(s1) == RelevantMatch ==> Confidence(s1) != "Low"
    ensures Confidence(s1) == "High" ==> Provisional(s1) == RelevantMatch
  {
  }

  /** The name similarity of a candidate (already normalised) and a result. */
  function Similarity(candidateName: string, e: Record, ratio: Ratio): Percent {
    ratio(candidateName, Names.NormalizeName(e.firstName.GetOr(""), e.lastName.GetOr("")))
  }

  /** The score the loop body of `calculate_match_score` computes for one result. */
  function Score(candidateName: string, c: Record, e: Record, ratio: Ratio): Percent {
    FinalScore(Similarity(candidateName, e, ratio), AttributeBonus(c, e))
  }

  /**
   * `result.update({...})` for one result: the three keys are (re)written from
   * the score, and every other field is left as it was.
   */
  function ScoreRecord(candidateName: string, c: Record, e: Record, ratio: Ratio): (r: Record)
    ensures r.matchScore.Some? && r.confidence.Some? && r.classification.Some?
    ensures var s := r.matchScore.value;
            && Similarity(candidateName, e, ratio) <= s <= 100
            && s <= Similarity(candidateName, e, ratio) + 10 * |Agreeing(c, e)|
            && (s == 100 || s == Similarity(candidateName, e, ratio) + 10 * |Agreeing(c, e)|)
            && r.confidence == Some(Confidence(s))
            && r.classification == Some(Provisional(s))
    ensures r.(matchScore := e.matchScore, confidence := e.confidence, classification := e.classification) == e
  {
    var s := Score(candidateName, c, e, ratio);
    e.(matchScore := Some(s), confidence := Some(Confidence(s)), classification := Some(Provisional(s)))
  }

  /**
   * With the name similarity held fixed, agreeing on more attributes never
   * lowers the score: the final score is monotone in the number of agreeing
   * attributes.
   */
  lemma ScoreMonotone(candidateName: string, c: Record, e1: Record, e2: Record, ratio: Ratio)
    requires Similarity(candidateName, e1, ratio) == Similarity(candidateName, e2, ratio)
    requires |Agreeing(c, e1)| <= |Agreeing(c, e2)|
    ensures Score(candidateName, c, e1, ratio) <= Score(candidateName, c, e2, ratio)
  {
  }

  /** In particular, a result with the same names agreeing on a superset of attributes never scores lower. */
  lemma ScoreMonotoneSubset(candidateName: string, c: Record, e1: Record, e2: Record, ratio: Ratio)
    requires e1.firstName == e2.firstName && e1.lastName == e2.lastName
    requires Agreeing(c, e1) <= Agreeing(c, e2)
    ensures Score(candidateName, c, e1, ratio) <= Score(candidateName, c, e2, ratio)
  {
    SubsetCard(Agreeing(c, e1), Agreeing(c, e2));
    ScoreMonotone(candidateName, c, e1, e2, ratio);
  }

  lemma SubsetCard(a: set<Attribute>, b: set<Attribute>)
    requires a <= b
    ensures |a| <= |b|
  {
    assert b == a + (b - a);
  }

  /**
   * `calculate_match_score`. The candidate's names are read with `[]`, so a
   * missing one raises `KeyError`; so does a result without `first_name` or
   * `last_name`, through the log line that reads `result['first_name']` and
   * `result['last_name']` after the update.
   */
  function CalculateMatchScore(c: Record, rs: seq<Record>, ratio: Ratio): (r: Result<seq<Record>, Error>)
    ensures r.Success? <==> c.firstName.Some? && c.lastName.Some?
                            && forall i :: 0 <= i < |rs| ==> rs[i].firstName.Some? && rs[i].lastName.Some?
    ensures r.Success? ==>
              && |r.value| == |rs|
              && forall i :: 0 <= i < |rs| ==>
                   r.value[i] == ScoreRecord(Names.NormalizeName(c.firstName.value, c.lastName.value), c, rs[i], ratio)
    ensures r.Failure? ==> r.error.KeyError?
  {
    if c.firstName.None? then Failure(KeyError("first_name"))
    else if c.lastName.None? then Failure(KeyError("last_name"))
    else ScoreAll(Names.NormalizeName(c.firstName.value, c.lastName.value), c, rs, ratio)
  }

  /** A result the loop can log: it has both name keys. */
  predicate Named(e: Record) {
    e.firstName.Some? && e.lastName.Some?
  }

  /**
   * The loop of `calculate_match_score`. It stops with `KeyError` at the first
   * result that lacks a name key; otherwise every result is scored.
   */
  function ScoreAll(candidateName: string, c: Record, rs: seq<Record>, ratio: Ratio): (r: Result<seq<Record>, Error>)
    ensures r.Success? <==> forall i :: 0 <= i < |rs| ==> rs[i].firstName.Some? && rs[i].lastName.Some?
    ensures r.Success? ==>
              && |r.value| == |rs|
              && forall i :: 0 <= i < |rs| ==> r.value[i] == ScoreRecord(candidateName, c, rs[i], ratio)
    ensures r.Failure? ==> r.error.KeyError?
  {
    if forall i :: 0 <= i < |rs| ==> Named(rs[i]) then
      Success(seq(|rs|, i requires 0 <= i < |rs| => ScoreRecord(candidateName, c, rs[i], ratio)))
    else
      Failure(KeyError(MissingNameKey(rs)))
  }

  /** The key whose lookup fails first: that of the first result lacking a name. */
  function MissingNameKey(rs: seq<Record>): string {
    if rs == [] then "first_name"
    else if rs[0].firstName.None? then "first_name"
    else if rs[0].lastName.None? then "last_name"
    else MissingNameKey(rs[1..])
  }
}

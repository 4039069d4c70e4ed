/**
 * The run behind the finding about `classify`: two listed people who both
 * score 70, a service that answers the first call and fails the second, and
 * the outputs of the as-written and the corrected `classify` on that run.
 */
module PartialAnswers {
  import opened Wrappers
  import opened Records
  import Scoring
  import AiHelper
  import Strings
  import Names
  import Matcher

  /** A similarity that rates every pair of names 50. */
  function Half(a: string, b: string): Scoring.Percent {
    50
  }

  /** A service that answers the first call with `text` and fails every later one. */
  function AnswerOnce(text: string): AiHelper.Oracle {
    (n: nat, x: Record, y: Record) => if n == 0 then AiHelper.Answered(text) else AiHelper.Failed(RateLimit)
  }

  /**
   * A run in which the first of two in-band results is adjudicated (say the
   * service answers "relevant match") and the second call fails: as written, the
   * first answer survives in the list `classify` returns although the handler
   * reports that only match scores are returned; with that fallback, the
   * provisional "probably not relevant" comes back.
   */
  lemma ClassifyKeepsPartialAnswers(f: string, l: string, g1: string, h1: string, g2: string, h2: string, text: string)
    ensures var c := Applicant(f, l);
            var rs := [Listed(g1, h1), Listed(g2, h2)];
            var m := Matcher.TenantMatcher(c, rs, AiHelper.Helper("key", true));
            && Matcher.ClassifyAsWritten(m, AnswerOnce(text), Half, c, rs).Success?
            && Matcher.ClassifyAsWritten(m, AnswerOnce(text), Half, c, rs).value[0].classification == Some(Strings.Strip(text))
            && Matcher.Classify(m, AnswerOnce(text), Half, c, rs).Success?
            && Matcher.Classify(m, AnswerOnce(text), Half, c, rs).value[0].classification == Some(Scoring.NotRelevant)
            && (Strings.Strip(text) != Scoring.NotRelevant ==>
                  Matcher.ClassifyAsWritten(m, AnswerOnce(text), Half, c, rs).value[0]
                    !in multiset(Matcher.Classify(m, AnswerOnce(text), Half, c, rs).value))
  {
    var c := Applicant(f, l);
    var rs := [Listed(g1, h1), Listed(g2, h2)];
    var m := Matcher.TenantMatcher(c, rs, AiHelper.Helper("key", true));
    var ask := AnswerOnce(text);
    ExampleScored(f, l, g1, h1, g2, h2);
    var scored := Scoring.CalculateMatchScore(c, rs, Half).value;
    AnswerOnceRun(c, scored, text);
    var o := AiHelper.QueryChatGpt(m.helper, ask, c, scored);
    assert Matcher.ClassifyAsWritten(m, ask, Half, c, rs) == Success(o.results);
    assert Matcher.Classify(m, ask, Half, c, rs) == Success(scored);
    if Strings.Strip(text) != Scoring.NotRelevant {
      ExampleProvisional(f, l, g1, h1, g2, h2);
      NotAmong(o.results[0], scored, Scoring.NotRelevant);
    }
  }

  /**
   * On the same run, the sorted outputs differ too, unless the service happens
   * to answer "probably not relevant": the as-written output holds the answer,
   * and every result of the corrected output is provisionally classified.
   */
  lemma SortedRunsDiffer(f: string, l: string, g1: string, h1: string, g2: string, h2: string, text: string)
    ensures var c := Applicant(f, l);
            var rs := [Listed(g1, h1), Listed(g2, h2)];
            var m := Matcher.TenantMatcher(c, rs, AiHelper.Helper("key", true));
            Strings.Strip(text) != Scoring.NotRelevant ==>
              Matcher.ClassifyAndSort(m, AnswerOnce(text), Half, c, rs) != Matcher.ClassifyAndSortCorrected(m, AnswerOnce(text), Half, c, rs)
  {
    ClassifyKeepsPartialAnswers(f, l, g1, h1, g2, h2, text);
  }

  /** A result whose classification none of `b` has does not occur in `b`. */
  lemma NotAmong(x: Record, b: seq<Record>, cls: string)
    requires forall j :: 0 <= j < |b| ==> b[j].classification == Some(cls)
    requires x.classification != Some(cls)
    ensures x !in multiset(b)
  {
  }

  /** A scored result the helper will ask about, provisionally "probably not relevant". */
  predicate Unsettled(s: Record) {
    AiHelper.InBand(s) && AiHelper.HasPromptKeys(s) && s.classification == Some(Scoring.NotRelevant)
  }

  /** Scoring the example succeeds; both listed people land in the band with the provisional "probably not relevant". */
  lemma ExampleScored(f: string, l: string, g1: string, h1: string, g2: string, h2: string)
    ensures var cs := Scoring.CalculateMatchScore(Applicant(f, l), [Listed(g1, h1), Listed(g2, h2)], Half);
            cs.Success? && |cs.value| == 2 && Unsettled(cs.value[0]) && Unsettled(cs.value[1])
  {
    ExampleScoredRecords(f, l, g1, h1, g2, h2);
    var cs := Scoring.CalculateMatchScore(Applicant(f, l), [Listed(g1, h1), Listed(g2, h2)], Half);
    ListedScores70(f, l, g1, h1);
    ListedScores70(f, l, g2, h2);
  }

  /** Every scored result of the example is provisionally "probably not relevant". */
  lemma ExampleProvisional(f: string, l: string, g1: string, h1: string, g2: string, h2: string)
    ensures var cs := Scoring.CalculateMatchScore(Applicant(f, l), [Listed(g1, h1), Listed(g2, h2)], Half);
            cs.Success? && forall j :: 0 <= j < |cs.value| ==> cs.value[j].classification == Some(Scoring.NotRelevant)
  {
    ExampleScored(f, l, g1, h1, g2, h2);
  }

  /** Scoring the example succeeds and scores each listed person against the candidate. */
  lemma ExampleScoredRecords(f: string, l: string, g1: string, h1: string, g2: string, h2: string)
    ensures var cs := Scoring.CalculateMatchScore(Applicant(f, l), [Listed(g1, h1), Listed(g2, h2)], Half);
            && cs.Success? && |cs.value| == 2
            && cs.value[0] == Scoring.ScoreRecord(Names.NormalizeName(f, l), Applicant(f, l), Listed(g1, h1), Half)
            && cs.value[1] == Scoring.ScoreRecord(Names.NormalizeName(f, l), Applicant(f, l), Listed(g2, h2), Half)
  {
    var rs := [Listed(g1, h1), Listed(g2, h2)];
    assert forall i :: 0 <= i < |rs| ==> rs[i].firstName.Some? && rs[i].lastName.Some?;
  }

  /** Each listed person of the example scores 50 + 20 = 70, in the band, with the provisional "probably not relevant". */
  lemma ListedScores70(f: string, l: string, g: string, h: string)
    ensures var s := Scoring.ScoreRecord(Names.NormalizeName(f, l), Applicant(f, l), Listed(g, h), Half);
            s.matchScore == Some(70) && Unsettled(s)
  {
    Scoring.AgreeingCount(Applicant(f, l), Listed(g, h));
  }

  /** The adjudication of the example: the first answer is written, then the second call raises. */
  lemma AnswerOnceRun(c: Record, scored: seq<Record>, text: string)
    requires AiHelper.HasPromptKeys(c) && |scored| == 2
    requires Unsettled(scored[0]) && Unsettled(scored[1])
    ensures var o := AiHelper.Adjudicate(AnswerOnce(text), c, scored, 0);
            o.Raised? && o.results[0].classification == Some(Strings.Strip(text))
  {
    AiHelper.AdjudicateStep(AnswerOnce(text), c, scored, 0);
    AiHelper.AdjudicateStep(AnswerOnce(text), c, scored[1..], 1);
  }

  /** The candidate of the example: born 1985-07-20, Mexican, aged 38. */
  function Applicant(f: string, l: string): Record {
    Record(Some(f), Some(l), Some(Text("1985-07-20")), Some(Text("Mexico")), Some(Number(38)), None, None, None, None)
  }

  /** A listed person of the example: same birthdate and nationality as the candidate, a different age. */
  function Listed(g: string, h: string): Record {
    Record(Some(g), Some(h), Some(Text("1985-07-20")), Some(Text("Mexico")), Some(Number(40)),
           Some(Text(Matcher.BlacklistSource)), None, None, None)
  }
}

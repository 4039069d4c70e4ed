/**
 * `AIHelper`: construction (which insists on an API key) and `query_chatgpt`,
 * which asks the completion service about every result whose score lies in the
 * ambiguous band 60..80 and overwrites that result's classification with the
 * stripped reply. The completion call itself is an oracle.
 */
module AiHelper {
  import opened Wrappers
  import opened Records
  import Strings

  /** A constructed helper. `hasClient` is the truth of `self.client`. */
  datatype Helper = Helper(apiKey: string, hasClient: bool)

  /** What one completion call yields: the reply text, or the exception it raised. */
  datatype Reply = Answered(text: string) | Failed(kind: FailureKind)

  /**
   * The completion service: the reply to the `n`-th call of a run, asked about
   * a candidate and a result. Numbering the calls lets repeated questions get
   * different answers.
   */
  type Oracle = (nat, Record, Record) -> Reply

  /**
   * The end of `query_chatgpt`: it returned normally, or it raised. Either way
   * `results` is the state of the list it was given, which it edits in place.
   */
  datatype Outcome = Completed(results: seq<Record>) | Raised(error: Error, results: seq<Record>)

  /**
   * `AIHelper.__init__`: the explicit key if it is non-empty, else the one from
   * the environment; neither gives a `ValueError`.
   */
  function NewHelper(apiKey: Option<string>, envKey: Option<string>): (r: Result<Helper, Error>)
    ensures r.Failure? <==> (apiKey.None? || apiKey.value == "") && (envKey.None? || envKey.value == "")
    ensures r.Failure? ==> r.error == MissingApiKey
    ensures r.Success? ==> r.value.hasClient && r.value.apiKey != ""
    ensures r.Success? && apiKey.Some? && apiKey.value != "" ==> r.value.apiKey == apiKey.value
    ensures r.Success? && (apiKey.None? || apiKey.value == "") ==> Some(r.value.apiKey) == envKey
  {
    var key := if apiKey.Some? && apiKey.value != "" then apiKey else envKey;
    if key.None? || key.value == "" then Failure(MissingApiKey)
    else Success(Helper(key.value, true))
  }

  /** `60 <= result["match_score"] <= 80`. */
  predicate InBand(e: Record) {
    e.matchScore.Some? && 60 <= e.matchScore.value <= 80
  }

  /**
   * The first key the prompt reads that is missing: the candidate's name,
   * birthdate, nationality and age, then the result's, in that order.
   */
  function MissingPromptKey(c: Record, e: Record): (k: Option<string>)
    ensures k.None? <==> HasPromptKeys(c) && HasPromptKeys(e)
  {
    if c.firstName.None? then Some("first_name")
    else if c.lastName.None? then Some("last_name")
    else if c.birthdate.None? then Some("birthdate")
    else if c.nationality.None? then Some("nationality")
    else if c.age.None? then Some("age")
    else if e.firstName.None? then Some("first_name")
    else if e.lastName.None? then Some("last_name")
    else if e.birthdate.None? then Some("birthdate")
    else if e.nationality.None? then Some("nationality")
    else if e.age.None? then Some("age")
    else None
  }

  /** All five keys the prompt reads are present. */
  predicate HasPromptKeys(r: Record) {
    r.firstName.Some? && r.lastName.Some? && r.birthdate.Some? && r.nationality.Some? && r.age.Some?
  }

  /** Prepends a processed result to the outcome of processing the rest. */
  function Prepend(e: Record, o: Outcome): (p: Outcome)
    ensures p.Completed? == o.Completed? && p.results == [e] + o.results
  {
    match o
    case Completed(t) => Completed([e] + t)
    case Raised(err, t) => Raised(err, [e] + t)
  }

  /**
   * `after` is what the loop may make of `before`: at most its classification
   * differs, and a result outside the band is not touched at all.
   */
  predicate Edited(before: Record, after: Record) {
    && after.(classification := before.classification) == before
    && (!InBand(before) ==> after == before)
  }

  /** Prepending an edit of the first result to edits of the rest edits the whole list. */
  lemma PrependEdits(rs: seq<Record>, e: Record, o: Outcome)
    requires rs != [] && Edited(rs[0], e)
    requires |o.results| == |rs| - 1 && forall i :: 0 <= i < |rs| - 1 ==> Edited(rs[1..][i], o.results[i])
    ensures |Prepend(e, o).results| == |rs|
    ensures forall i :: 0 <= i < |rs| ==> Edited(rs[i], Prepend(e, o).results[i])
  {
    var p := Prepend(e, o).results;
    forall i | 0 < i < |rs| ensures Edited(rs[i], p[i]) {
      assert p[i] == o.results[i - 1] && rs[i] == rs[1..][i - 1];
    }
  }

  /**
   * The loop of `query_chatgpt` over `rs`, whose first completion call is the
   * `calls`-th of the run. An in-band result gets the stripped reply as its
   * classification; the first exception ends the loop and leaves the results
   * from there on as they were.
   */
  function Adjudicate(ask: Oracle, c: Record, rs: seq<Record>, calls: nat): (o: Outcome)
    ensures |o.results| == |rs|
    ensures forall i :: 0 <= i < |rs| ==> Edited(rs[i], o.results[i])
    decreases |rs|
  {
    if rs == [] then Completed([])
    else
      var e := rs[0];
      if e.matchScore.None? then Raised(KeyError("match_score"), rs)
      else if !(60 <= e.matchScore.value <= 80) then
        var rest := Adjudicate(ask, c, rs[1..], calls);
        PrependEdits(rs, e, rest);
        Prepend(e, rest)
      else match MissingPromptKey(c, e)
        case Some(k) => Raised(KeyError(k), rs)
        case None =>
          match ask(calls, c, e)
          case Failed(kind) => Raised(ApiFailure(kind), rs)
          case Answered(text) =>
            var e' := e.(classification := Some(Strings.Strip(text)));
            var rest := Adjudicate(ask, c, rs[1..], calls + 1);
            PrependEdits(rs, e', rest);
            Prepend(e', rest)
  }

  /** `query_chatgpt`: a helper without a client hands the list back untouched. */
  function QueryChatGpt(h: Helper, ask: Oracle, c: Record, rs: seq<Record>): (o: Outcome)
    ensures !h.hasClient ==> o == Completed(rs)
    ensures |o.results| == |rs|
    ensures forall i :: 0 <= i < |rs| ==> Edited(rs[i], o.results[i])
  {
    if !h.hasClient then Completed(rs) else Adjudicate(ask, c, rs, 0)
  }

  // ---------------------------------------------------------------------------
  // A reference description of the loop, entry by entry.

  /** Number of in-band results in `s`: the completion calls made while passing over it. */
  function InBandCount(s: seq<Record>): nat {
    if s == [] then 0 else (if InBand(s[0]) then 1 else 0) + InBandCount(s[1..])
  }

  /** Whether handling `e` as the `n`-th call goes through without an exception. */
  predicate StepSucceeds(ask: Oracle, c: Record, e: Record, n: nat) {
    e.matchScore.Some? && (InBand(e) ==> HasPromptKeys(c) && HasPromptKeys(e) && ask(n, c, e).Answered?)
  }

  /** What a successful step does to `e` when it is the `n`-th call. */
  function Adjudicated(ask: Oracle, c: Record, e: Record, n: nat): Record {
    if InBand(e) && ask(n, c, e).Answered? then e.(classification := Some(Strings.Strip(ask(n, c, e).text)))
    else e
  }

  /** The call number of entry `i + 1` of `rs` is that of entry `i` of `rs[1..]`, started one call later when `rs[0]` is in band. */
  lemma InBandShift(rs: seq<Record>, i: nat)
    requires i < |rs|
    ensures InBandCount(rs[..i + 1]) == (if InBand(rs[0]) then 1 else 0) + InBandCount(rs[1..][..i])
  {
    assert rs[..i + 1][1..] == rs[1..][..i];
  }

  /** Call number of entry `i` when the loop over `rs` starts at call `calls`. */
  function CallOf(rs: seq<Record>, calls: nat, i: nat): nat
    requires i <= |rs|
  {
    calls + InBandCount(rs[..i])
  }

  /** Every entry's step succeeds, entry `i` being handled as call `CallOf(rs, calls, i)`. */
  predicate AllSucceed(ask: Oracle, c: Record, rs: seq<Record>, calls: nat) {
    forall i :: 0 <= i < |rs| ==> StepSucceeds(ask, c, rs[i], CallOf(rs, calls, i))
  }

  /**
   * The loop completes iff every entry's step succeeds, entry `i` being handled
   * as call `calls + InBandCount(rs[..i])`.
   */
  lemma {:induction false} AdjudicateCompletes(ask: Oracle, c: Record, rs: seq<Record>, calls: nat)
    ensures Adjudicate(ask, c, rs, calls).Completed? <==> AllSucceed(ask, c, rs, calls)
    decreases |rs|
  {
    if rs != [] {
      var next := if InBand(rs[0]) then calls + 1 else calls;
      AdjudicateStep(ask, c, rs, calls);
      AdjudicateCompletes(ask, c, rs[1..], next);
      AllSucceedCons(ask, c, rs, calls);
    }
  }

  /** All steps succeed iff the first does and all steps of the rest, one call later if the first was in band. */
  lemma AllSucceedCons(ask: Oracle, c: Record, rs: seq<Record>, calls: nat)
    requires rs != []
    ensures AllSucceed(ask, c, rs, calls) <==>
            StepSucceeds(ask, c, rs[0], calls) && AllSucceed(ask, c, rs[1..], if InBand(rs[0]) then calls + 1 else calls)
  {
    var next := if InBand(rs[0]) then calls + 1 else calls;
    assert CallOf(rs, calls, 0) == calls;
    forall i | 0 <= i < |rs| - 1
      ensures CallOf(rs, calls, i + 1) == CallOf(rs[1..], next, i) && rs[i + 1] == rs[1..][i]
    {
      InBandShift(rs, i);
    }
    if AllSucceed(ask, c, rs, calls) {
      forall i | 0 <= i < |rs| - 1 ensures StepSucceeds(ask, c, rs[1..][i], CallOf(rs[1..], next, i)) {
        assert StepSucceeds(ask, c, rs[i + 1], CallOf(rs, calls, i + 1));
      }
    }
    if StepSucceeds(ask, c, rs[0], calls) && AllSucceed(ask, c, rs[1..], next) {
      forall i | 0 < i < |rs| ensures StepSucceeds(ask, c, rs[i], CallOf(rs, calls, i)) {
        assert StepSucceeds(ask, c, rs[1..][i - 1], CallOf(rs[1..], next, i - 1));
      }
    }
  }

  /** One turn of the loop: a successful step prepends the adjudicated entry, a failing one raises with nothing changed. */
  lemma AdjudicateStep(ask: Oracle, c: Record, rs: seq<Record>, calls: nat)
    requires rs != []
    ensures var o := Adjudicate(ask, c, rs, calls);
            var next := if InBand(rs[0]) then calls + 1 else calls;
            if StepSucceeds(ask, c, rs[0], calls)
            then o == Prepend(Adjudicated(ask, c, rs[0], calls), Adjudicate(ask, c, rs[1..], next))
            else o.Raised? && o.results == rs
  {
  }

  /** `out` is `rs` with every entry adjudicated, entry `i` as call `CallOf(rs, calls, i)`. */
  predicate AllAdjudicated(ask: Oracle, c: Record, rs: seq<Record>, calls: nat, out: seq<Record>) {
    |out| == |rs| && forall i :: 0 <= i < |rs| ==> out[i] == Adjudicated(ask, c, rs[i], CallOf(rs, calls, i))
  }

  /** When the loop completes, every result is its adjudicated self. */
  lemma {:induction false} AdjudicateCompleted(ask: Oracle, c: Record, rs: seq<Record>, calls: nat)
    ensures var o := Adjudicate(ask, c, rs, calls);
            o.Completed? ==> AllAdjudicated(ask, c, rs, calls, o.results)
    decreases |rs|
  {
    var o := Adjudicate(ask, c, rs, calls);
    if rs != [] && o.Completed? {
      var next := if InBand(rs[0]) then calls + 1 else calls;
      AdjudicateStep(ask, c, rs, calls);
      AdjudicateCompleted(ask, c, rs[1..], next);
      AdjudicatedCons(ask, c, rs, calls, o.results);
    }
  }

  /** Adjudicating the first entry and then the rest, one call later if the first was in band, adjudicates all. */
  lemma AdjudicatedCons(ask: Oracle, c: Record, rs: seq<Record>, calls: nat, out: seq<Record>)
    requires rs != [] && out != []
    requires out[0] == Adjudicated(ask, c, rs[0], calls)
    requires AllAdjudicated(ask, c, rs[1..], if InBand(rs[0]) then calls + 1 else calls, out[1..])
    ensures AllAdjudicated(ask, c, rs, calls, out)
  {
    var next := if InBand(rs[0]) then calls + 1 else calls;
    assert CallOf(rs, calls, 0) == calls;
    forall i | 0 < i < |rs|
      ensures out[i] == Adjudicated(ask, c, rs[i], CallOf(rs, calls, i))
    {
      InBandShift(rs, i - 1);
      assert CallOf(rs, calls, i) == CallOf(rs[1..], next, i - 1);
      assert out[1..][i - 1] == Adjudicated(ask, c, rs[1..][i - 1], CallOf(rs[1..], next, i - 1));
      assert rs[i] == rs[1..][i - 1];
    }
  }

  /**
   * `out` is what the loop leaves when entry `k` is the first whose step fails:
   * the entries before it adjudicated, it and the rest as they were.
   */
  predicate StopsAt(ask: Oracle, c: Record, rs: seq<Record>, calls: nat, out: seq<Record>, k: nat) {
    k < |rs| == |out|
    && (forall i :: 0 <= i < k ==> StepSucceeds(ask, c, rs[i], CallOf(rs, calls, i)))
    && !StepSucceeds(ask, c, rs[k], CallOf(rs, calls, k))
    && (forall i :: 0 <= i < k ==> out[i] == Adjudicated(ask, c, rs[i], CallOf(rs, calls, i)))
    && out[k..] == rs[k..]
  }

  /** When the loop raises, it stopped at a failing entry. */
  lemma {:induction false} AdjudicateRaised(ask: Oracle, c: Record, rs: seq<Record>, calls: nat)
    ensures var o := Adjudicate(ask, c, rs, calls);
            o.Raised? ==> exists k :: StopsAt(ask, c, rs, calls, o.results, k)
    decreases |rs|
  {
    var o := Adjudicate(ask, c, rs, calls);
    if rs != [] && o.Raised? {
      assert CallOf(rs, calls, 0) == calls;
      AdjudicateStep(ask, c, rs, calls);
      if StepSucceeds(ask, c, rs[0], calls) {
        var next := if InBand(rs[0]) then calls + 1 else calls;
        var o' := Adjudicate(ask, c, rs[1..], next);
        assert o'.Raised? && o.results == [Adjudicated(ask, c, rs[0], calls)] + o'.results;
        AdjudicateRaised(ask, c, rs[1..], next);
        var k' :| StopsAt(ask, c, rs[1..], next, o'.results, k');
        StopsLater(ask, c, rs, calls, o.results, k');
      } else {
        assert o.results[0..] == rs[0..];
        assert StopsAt(ask, c, rs, calls, o.results, 0);
      }
    }
  }

  /** Stopping at `k` in the tail after a successful first step is stopping at `k + 1`. */
  lemma StopsLater(ask: Oracle, c: Record, rs: seq<Record>, calls: nat, out: seq<Record>, k: nat)
    requires rs != [] && out != [] && StepSucceeds(ask, c, rs[0], calls)
    requires out[0] == Adjudicated(ask, c, rs[0], calls)
    requires StopsAt(ask, c, rs[1..], if InBand(rs[0]) then calls + 1 else calls, out[1..], k)
    ensures StopsAt(ask, c, rs, calls, out, k + 1)
  {
    var next := if InBand(rs[0]) then calls + 1 else calls;
    InBandShift(rs, k);
    assert CallOf(rs, calls, k + 1) == CallOf(rs[1..], next, k);
    assert rs[k + 1] == rs[1..][k];
    assert out[k + 1..] == out[1..][k..];
    assert rs[k + 1..] == rs[1..][k..];
    assert CallOf(rs, calls, 0) == calls;
    forall i | 0 < i < k + 1
      ensures out[i] == Adjudicated(ask, c, rs[i], CallOf(rs, calls, i))
      ensures StepSucceeds(ask, c, rs[i], CallOf(rs, calls, i))
    {
      InBandShift(rs, i - 1);
      assert CallOf(rs, calls, i) == CallOf(rs[1..], next, i - 1);
      assert out[1..][i - 1] == Adjudicated(ask, c, rs[1..][i - 1], CallOf(rs[1..], next, i - 1));
      assert StepSucceeds(ask, c, rs[1..][i - 1], CallOf(rs[1..], next, i - 1));
      assert rs[i] == rs[1..][i - 1];
    }
  }

  /** The entry the loop stops at is determined: no two entries can both be the first failing one. */
  lemma StopsAtUnique(ask: Oracle, c: Record, rs: seq<Record>, calls: nat, out: seq<Record>, k1: nat, k2: nat)
    requires StopsAt(ask, c, rs, calls, out, k1) && StopsAt(ask, c, rs, calls, out, k2)
    ensures k1 == k2
  {
  }
}

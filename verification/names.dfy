/**
 * Name normalisation of `TenantMatcher` (`normalize_name` and its inner
 * `clean_name`): non-word runs become one space, the result is stripped and
 * lower-cased, the Spanish name particles are dropped, and the remaining tokens
 * are joined with single spaces. No accent folding takes place.
 */
module Names {
  import opened Strings

  /** Name particles `clean_name` drops. */
  const StopWords: set<string> := {"de", "la", "del", "los", "las"}

  /** The tokens that are not stop words, in their original order. */
  function DropStopWords(ts: seq<string>): seq<string> {
    if ts == [] then []
    else (if ts[0] in StopWords then [] else [ts[0]]) + DropStopWords(ts[1..])
  }

  /** Exactly the tokens that are not stop words survive; a list without stop words is kept whole. */
  lemma {:induction false} DropStopWordsKeeps(ts: seq<string>)
    ensures forall t | t in DropStopWords(ts) :: t in ts && t !in StopWords
    ensures forall t | t in ts && t !in StopWords :: t in DropStopWords(ts)
    ensures (forall t | t in ts :: t !in StopWords) ==> DropStopWords(ts) == ts
  {
    if ts != [] {
      DropStopWordsKeeps(ts[1..]);
      assert forall t | t in ts[1..] :: t in ts;
      assert forall t | t in ts :: t == ts[0] || t in ts[1..];
    }
  }

  /** Dropping stop words from a concatenation drops them from each part, so survivors keep their order. */
  lemma {:induction false} DropStopWordsConcat(a: seq<string>, b: seq<string>)
    ensures DropStopWords(a + b) == DropStopWords(a) + DropStopWords(b)
    decreases |a|
  {
    if a == [] {
      assert a + b == b;
    } else {
      assert (a + b)[0] == a[0] && (a + b)[1..] == a[1..] + b;
      DropStopWordsConcat(a[1..], b);
      var h := if a[0] in StopWords then [] else [a[0]];
      assert DropStopWords(a + b) == h + DropStopWords(a[1..] + b);
      assert DropStopWords(a) == h + DropStopWords(a[1..]);
    }
  }

  /** Every token that is not a stop word survives as often as it occurs; stop words never do. */
  lemma {:induction false} DropStopWordsCounts(ts: seq<string>)
    ensures forall t :: multiset(DropStopWords(ts))[t] == if t in StopWords then 0 else multiset(ts)[t]
    decreases |ts|
  {
    if ts != [] {
      DropStopWordsCounts(ts[1..]);
      assert ts == [ts[0]] + ts[1..];
    }
  }

  /** A character that survives cleaning: a word character that lower-casing leaves alone. */
  predicate IsCleanChar(c: char) {
    IsWordChar(c) && IsLowerChar(c)
  }

  /** A token `clean_name` can emit: non-empty, lower-case word characters, not a stop word. */
  predicate IsCleanToken(t: string) {
    t != [] && t !in StopWords && forall c | c in t :: IsCleanChar(c)
  }

  /** A string made of clean tokens, each pair separated by exactly one space. */
  predicate IsCleanForm(s: string) {
    Join(Split(s)) == s && forall t | t in Split(s) :: IsCleanToken(t)
  }

  /**
   * Character-level reading of a joined token list: every character is a space
   * or satisfies `P` (which admits only word characters), no space at either
   * end, and never two spaces in a row.
   */
  predicate Spaced(s: string, P: char -> bool) {
    && (forall i :: 0 <= i < |s| ==> s[i] == ' ' || P(s[i]))
    && NoDoubleSpace(s)
    && (s == [] || (s[0] != ' ' && s[|s| - 1] != ' '))
  }

  /** The shape of `clean_name` output, character by character. */
  predicate SingleSpaced(s: string) {
    Spaced(s, IsCleanChar)
  }

  /** `clean_name`. */
  function CleanName(name: string): string {
    Join(DropStopWords(Split(Lower(Strip(ReplaceNonWord(name))))))
  }

  /** `clean_name` always produces clean tokens joined by single spaces. */
  lemma CleanNameForm(name: string)
    ensures IsCleanForm(CleanName(name))
  {
    var lowered := Lower(Strip(ReplaceNonWord(name)));
    CleanTokens(lowered);
    DropStopWordsKeeps(Split(lowered));
    SplitJoin(DropStopWords(Split(lowered)));
  }

  /** Every token of the lowered, stripped, substituted name is made of clean characters. */
  lemma CleanTokens(lowered: string)
    requires forall i :: 0 <= i < |lowered| ==> lowered[i] == ' ' || IsCleanChar(lowered[i])
    ensures forall t | t in Split(lowered) :: t != [] && forall c | c in t :: IsCleanChar(c)
  {
    forall t, c | t in Split(lowered) && c in t ensures IsCleanChar(c) {
      assert c in lowered && !IsSpace(c);
    }
  }

  /** `normalize_name`: the cleaned first and last names, joined by one space. */
  function NormalizeName(first: string, last: string): string {
    CleanName(first) + " " + CleanName(last)
  }

  /** Every character of `t` satisfies `P`. */
  predicate AllChars(t: string, P: char -> bool) {
    forall i :: 0 <= i < |t| ==> P(t[i])
  }

  /** Joining non-empty word tokens gives a single-spaced string. */
  lemma {:induction false} JoinSpaced(ts: seq<string>, P: char -> bool)
    requires forall c :: P(c) ==> IsWordChar(c)
    requires forall k :: 0 <= k < |ts| ==> ts[k] != [] && AllChars(ts[k], P)
    ensures Spaced(Join(ts), P)
    ensures ts != [] ==> Join(ts) != [] && P(Join(ts)[0])
  {
    if |ts| > 1 {
      var t := ts[0];
      var rest := Join(ts[1..]);
      JoinSpaced(ts[1..], P);
      var s := t + " " + rest;
      assert s == Join(ts);
      assert forall i :: 0 <= i < |t| ==> s[i] == t[i];
      assert s[|t|] == ' ';
      assert forall i :: |t| < i < |s| ==> s[i] == rest[i - |t| - 1];
      assert s[|s| - 1] == rest[|rest| - 1];
    }
  }

  /** The membership form of cleanliness gives the index form `JoinSingleSpaced` needs. */
  lemma CleanTokensIndexed(ts: seq<string>)
    requires forall t | t in ts :: t != [] && forall c | c in t :: IsCleanChar(c)
    ensures forall k :: 0 <= k < |ts| ==> ts[k] != [] && AllChars(ts[k], IsCleanChar)
  {
    forall k | 0 <= k < |ts| ensures ts[k] != [] && AllChars(ts[k], IsCleanChar) {
      assert ts[k] in ts;
      forall i | 0 <= i < |ts[k]| ensures IsCleanChar(ts[k][i]) {
        assert ts[k][i] in ts[k];
      }
    }
  }

  /** Substitution leaves a string alone when it has only word characters and single spaces. */
  lemma {:induction false} ReplaceNonWordFixed(s: string)
    requires forall i :: 0 <= i < |s| ==> s[i] == ' ' || IsWordChar(s[i])
    requires NoDoubleSpace(s)
    ensures ReplaceNonWord(s) == s
    decreases |s|
  {
    if s != [] {
      ReplaceNonWordFixed(s[1..]);
      if !IsWordChar(s[0]) {
        assert NonWordLen(s) == 1;
      }
    }
  }

  /** Each token lower-cased. */
  function LowerEach(ts: seq<string>): (r: seq<string>)
    ensures |r| == |ts| && forall k :: 0 <= k < |ts| ==> r[k] == Lower(ts[k])
  {
    seq(|ts|, k requires 0 <= k < |ts| => Lower(ts[k]))
  }

  /** Lower-casing a joined string lower-cases each token. */
  lemma {:induction false} LowerJoin(ts: seq<string>)
    ensures Lower(Join(ts)) == Join(LowerEach(ts))
  {
    if |ts| > 1 {
      LowerJoin(ts[1..]);
      assert LowerEach(ts)[1..] == LowerEach(ts[1..]);
      var a, b := ts[0], Join(ts[1..]);
      LowerConcat(a + " ", b);
      LowerConcat(a, " ");
      assert Lower(" ") == " ";
    }
  }

  /** Lower-casing works character by character, so it distributes over concatenation. */
  lemma LowerConcat(a: string, b: string)
    ensures Lower(a + b) == Lower(a) + Lower(b)
  {
    assert forall i :: |a| <= i < |a + b| ==> (a + b)[i] == b[i - |a|];
  }

  /**
   * On words separated by single spaces, `clean_name` only lower-cases each
   * word and drops the particles.
   */
  lemma CleanNameOfWords(ts: seq<string>)
    requires forall k :: 0 <= k < |ts| ==> ts[k] != [] && AllChars(ts[k], IsWordChar)
    ensures CleanName(Join(ts)) == Join(DropStopWords(LowerEach(ts)))
  {
    var s := Join(ts);
    JoinSpaced(ts, IsWordChar);
    ReplaceNonWordFixed(s);
    if s != [] {
      WordCharNotSpace(s[0]);
      WordCharNotSpace(s[|s| - 1]);
    }
    assert Strip(s) == s;
    LowerJoin(ts);
    var lts := LowerEach(ts);
    forall t | t in lts ensures IsToken(t) {
      var k :| 0 <= k < |lts| && lts[k] == t;
      forall c | c in t ensures !IsSpace(c) {
        var i :| 0 <= i < |t| && t[i] == c;
        WordCharNotSpace(ts[k][i]);
      }
    }
    SplitJoin(lts);
  }

  /** A token of clean characters is made of word characters and is already lower-case. */
  lemma CleanTokenFacts(t: string)
    requires AllChars(t, IsCleanChar)
    ensures AllChars(t, IsWordChar) && Lower(t) == t
  {
  }

  /** Cleaning a single-spaced string of clean tokens gives it back. */
  lemma CleanFormFixed(s: string)
    requires IsCleanForm(s)
    ensures CleanName(s) == s
  {
    var ts := Split(s);
    CleanTokensIndexed(ts);
    forall k | 0 <= k < |ts|
      ensures AllChars(ts[k], IsWordChar) && Lower(ts[k]) == ts[k]
    {
      CleanTokenFacts(ts[k]);
    }
    CleanNameOfWords(ts);
    assert LowerEach(ts) == ts;
    DropStopWordsKeeps(ts);
  }

  /** `clean_name` output is single-spaced, lower-case and free of stop words. */
  lemma CleanNameShape(name: string)
    ensures SingleSpaced(CleanName(name))
    ensures forall t | t in Split(CleanName(name)) :: t !in StopWords
  {
    var r := CleanName(name);
    CleanNameForm(name);
    CleanTokensIndexed(Split(r));
    JoinSpaced(Split(r), IsCleanChar);
  }

  /** `clean_name` is idempotent. */
  lemma CleanNameIdempotent(name: string)
    ensures CleanName(CleanName(name)) == CleanName(name)
  {
    CleanNameForm(name);
    CleanFormFixed(CleanName(name));
  }

  /** The fixed points of `clean_name` are exactly the strings in clean form. */
  lemma CleanNameFixedPoints(s: string)
    ensures CleanName(s) == s <==> IsCleanForm(s)
  {
    if IsCleanForm(s) {
      CleanFormFixed(s);
    } else {
      CleanNameForm(s);
    }
  }

  /** " ".join over a concatenation of two non-empty token lists. */
  lemma {:induction false} JoinAppend(a: seq<string>, b: seq<string>)
    requires a != [] && b != []
    ensures Join(a + b) == Join(a) + " " + Join(b)
  {
    if |a| > 1 {
      assert (a + b)[1..] == a[1..] + b;
      JoinAppend(a[1..], b);
    }
  }

  /**
   * The tokens of `normalize_name(f, l)` are those of `clean_name(f)` followed
   * by those of `clean_name(l)`; the result is itself in clean form exactly when
   * neither half cleans to the empty string (otherwise a stray space remains).
   */
  lemma NormalizeNameTokens(first: string, last: string)
    ensures Split(NormalizeName(first, last)) == Split(CleanName(first)) + Split(CleanName(last))
    ensures IsCleanForm(NormalizeName(first, last)) <==> CleanName(first) != [] && CleanName(last) != []
  {
    var f, l := CleanName(first), CleanName(last);
    CleanNameForm(first);
    CleanNameForm(last);
    SpacedCleanForms(f, l);
  }

  /**
   * Two strings in clean form joined by a space: the tokens are those of both,
   * and the whole is in clean form exactly when neither part is empty.
   */
  lemma SpacedCleanForms(f: string, l: string)
    requires IsCleanForm(f) && IsCleanForm(l)
    ensures Split(f + " " + l) == Split(f) + Split(l)
    ensures IsCleanForm(f + " " + l) <==> f != [] && l != []
  {
    var r := f + " " + l;
    SplitAroundSpace(f, ' ', l);
    if f != [] && l != [] {
      JoinAppend(Split(f), Split(l));
      assert Join(Split(r)) == r;
    }
    if IsCleanForm(r) {
      CleanFormEdges(r);
      assert r[0] == (if f == [] then ' ' else f[0]);
      assert r[|r| - 1] == (if l == [] then ' ' else l[|l| - 1]);
    }
  }

  /** A string in clean form neither starts nor ends with a space. */
  lemma CleanFormEdges(s: string)
    requires IsCleanForm(s)
    ensures s == [] || (s[0] != ' ' && s[|s| - 1] != ' ')
  {
    CleanTokensIndexed(Split(s));
    JoinSpaced(Split(s), IsCleanChar);
  }

  /** A single word cleans to itself lower-cased, unless it is a particle. */
  lemma CleanNameWord(w: string)
    requires w != [] && AllChars(w, IsWordChar) && Lower(w) !in StopWords
    ensures CleanName(w) == Lower(w)
  {
    assert Join([w]) == w;
    CleanNameOfWords([w]);
    assert LowerEach([w]) == [Lower(w)];
    assert DropStopWords([Lower(w)]) == [Lower(w)];
  }

  /** Spelling "de la " + `last` as a joined token list. */
  lemma JoinParticles(last: string)
    ensures Join(["de", "la", last]) == "de la " + last
  {
    var ls := ["de", "la", last];
    assert ls[1..] == ["la", last];
    assert ["la", last][1..] == [last];
    assert Join(["la", last]) == "la" + " " + last;
    assert Join(ls) == "de" + " " + ("la" + " " + last);
  }

  /** The particles "de" and "la" are dropped in front of a word that is not one. */
  lemma DropParticles(x: string)
    requires x !in StopWords
    ensures DropStopWords(["de", "la", x]) == [x]
  {
    assert ["de", "la", x][1..] == ["la", x];
    assert ["la", x][1..] == [x];
    assert [x][1..] == [];
    assert "de" in StopWords && "la" in StopWords;
    assert DropStopWords([x]) == [x];
  }

  /** A surname preceded by the particles "de la" cleans as if they were absent. */
  lemma CleanNameParticles(last: string)
    requires last != [] && AllChars(last, IsWordChar) && Lower(last) !in StopWords
    ensures CleanName("de la " + last) == Lower(last)
  {
    var ls := ["de", "la", last];
    JoinParticles(last);
    ParticleWords(last);
    CleanNameOfWords(ls);
    LowerParticles(last);
    DropParticles(Lower(last));
  }

  /** "de", "la" and a word are non-empty words. */
  lemma ParticleWords(last: string)
    requires last != [] && AllChars(last, IsWordChar)
    ensures forall k :: 0 <= k < 3 ==> ["de", "la", last][k] != [] && AllChars(["de", "la", last][k], IsWordChar)
  {
    assert AllChars("de", IsWordChar) && AllChars("la", IsWordChar);
  }

  /** Lower-casing leaves the particles as they are. */
  lemma LowerParticles(last: string)
    ensures LowerEach(["de", "la", last]) == ["de", "la", Lower(last)]
  {
    assert Lower("de") == "de";
    assert Lower("la") == "la";
  }

  /**
   * `normalize_name(f, "de la " + l)` for single words `f` and `l` is `f` and
   * `l` lower-cased, joined by a space: the particles go, accents stay (so
   * "José", "de la Cruz" gives "josé cruz").
   */
  lemma ParticlesDropped(first: string, last: string)
    requires first != [] && AllChars(first, IsWordChar) && Lower(first) !in StopWords
    requires last != [] && AllChars(last, IsWordChar) && Lower(last) !in StopWords
    ensures NormalizeName(first, "de la " + last) == Lower(first) + " " + Lower(last)
  {
    CleanNameWord(first);
    CleanNameParticles(last);
  }
}

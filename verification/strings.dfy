/**
 * The Python `str` operations that name normalisation is built from:
 * `re.sub(r'\W+', ' ', s)`, `str.strip()`, `str.lower()`, `str.split()` and
 * `" ".join(...)`. Character classes follow Python 3 exactly for code points
 * up to U+00FF; see `IsWordChar` and `LowerChar` for what happens above.
 */
module Strings {

  /** Python's `str.isspace()`: the characters `split()` and `strip()` treat as whitespace. */
  predicate IsSpace(c: char) {
    var n := c as int;
    n == 0x20 || 0x09 <= n <= 0x0D || 0x1C <= n <= 0x1F || n == 0x85 || n == 0xA0
    || n == 0x1680 || 0x2000 <= n <= 0x200A || n == 0x2028 || n == 0x2029
    || n == 0x202F || n == 0x205F || n == 0x3000
  }

  /**
   * The class `\w` matches in a Python 3 `str` pattern: alphanumerics (letters,
   * digits and other numerics such as '²' or '½') and '_'. Exact up to U+00FF;
   * above that every character that is not whitespace counts as a word character.
   */
  predicate IsWordChar(c: char) {
    var n := c as int;
    ('0' <= c <= '9') || ('A' <= c <= 'Z') || ('a' <= c <= 'z') || c == '_'
    || n == 0xAA || n == 0xB2 || n == 0xB3 || n == 0xB5 || n == 0xB9 || n == 0xBA
    || 0xBC <= n <= 0xBE || 0xC0 <= n <= 0xD6 || 0xD8 <= n <= 0xF6 || 0xF8 <= n <= 0xFF
    || (n > 0xFF && !IsSpace(c))
  }

  /** Word characters are never whitespace. */
  lemma WordCharNotSpace(c: char)
    requires IsWordChar(c)
    ensures !IsSpace(c)
  {
  }

  /** `str.lower()` on one character: 'A'..'Z' and the Latin-1 capitals (not '×') map down by 32. */
  function LowerChar(c: char): (d: char)
    ensures IsWordChar(c) <==> IsWordChar(d)
    ensures IsSpace(c) <==> IsSpace(d)
    ensures IsLowerChar(d)
  {
    var n := c as int;
    if ('A' <= c <= 'Z') || (0xC0 <= n <= 0xDE && n != 0xD7) then (n + 32) as char else c
  }

  /** A character that `str.lower()` leaves as it is. */
  predicate IsLowerChar(c: char) {
    var n := c as int;
    !('A' <= c <= 'Z') && !(0xC0 <= n <= 0xDE && n != 0xD7)
  }

  /** `str.lower()`. */
  function Lower(s: string): (r: string)
    ensures |r| == |s|
    ensures forall i :: 0 <= i < |s| ==> r[i] == LowerChar(s[i])
  {
    seq(|s|, i requires 0 <= i < |s| => LowerChar(s[i]))
  }

  /** Length of the leading run of characters that are not word characters. */
  function NonWordLen(s: string): (n: nat)
    ensures n <= |s|
    ensures forall i :: 0 <= i < n ==> !IsWordChar(s[i])
    ensures n < |s| ==> IsWordChar(s[n])
  {
    if s == [] || IsWordChar(s[0]) then 0 else 1 + NonWordLen(s[1..])
  }

  /** The word characters of `s`, in order. */
  function WordChars(s: string): string {
    if s == [] then []
    else (if IsWordChar(s[0]) then [s[0]] else []) + WordChars(s[1..])
  }

  /** A string in which every space is followed by a word character, or ends the string. */
  predicate NoDoubleSpace(s: string) {
    forall i :: 0 <= i < |s| - 1 && s[i] == ' ' ==> IsWordChar(s[i + 1])
  }

  /** `re.sub(r'\W+', ' ', s)`: every maximal run of non-word characters becomes one space. */
  function ReplaceNonWord(s: string): (r: string)
    ensures forall c | c in r :: c == ' ' || IsWordChar(c)
    ensures WordChars(r) == WordChars(s)
    ensures NoDoubleSpace(r)
    ensures s == [] <==> r == []
    ensures s != [] ==> (IsWordChar(s[0]) <==> IsWordChar(r[0]))
    decreases |s|
  {
    if s == [] then []
    else if IsWordChar(s[0]) then
      var rest := ReplaceNonWord(s[1..]);
      assert WordChars([s[0]] + rest) == [s[0]] + WordChars(rest) by {
        assert ([s[0]] + rest)[1..] == rest;
      }
      [s[0]] + rest
    else
      var n := NonWordLen(s);
      var rest := ReplaceNonWord(s[n..]);
      DropNonWordRun(s);
      assert WordChars(" " + rest) == WordChars(rest) by {
        assert (" " + rest)[1..] == rest;
      }
      " " + rest
  }

  /** Unfolding for a word character at the front. */
  lemma ReplaceWordHead(s: string)
    requires s != [] && IsWordChar(s[0])
    ensures ReplaceNonWord(s) == [s[0]] + ReplaceNonWord(s[1..])
  {
  }

  /** Unfolding for a non-word run at the front. */
  lemma ReplaceRunHead(s: string)
    requires s != [] && !IsWordChar(s[0])
    ensures ReplaceNonWord(s) == " " + ReplaceNonWord(s[NonWordLen(s)..])
  {
  }

  /** The replacement ends with a word character iff the input does. */
  lemma {:induction false} ReplaceNonWordEnd(s: string)
    requires s != []
    ensures IsWordChar(s[|s| - 1]) <==> IsWordChar(ReplaceNonWord(s)[|ReplaceNonWord(s)| - 1])
    decreases |s|
  {
    var r := ReplaceNonWord(s);
    var last := s[|s| - 1];
    if IsWordChar(s[0]) {
      ReplaceWordHead(s);
      var t := s[1..];
      if t != [] {
        var rest := ReplaceNonWord(t);
        ReplaceNonWordEnd(t);
        assert r[|r| - 1] == rest[|rest| - 1];
        assert t[|t| - 1] == last;
      }
    } else {
      ReplaceRunHead(s);
      var n := NonWordLen(s);
      var t := s[n..];
      if t != [] {
        var rest := ReplaceNonWord(t);
        ReplaceNonWordEnd(t);
        assert r[|r| - 1] == rest[|rest| - 1];
        assert t[|t| - 1] == last;
      } else {
        assert !IsWordChar(last);
      }
    }
  }

  /** Dropping a leading run of non-word characters keeps the word characters. */
  lemma {:induction false} DropNonWordRun(s: string)
    ensures WordChars(s[NonWordLen(s)..]) == WordChars(s)
    decreases |s|
  {
    if s != [] && !IsWordChar(s[0]) {
      DropNonWordRun(s[1..]);
      assert s[1..][NonWordLen(s[1..])..] == s[NonWordLen(s)..];
    }
  }

  /** A string made of non-word characters only: what `\W+` matches when non-empty. */
  predicate NonWordRun(s: string) {
    forall i :: 0 <= i < |s| ==> !IsWordChar(s[i])
  }

  /** Before a word character, the leading non-word run of `sep + y` is exactly `sep`. */
  lemma {:induction false} NonWordLenRun(sep: string, y: string)
    requires NonWordRun(sep) && y != [] && IsWordChar(y[0])
    ensures NonWordLen(sep + y) == |sep|
    decreases |sep|
  {
    if sep != [] {
      assert (sep + y)[1..] == sep[1..] + y;
      NonWordLenRun(sep[1..], y);
    }
  }

  /** Appending to a string that contains a word character does not change its leading non-word run. */
  lemma {:induction false} NonWordLenPrefix(x: string, z: string)
    requires NonWordLen(x) < |x|
    ensures NonWordLen(x + z) == NonWordLen(x)
    decreases |x|
  {
    if !IsWordChar(x[0]) {
      assert (x + z)[1..] == x[1..] + z;
      NonWordLenPrefix(x[1..], z);
    }
  }

  /** A leading run of non-word characters before a word becomes one space. */
  lemma ReplaceLeadingRun(sep: string, y: string)
    requires sep != [] && NonWordRun(sep) && y != [] && IsWordChar(y[0])
    ensures ReplaceNonWord(sep + y) == " " + ReplaceNonWord(y)
  {
    NonWordLenRun(sep, y);
    assert (sep + y)[0] == sep[0];
    assert (sep + y)[|sep|..] == y;
  }

  /**
   * A run of non-word characters between two words becomes exactly one space,
   * and the two sides are replaced independently: "Juan-Carlos" keeps its word
   * boundary as "Juan Carlos".
   */
  lemma ReplaceAroundRun(x: string, sep: string, y: string)
    requires x != [] && IsWordChar(x[|x| - 1])
    requires sep != [] && NonWordRun(sep)
    requires y != [] && IsWordChar(y[0])
    ensures ReplaceNonWord(x + sep + y) == ReplaceNonWord(x) + " " + ReplaceNonWord(y)
  {
    assert x + sep + y == x + (sep + y);
    ReplaceAfterWord(x, sep + y);
    ReplaceLeadingRun(sep, y);
  }

  /** After a word character, replacement restarts: whatever follows is replaced on its own. */
  lemma {:induction false} ReplaceAfterWord(x: string, z: string)
    requires x != [] && IsWordChar(x[|x| - 1])
    requires z != [] && !IsWordChar(z[0])
    ensures ReplaceNonWord(x + z) == ReplaceNonWord(x) + ReplaceNonWord(z)
    decreases |x|
  {
    var n, h := ReplaceHead(x, z);
    var t := x[n..];
    assert ReplaceNonWord(t + z) == ReplaceNonWord(t) + ReplaceNonWord(z) by {
      if t == [] {
        assert t + z == z;
      } else {
        assert t[|t| - 1] == x[|x| - 1];
        ReplaceAfterWord(t, z);
      }
    }
    ConcatAssoc(h, ReplaceNonWord(t), ReplaceNonWord(z));
  }

  /**
   * The first step of the replacement on `x` and on `x + z` is the same when
   * `x` ends with a word character: it emits `h` and consumes the first `n`
   * characters of `x`.
   */
  lemma ReplaceHead(x: string, z: string) returns (n: nat, h: string)
    requires x != [] && IsWordChar(x[|x| - 1])
    ensures 0 < n <= |x|
    ensures ReplaceNonWord(x + z) == h + ReplaceNonWord(x[n..] + z)
    ensures ReplaceNonWord(x) == h + ReplaceNonWord(x[n..])
  {
    var s := x + z;
    assert s[0] == x[0];
    n := if IsWordChar(x[0]) then 1 else NonWordLen(x);
    h := if IsWordChar(x[0]) then [x[0]] else " ";
    assert 0 < n <= |x|;
    DropPrefix(x, z, n);
    if IsWordChar(x[0]) {
      ReplaceWordHead(s);
      ReplaceWordHead(x);
    } else {
      NonWordLenPrefix(x, z);
      ReplaceRunHead(s);
      ReplaceRunHead(x);
    }
  }

  /** Dropping `n` characters of `x + z` drops them from `x`. */
  lemma DropPrefix(x: string, z: string, n: nat)
    requires n <= |x|
    ensures (x + z)[n..] == x[n..] + z
  {
  }

  /** Concatenation is associative (kept apart so that no other facts are in scope). */
  lemma ConcatAssoc(a: string, b: string, c: string)
    ensures a + (b + c) == (a + b) + c
  {
  }

  /** Length of the leading whitespace run. */
  function SpaceLen(s: string): (n: nat)
    ensures n <= |s|
    ensures forall i :: 0 <= i < n ==> IsSpace(s[i])
    ensures n < |s| ==> !IsSpace(s[n])
  {
    if s == [] || !IsSpace(s[0]) then 0 else 1 + SpaceLen(s[1..])
  }

  /** `str.rstrip()`: drops the longest whitespace suffix. */
  function TrimEnd(s: string): (r: string)
    ensures |r| <= |s| && r == s[..|r|]
    ensures forall i :: |r| <= i < |s| ==> IsSpace(s[i])
    ensures r == [] || !IsSpace(r[|r| - 1])
  {
    if s != [] && IsSpace(s[|s| - 1]) then TrimEnd(s[..|s| - 1]) else s
  }

  /** `str.strip()`: the part of `s` between its leading and trailing whitespace. */
  function Strip(s: string): (r: string)
    ensures r == [] || (!IsSpace(r[0]) && !IsSpace(r[|r| - 1]))
    ensures SpaceLen(s) + |r| <= |s| && r == s[SpaceLen(s)..SpaceLen(s) + |r|]
    ensures forall k :: SpaceLen(s) + |r| <= k < |s| ==> IsSpace(s[k])
    ensures (s == [] || (!IsSpace(s[0]) && !IsSpace(s[|s| - 1]))) ==> r == s
  {
    TrimEnd(s[SpaceLen(s)..])
  }

  /** Length of the leading run of non-whitespace characters. */
  function WordLen(s: string): (n: nat)
    ensures n <= |s|
    ensures forall i :: 0 <= i < n ==> !IsSpace(s[i])
    ensures n < |s| ==> IsSpace(s[n])
  {
    if s == [] || IsSpace(s[0]) then 0 else 1 + WordLen(s[1..])
  }

  /** A token as `str.split()` yields it: non-empty and free of whitespace. */
  predicate IsToken(t: string) {
    t != [] && forall c | c in t :: !IsSpace(c)
  }

  /** The characters of `s` that are not whitespace, in order. */
  function NonSpaceChars(s: string): string {
    if s == [] then [] else (if IsSpace(s[0]) then [] else [s[0]]) + NonSpaceChars(s[1..])
  }

  /** The tokens written one after the other: `"".join(ts)`. */
  function Concat(ts: seq<string>): string {
    if ts == [] then [] else ts[0] + Concat(ts[1..])
  }

  /** `str.split()` with no separator: the maximal runs of non-whitespace characters. */
  function Split(s: string): (ts: seq<string>)
    ensures forall t | t in ts :: IsToken(t) && forall c | c in t :: c in s
    ensures Concat(ts) == NonSpaceChars(s)
    decreases |s|
  {
    if s == [] then []
    else if IsSpace(s[0]) then Split(s[1..])
    else
      var n := WordLen(s);
      var rest := Split(s[n..]);
      assert forall c | c in s[..n] :: !IsSpace(c) && c in s;
      assert forall t | t in rest :: forall c | c in t :: c in s by {
        forall t, c | t in rest && c in t ensures c in s {
          assert c in s[n..];
        }
      }
      NonSpaceWord(s);
      assert ([s[..n]] + rest)[1..] == rest;
      [s[..n]] + rest
  }

  /** The leading token is where the non-whitespace characters of `s` start. */
  lemma {:induction false} NonSpaceWord(s: string)
    ensures NonSpaceChars(s) == s[..WordLen(s)] + NonSpaceChars(s[WordLen(s)..])
    decreases |s|
  {
    if s != [] && !IsSpace(s[0]) {
      NonSpaceWord(s[1..]);
      assert s[1..][..WordLen(s[1..])] == s[1..WordLen(s)];
      assert s[1..][WordLen(s[1..])..] == s[WordLen(s)..];
      assert s[..WordLen(s)] == [s[0]] + s[1..WordLen(s)];
    }
  }

  /** A string of whitespace only has no tokens. */
  lemma {:induction false} SplitBlank(s: string)
    requires forall i :: 0 <= i < |s| ==> IsSpace(s[i])
    ensures Split(s) == []
    decreases |s|
  {
    if s != [] {
      SplitBlank(s[1..]);
    }
  }

  /** `" ".join(ts)`. */
  function Join(ts: seq<string>): string {
    if ts == [] then ""
    else if |ts| == 1 then ts[0]
    else ts[0] + " " + Join(ts[1..])
  }

  /** A token splits to itself. */
  lemma SplitToken(t: string)
    requires IsToken(t)
    ensures Split(t) == [t]
  {
    assert forall i :: 0 <= i < |t| ==> !IsSpace(t[i]) by {
      forall i | 0 <= i < |t| ensures !IsSpace(t[i]) {
        assert t[i] in t;
      }
    }
    assert t[..|t|] == t;
    assert t[|t|..] == [];
  }

  /** Any whitespace character separates tokens: `(x + c + y).split() == x.split() + y.split()`. */
  lemma {:induction false} SplitAroundSpace(x: string, c: char, y: string)
    requires IsSpace(c)
    ensures Split(x + [c] + y) == Split(x) + Split(y)
    decreases |x|
  {
    var s := x + [c] + y;
    if x == [] {
      assert s[1..] == y;
    } else if IsSpace(x[0]) {
      assert s[1..] == x[1..] + [c] + y;
      SplitAroundSpace(x[1..], c, y);
    } else {
      var n := WordLen(x);
      WordLenAroundSpace(x, c, y);
      assert s[..n] == x[..n];
      assert s[n..] == x[n..] + [c] + y;
      SplitAroundSpace(x[n..], c, y);
    }
  }

  /** The first token of `x + c + y` ends inside `x`, at the same place as in `x`. */
  lemma {:induction false} WordLenAroundSpace(x: string, c: char, y: string)
    requires IsSpace(c)
    ensures WordLen(x + [c] + y) == WordLen(x)
    decreases |x|
  {
    if x != [] && !IsSpace(x[0]) {
      assert (x + [c] + y)[1..] == x[1..] + [c] + y;
      WordLenAroundSpace(x[1..], c, y);
    }
  }

  /** `" ".join` followed by `split()` gives the tokens back. */
  lemma {:induction false} SplitJoin(ts: seq<string>)
    requires forall t | t in ts :: IsToken(t)
    ensures Split(Join(ts)) == ts
  {
    if |ts| == 1 {
      SplitToken(ts[0]);
    } else if |ts| > 1 {
      SplitAroundSpace(ts[0], ' ', Join(ts[1..]));
      SplitToken(ts[0]);
      SplitJoin(ts[1..]);
    }
  }
}

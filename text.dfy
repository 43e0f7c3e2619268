/**
 The three string primitives the core relies on:
 - `str.split()` with no separator: maximal runs of non-whitespace, in order (Words);
 - `re.sub('[^a-zA-Z]', '', w)`: every character outside the ASCII letters removed (KeepLetters);
 - `str.lower()`, restricted to the ASCII letters (Lower).
 */
module Text {

  /** The characters Python's `str.split()` treats as whitespace. */
  predicate IsSpace(c: char) {
    || '\t' <= c <= '\r'
    || '\U{1C}' <= c <= '\U{1F}'
    || c == ' '
    || c == '\U{85}'
    || c == '\U{A0}'
    || c == '\U{1680}'
    || '\U{2000}' <= c <= '\U{200A}'
    || c == '\U{2028}' || c == '\U{2029}'
    || c == '\U{202F}' || c == '\U{205F}'
    || c == '\U{3000}'
  }

  predicate NoSpace(s: string) {
    forall i :: 0 <= i < |s| ==> !IsSpace(s[i])
  }

  predicate Blank(s: string) {
    forall i :: 0 <= i < |s| ==> IsSpace(s[i])
  }

  /** A token as `str.split()` produces it: non-empty, without whitespace. */
  predicate IsToken(w: string) {
    w != [] && NoSpace(w)
  }

  // ---------------------------------------------------------------------------
  // str.split()
  // ---------------------------------------------------------------------------

  /** The longest prefix of `s` that holds no whitespace. */
  function Word(s: string): (w: string)
    ensures w <= s && NoSpace(w)
    ensures |w| < |s| ==> IsSpace(s[|w|])
  {
    if s == [] || IsSpace(s[0]) then [] else [s[0]] + Word(s[1..])
  }

  /** The tokens of `s`, left to right, as `s.split()` returns them. */
  function Words(s: string): (ws: seq<string>)
    ensures |ws| <= |s|
    ensures forall i :: 0 <= i < |ws| ==> IsToken(ws[i])
    decreases |s|
  {
    if s == [] then []
    else if IsSpace(s[0]) then Words(s[1..])
    else
      var w := Word(s);
      [w] + Words(s[|w|..])
  }

  /** Tokens joined by single spaces: the inverse of Words on token lists. */
  function JoinWords(ws: seq<string>): string {
    if ws == [] then []
    else if |ws| == 1 then ws[0]
    else ws[0] + " " + JoinWords(ws[1..])
  }

  /** A string has no tokens exactly when it is empty or all whitespace. */
  lemma {:induction false} WordsEmptyIffBlank(s: string)
    ensures Words(s) == [] <==> Blank(s)
    decreases |s|
  {
    if s != [] {
      if IsSpace(s[0]) {
        WordsEmptyIffBlank(s[1..]);
        if Blank(s[1..]) {
          forall i | 0 <= i < |s| ensures IsSpace(s[i]) {
            if i > 0 { assert s[i] == s[1..][i - 1]; }
          }
        }
      }
    }
  }

  /** A word cut at a whitespace character does not see what follows it. */
  lemma {:induction false} WordStopsAtSpace(a: string, c: char, b: string)
    requires IsSpace(c)
    ensures Word(a + [c] + b) == Word(a)
    decreases |a|
  {
    if a == [] {
      assert (a + [c] + b)[0] == c;
    } else {
      assert (a + [c] + b)[0] == a[0];
      if !IsSpace(a[0]) {
        assert (a + [c] + b)[1..] == a[1..] + [c] + b;
        WordStopsAtSpace(a[1..], c, b);
      }
    }
  }

  /** Splitting distributes over a whitespace separator. */
  lemma {:induction false} WordsSplitAtSpace(a: string, c: char, b: string)
    requires IsSpace(c)
    ensures Words(a + [c] + b) == Words(a) + Words(b)
    decreases |a|
  {
    var s := a + [c] + b;
    if a == [] {
      assert s[0] == c && s[1..] == b;
    } else if IsSpace(a[0]) {
      assert s[0] == a[0] && s[1..] == a[1..] + [c] + b;
      WordsSplitAtSpace(a[1..], c, b);
    } else {
      assert s[0] == a[0];
      WordStopsAtSpace(a, c, b);
      var w := Word(a);
      assert |w| > 0 by { assert a[..1] == [a[0]]; }
      assert s[|w|..] == a[|w|..] + [c] + b;
      WordsSplitAtSpace(a[|w|..], c, b);
    }
  }

  /** A single token splits into itself. */
  lemma {:induction false} WordsOfToken(w: string)
    requires IsToken(w)
    ensures Words(w) == [w]
  {
    assert Word(w) == w by { WordOfNoSpace(w); }
    assert w[|w|..] == [];
  }

  lemma {:induction false} WordOfNoSpace(w: string)
    requires NoSpace(w)
    ensures Word(w) == w
    decreases |w|
  {
    if w != [] {
      assert NoSpace(w[1..]) by {
        forall i | 0 <= i < |w[1..]| ensures !IsSpace(w[1..][i]) { assert w[1..][i] == w[i + 1]; }
      }
      WordOfNoSpace(w[1..]);
    }
  }

  /** Round trip: splitting tokens joined by spaces gives the tokens back. */
  lemma {:induction false} WordsOfJoinWords(ws: seq<string>)
    requires forall i :: 0 <= i < |ws| ==> IsToken(ws[i])
    ensures Words(JoinWords(ws)) == ws
    decreases |ws|
  {
    if |ws| == 1 {
      WordsOfToken(ws[0]);
    } else if |ws| > 1 {
      assert JoinWords(ws) == ws[0] + [' '] + JoinWords(ws[1..]);
      WordsSplitAtSpace(ws[0], ' ', JoinWords(ws[1..]));
      WordsOfToken(ws[0]);
      WordsOfJoinWords(ws[1..]);
    }
  }

  /** Leading whitespace is ignored. */
  lemma {:induction false} WordsAfterSpace(c: char, s: string)
    requires IsSpace(c)
    ensures Words([c] + s) == Words(s)
  {
    WordsSplitAtSpace([], c, s);
    assert [] + [c] + s == [c] + s;
  }

  // ---------------------------------------------------------------------------
  // re.sub('[^a-zA-Z]', '', w)
  // ---------------------------------------------------------------------------

  predicate IsLetter(c: char) {
    'a' <= c <= 'z' || 'A' <= c <= 'Z'
  }

  predicate AllLetters(s: string) {
    forall i :: 0 <= i < |s| ==> IsLetter(s[i])
  }

  /** `s` with every character outside `[a-zA-Z]` deleted. */
  function KeepLetters(s: string): (r: string)
    ensures AllLetters(r)
    ensures |r| <= |s|
  {
    if s == [] then []
    else (if IsLetter(s[0]) then [s[0]] else []) + KeepLetters(s[1..])
  }

  /** The filter works character by character: the kept letters stay in their order. */
  lemma {:induction false} KeepLettersAppend(a: string, b: string)
    ensures KeepLetters(a + b) == KeepLetters(a) + KeepLetters(b)
    decreases |a|
  {
    if a != [] {
      assert (a + b)[0] == a[0] && (a + b)[1..] == a[1..] + b;
      KeepLettersAppend(a[1..], b);
    } else {
      assert a + b == b;
    }
  }

  /** Every letter of the input survives, as often as it occurs; nothing else does. */
  lemma {:induction false} KeepLettersCounts(s: string, x: char)
    ensures multiset(KeepLetters(s))[x] == if IsLetter(x) then multiset(s)[x] else 0
    decreases |s|
  {
    if s != [] {
      KeepLettersCounts(s[1..], x);
      assert s == [s[0]] + s[1..];
      assert multiset(s) == multiset([s[0]]) + multiset(s[1..]);
    }
  }

  /** A string made only of letters is left as it is. */
  lemma {:induction false} KeepLettersOfLetters(s: string)
    requires AllLetters(s)
    ensures KeepLetters(s) == s
    decreases |s|
  {
    if s != [] {
      assert AllLetters(s[1..]) by {
        forall i | 0 <= i < |s[1..]| ensures IsLetter(s[1..][i]) { assert s[1..][i] == s[i + 1]; }
      }
      KeepLettersOfLetters(s[1..]);
    }
  }

  /** A string without any letter is filtered down to the empty string. */
  lemma {:induction false} KeepLettersOfNoLetters(s: string)
    requires forall i :: 0 <= i < |s| ==> !IsLetter(s[i])
    ensures KeepLetters(s) == []
    decreases |s|
  {
    if s != [] {
      KeepLettersOfNoLetters(s[1..]);
    }
  }

  /** Filtering twice is filtering once. */
  lemma KeepLettersIdempotent(s: string)
    ensures KeepLetters(KeepLetters(s)) == KeepLetters(s)
  {
    KeepLettersOfLetters(KeepLetters(s));
  }

  // ---------------------------------------------------------------------------
  // str.lower() on ASCII
  // ---------------------------------------------------------------------------

  function LowerChar(c: char): char {
    if 'A' <= c <= 'Z' then (c as int - 'A' as int + 'a' as int) as char else c
  }

  /**
   `s` with every ASCII upper-case letter replaced by its lower-case form: no
   upper-case letter is left, letters stay letters, each upper-case letter moves
   down by the 32 code points between 'A' and 'a', and every other character,
   whitespace included, is kept.
   */
  function Lower(s: string): (r: string)
    ensures |r| == |s|
    ensures forall i :: 0 <= i < |r| ==> !('A' <= r[i] <= 'Z')
    ensures forall i :: 0 <= i < |s| ==> IsLetter(r[i]) == IsLetter(s[i])
    ensures forall i :: 0 <= i < |s| && 'A' <= s[i] <= 'Z' ==> r[i] as int == s[i] as int + 32
    ensures forall i :: 0 <= i < |s| && !('A' <= s[i] <= 'Z') ==> r[i] == s[i]
    ensures forall i :: 0 <= i < |s| ==> IsSpace(r[i]) == IsSpace(s[i])
  {
    seq(|s|, i requires 0 <= i < |s| => LowerChar(s[i]))
  }

  /** Lowering neither creates nor removes whitespace. */
  lemma LowerCharKeepsSpace(c: char)
    ensures IsSpace(LowerChar(c)) == IsSpace(c)
  {
  }

  /** Lowering commutes with dropping a prefix. */
  lemma LowerDrop(s: string, k: nat)
    requires k <= |s|
    ensures Lower(s)[k..] == Lower(s[k..])
  {
  }

  /** Lowering works on the first character and the rest separately. */
  lemma LowerCons(c: char, s: string)
    ensures Lower([c] + s) == [LowerChar(c)] + Lower(s)
  {
  }

  lemma {:induction false} WordOfLower(s: string)
    ensures Word(Lower(s)) == Lower(Word(s))
    decreases |s|
  {
    if s != [] {
      var t := Lower(s);
      assert t[0] == LowerChar(s[0]);
      LowerCharKeepsSpace(s[0]);
      if !IsSpace(s[0]) {
        LowerDrop(s, 1);
        WordOfLower(s[1..]);
        assert Word(t) == [t[0]] + Word(t[1..]);
        assert Word(s) == [s[0]] + Word(s[1..]);
        LowerCons(s[0], Word(s[1..]));
      }
    }
  }

  /** One step of the split on a lowered string that starts with a non-space character. */
  lemma WordsOfLowerStep(s: string)
    requires s != [] && !IsSpace(s[0])
    ensures Words(Lower(s)) == [Lower(Word(s))] + Words(Lower(s[|Word(s)|..]))
  {
    var t := Lower(s);
    var w := Word(s);
    assert t[0] == LowerChar(s[0]);
    LowerCharKeepsSpace(s[0]);
    WordOfLower(s);
    assert Word(t) == Lower(w) && |Lower(w)| == |w|;
    assert Words(t) == [Lower(w)] + Words(t[|w|..]);
    LowerDrop(s, |w|);
  }

  /** Lower-casing before splitting gives the lower-cased tokens of the original. */
  lemma {:induction false} WordsOfLower(s: string)
    ensures |Words(Lower(s))| == |Words(s)|
    ensures forall i :: 0 <= i < |Words(s)| ==> Words(Lower(s))[i] == Lower(Words(s)[i])
    decreases |s|
  {
    if s != [] {
      if IsSpace(s[0]) {
        assert Lower(s)[0] == LowerChar(s[0]);
        LowerCharKeepsSpace(s[0]);
        LowerDrop(s, 1);
        WordsOfLower(s[1..]);
      } else {
        var w := Word(s);
        var rest := s[|w|..];
        WordsOfLowerStep(s);
        WordsOfLower(rest);
        assert Words(s) == [w] + Words(rest);
        forall i | 0 <= i < |Words(s)| ensures Words(Lower(s))[i] == Lower(Words(s)[i]) {
          if i > 0 {
            assert Words(Lower(s))[i] == Words(Lower(rest))[i - 1];
            assert Words(s)[i] == Words(rest)[i - 1];
          }
        }
      }
    }
  }
}

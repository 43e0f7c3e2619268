/**
 The reply parser of utils.py: `split_to_dict(text, arrOfNames)` pairs the i-th
 whitespace token of `text`, stripped of every non-letter, with the i-th name.
 A Python dict is kept as an association list in insertion order.
 */
module Utils {
  import opened Outcomes
  import opened Text

  /** A Python dict from str to str: its (key, value) pairs in insertion order. */
  type Dict = seq<(string, string)>

  const DefaultNames: seq<string> := ["topic", "keyword"]

  function Keys(d: Dict): (ks: seq<string>)
    ensures |ks| == |d|
    ensures forall i :: 0 <= i < |d| ==> ks[i] == d[i].0
  {
    if d == [] then [] else [d[0].0] + Keys(d[1..])
  }

  predicate Distinct(xs: seq<string>) {
    forall i, j :: 0 <= i < j < |xs| ==> xs[i] != xs[j]
  }

  /** Every value of `d` is made of ASCII letters only. */
  predicate LettersOnly(d: Dict) {
    d == [] || (AllLetters(d[0].1) && LettersOnly(d[1..]))
  }

  /** `d[k]`, or None where Python raises KeyError. */
  function Lookup(d: Dict, k: string): (r: Option<string>)
    ensures r.Some? <==> k in Keys(d)
  {
    if d == [] then None
    else if d[0].0 == k then Some(d[0].1)
    else Lookup(d[1..], k)
  }

  /** `d[k] = v`: an existing key keeps its place and takes the new value, a new key goes last. */
  function Assign(d: Dict, k: string, v: string): (r: Dict)
    ensures Lookup(r, k) == Some(v)
  {
    if d == [] then [(k, v)]
    else if d[0].0 == k then [(k, v)] + d[1..]
    else [d[0]] + Assign(d[1..], k, v)
  }

  /** `d[k] = v` keeps the key order: an existing key stays in place, a new key goes last. */
  lemma {:induction false} AssignKeys(d: Dict, k: string, v: string)
    ensures Keys(Assign(d, k, v)) == if k in Keys(d) then Keys(d) else Keys(d) + [k]
    decreases |d|
  {
    if d != [] && d[0].0 != k {
      AssignKeys(d[1..], k, v);
      assert Keys(d) == [d[0].0] + Keys(d[1..]);
    }
  }

  /** `d[k] = v` leaves the value of every other key as it was. */
  lemma {:induction false} AssignKeepsOtherKeys(d: Dict, k: string, v: string, other: string)
    requires other != k
    ensures Lookup(Assign(d, k, v), other) == Lookup(d, other)
    decreases |d|
  {
    if d != [] && d[0].0 != k {
      AssignKeepsOtherKeys(d[1..], k, v, other);
    }
  }

  lemma {:induction false} AssignKeepsLettersOnly(d: Dict, k: string, v: string)
    requires LettersOnly(d) && AllLetters(v)
    ensures LettersOnly(Assign(d, k, v))
    decreases |d|
  {
    if d != [] && d[0].0 != k {
      AssignKeepsLettersOnly(d[1..], k, v);
    }
  }

  /**
   The dict the pairing loop builds from `words`: token i, letters only, under name i.
   Every value it stores is made of ASCII letters only.
   */
  function Fields(words: seq<string>, names: seq<string>): (d: Dict)
    requires |words| <= |names|
    ensures LettersOnly(d)
    decreases |words|
  {
    if words == [] then []
    else
      var n := |words| - 1;
      var prev := Fields(words[..n], names);
      AssignKeepsLettersOnly(prev, names[n], KeepLetters(words[n]));
      Assign(prev, names[n], KeepLetters(words[n]))
  }

  /** `split_to_dict(text, names)`: the dict, or the IndexError raised at `names[len(names)]`. */
  function ParseFields(text: string, names: seq<string>): (r: Result<Dict>)
    ensures r.Success? <==> |Words(text)| <= |names|
    ensures r.Failure? ==> r.error == IndexError(|names|)
  {
    var words := Words(text);
    if |words| <= |names| then Success(Fields(words, names)) else Failure(IndexError(|names|))
  }

  /** split_to_dict: one dict assignment per token, in token order. */
  method SplitToDict(text: string, names: seq<string>) returns (r: Result<Dict>)
    ensures r == ParseFields(text, names)
  {
    var words := Words(text);
    var d: Dict := [];
    var index := 0;
    while index < |words|
      invariant 0 <= index <= |words| && index <= |names|
      invariant d == Fields(words[..index], names)
    {
      if index >= |names| {
        return Failure(IndexError(index));
      }
      FieldsStep(words, names, index);
      d := Assign(d, names[index], KeepLetters(words[index]));
      index := index + 1;
    }
    assert words[..index] == words;
    return Success(d);
  }

  /** One more turn of the loop stores token `index` under name `index`. */
  lemma FieldsStep(words: seq<string>, names: seq<string>, index: nat)
    requires index < |words| && index < |names|
    ensures Fields(words[..index + 1], names)
         == Assign(Fields(words[..index], names), names[index], KeepLetters(words[index]))
  {
    assert words[..index + 1][..index] == words[..index];
  }

  /**
   With distinct names, the dict holds one entry per token, in token order:
   name i mapped to token i with its non-letters removed.
   */
  lemma {:induction false} FieldsInOrder(words: seq<string>, names: seq<string>)
    requires |words| <= |names| && Distinct(names[..|words|])
    ensures |Fields(words, names)| == |words|
    ensures forall i :: 0 <= i < |words| ==> Fields(words, names)[i] == (names[i], KeepLetters(words[i]))
    decreases |words|
  {
    if words != [] {
      var n := |words| - 1;
      assert names[..n] == names[..|words|][..n];
      FieldsInOrder(words[..n], names);
      var prev := Fields(words[..n], names);
      assert Keys(prev) == names[..n] by {
        assert |Keys(prev)| == n;
      }
      assert names[n] !in names[..n] by {
        assert names[..|words|][n] == names[n];
      }
      AssignNewKeyAppends(prev, names[n], KeepLetters(words[n]));
      var d := Fields(words, names);
      assert d == prev + [(names[n], KeepLetters(words[n]))];
      assert |d| == |words|;
      forall i | 0 <= i < |words| ensures d[i] == (names[i], KeepLetters(words[i])) {
        if i < n {
          assert prev[i] == (names[i], KeepLetters(words[..n][i]));
          assert words[..n][i] == words[i];
          assert d[i] == prev[i];
        } else {
          assert d[i] == (names[n], KeepLetters(words[n]));
        }
      }
    }
  }

  lemma AssignNewKeyAppends(d: Dict, k: string, v: string)
    requires k !in Keys(d)
    ensures Assign(d, k, v) == d + [(k, v)]
  {
    AssignAbsentKey(d, k, v);
  }

  lemma {:induction false} AssignAbsentKey(d: Dict, k: string, v: string)
    requires forall i :: 0 <= i < |d| ==> d[i].0 != k
    ensures Assign(d, k, v) == d + [(k, v)]
    decreases |d|
  {
    if d != [] {
      AssignAbsentKey(d[1..], k, v);
      assert d == [d[0]] + d[1..];
    }
  }

  /** With distinct names, the keys are exactly the first |tokens| names, in order. */
  lemma ParseFieldsKeys(text: string, names: seq<string>)
    requires |Words(text)| <= |names| && Distinct(names[..|Words(text)|])
    ensures ParseFields(text, names).Success?
    ensures Keys(ParseFields(text, names).value) == names[..|Words(text)|]
  {
    FieldsInOrder(Words(text), names);
  }

  /** With distinct names, name i is looked up to token i with its non-letters removed. */
  lemma ParseFieldsValues(text: string, names: seq<string>, i: nat)
    requires |Words(text)| <= |names| && Distinct(names[..|Words(text)|])
    requires i < |Words(text)|
    ensures Lookup(ParseFields(text, names).value, names[i]) == Some(KeepLetters(Words(text)[i]))
  {
    var words := Words(text);
    FieldsInOrder(words, names);
    var d := Fields(words, names);
    assert Keys(d) == names[..|words|];
    assert d[i] == (names[i], KeepLetters(words[i]));
    LookupDistinct(d, i);
  }

  lemma {:induction false} LookupDistinct(d: Dict, i: nat)
    requires i < |d| && Distinct(Keys(d))
    ensures Lookup(d, d[i].0) == Some(d[i].1)
    decreases |d|
  {
    if i > 0 {
      assert Keys(d)[0] != Keys(d)[i];
      assert Distinct(Keys(d[1..])) by {
        forall a, b | 0 <= a < b < |d| - 1 ensures Keys(d[1..])[a] != Keys(d[1..])[b] {
          assert Keys(d)[a + 1] != Keys(d)[b + 1];
        }
      }
      LookupDistinct(d[1..], i - 1);
    }
  }

  /** Every value in a parsed dict contains only ASCII letters. */
  lemma ParseFieldsLettersOnly(text: string, names: seq<string>)
    requires ParseFields(text, names).Success?
    ensures LettersOnly(ParseFields(text, names).value)
  {
  }

  /** Text with no token (empty or all whitespace) gives the empty dict. */
  lemma ParseFieldsBlank(text: string, names: seq<string>)
    requires Blank(text)
    ensures ParseFields(text, names) == Success([])
  {
    WordsEmptyIffBlank(text);
  }

  /** Two tokens against the default names give the dict {topic: first, keyword: second}. */
  lemma ParseFieldsTwoTokens(text: string)
    requires |Words(text)| == 2
    ensures ParseFields(text, DefaultNames)
         == Success([("topic", KeepLetters(Words(text)[0])), ("keyword", KeepLetters(Words(text)[1]))])
  {
    var ws := Words(text);
    assert ws == [ws[0], ws[1]];
    FieldsOfTwo(ws[0], ws[1]);
  }

  lemma FieldsOfTwo(a: string, b: string)
    ensures Fields([a, b], DefaultNames) == [("topic", KeepLetters(a)), ("keyword", KeepLetters(b))]
  {
    assert [a, b][..1] == [a];
    assert [a][..0] == [];
    assert Fields([], DefaultNames) == [];
    assert DefaultNames[0] == "topic" && DefaultNames[1] == "keyword";
    var one := Fields([a], DefaultNames);
    assert one == Assign([], "topic", KeepLetters(a)) == [("topic", KeepLetters(a))];
    assert one[0].0 != "keyword" && one[1..] == [];
    assert Assign(one, "keyword", KeepLetters(b)) == [("topic", KeepLetters(a))] + Assign([], "keyword", KeepLetters(b));
  }

  /** A token without letters still creates its key, with the empty string as value. */
  lemma ParseFieldsDigitsToken()
    ensures ParseFields("123 love", DefaultNames) == Success([("topic", ""), ("keyword", "love")])
  {
    DigitsWords();
    ParseFieldsTwoTokens("123 love");
    DigitsAndLoveLetters();
  }

  lemma DigitsWords()
    ensures Words("123 love") == ["123", "love"]
  {
    assert "123 love" == JoinWords(["123", "love"]);
    WordsOfJoinWords(["123", "love"]);
  }

  lemma DigitsAndLoveLetters()
    ensures KeepLetters("123") == "" && KeepLetters("love") == "love"
  {
    KeepLettersOfNoLetters("123");
    KeepLettersOfLetters("love");
  }

  /** Case is kept, and a run of spaces yields no empty token. */
  lemma ParseFieldsExample()
    ensures ParseFields("LOVE   family!", DefaultNames) == Success([("topic", "LOVE"), ("keyword", "family")])
  {
    ExampleWords();
    ParseFieldsTwoTokens("LOVE   family!");
    ExampleLetters();
  }

  lemma ExampleWords()
    ensures Words("LOVE   family!") == ["LOVE", "family!"]
  {
    WordsOfJoinWords(["LOVE", "family!"]);
    assert "LOVE   family!" == "LOVE" + [' '] + ("  " + "family!");
    WordsSplitAtSpace("LOVE", ' ', "  " + "family!");
    assert "  " + "family!" == [' '] + (" " + "family!");
    WordsAfterSpace(' ', " " + "family!");
    assert " " + "family!" == [' '] + "family!";
    WordsAfterSpace(' ', "family!");
    WordsSplitAtSpace("LOVE", ' ', "family!");
    assert JoinWords(["LOVE", "family!"]) == "LOVE" + [' '] + "family!";
  }

  lemma ExampleLetters()
    ensures KeepLetters("LOVE") == "LOVE" && KeepLetters("family!") == "family"
  {
    KeepLettersOfLetters("LOVE");
    FamilyBang();
  }

  lemma FamilyBang()
    ensures KeepLetters("family!") == "family"
  {
    assert "family!" == "family" + "!";
    KeepLettersAppend("family", "!");
    KeepLettersOfLetters("family");
  }

  /** Three tokens against the two default names fail with the IndexError of `names[2]`. */
  lemma ParseFieldsThreeTokens(a: string, b: string, c: string)
    requires IsToken(a) && IsToken(b) && IsToken(c)
    ensures ParseFields(JoinWords([a, b, c]), DefaultNames) == Failure(IndexError(2))
  {
    WordsOfJoinWords([a, b, c]);
  }
}

/**
 The emotion/topic table of emotion-prompt.py and the logic around it:
 resolving a topic to the first emotion that lists it, recording a new topic
 under an emotion, flattening the table into the topic list offered to the
 model, reading the model's two-word reply, and one turn of the chat loop.
 */
module EmotionPrompt {
  import opened Outcomes
  import opened Text
  import opened Utils

  /** The label returned when no emotion owns a topic. */
  const Indifference: string := "indifference"

  /** One item of `emotion_map`: an emotion and its topic list, in order. */
  datatype Entry = Entry(emotion: string, topics: seq<string>)

  /** What one turn works out from the model's classification reply. */
  datatype Resolution = Resolution(topic: string, keyword: string, emotion: string)

  /** `emotion_map` at start-up, items in insertion order. */
  function Seed(): seq<Entry> {
    [ Entry("happiness", ["love", "peace", "food"]),
      Entry("sadness", ["death", "loss"]),
      Entry("anger", ["war", "conflict", "betrayal", "heartbreak"]),
      Entry("fear", ["supernatural", "paranormal", "mystery"]),
      Entry("surprise", ["gift"]),
      Entry("disgust", ["rotten"]),
      Entry("love", ["creator", "family", "electricity"]) ]
  }

  /** The keys of the table, in order. */
  function Emotions(entries: seq<Entry>): (es: seq<string>)
    ensures |es| == |entries|
    ensures forall i :: 0 <= i < |entries| ==> es[i] == entries[i].emotion
  {
    if entries == [] then [] else [entries[0].emotion] + Emotions(entries[1..])
  }

  /** Keys are distinct, as in any dict, and the fallback label is not one of them. */
  predicate WellFormed(entries: seq<Entry>) {
    Distinct(Emotions(entries)) && Indifference !in Emotions(entries)
  }

  /** No topic is listed under two emotions. */
  predicate DisjointTopics(entries: seq<Entry>) {
    forall i, j, t :: 0 <= i < j < |entries| && t in entries[i].topics ==> t !in entries[j].topics
  }

  // ---------------------------------------------------------------------------
  // get_emotion
  // ---------------------------------------------------------------------------

  /** Position of the first item whose topic list holds `topic`; |entries| when there is none. */
  function FirstOwner(entries: seq<Entry>, topic: string): (i: nat)
    ensures i <= |entries|
    ensures forall j :: 0 <= j < i ==> topic !in entries[j].topics
    ensures i < |entries| ==> topic in entries[i].topics
  {
    if entries == [] then 0
    else if topic in entries[0].topics then 0
    else 1 + FirstOwner(entries[1..], topic)
  }

  /** The value `get_emotion(topic)` returns for the table `entries`. */
  function Resolve(entries: seq<Entry>, topic: string): (r: string)
    ensures r == Indifference || r in Emotions(entries)
    ensures (forall i :: 0 <= i < |entries| ==> topic !in entries[i].topics) ==> r == Indifference
  {
    var i := FirstOwner(entries, topic);
    if i < |entries| then
      assert Emotions(entries)[i] == entries[i].emotion;
      entries[i].emotion
    else Indifference
  }

  /** The first emotion in table order whose list holds the topic wins. */
  lemma ResolveFirstMatch(entries: seq<Entry>, topic: string, i: nat)
    requires i < |entries| && topic in entries[i].topics
    requires forall j :: 0 <= j < i ==> topic !in entries[j].topics
    ensures Resolve(entries, topic) == entries[i].emotion
  {
  }

  /** Flattening of the table: every topic list, in table order (`all_topics`). */
  function AllTopics(entries: seq<Entry>): (ts: seq<string>)
    ensures forall t :: t in ts ==> FirstOwner(entries, t) < |entries|
    ensures forall t :: FirstOwner(entries, t) < |entries| ==> t in ts
  {
    if entries == [] then [] else entries[0].topics + AllTopics(entries[1..])
  }

  /** A topic is offered to the model exactly when some emotion lists it. */
  lemma AllTopicsMembers(entries: seq<Entry>, t: string)
    ensures t in AllTopics(entries) <==> exists i :: 0 <= i < |entries| && t in entries[i].topics
  {
    if exists i :: 0 <= i < |entries| && t in entries[i].topics {
      assert FirstOwner(entries, t) < |entries|;
    }
  }

  /** The topic list is the concatenation of the lists, item by item. */
  lemma {:induction false} AllTopicsAppend(a: seq<Entry>, b: seq<Entry>)
    ensures AllTopics(a + b) == AllTopics(a) + AllTopics(b)
    decreases |a|
  {
    if a == [] {
      assert a + b == b;
    } else {
      assert (a + b)[0] == a[0] && (a + b)[1..] == a[1..] + b;
      AllTopicsAppend(a[1..], b);
    }
  }

  /** The topic list offered at start-up. */
  lemma SeedTopicList()
    ensures AllTopics(Seed()) == ["love", "peace", "food", "death", "loss", "war", "conflict",
                                  "betrayal", "heartbreak", "supernatural", "paranormal", "mystery",
                                  "gift", "rotten", "creator", "family", "electricity"]
  {
    var s := Seed();
    assert s[1..][1..][1..][1..][1..][1..][1..] == [];
  }

  /** "indifference" comes back exactly for topics no emotion lists; otherwise a key comes back. */
  lemma ResolveIndifferenceIff(entries: seq<Entry>, topic: string)
    requires WellFormed(entries)
    ensures Resolve(entries, topic) == Indifference <==> topic !in AllTopics(entries)
    ensures Resolve(entries, topic) != Indifference ==> Resolve(entries, topic) in Emotions(entries)
  {
    var i := FirstOwner(entries, topic);
    if i < |entries| {
      assert Emotions(entries)[i] == entries[i].emotion;
    }
  }

  /** With disjoint topic lists, every listed topic resolves to the emotion listing it. */
  lemma ResolveDisjoint(entries: seq<Entry>, i: nat, topic: string)
    requires DisjointTopics(entries)
    requires i < |entries| && topic in entries[i].topics
    ensures Resolve(entries, topic) == entries[i].emotion
  {
    var f := FirstOwner(entries, topic);
    assert f == i by {
      assert i >= f;
      assert f < |entries| && topic in entries[f].topics;
    }
  }

  /** No seed topic is listed under two emotions. */
  lemma SeedDisjointTopics()
    ensures DisjointTopics(Seed())
  {
    var s := Seed();
    forall i, j, t | 0 <= i < j < |s| && t in s[i].topics ensures t !in s[j].topics {
      SeedTopicNotLater(i, j, t);
    }
  }

  lemma SeedTopicNotLater(i: nat, j: nat, t: string)
    requires i < j < |Seed()| && t in Seed()[i].topics
    ensures t !in Seed()[j].topics
  {
    var s := Seed();
    if i == 0 { assert t == "love" || t == "peace" || t == "food"; }
    else if i == 1 { assert t == "death" || t == "loss"; }
    else if i == 2 { assert t == "war" || t == "conflict" || t == "betrayal" || t == "heartbreak"; }
    else if i == 3 { assert t == "supernatural" || t == "paranormal" || t == "mystery"; }
    else if i == 4 { assert t == "gift"; }
    else { assert i == 5 && t == "rotten"; }
  }

  /** The start-up keys are distinct and differ from "indifference". */
  lemma SeedWellFormed()
    ensures WellFormed(Seed())
  {
    SeedEmotions();
    SeedLabelsDistinct();
  }

  lemma SeedLabelsDistinct()
    ensures Distinct(["happiness", "sadness", "anger", "fear", "surprise", "disgust", "love"])
    ensures Indifference !in ["happiness", "sadness", "anger", "fear", "surprise", "disgust", "love"]
  {
  }

  lemma SeedEmotions()
    ensures Emotions(Seed()) == ["happiness", "sadness", "anger", "fear", "surprise", "disgust", "love"]
  {
    var s := Seed();
    assert s[1..][1..][1..][1..][1..][1..][1..] == [];
  }

  /** In the start-up table every listed topic resolves to the emotion it is listed under. */
  lemma SeedTopicsResolveToOwner(i: nat, topic: string)
    requires i < |Seed()| && topic in Seed()[i].topics
    ensures Resolve(Seed(), topic) == Seed()[i].emotion
  {
    SeedDisjointTopics();
    ResolveDisjoint(Seed(), i, topic);
  }

  /** "love" is a key and also a topic of "happiness"; the scan finds "happiness". */
  lemma LoveResolvesToHappiness()
    ensures "love" in Emotions(Seed())
    ensures Resolve(Seed(), "love") == "happiness"
  {
    assert Emotions(Seed())[6] == "love";
    ResolveFirstMatch(Seed(), "love", 0);
  }

  // ---------------------------------------------------------------------------
  // update_emotion_map
  // ---------------------------------------------------------------------------

  /** Position of the item with key `emotion`; |entries| when there is none. */
  function KeyIndex(entries: seq<Entry>, emotion: string): (i: nat)
    ensures i <= |entries|
    ensures forall j :: 0 <= j < i ==> entries[j].emotion != emotion
    ensures i < |entries| ==> entries[i].emotion == emotion
  {
    if entries == [] then 0
    else if entries[0].emotion == emotion then 0
    else 1 + KeyIndex(entries[1..], emotion)
  }

  /** The table after `update_emotion_map(emotion, keyword)`. */
  function Updated(entries: seq<Entry>, emotion: string, keyword: string): (r: seq<Entry>)
    ensures Emotions(r) == Emotions(entries)
    ensures forall i :: 0 <= i < |r| ==>
              || r[i] == entries[i]
              || (entries[i].emotion == emotion && keyword !in entries[i].topics
                  && r[i].topics == entries[i].topics + [keyword])
    ensures WellFormed(entries) ==>
              forall i :: 0 <= i < |r| && entries[i].emotion == emotion ==> keyword in r[i].topics
  {
    var i := KeyIndex(entries, emotion);
    if i < |entries| && keyword !in entries[i].topics then
      var r := entries[i := Entry(emotion, entries[i].topics + [keyword])];
      assert Emotions(r) == Emotions(entries);
      r
    else
      entries
  }

  /** The table changes exactly when `emotion` is a key whose list lacks `keyword`. */
  lemma UpdatedChangesIff(entries: seq<Entry>, emotion: string, keyword: string)
    requires WellFormed(entries)
    ensures Updated(entries, emotion, keyword) != entries
        <==> exists i :: 0 <= i < |entries| && entries[i].emotion == emotion && keyword !in entries[i].topics
  {
    var i := KeyIndex(entries, emotion);
    if exists j :: 0 <= j < |entries| && entries[j].emotion == emotion && keyword !in entries[j].topics {
      var j :| 0 <= j < |entries| && entries[j].emotion == emotion && keyword !in entries[j].topics;
      assert i == j by {
        assert i <= j;
        assert Emotions(entries)[i] == Emotions(entries)[j];
      }
      assert Updated(entries, emotion, keyword)[i].topics != entries[i].topics by {
        assert |entries[i].topics + [keyword]| != |entries[i].topics|;
      }
    }
  }

  /** Recording the same pair twice has the effect of recording it once. */
  lemma UpdatedIdempotent(entries: seq<Entry>, emotion: string, keyword: string)
    ensures Updated(Updated(entries, emotion, keyword), emotion, keyword) == Updated(entries, emotion, keyword)
  {
    var r := Updated(entries, emotion, keyword);
    var i := KeyIndex(entries, emotion);
    assert KeyIndex(r, emotion) == i by {
      assert forall j :: 0 <= j < |r| ==> r[j].emotion == entries[j].emotion by {
        assert Emotions(r) == Emotions(entries);
      }
    }
    if i < |entries| {
      assert keyword in r[i].topics;
    }
  }

  /** Recording under a label that is not a key, such as "indifference", changes nothing. */
  lemma UpdatedNonKey(entries: seq<Entry>, emotion: string, keyword: string)
    requires emotion !in Emotions(entries)
    ensures Updated(entries, emotion, keyword) == entries
  {
    assert forall j :: 0 <= j < |entries| ==> entries[j].emotion != emotion by {
      assert forall j :: 0 <= j < |entries| ==> Emotions(entries)[j] == entries[j].emotion;
    }
  }

  lemma UpdatedIndifference(entries: seq<Entry>, keyword: string)
    requires WellFormed(entries)
    ensures Updated(entries, Indifference, keyword) == entries
  {
    UpdatedNonKey(entries, Indifference, keyword);
  }

  /** Recording keeps the table well formed: no key is added or removed. */
  lemma UpdatedWellFormed(entries: seq<Entry>, emotion: string, keyword: string)
    requires WellFormed(entries)
    ensures WellFormed(Updated(entries, emotion, keyword))
  {
  }

  /** Appending at the end of one list does not change how any other topic resolves. */
  lemma ResolveAfterUpdate(entries: seq<Entry>, emotion: string, keyword: string, topic: string)
    requires topic != keyword
    ensures Resolve(Updated(entries, emotion, keyword), topic) == Resolve(entries, topic)
  {
    var r := Updated(entries, emotion, keyword);
    var f := FirstOwner(entries, topic);
    forall j | 0 <= j < |r| ensures (topic in r[j].topics <==> topic in entries[j].topics) {
      if r[j] != entries[j] {
        assert r[j].topics == entries[j].topics + [keyword];
      }
    }
    var g := FirstOwner(r, topic);
    assert f == g;
    if f < |entries| {
      assert r[f].emotion == entries[f].emotion by {
        assert Emotions(r)[f] == Emotions(entries)[f];
      }
    }
  }

  /** A topic no emotion listed, once recorded under a key, resolves to that key. */
  lemma ResolveRecordedTopic(entries: seq<Entry>, emotion: string, keyword: string)
    requires WellFormed(entries) && emotion in Emotions(entries)
    requires keyword !in AllTopics(entries)
    ensures Resolve(Updated(entries, emotion, keyword), keyword) == emotion
  {
    var r := Updated(entries, emotion, keyword);
    var i := KeyIndex(entries, emotion);
    assert i < |entries| by {
      var k :| 0 <= k < |entries| && Emotions(entries)[k] == emotion;
    }
    assert keyword !in entries[i].topics by {
      AllTopicsMembers(entries, keyword);
    }
    assert keyword in r[i].topics;
    forall j | 0 <= j < i ensures keyword !in r[j].topics {
      AllTopicsMembers(entries, keyword);
      assert r[j] == entries[j];
    }
    ResolveFirstMatch(r, keyword, i);
    assert r[i].emotion == emotion by {
      assert Emotions(r)[i] == Emotions(entries)[i];
    }
  }

  /**
   The turn step records `topic` (not `keyword`) under the emotion `topic` resolved to,
   so the absence check always fails: the table never changes.
   */
  lemma TurnLeavesTableUnchanged(entries: seq<Entry>, topic: string)
    requires WellFormed(entries)
    requires Resolve(entries, topic) != Indifference
    ensures Updated(entries, Resolve(entries, topic), topic) == entries
  {
    var f := FirstOwner(entries, topic);
    var e := Resolve(entries, topic);
    assert f < |entries| && entries[f].emotion == e;
    var i := KeyIndex(entries, e);
    assert i == f by {
      assert i <= f;
      assert Emotions(entries)[i] == Emotions(entries)[f];
    }
  }

  // ---------------------------------------------------------------------------
  // extract_topic_option and the classification reply
  // ---------------------------------------------------------------------------

  /** `extract_topic_option`: the first token, or "indifference" for None, "" or blank input. */
  function ExtractTopicOption(response: Option<string>): (r: string)
    ensures r == Indifference || IsToken(r)
    ensures response.None? || Blank(response.value) ==> r == Indifference
    ensures response.Some? && !Blank(response.value) ==> |Words(response.value)| > 0 && r == Words(response.value)[0]
  {
    if response.None? || response.value == [] then Indifference
    else
      var words := Words(response.value);
      WordsEmptyIffBlank(response.value);
      if words != [] then words[0] else Indifference
  }

  /** The option is the token before the first whitespace. */
  lemma ExtractTopicOptionFirstToken(w: string, c: char, rest: string)
    requires IsToken(w) && IsSpace(c)
    ensures ExtractTopicOption(Some(w + [c] + rest)) == w
  {
    WordsSplitAtSpace(w, c, rest);
    WordsOfToken(w);
  }

  /**
   `topic_query_ollama` given the model's reply: lower-case it, split it into
   {topic, keyword}, then read both keys (line 41), which raises KeyError when
   the reply had fewer than two tokens.
   */
  function TopicQuery(reply: string): (r: Result<Dict>)
    ensures r.Success? <==> |Words(reply)| == 2
    ensures |Words(reply)| == 0 ==> r == Failure(KeyError("topic"))
    ensures |Words(reply)| == 1 ==> r == Failure(KeyError("keyword"))
    ensures |Words(reply)| > 2 ==> r == Failure(IndexError(2))
    ensures r.Success? ==>
              r.value == [("topic", KeepLetters(Lower(Words(reply)[0]))),
                          ("keyword", KeepLetters(Lower(Words(reply)[1])))]
  {
    WordsOfLower(reply);
    var lowered := Lower(reply);
    ParseFieldsUpToTwo(lowered);
    var parsed := ParseFields(lowered, DefaultNames);
    if parsed.Failure? then Failure(parsed.error)
    else if Lookup(parsed.value, "topic").None? then Failure(KeyError("topic"))
    else if Lookup(parsed.value, "keyword").None? then Failure(KeyError("keyword"))
    else parsed
  }

  /** Reading both keys of a successful query gives the two lowered, letter-only tokens. */
  lemma TopicQueryFields(reply: string)
    requires TopicQuery(reply).Success?
    ensures |Words(reply)| == 2
    ensures Lookup(TopicQuery(reply).value, "topic") == Some(KeepLetters(Lower(Words(reply)[0])))
    ensures Lookup(TopicQuery(reply).value, "keyword") == Some(KeepLetters(Lower(Words(reply)[1])))
  {
    var a := KeepLetters(Lower(Words(reply)[0]));
    var b := KeepLetters(Lower(Words(reply)[1]));
    var d := [("topic", a), ("keyword", b)];
    assert TopicQuery(reply).value == d;
    assert d[0].0 == "topic";
    assert d[0].0 != "keyword" by { assert |d[0].0| != |"keyword"|; }
    assert d[1..] == [("keyword", b)];
  }

  /** The dict `split_to_dict` gives for at most two tokens and the default names. */
  lemma ParseFieldsUpToTwo(text: string)
    ensures |Words(text)| == 0 ==> ParseFields(text, DefaultNames) == Success([])
    ensures |Words(text)| == 1 ==> ParseFields(text, DefaultNames) == Success([("topic", KeepLetters(Words(text)[0]))])
    ensures |Words(text)| == 2 ==>
              ParseFields(text, DefaultNames)
              == Success([("topic", KeepLetters(Words(text)[0])), ("keyword", KeepLetters(Words(text)[1]))])
  {
    var ws := Words(text);
    if |ws| == 1 {
      assert ws[..0] == [];
      assert Fields(ws[..0], DefaultNames) == [];
    } else if |ws| == 2 {
      ParseFieldsTwoTokens(text);
    }
  }

  /** A reply of two tokens separated by a space parses to its two lower-cased, letter-only tokens. */
  lemma TopicQueryTwoTokens(a: string, b: string)
    requires IsToken(a) && IsToken(b)
    ensures TopicQuery(a + " " + b) == Success([("topic", KeepLetters(Lower(a))), ("keyword", KeepLetters(Lower(b)))])
  {
    assert JoinWords([a, b]) == a + " " + b;
    WordsOfJoinWords([a, b]);
  }

  /** The reply is lower-cased before parsing: "LOVE family!" gives {topic: "love", keyword: "family"}. */
  lemma TopicQueryLowersReply()
    ensures TopicQuery("LOVE family!") == Success([("topic", "love"), ("keyword", "family")])
  {
    assert "LOVE family!" == "LOVE" + " " + "family!";
    TopicQueryTwoTokens("LOVE", "family!");
    LoveFamilyLetters();
  }

  lemma LoveFamilyLetters()
    ensures KeepLetters(Lower("LOVE")) == "love" && KeepLetters(Lower("family!")) == "family"
  {
    LowerLove();
    PlainLetters("love");
    FamilyLetters();
  }

  lemma LowerLove()
    ensures Lower("LOVE") == "love"
  {
  }

  lemma FamilyLetters()
    ensures KeepLetters(Lower("family!")) == "family"
  {
    assert Lower("family!") == "family!";
    assert "family!" == "family" + "!";
    KeepLettersAppend("family", "!");
    KeepLettersOfLetters("family");
  }

  /** The reply "food yum" parses to {topic: "food", keyword: "yum"}. */
  lemma FoodYumReply()
    ensures TopicQuery("food yum") == Success([("topic", "food"), ("keyword", "yum")])
  {
    assert "food yum" == "food" + " " + "yum";
    TopicQueryTwoTokens("food", "yum");
    FoodYumLetters();
  }

  lemma FoodYumLetters()
    ensures KeepLetters(Lower("food")) == "food" && KeepLetters(Lower("yum")) == "yum"
  {
    PlainLetters("food");
    PlainLetters("yum");
  }

  /** With the start-up table, topic "food" resolves to "happiness" and nothing is recorded. */
  lemma FoodYumTurn()
    ensures Resolve(Seed(), "food") == "happiness"
    ensures Updated(Seed(), "happiness", "food") == Seed()
  {
    SeedTopicsResolveToOwner(0, "food");
    SeedWellFormed();
    TurnLeavesTableUnchanged(Seed(), "food");
  }

  lemma PlainLetters(w: string)
    requires forall i :: 0 <= i < |w| ==> 'a' <= w[i] <= 'z'
    ensures KeepLetters(Lower(w)) == w
  {
    assert Lower(w) == w;
    KeepLettersOfLetters(w);
  }

  /** The reply "robots beep" parses to {topic: "robots", keyword: "beep"}. */
  lemma RobotsBeepReply()
    ensures TopicQuery("robots beep") == Success([("topic", "robots"), ("keyword", "beep")])
  {
    assert "robots beep" == "robots" + " " + "beep";
    TopicQueryTwoTokens("robots", "beep");
    RobotsBeepLetters();
  }

  lemma RobotsBeepLetters()
    ensures KeepLetters(Lower("robots")) == "robots" && KeepLetters(Lower("beep")) == "beep"
  {
    PlainLetters("robots");
    PlainLetters("beep");
  }

  /** With the start-up table, topic "robots" resolves to "indifference", so nothing is recorded. */
  lemma RobotsBeepTurn()
    ensures Resolve(Seed(), "robots") == Indifference
  {
    SeedWellFormed();
    SeedTopicList();
    RobotsNotListed();
    ResolveIndifferenceIff(Seed(), "robots");
  }

  lemma RobotsNotListed()
    ensures "robots" !in ["love", "peace", "food", "death", "loss", "war", "conflict",
                          "betrayal", "heartbreak", "supernatural", "paranormal", "mystery",
                          "gift", "rotten", "creator", "family", "electricity"]
  {
  }

  // ---------------------------------------------------------------------------
  // The table as the program holds it: one object, updated in place
  // ---------------------------------------------------------------------------

  class EmotionMap {
    var entries: seq<Entry>

    ghost predicate Valid()
      reads this
    {
      WellFormed(entries)
    }

    /** The table as the module defines it at start-up. */
    constructor ()
      ensures Valid() && entries == Seed()
    {
      entries := Seed();
      SeedWellFormed();
    }

    /** `get_emotion`: scan the items in order, stop at the first list holding `topic`. */
    method GetEmotion(topic: string) returns (emotion: string)
      ensures emotion == Resolve(entries, topic)
    {
      var i := 0;
      while i < |entries|
        invariant 0 <= i <= |entries|
        invariant forall j :: 0 <= j < i ==> topic !in entries[j].topics
      {
        if topic in entries[i].topics {
          return entries[i].emotion;
        }
        i := i + 1;
      }
      return Indifference;
    }

    /** `update_emotion_map`: append `keyword` to the list of `emotion` when it is a key and the list lacks it. */
    method UpdateEmotionMap(emotion: string, keyword: string)
      requires Valid()
      modifies this
      ensures Valid()
      ensures entries == Updated(old(entries), emotion, keyword)
    {
      UpdatedWellFormed(entries, emotion, keyword);
      var i := KeyIndex(entries, emotion);
      if i < |entries| && keyword !in entries[i].topics {
        entries := entries[i := Entry(emotion, entries[i].topics + [keyword])];
      }
    }

    /**
     One turn of `main` after the reply to the classification prompt came back:
     parse it, resolve the topic, and record the topic when a keyword was given
     and an emotion was found.  A failed parse is the exception that ends `main`.
     */
    method ResolveTurn(reply: string) returns (r: Result<Resolution>)
      requires Valid()
      modifies this
      ensures Valid() && entries == old(entries)
      ensures r.Success? <==> |Words(reply)| == 2
      ensures r.Failure? ==> r.error == TopicQuery(reply).error
      ensures r.Success? ==>
                && r.value.topic == KeepLetters(Lower(Words(reply)[0]))
                && r.value.keyword == KeepLetters(Lower(Words(reply)[1]))
                && r.value.emotion == Resolve(entries, r.value.topic)
    {
      var response := TopicQuery(reply);
      if response.Failure? {
        return Failure(response.error);
      }
      TopicQueryFields(reply);
      var d := response.value;
      var topic := Lookup(d, "topic").value;
      var emotion := GetEmotion(topic);
      var keyword := Lookup(d, "keyword").value;
      if keyword != [] && emotion != Indifference {
        TurnLeavesTableUnchanged(entries, topic);
        UpdateEmotionMap(emotion, topic);
      }
      return Success(Resolution(topic, keyword, emotion));
    }
  }
}

# Emotion prompt: reply parser and emotion/topic table

The emotion prompt system is a small chat loop. It asks a local language model to
classify the user's prompt into one of a fixed set of topics, maps that topic to an
emotion, and asks the model again to answer in that emotion. This project models the
part of that loop that is logic rather than I/O:

- `split_to_dict` (utils.py). It splits a reply on whitespace. It stores token *i*,
  with every character outside `[a-zA-Z]` removed, under field name *i*. By default the
  names are `topic` and `keyword`.
- The `emotion_map` table (emotion-prompt.py) and its operations:
  - `get_emotion`: an ordered scan, where the first emotion whose list holds the topic
    wins, with an `"indifference"` fallback;
  - `update_emotion_map`: appends a keyword in place, only when it is absent;
  - `extract_topic_option`;
  - the flattening of the table into the topic list offered to the model;
  - the parse of the model's reply in `topic_query_ollama`;
  - one turn of `main`, from the parsed reply to the table update.

Layout:

- `outcomes.dfy` (module `Outcomes`) holds `Option`, `Result`, and the two Python
  exceptions the modelled paths raise, `IndexError` and `KeyError`.
- `text.dfy` (module `Text`) models the three string primitives the code relies on:
  - `str.split()` (`Words`), using Python's whitespace set;
  - `re.sub('[^a-zA-Z]', '', w)` (`KeepLetters`);
  - `str.lower()` on ASCII (`Lower`).
- `utils.dfy` (module `Utils`) models a Python dict as an association list in insertion
  order. `Assign` is `d[k] = v`: an existing key keeps its place, a new key goes last.
  `split_to_dict` appears twice:
  - the specification function `ParseFields`;
  - the loop `SplitToDict`, which is proved equal to it.
- `emotion_prompt.dfy` (module `EmotionPrompt`) has two parts:
  - The table is a sequence of `Entry(emotion, topics)` items in dict order. Order
    matters, because `"love"` is both a key and a topic of `"happiness"`.
  - The class `EmotionMap` holds the table as a field. Its methods are:
    - `GetEmotion`, the scanning loop;
    - `UpdateEmotionMap`, which appends in place;
    - `ResolveTurn`, one turn of `main`.
    Each method is proved against the functions `Resolve` and `Updated`.

The model follows the code where the documentation says otherwise:

- The docstring of `split_to_dict` (utils.py:13-14) promises a `ValueError` unless the
  text has exactly two words. The code raises nothing of the kind:
  - fewer tokens give a partial dict;
  - more tokens than names raise `IndexError` at `arrOfNames[len(arrOfNames)]`.
- The turn step calls `update_emotion_map(emotion, topic)` with the *topic*, which was
  just found in that emotion's list. The absence check therefore always fails, and the
  table never changes during a run. The model keeps this behaviour and proves it
  (`TurnLeavesTableUnchanged`, `EmotionPrompt.EmotionMap.ResolveTurn`).

## Model

| member | source | states |
|---|---|---|
| Text.Word | utils.py:18 | one token: the longest whitespace-free prefix, stopped by a whitespace character |
| Text.Words | utils.py:18 | `str.split()` never yields an empty token or one containing whitespace, and yields at most one token per character |
| Text.WordsEmptyIffBlank | utils.py:18 | the split is empty exactly when the text is empty or all whitespace |
| Text.WordsSplitAtSpace | utils.py:18 | splitting distributes over a whitespace separator, so runs of whitespace give no empty tokens |
| Text.WordsOfJoinWords | utils.py:18 | round trip: tokens joined by single spaces split back into the same tokens |
| Text.KeepLetters | utils.py:26 | the filtered token holds only ASCII letters and is no longer than the token |
| Text.KeepLettersAppend | utils.py:26 | the filter works character by character, so the kept letters keep their order |
| Text.KeepLettersCounts | utils.py:26 | every ASCII letter of the token survives as often as it occurs; every other character is dropped |
| Text.KeepLettersOfLetters | utils.py:26 | a token made of letters only is stored unchanged, so case is preserved |
| Text.KeepLettersOfNoLetters | utils.py:26 | a token without letters, such as "123", is filtered to the empty string |
| Text.KeepLettersIdempotent | utils.py:26 | filtering twice is filtering once |
| Text.Lower | emotion-prompt.py:40 | `str.lower()` on ASCII: same length, no upper-case letter left, letters stay letters, each upper-case letter becomes the letter 32 code points above it, every other character is unchanged, and whitespace stays whitespace |
| Text.WordsOfLower | emotion-prompt.py:40 | lower-casing before splitting gives the same number of tokens, each of them lower-cased |
| Utils.Lookup | emotion-prompt.py:41 | `d[k]` yields a value exactly when `k` is a key of the dict, and otherwise fails (KeyError) |
| Utils.Assign | utils.py:26 | after `d[k] = v`, looking up `k` gives `v` |
| Utils.AssignKeys | utils.py:26 | `d[k] = v` keeps the key order for an existing key and appends `k` for a new one |
| Utils.AssignKeepsOtherKeys | utils.py:26 | `d[k] = v` leaves the value of every other key as it was, present or absent |
| Utils.AssignNewKeyAppends | utils.py:24-26 | storing a new key appends the pair at the end of the dict |
| Utils.Fields | utils.py:24-26 | every value the pairing loop stores is made of ASCII letters only, whatever the names |
| Utils.FieldsStep | utils.py:25-26 | one more turn of the loop stores token i, letters only, under name i in the dict built so far |
| Utils.ParseFields | utils.py:3-27 | split_to_dict succeeds exactly when there are no more tokens than names, and otherwise fails with IndexError at index len(names) |
| Utils.SplitToDict | utils.py:18-27 | the enumerate loop returns exactly the ParseFields result: the IndexError at the first token without a name, or the complete dict |
| Utils.FieldsInOrder | utils.py:24-26 | with distinct names, the dict has one pair per token in token order: name i with token i filtered |
| Utils.ParseFieldsKeys | utils.py:18-26 | with distinct names, the keys are exactly the first len(words) names, in order |
| Utils.ParseFieldsValues | utils.py:25-26 | with distinct names, the value under name i is token i with its non-letters removed |
| Utils.LookupDistinct | utils.py:24-26 | in a dict with distinct keys, looking up the i-th key gives the i-th value |
| Utils.ParseFieldsLettersOnly | utils.py:26 | every value in a successfully parsed dict contains only ASCII letters |
| Utils.ParseFieldsBlank | utils.py:18-27 | empty or whitespace-only text gives the empty dict |
| Utils.ParseFieldsTwoTokens | utils.py:3-26 | two tokens and the default names give {topic: first filtered, keyword: second filtered} |
| Utils.FieldsOfTwo | utils.py:3-26 | the loop over two tokens with the default names builds topic first, then keyword |
| Utils.ParseFieldsDigitsToken | utils.py:26 | "123 love" gives {topic: "", keyword: "love"}: a letterless token still creates its key |
| Utils.ParseFieldsExample | utils.py:18-26 | "LOVE   family!" gives {topic: "LOVE", keyword: "family"}: case is kept and the run of spaces yields no empty token |
| Utils.ParseFieldsThreeTokens | utils.py:25-26 | any three tokens against the two default names fail with IndexError(2) |
| EmotionPrompt.Emotions | emotion-prompt.py:17-25 | the keys of the table, one per item, in item order |
| EmotionPrompt.FirstOwner | emotion-prompt.py:95-96 | the scan position: no earlier item lists the topic, and the item found (if any) does |
| EmotionPrompt.Resolve | emotion-prompt.py:93-98 | get_emotion returns "indifference" or a key of the table, and "indifference" whenever no list holds the topic |
| EmotionPrompt.ResolveFirstMatch | emotion-prompt.py:95-97 | get_emotion returns the emotion of the first item, in table order, whose list holds the topic |
| EmotionPrompt.ResolveIndifferenceIff | emotion-prompt.py:95-98 | "indifference" comes back exactly when the topic is in no list; otherwise the result is a key of the table |
| EmotionPrompt.ResolveDisjoint | emotion-prompt.py:95-97 | when no topic is listed twice, every listed topic resolves to the emotion listing it |
| EmotionPrompt.SeedWellFormed | emotion-prompt.py:17-25 | the start-up keys are distinct and "indifference" is not one of them |
| EmotionPrompt.SeedEmotions | emotion-prompt.py:17-25 | the start-up keys, in dict order |
| EmotionPrompt.SeedDisjointTopics | emotion-prompt.py:17-25 | no start-up topic is listed under two emotions |
| EmotionPrompt.SeedTopicNotLater | emotion-prompt.py:17-25 | a start-up topic listed under one emotion is absent from every later emotion's list |
| EmotionPrompt.SeedTopicsResolveToOwner | emotion-prompt.py:17-98 | in the start-up table every topic T listed under emotion E resolves to E |
| EmotionPrompt.LoveResolvesToHappiness | emotion-prompt.py:95-97 | "love" is a key, yet get_emotion("love") is "happiness", found first in the scan |
| EmotionPrompt.AllTopics | emotion-prompt.py:34 | the flattened list holds a topic exactly when the scan finds an owner for it |
| EmotionPrompt.AllTopicsMembers | emotion-prompt.py:34 | a topic is offered to the model exactly when some emotion lists it |
| EmotionPrompt.AllTopicsAppend | emotion-prompt.py:34 | the flattened list is the concatenation of the items' lists, in table order |
| EmotionPrompt.SeedTopicList | emotion-prompt.py:17-34 | the 17 topics offered at start-up, in order |
| EmotionPrompt.KeyIndex | emotion-prompt.py:89 | position of the item keyed by the emotion; no earlier item has that key |
| EmotionPrompt.Updated | emotion-prompt.py:89-90 | the update keeps every key; each item is unchanged, or it is the emotion's item lacking the keyword with the keyword appended; on a well-formed table the emotion's list then holds the keyword |
| EmotionPrompt.UpdatedChangesIff | emotion-prompt.py:89-90 | the table changes exactly when the emotion is a key whose list lacks the keyword |
| EmotionPrompt.UpdatedIdempotent | emotion-prompt.py:89-90 | recording the same pair twice is the same as recording it once |
| EmotionPrompt.UpdatedNonKey | emotion-prompt.py:89 | recording under a label that is not a key changes nothing |
| EmotionPrompt.UpdatedIndifference | emotion-prompt.py:89-90 | recording under "indifference" changes nothing |
| EmotionPrompt.UpdatedWellFormed | emotion-prompt.py:89-90 | the update adds and removes no key, so the table stays well formed |
| EmotionPrompt.ResolveAfterUpdate | emotion-prompt.py:89-97 | appending a keyword does not change how any other topic resolves |
| EmotionPrompt.ResolveRecordedTopic | emotion-prompt.py:89-97 | a topic no emotion listed resolves, once recorded under a key, to that key |
| EmotionPrompt.TurnLeavesTableUnchanged | emotion-prompt.py:124-129 | recording the resolved topic under the emotion it resolved to never changes the table |
| EmotionPrompt.ExtractTopicOption | emotion-prompt.py:73-78 | the result is "indifference" or a token; None, empty or blank input gives "indifference"; otherwise it is the first whitespace token |
| EmotionPrompt.ExtractTopicOptionFirstToken | emotion-prompt.py:77-78 | the option is the token before the first whitespace character |
| EmotionPrompt.TopicQuery | emotion-prompt.py:40-41 | the lowered reply parses and both keys are read exactly when it has two tokens; no token is KeyError("topic"), one is KeyError("keyword"), more than two is IndexError(2); success gives the two lowered, letter-only tokens |
| EmotionPrompt.TopicQueryFields | emotion-prompt.py:41 | after a successful query, `response_dict["topic"]` and `response_dict["keyword"]` are the two lowered, letter-only tokens |
| EmotionPrompt.ParseFieldsUpToTwo | utils.py:3-27 | with the default names, zero, one or two tokens give the empty dict, {topic}, or {topic, keyword} |
| EmotionPrompt.TopicQueryTwoTokens | emotion-prompt.py:40-41 | any two tokens separated by a space parse to their lowered, letter-only forms |
| EmotionPrompt.TopicQueryLowersReply | emotion-prompt.py:40 | the reply "LOVE family!" parses to {topic: "love", keyword: "family"} |
| EmotionPrompt.LoveFamilyLetters | utils.py:26 | lowering and filtering "LOVE" and "family!" give "love" and "family" |
| EmotionPrompt.FoodYumReply | emotion-prompt.py:40-41 | the reply "food yum" parses to {topic: "food", keyword: "yum"} |
| EmotionPrompt.FoodYumLetters | utils.py:26 | lowering and filtering leave "food" and "yum" as they are |
| EmotionPrompt.FoodYumTurn | emotion-prompt.py:124-129 | with the start-up table, topic "food" resolves to "happiness" and the recording changes nothing |
| EmotionPrompt.PlainLetters | utils.py:26 | a token of lower-case letters is unchanged by lowering and filtering |
| EmotionPrompt.RobotsBeepReply | emotion-prompt.py:40-41 | the reply "robots beep" parses to {topic: "robots", keyword: "beep"} |
| EmotionPrompt.RobotsBeepLetters | utils.py:26 | lowering and filtering leave "robots" and "beep" as they are |
| EmotionPrompt.RobotsBeepTurn | emotion-prompt.py:93-98 | with the start-up table, topic "robots" resolves to "indifference", so no update is attempted |
| EmotionPrompt.EmotionMap.constructor | emotion-prompt.py:17-25 | the object starts with the start-up table, which is well formed |
| EmotionPrompt.EmotionMap.GetEmotion | emotion-prompt.py:93-98 | the scanning loop with early return gives exactly Resolve(table, topic) |
| EmotionPrompt.EmotionMap.UpdateEmotionMap | emotion-prompt.py:81-90 | the in-place append leaves the table equal to Updated(old table, emotion, keyword) and keeps it well formed |
| EmotionPrompt.EmotionMap.ResolveTurn | emotion-prompt.py:116-129 | a turn succeeds exactly when the reply has two tokens and otherwise fails with TopicQuery's exception; topic and keyword are the lowered, letter-only tokens; the emotion is the table's resolution of the topic; the table is unchanged |

## Left out

- `query_ollama` (emotion-prompt.py:49-71) is an HTTP request to the model server. Its
  reply is a plain `string` parameter of `TopicQuery` and `ResolveTurn`.
- When the request fails, `query_ollama` returns `None`, and `result.lower()` then
  crashes (emotion-prompt.py:40). This path is not modelled: the reply is always a
  string.
- `emotional_query_ollama` and the wording of the prompt f-strings (emotion-prompt.py:35-37,
  45) are free text sent to the model. Only the topic list at line 34 is modelled
  (`AllTopics`). The `', '.join` rendering of that list is not.
- The interactive loop of `main` is console I/O and is not modelled:
  - `input`;
  - the `"quit"` and empty-prompt checks;
  - `time.sleep(2)`;
  - the final answer and its printing.
- The import guard with `exit(1)` (emotion-prompt.py:1-5) is not modelled.
- Every `print`, including `print(words)` at utils.py:21, is output only.
- The write to the module-level `new_dict` (utils.py:17, 24) is incidental global state.
  Only the returned dict is modelled.
- The check `if not topic_response` (emotion-prompt.py:119) cannot fire once
  `topic_query_ollama` has returned: line 41 already read both keys, so the dict is not
  empty. `ResolveTurn` has no such branch.
- `Lower` covers ASCII only. Python's `str.lower()` also maps non-ASCII letters, such as
  KELVIN SIGN to `k`. A non-ASCII character that lowers to an ASCII letter would survive
  the filter in Python but not in the model.
- Utils.ParseFieldsKeys: stated only for names that are pairwise distinct, as the default
  names are. With a repeated name, a later token overwrites the earlier value
  (`Assign`), and the keys are then fewer than the tokens.
- Utils.ParseFieldsValues: stated only for pairwise distinct names, for the same reason.
- Utils.FieldsInOrder: stated only for pairwise distinct names, for the same reason.
- There is no concurrency in the modelled code.

# FashionAIStyle in Dafny

A model of the logic of FashionAIStyle, a fashion-advice web application.
It has a Flask backend (`app.py`), an admin page script
(`static/js/admin.js`) and a React front end (`src/App.tsx`). The
project models and proves properties of:

- **the backend's knowledge-base logic**:
  - quiz scoring and choosing the dominant style (`/api/style_quiz`);
  - the upload file-name whitelist (`allowed_file`, `/upload_image`);
  - the new-data check (`validate_new_data`);
  - the in-place merge of new data into the knowledge base (`/api/train_ai`);
  - the lookups with their fallbacks and the message of `/api/style_recommendation`;
- **the admin form's reshaping** of form entries into the nested-or-list
  object that it posts;
- **the React session**: the component's state record and the handlers
  that update it.

Files and modules:

| file | module | models |
|---|---|---|
| `text.dfy` | `Text` | Python's ASCII `lower`, `rsplit('.', 1)`, `', '.join`; JavaScript's `split`, `trim`, `replace` of a character |
| `json.dfy` | `Json` | JSON values; objects keep their key order |
| `knowledge_base.dfy` | `KnowledgeBase` | `validate_new_data`; the `train_ai` merge; the class `KnowledgeStore` holding the mutable knowledge base |
| `style_quiz.dfy` | `StyleQuiz` | scores and `max` with its first-wins tie-break |
| `upload.dfy` | `Upload` | `allowed_file`; the checks of `/upload_image` |
| `recommendation.dfy` | `Recommendation` | the outfit, colour and body-type fallbacks; the message template |
| `admin_form.dfy` | `AdminForm` | a method with the form loop, proved against a fold `Reshape` over the entries |
| `session.dfy` | `Session` | a transition function `Next` on a `SessionState` record, plus the class `Page` whose handler methods are proved to perform those transitions |

Decisions in the model:

- **Key order.** JSON objects carry their key order beside the key-to-value
  map, because results depend on it:
  - Python's `max` returns the first style with the top score, in the
    order of `style_personalities`;
  - `dict.update` keeps the existing keys in place and appends the new
    ones.
- **Exceptions** Python raises become `None` or an `InternalError` response.
- **Partial merge.** A merge that raises part-way keeps the sections merged
  before the failure, as the in-place loop does.
- **Outside inputs on the front end.** Network replies and the outcome of
  `JSON.parse` are parameters of the session's events.
- **admin.js as written.** `static/js/admin.js:11-13` splits a field name
  at '[' and keeps the first two pieces, so not every `key[subkey]` name
  becomes the nested field `key.subkey`:
  - a bracketed field whose main key already holds a list does not reach
    the posted object;
  - only the text between the first and the second '[' is the sub-key, with
    its first ']' removed, so `a[x]y` has the sub-key `xy` and `a[b]]` the
    sub-key `b]`.
- **Outside outcomes on the backend.** Whether saving the knowledge file
  and retraining the model finish without raising is a parameter of
  `TrainAi`. Whether saving an upload and decoding it with cv2 finish
  without raising is a parameter of `UploadImage`.

## Model

| member | source | states |
|---|---|---|
| Text.Lower | app.py:98-99 | the length is kept and each ASCII capital becomes its small letter; every other character is kept |
| Text.LowerIdempotent | app.py:98-99 | lower-casing twice is lower-casing once |
| Text.LastIndexOf | app.py:226 | -1 exactly when the character is absent, otherwise the position of its last occurrence |
| Text.IndexOf | static/js/admin.js:13 | -1 exactly when the character is absent, otherwise the position of its first occurrence |
| Text.RemoveFirst | static/js/admin.js:13 | unchanged when the character is absent, otherwise one occurrence of it is gone |
| Text.RemoveFirstAfterPiece | static/js/admin.js:13 | the occurrence removed is the first one: `x + [c] + y` becomes `x + y` when `x` lacks `c` |
| Text.Split | static/js/admin.js:11-15 | at least one piece, and no piece holds the separator |
| Text.SplitCount | static/js/admin.js:11-15 | one piece more than the separator has occurrences |
| Text.JoinSplit | static/js/admin.js:11-15 | joining the pieces with the separator gives the text back |
| Text.SplitJoin | static/js/admin.js:11-15 | splitting separator-free pieces joined by the separator gives the pieces back |
| Text.SplitAfterPiece | static/js/admin.js:11 | a separator-free piece before the first separator is the first piece, and splitting the rest gives the other pieces |
| Text.SplitNoSeparator | static/js/admin.js:11 | text without the separator splits into itself alone |
| Text.JoinSnoc | app.py:132-133 | `sep.join` of one more part is the earlier join, the separator and that part |
| Text.JoinLength | app.py:132-133 | a join is as long as its parts together plus one separator between each two neighbours |
| Text.OccursAt | app.py:113-121 | Python's `in` on two strings: true exactly when the key is a slice of the text at some position |
| Text.LeadingSpace | static/js/admin.js:15 | the length of the longest all-whitespace prefix: it is all whitespace and the next character, if any, is not |
| Text.TrailingSpace | static/js/admin.js:15 | the length up to the longest all-whitespace suffix: it is all whitespace and the character before it, if any, is not |
| Text.TrimStart | static/js/admin.js:15 | a suffix that does not start with whitespace, with only whitespace removed before it |
| Text.TrimEnd | static/js/admin.js:15 | a prefix that does not end with whitespace, with only whitespace removed after it |
| Text.Trim | static/js/admin.js:15 | neither starts nor ends with whitespace |
| Text.TrimRemovesOnlySpace | static/js/admin.js:15 | the trim is a slice of the text, and everything before and after that slice is whitespace |
| Text.TrimOfTrimmed | static/js/admin.js:15 | trimming text that is already trimmed changes nothing |
| Text.TrimAfterSpace | static/js/admin.js:15 | a leading whitespace character does not change the trim |
| Text.SplitTrimmed | static/js/admin.js:15 | one trimmed item per comma plus one, each item the trim of its piece |
| Text.SplitTrimmedJoin | static/js/admin.js:15 | trimmed, comma-free items joined with ", " come back as the same items |
| Json.StringList | app.py:132-133 | some list exactly when the value is an array whose elements are all strings, and then those strings in order |
| KnowledgeBase.ValidateNewData | app.py:228-233 | true exactly when every key of the new data already names a section |
| KnowledgeBase.Elements | app.py:172 | what `extend` iterates: the items of a list, the characters of a string, the keys of a dict; anything else raises |
| KnowledgeBase.NewKeys | app.py:174 | exactly the incoming keys the dict lacks, without repetition when the incoming keys have none |
| KnowledgeBase.NewKeysAppend | app.py:174 | the new keys of two lists in a row are those of the first followed by those of the second |
| KnowledgeBase.NewKeysKeepOrder | app.py:174 | of two incoming keys the dict lacks, the earlier comes among the new keys before the later, which follows the new keys taken from before it |
| KnowledgeBase.UpdateObject | app.py:174 | the incoming entries overwrite and add to the dict; the old keys keep their places at the front and the new keys follow in the order the incoming dict has them |
| KnowledgeBase.UpdateKeepsIncomingOrder | app.py:174 | of two keys the incoming dict adds, the earlier one comes before the later one in the updated dict |
| KnowledgeBase.MergeValue | app.py:170-174 | a list section gets the new elements after its old ones, which stay in order; a dict section is updated, the new keys following in incoming order; any other section is kept; raises exactly on a non-iterable value for a list or a non-dict for a dict |
| KnowledgeBase.MergeKeys | app.py:169-174 | the loop adds and removes no section, and the knowledge base stays well formed |
| KnowledgeBase.FirstFailure | app.py:169-174 | the first key whose merge raises, or the number of keys when none does |
| KnowledgeBase.MergeKeysFrame | app.py:169-174 | sections that the keys do not name are unchanged |
| KnowledgeBase.MergeKeysPrefix | app.py:169-174 | one more key is one more pass of the loop body, unless the loop has already raised |
| KnowledgeBase.MergeStep | app.py:169-174 | one pass adds no section and changes at most its own; it raises exactly when that section exists and cannot take the new value, and then changes nothing; otherwise the section holds its merge |
| KnowledgeBase.MergeKeysLast | app.py:169-174 | the loop over one more key raises exactly when the shorter loop raised or the new key fails, and changes only the new key's section |
| KnowledgeBase.FirstFailureLast | app.py:169-174 | one more key moves the first failure only when none came before: an earlier failure stays, otherwise the first failure is the new key exactly when that key fails |
| KnowledgeBase.MergeKeysOk | app.py:169-174 | the loop succeeds exactly when no key raises |
| KnowledgeBase.MergeKeysMerged | app.py:169-174 | the sections named before the first failing key hold their merge |
| KnowledgeBase.MergeKeysUntouched | app.py:169-174 | the failing section and those named after it keep their old values |
| KnowledgeBase.MergeKeysSpec | app.py:169-174 | the loop succeeds exactly when no key raises; sections before the first failure are merged; the others keep their old values |
| KnowledgeBase.Merge | app.py:169-174 | the merge of a well-formed knowledge base adds and removes no section and keeps it well formed |
| KnowledgeBase.MergeSpec | app.py:169-174 | no section is added; unmentioned sections are unchanged; success exactly when every mentioned section merges; on success each mentioned section is its merge |
| KnowledgeBase.MergeStopped | app.py:169-174 | once the loop has raised, later keys change nothing |
| KnowledgeBase.KnowledgeStore.constructor | app.py:36-37 | the store holds the knowledge base as it was loaded |
| KnowledgeBase.KnowledgeStore.TrainAi | app.py:160-185 | new data that is not a dict gives a 500 and no change; an unknown section gives a 400 with "Invalid data format" and no change; otherwise the knowledge base becomes the merge, and the reply is the retrained message when the merge and the save-and-retrain steps succeed, a 500 otherwise |
| StyleQuiz.Score | app.py:150 | at most the number of answers |
| StyleQuiz.ScoreIsOccurrences | app.py:150 | a style's score is the number of answers equal to it |
| StyleQuiz.DominantIndex | app.py:151 | no style scores higher than the chosen one, and every style before it scores strictly less, which is the first-wins tie-break of `max` |
| StyleQuiz.NoMatchingAnswerPicksFirst | app.py:147-151 | with no answer naming a style, including no answers at all, the first style wins |
| StyleQuiz.TotalScoreSnoc | app.py:150 | one more answer adds one point to each style it names |
| StyleQuiz.Hits | app.py:150 | a string that is not a style names none |
| StyleQuiz.HitsAtMostOne | app.py:150 | among distinct styles, an answer names at most one |
| StyleQuiz.TotalScoreBound | app.py:147-150 | the scores add up to at most the number of answers, and to zero when no answer names a style |
| StyleQuiz.ZeroScores | app.py:147-150 | with no answers, every score is zero |
| StyleQuiz.StyleQuiz | app.py:144-156 | gives a result exactly when `style_personalities` is a non-empty dict; the result is a style with its description that scores no lower than any other and is the first such in key order |
| Upload.AllowedFile | app.py:225-226 | an accepted name holds a '.' and has an extension of three or four characters after its last '.' |
| Upload.AllowedFileSpec | app.py:225-226 | true exactly when the name has a '.' and the text after the last '.', lower-cased, is png, jpg, jpeg or gif |
| Upload.LastDotUnique | app.py:226 | the last '.' of a name is at one position only |
| Upload.AllowedFileIgnoresCase | app.py:226 | lower-casing the name does not change the verdict |
| Upload.LowerKeepsLastDot | app.py:226 | lower-casing does not move the last '.' |
| Upload.SameExtensionSameVerdict | app.py:226 | two names with the last '.' at the same place and the same lower-cased extension get the same verdict |
| Upload.LowerSuffix | app.py:226 | lower-casing commutes with taking a suffix |
| Upload.BareExtensionRefused | app.py:225-226 | "png" is refused |
| Upload.DoubleExtensionRefused | app.py:225-226 | "a.tar.gz" is refused |
| Upload.UpperCaseExtensionAccepted | app.py:225-226 | "x.PNG" is accepted |
| Upload.UploadImage | app.py:187-200 | the style "classic" exactly when there is a file with an allowed name and saving and analysing it succeed; a 500 exactly when the name is allowed but that fails; otherwise "No file part", "No selected file" or "File type not allowed" |
| Recommendation.Contains | app.py:108-121 | Python's `key in section` with a string key: a key of a dict, an element of a list, a substring of a string; any other section raises |
| Recommendation.Lookup | app.py:109-119 | `section[key]` for a string key gives a value exactly when the section is a dict holding the key, and that value |
| Recommendation.OutfitWords | app.py:132 | what `', '.join` iterates: the strings of a list of strings, the characters of a string, the keys of a dict; any other value raises |
| Recommendation.Outfit | app.py:108-111 | a rule only when the style rules are a dict: the rule for the occasion when they hold it, else the rule for "casual", and always one when they hold the occasion |
| Recommendation.ColorScheme | app.py:113-116 | the colour followed by its combinations when the colour section holds it and maps it to a list of strings; black and white when it does not hold it; raises otherwise |
| Recommendation.BodyTypeAdvice | app.py:118-121 | the advice for the body type when the section holds it and maps it to a string; the comfort sentence when it does not hold it; raises otherwise |
| Recommendation.Message | app.py:128-135 | starts with "For a <occasion> occasion, we recommend a " and ends with the body-type advice |
| Recommendation.StyleRecommendation | app.py:97-136 | a successful answer has a dict of style rules. The outfit is the rule for the occasion, or for "casual" when the occasion has none, and `', '.join` accepts it. The colours are those of `ColorScheme` for the lower-cased colour and the advice that of `BodyTypeAdvice` for the lower-cased body type. The predicted style is passed through, and the message is filled in from these |
| Recommendation.RecommendationIgnoresCase | app.py:98-99 | the case of the typed colour and body type does not matter |
| Recommendation.RecommendationSucceeds | app.py:108-133 | a recommendation is given exactly when the style rules are a dict with an applicable rule that `', '.join` accepts, and each lookup section either does not hold the looked-up text or is a dict mapping it to a value of the right type |
| Recommendation.StringRuleExample | app.py:108-133 | a style rule that is a string is joined character by character, and unknown colours and body types fall back |
| Recommendation.ListColorSectionFallsBack | app.py:113-116 | a colour section that is a list not holding the colour gives black and white |
| AdminForm.MainKey | static/js/admin.js:11 | the text before the first '[': a prefix of the name without '[', followed by '[' in a bracketed name, the whole name otherwise |
| AdminForm.SubKey | static/js/admin.js:11-13 | contains no '[' |
| AdminForm.Step | static/js/admin.js:9-16 | one pass of the loop adds exactly the main key of the entry's name |
| AdminForm.Reshape | static/js/admin.js:9-16 | no key of the built object holds a '[' |
| AdminForm.BuildNewData | static/js/admin.js:7-17 | the loop builds the fold of its step over the entries, in order |
| AdminForm.ReshapeKeys | static/js/admin.js:9-17 | the keys of the result are exactly the plain names and the main keys of the bracketed names |
| AdminForm.ReshapeHasMainKeys | static/js/admin.js:9-16 | the keys of the built object are the main keys collected from the entries |
| AdminForm.MainKeysOfNames | static/js/admin.js:11 | the collected main keys are exactly the main keys of the entry names |
| AdminForm.LastPlainFieldWins | static/js/admin.js:14-15 | the last plain entry with a name decides its list: its value split on ',' and trimmed |
| AdminForm.NestedStep | static/js/admin.js:12-13 | one entry adds to a key's nested object exactly the sub-key of a bracketed name under that key, and keeps it nested |
| AdminForm.SubKeysUnderNames | static/js/admin.js:11-13 | the collected sub-keys under a key are exactly those of the bracketed entry names with that main key |
| AdminForm.NestedFieldsCollect | static/js/admin.js:12-13 | with no plain entry of that name, the key is present once a bracketed name falls under it, holds a nested object, and its sub-keys are the collected ones |
| AdminForm.NestedFieldsAccumulate | static/js/admin.js:12-13 | with no plain entry of that name, the key holds a nested object whose sub-keys are those of all bracketed names under it; nothing resets it |
| AdminForm.LastNestedFieldWins | static/js/admin.js:10-13 | the last bracketed entry for `main[sub]` decides that sub-key's value |
| AdminForm.BracketedName | static/js/admin.js:10-13 | in `main[sub]` followed by nothing or by '[', the main key is `main` and the sub-key is `sub` |
| AdminForm.SubKeySegment | static/js/admin.js:11-13 | in `main[seg` followed by nothing or by '[', the main key is `main` and the sub-key is `seg` without its first ']' |
| AdminForm.TextAfterBracketKept | static/js/admin.js:11-13 | in `main[x]y`, the text after the ']' stays in the sub-key `xy` |
| AdminForm.UnclosedBracket | static/js/admin.js:11-13 | in `main[seg` with no ']', the sub-key is `seg` |
| AdminForm.SubKeyExamples | static/js/admin.js:11-13 | the sub-keys of `a[x]y`, `a[b` and `a[b]]` are `xy`, `b` and `b]` |
| AdminForm.SingleBracketedField | static/js/admin.js:10-13 | a single field `main[sub]` with value v gives `{main: {sub: v}}` |
| AdminForm.BracketedExample | static/js/admin.js:10-13 | `a[b]` with value v gives `{a: {b: v}}` |
| AdminForm.SinglePlainField | static/js/admin.js:15 | a single plain field whose value is trimmed, comma-free items joined with ", " gives those items as its list |
| AdminForm.PlainExample | static/js/admin.js:15 | `c` with value "x, y" gives `{c: ["x", "y"]}` |
| AdminForm.EmptyValueExample | static/js/admin.js:15 | an empty value gives a list of one empty string |
| AdminForm.SecondBracketDropped | static/js/admin.js:11-13 | the sub-key of `a[b][c]` is `b` |
| Session.Initial | src/App.tsx:41-61 | five empty quiz answers, one per question; closed dialogs and snackbar; no recommendation, trends or quiz result |
| Session.QuizResultText | src/App.tsx:90 | "Your dominant style is ", the style, ": " and then the description |
| Session.Next | src/App.tsx:63-249 | every handler keeps one answer slot per question; selecting an answer sets its slot, and any other event leaves the answers as they were |
| Session.Issued | src/App.tsx:63-111 | a request is sent exactly by the recommendation, trend and quiz handlers and by a new-data submit whose text parsed; the quiz posts the current answers and the new data is posted as it parsed |
| Session.AnswerChangesOneSlot | src/App.tsx:209-212 | selecting an answer sets that slot; the other slots, the length and every other field are unchanged |
| Session.TogglesSetOnlyTheirFlag | src/App.tsx:156-249 | opening or cancelling the quiz or new-data dialog, or closing the snackbar, sets that flag and changes nothing else |
| Session.QuizSubmitOutcome | src/App.tsx:85-95 | the answers are posted; a reply sets the result text and closes the dialog, changing nothing else; a failure changes nothing |
| Session.UnparsableNewData | src/App.tsx:97-110 | text that does not parse sends nothing and shows the fixed error message in the snackbar; the dialog and everything else are unchanged |
| Session.ParsedNewData | src/App.tsx:97-110 | parsed text is posted as parsed; a reply shows its message and closes the dialog; a failed post behaves as a parse failure |
| Session.FetchOutcomes | src/App.tsx:63-83 | the three fields are posted and the trends are fetched; a reply replaces exactly its field with what the server sent; a failure changes nothing |
| Session.NextPreservesValid | src/App.tsx:136-221 | every event the page produces keeps five answers, each empty or an option, and a body type that is empty or offered |
| Session.Run | src/App.tsx:49-61 | a run of events the page produces ends in a valid state |
| Session.RecommendationStep | src/App.tsx:63-74 | only an answered recommendation call changes the recommendation |
| Session.RecommendationIsLastReply | src/App.tsx:63-74 | the recommendation shown is the message of the last answered call, or the earlier one when no call was answered |
| Session.RecommendationNeedsReply | src/App.tsx:53-74 | from a fresh page, a recommendation is shown only after a call answered with exactly that message |
| Session.LastReplyStays | src/App.tsx:63-74 | an event other than an answered recommendation call keeps the last answered one the last |
| Session.TrendsAndQuizStep | src/App.tsx:76-95 | only an answered trend call changes the trends, to what it returned; only an answered quiz submit changes the result, to the text of its reply |
| Session.TrendsAndQuizFromReplies | src/App.tsx:76-95 | after a run, the trends and the quiz result are each what they were before or what some answered call of the run returned |
| Session.TrendsAndQuizNeedReplies | src/App.tsx:49-95 | from a fresh page, trends are shown only after a trend call answered with exactly those trends, and a quiz result only after a quiz submit whose reply renders to that text |
| Session.AnswersNeedSelection | src/App.tsx:207-213 | only selecting answers changes the answers |
| Session.Page.constructor | src/App.tsx:50-61 | the state hooks start at their initial values |
| Session.Page.ChangeOccasion | src/App.tsx:125 | the state becomes the transition for typing an occasion |
| Session.Page.ChangePreferredColor | src/App.tsx:132 | the state becomes the transition for typing a colour |
| Session.Page.ChangeBodyType | src/App.tsx:141 | the state becomes the transition for choosing a body type |
| Session.Page.ChangeNewData | src/App.tsx:238 | the state becomes the transition for typing new data |
| Session.Page.ChangeQuizAnswer | src/App.tsx:209-213 | copying the answers, setting one slot and storing the copy performs the answer transition |
| Session.Page.SetQuizOpen | src/App.tsx:156-226 | the state becomes the transition for opening or closing the quiz |
| Session.Page.SetNewDataOpen | src/App.tsx:159-244 | the state becomes the transition for opening or closing the new-data dialog |
| Session.Page.CloseSnackbar | src/App.tsx:248-249 | the state becomes the transition for closing the snackbar |
| Session.Page.GetStyleRecommendation | src/App.tsx:63-74 | sends the request of the transition and performs the transition |
| Session.Page.GetTrendAnalysis | src/App.tsx:76-83 | sends the request of the transition and performs the transition |
| Session.Page.HandleQuizSubmit | src/App.tsx:85-95 | sends the request of the transition and performs the transition |
| Session.Page.HandleNewDataSubmit | src/App.tsx:97-111 | sends the request of the transition and performs the transition |

## Left out

- **The web layer and foreign libraries:**
  - Flask routing, request parsing, CORS, logins and the mock user table, and templates are web plumbing.
  - Babel's `gettext` is taken as the identity.
- **The occasion match and the style prediction** of `/api/style_recommendation`:
  - the NLTK preprocessing and the TF-IDF cosine match (`get_closest_occasion`);
  - the Keras prediction of `predicted_style`.
  - These are floating-point numerics and foreign libraries, so the closest occasion and the predicted style are inputs.
- **Model training and image analysis.** `ai_training.py` is not part of this model. The cv2 pipeline of `analyze_image` is left out. Whether saving the upload and decoding it as an image finish without raising is an input of `Upload.UploadImage`; when they finish, the analysis answers the constant "classic".
- **File I/O:**
  - loading and saving `fashion_knowledge.json`;
  - `secure_filename` and saving the upload.
- **`/api/trend_analysis`**, which returns the `current_trends` section as it stands. On the front end its reply is an input.
- **`static/js/main.js`** is not part of this model. It is DOM glue over the same endpoints.
- **Browser and React mechanics:**
  - rendering, axios and fetch;
  - the 6000 ms auto-hide timer of the snackbar;
  - races between overlapping requests. Each handler runs to completion with its reply given, which is concurrency left out.
- **`JSON.parse`** is abstract: the session event carries whether the text parsed and what it parsed to.
- **Text.Lower**: only ASCII letters are lower-cased. For `allowed_file` this changes nothing, since no other character lower-cases into an allowed extension; for colours and body types, Unicode case mapping is not modelled.
- **KnowledgeBase.MergeValue**: `dict.update` with an argument that is not a dict is modelled as a TypeError. Python would also accept an iterable of key-value pairs.
- **KnowledgeBase.Elements**: does not model iterating a number or a boolean. Python raises there too, so these give None.
- **StyleQuiz.StyleQuiz**: the answers are strings. Non-string JSON answers, which match no style in Python either, are not modelled, and neither is the `data.get('answers', [])` default for a missing field.
- **Recommendation.StyleRecommendation**: a body-type entry that is not a string is treated as an error, and so is `BodyTypeAdvice` for it. Python never fails there: `str.format` renders the entry with `str()`, which the model does not define for JSON values.
- **Recommendation.BodyTypeAdvice**: an entry for the body type that is present but not a string, such as `{"pear": 1}`, gives None (an error). Python takes the entry as it is and the message renders it with `str()`, so the endpoint answers 200. The model does not define `str()` on JSON values.
- **Recommendation.RecommendationSucceeds**: for the same reason, its `Answerable` condition on the body-type section asks for a string entry, while Python answers for an entry of any JSON type.
- **Session.QuizReply**: the description is the text the template literal would render; the rendering of a non-string description is not modelled.
- **Json numbers** are integers. They are copied, never computed with.
- **AdminForm.Step**:
  - the result is a map, so the key order of the JavaScript object the form posts is not modelled;
  - a bracketed field whose main key holds a list is dropped. JavaScript sets a property of the array instead. For most sub-keys `JSON.stringify` does not send that property. A numeric sub-key sets or appends a list element, which the model does not capture. The sub-key `length` is not captured either: `arr["length"] = value` truncates or pads the list, or throws a RangeError for a value that is not a valid length, and then nothing is posted;
  - names that JavaScript objects inherit, such as `__proto__`, are not modelled.

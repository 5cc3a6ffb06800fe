/** /api/style_recommendation (app.py), from the point where the closest
    known occasion and the model's predicted style are known: the lookups in
    the knowledge base with their fallbacks, and the composed message. */
module Recommendation {
  import opened Text
  import opened Json
  import opened KnowledgeBase

  const StyleRules := "style_rules"
  const ColorCombinations := "color_combinations"
  const BodyTypeRecommendations := "body_type_recommendations"
  const FallbackOccasion := "casual"
  const FallbackColors: seq<string> := ["black", "white"]
  const ComfortSentence := "Wear clothes that make you feel comfortable and confident."

  /** The fields of the endpoint's JSON answer. The outfit is the style
      rule as the knowledge base holds it, whatever its JSON type. */
  datatype Recommendation = Recommendation(
    outfit: Value,
    colorScheme: seq<string>,
    bodyTypeRecommendation: string,
    predictedStyle: string,
    message: string)

  /** Python's `key in section` with a string key: membership among the
      keys of a dict, equality with an element of a list, a substring of a
      string; any other value raises TypeError (None). */
  function Contains(section: Value, key: string): (r: Option<bool>)
    ensures r.None? <==> !(section.Obj? || section.Arr? || section.Str?)
    ensures section.Obj? ==> r == Some(key in section.fields)
    ensures section.Arr? ==> r == Some(Str(key) in section.items)
    ensures section.Str? ==> r == Some(Occurs(key, section.s))
  {
    match section
    case Obj(_, fields) => Some(key in fields)
    case Arr(items) => Some(Str(key) in items)
    case Str(text) => Some(Occurs(key, text))
    case _ => None
  }

  /** Python's `section[key]` with a string key: the entry of a dict that
      has the key; a missing key raises KeyError and indexing a list, a
      string or a scalar with a string raises TypeError (None). */
  function Lookup(section: Value, key: string): (r: Option<Value>)
    ensures r.Some? <==> section.Obj? && key in section.fields
    ensures r.Some? ==> r.value == section.fields[key]
  {
    if section.Obj? && key in section.fields then Some(section.fields[key]) else None
  }

  /** The words `', '.join(outfit)` joins: the strings of a list of strings,
      the characters of a string, the keys of a dict. A list with another
      element and any value that cannot be iterated raise TypeError (None). */
  function OutfitWords(outfit: Value): (r: Option<seq<string>>)
    ensures r.Some? <==> outfit.Str? || outfit.Obj? || StringList(outfit).Some?
    ensures outfit.Arr? ==> r == StringList(outfit)
    ensures outfit.Str? ==>
      && r.Some? && |r.value| == |outfit.s|
      && forall i :: 0 <= i < |outfit.s| ==> r.value[i] == [outfit.s[i]]
    ensures outfit.Obj? ==> r == Some(outfit.keys)
  {
    match Elements(outfit)
    case None => None
    case Some(elements) =>
      var r := StringList(Arr(elements));
      assert outfit.Obj? ==> r.value == outfit.keys;
      r
  }

  /** The style rule of the occasion, or the rule for "casual" when
      `occasion in style_rules` is false. */
  function Outfit(kb: Knowledge, occasion: string): (r: Option<Value>)
    ensures r.Some? ==> StyleRules in kb && kb[StyleRules].Obj?
    ensures r.Some? ==>
      var rules := kb[StyleRules].fields;
      if occasion in rules then r.value == rules[occasion]
      else FallbackOccasion in rules && r.value == rules[FallbackOccasion]
    ensures StyleRules in kb && kb[StyleRules].Obj? && occasion in kb[StyleRules].fields ==> r.Some?
  {
    if StyleRules !in kb then None
    else
      var rules := kb[StyleRules];
      match Contains(rules, occasion)
      case None => None
      case Some(found) => Lookup(rules, if found then occasion else FallbackOccasion)
  }

  /** The colour followed by its combinations when the colour is in the
      section, otherwise black and white. A section that is a list or a
      string lacking the colour falls back as well; one holding it raises,
      since it cannot be indexed by a string. */
  function ColorScheme(kb: Knowledge, color: string): (r: Option<seq<string>>)
    ensures r.Some? ==> ColorCombinations in kb && Contains(kb[ColorCombinations], color).Some?
    ensures r.Some? && Contains(kb[ColorCombinations], color) == Some(true) ==>
      var c := kb[ColorCombinations];
      && c.Obj? && color in c.fields
      && |r.value| >= 1 && r.value[0] == color
      && StringList(c.fields[color]) == Some(r.value[1..])
    ensures r.Some? && Contains(kb[ColorCombinations], color) == Some(false) ==> r.value == FallbackColors
  {
    if ColorCombinations !in kb then None
    else
      var combinations := kb[ColorCombinations];
      match Contains(combinations, color)
      case None => None
      case Some(false) => Some(FallbackColors)
      case Some(true) =>
        match Lookup(combinations, color)
        case None => None
        case Some(others) =>
          match StringList(others)
          case None => None
          case Some(names) =>
            assert ([color] + names)[1..] == names;
            Some([color] + names)
  }

  /** The advice for the body type when it is in the section, otherwise the
      comfort sentence; the same list and string cases as the colours. */
  function BodyTypeAdvice(kb: Knowledge, bodyType: string): (r: Option<string>)
    ensures r.Some? ==> BodyTypeRecommendations in kb && Contains(kb[BodyTypeRecommendations], bodyType).Some?
    ensures r.Some? && Contains(kb[BodyTypeRecommendations], bodyType) == Some(true) ==>
      var b := kb[BodyTypeRecommendations];
      b.Obj? && bodyType in b.fields && b.fields[bodyType] == Str(r.value)
    ensures r.Some? && Contains(kb[BodyTypeRecommendations], bodyType) == Some(false) ==> r.value == ComfortSentence
  {
    if BodyTypeRecommendations !in kb then None
    else
      var recommendations := kb[BodyTypeRecommendations];
      match Contains(recommendations, bodyType)
      case None => None
      case Some(false) => Some(ComfortSentence)
      case Some(true) =>
        match Lookup(recommendations, bodyType)
        case Some(Str(advice)) => Some(advice)
        case _ => None
  }

  /** The message template filled in, with the lists joined by ", ". */
  function Message(occasion: string, style: string, outfit: seq<string>, colors: seq<string>, advice: string): (m: string)
    ensures |m| >= |advice| && m[|m| - |advice|..] == advice
    ensures var lead := "For a " + occasion + " occasion, we recommend a ";
      |lead| <= |m| && m[..|lead|] == lead
  {
    var lead := "For a " + occasion + " occasion, we recommend a ";
    var m := lead + style + " style: " + Join(outfit, ", ") + ". Color scheme: " + Join(colors, ", ") + ". " + advice;
    assert m == lead + (style + " style: " + Join(outfit, ", ") + ". Color scheme: " + Join(colors, ", ") + ". " + advice);
    m
  }

  /** /api/style_recommendation. The colour and the body type are
      lower-cased before they are looked up; `closestOccasion` is the known
      occasion nearest to the user's text and `predictedStyle` the model's
      prediction, both computed outside this model. None stands for the
      exceptions Python raises on a malformed knowledge base. */
  function StyleRecommendation(kb: Knowledge, preferredColor: string, bodyType: string,
                               closestOccasion: string, predictedStyle: string): (r: Option<Recommendation>)
    ensures r.Some? ==> StyleRules in kb && kb[StyleRules].Obj?
    ensures r.Some? ==>
      var rules := kb[StyleRules].fields;
      if closestOccasion in rules then rules[closestOccasion] == r.value.outfit
      else FallbackOccasion in rules && rules[FallbackOccasion] == r.value.outfit
    ensures r.Some? ==> OutfitWords(r.value.outfit).Some?
    ensures r.Some? ==> ColorScheme(kb, Lower(preferredColor)) == Some(r.value.colorScheme)
    ensures r.Some? ==> BodyTypeAdvice(kb, Lower(bodyType)) == Some(r.value.bodyTypeRecommendation)
    ensures r.Some? ==> r.value.predictedStyle == predictedStyle
    ensures r.Some? ==> r.value.message == Message(closestOccasion, predictedStyle, OutfitWords(r.value.outfit).value,
                                                   r.value.colorScheme, r.value.bodyTypeRecommendation)
  {
    match (Outfit(kb, closestOccasion), ColorScheme(kb, Lower(preferredColor)), BodyTypeAdvice(kb, Lower(bodyType)))
    case (Some(outfit), Some(colors), Some(advice)) =>
      (match OutfitWords(outfit)
       case None => None
       case Some(words) =>
         Some(Recommendation(outfit, colors, advice, predictedStyle,
                             Message(closestOccasion, predictedStyle, words, colors, advice))))
    case _ => None
  }

  /** The recommendation does not depend on the case of the colour or the
      body type the user typed. */
  lemma RecommendationIgnoresCase(kb: Knowledge, preferredColor: string, bodyType: string,
                                  closestOccasion: string, predictedStyle: string)
    ensures StyleRecommendation(kb, Lower(preferredColor), Lower(bodyType), closestOccasion, predictedStyle)
         == StyleRecommendation(kb, preferredColor, bodyType, closestOccasion, predictedStyle)
  {
    LowerIdempotent(preferredColor);
    LowerIdempotent(bodyType);
  }

  /** Whether `key in section` is false, or true for a dict entry that
      passes `ok`; the cases in which a lookup section does not raise. */
  ghost predicate Answerable(section: Value, key: string, ok: Value -> bool)
  {
    match section
    case Obj(_, fields) => key in fields ==> ok(fields[key])
    case Arr(items) => Str(key) !in items
    case Str(text) => !Occurs(key, text)
    case _ => false
  }

  /** The endpoint answers exactly when the style rules are a dict with a
      rule for the occasion, or for "casual" when the occasion has none,
      that `', '.join` accepts, and the colour and body-type sections are
      answerable: a dict whose entry, if any, is a list of strings or a
      string, or a list or string that does not hold the looked-up text. */
  lemma RecommendationSucceeds(kb: Knowledge, preferredColor: string, bodyType: string,
                               closestOccasion: string, predictedStyle: string)
    ensures StyleRecommendation(kb, preferredColor, bodyType, closestOccasion, predictedStyle).Some? <==>
      && StyleRules in kb && kb[StyleRules].Obj?
      && (var rules := kb[StyleRules].fields;
          if closestOccasion in rules then OutfitWords(rules[closestOccasion]).Some?
          else FallbackOccasion in rules && OutfitWords(rules[FallbackOccasion]).Some?)
      && ColorCombinations in kb
      && Answerable(kb[ColorCombinations], Lower(preferredColor), (v: Value) => StringList(v).Some?)
      && BodyTypeRecommendations in kb
      && Answerable(kb[BodyTypeRecommendations], Lower(bodyType), (v: Value) => v.Str?)
  {
  }

  /** A style rule that is a string is joined character by character, as
      `', '.join` iterates a string. */
  lemma StringRuleExample()
    ensures var kb := map[StyleRules := Obj(["casual"], map["casual" := Str("suit")]),
                         ColorCombinations := Obj([], map[]),
                         BodyTypeRecommendations := Obj([], map[])];
      var r := StyleRecommendation(kb, "red", "pear", "casual", "classic");
      && r.Some? && r.value.outfit == Str("suit")
      && OutfitWords(r.value.outfit) == Some(["s", "u", "i", "t"])
      && r.value.colorScheme == FallbackColors
      && r.value.message == Message("casual", "classic", ["s", "u", "i", "t"], FallbackColors, ComfortSentence)
  {
    assert OutfitWords(Str("suit")).value == ["s", "u", "i", "t"];
  }

  /** A colour section held as a list that lacks the colour falls back to
      black and white. */
  lemma ListColorSectionFallsBack(kb: Knowledge, color: string)
    requires ColorCombinations in kb && kb[ColorCombinations] == Arr([Str("blue")])
    requires Lower(color) != "blue"
    ensures ColorScheme(kb, Lower(color)) == Some(FallbackColors)
  {
  }
}

/** Bedrock model discovery: a cache that holds either a list or the promise of one, shared by concurrent callers. */
module BedrockDiscovery {
  import opened Common
  import opened Js

  datatype Modality = Text | Image

  datatype Summary = Summary(
    modelId: Option<string>, modelName: Option<string>, providerName: Option<string>,
    inputModalities: seq<string>, outputModalities: seq<string>,
    streaming: bool, status: Option<string>)

  datatype Model = Model(id: string, name: string, reasoning: bool, input: seq<Modality>, contextWindow: int,
      maxTokens: int)

  /** The JSON text of these five fields is the cache key; it determines them. */
  datatype CacheKey = CacheKey(
    region: string, providerFilter: seq<string>, refreshSeconds: nat, contextWindow: int, maxTokens: int)

  /** Discovery settings as configured; a missing number is `None`. */
  datatype Config = Config(
    refreshInterval: Option<real>, providerFilter: seq<string>, contextWindow: Option<real>, maxTokens: Option<real>)

  // ----- filters and keys

  function Normalized(entry: string): string {
    ToLower(Trim(entry))
  }

  /** Some entry of the filter normalises to the non-empty text `x`. */
  predicate Names(filter: seq<string>, x: string) {
    x != "" && exists i :: 0 <= i < |filter| && Normalized(filter[i]) == x
  }

  predicate NotBlank(entry: string) {
    Normalized(entry) != ""
  }

  /** The non-empty normalised entries, in order. */
  function Tokens(filter: seq<string>): seq<string> {
    FilterMap(filter, NotBlank, Normalized)
  }

  lemma TokensAreNames(filter: seq<string>, x: string)
    ensures x in Tokens(filter) <==> Names(filter, x)
  {
    FilterMapIff(filter, NotBlank, Normalized, x);
  }

  function NormalizeProviderFilter(filter: seq<string>): seq<string> {
    SortedSet(Tokens(filter))
  }

  function PositiveOr(configured: Option<real>, fallback: int): int {
    var value := if configured.Some? then configured.value.Floor else fallback;
    if value > 0 then value else fallback
  }

  function BuildCacheKey(region: string, config: Config): CacheKey {
    var seconds := if config.refreshInterval.Some? then config.refreshInterval.value.Floor else 3600;
    CacheKey(region, NormalizeProviderFilter(config.providerFilter), if seconds < 0 then 0 else seconds,
             PositiveOr(config.contextWindow, 32000), PositiveOr(config.maxTokens, 4096))
  }

  /** Two configurations that differ only in the filter share a cache key exactly when the filters name the same
      providers: the same non-blank entries up to case, padding, order and repetition. */
  lemma SameKeyIffSameProviders(region: string, config: Config, filter: seq<string>)
    ensures BuildCacheKey(region, config) == BuildCacheKey(region, config.(providerFilter := filter))
            <==> forall x :: Names(config.providerFilter, x) <==> Names(filter, x)
  {
    SortedSetEqual(Tokens(config.providerFilter), Tokens(filter));
    forall x
      ensures x in Tokens(config.providerFilter) <==> Names(config.providerFilter, x)
      ensures x in Tokens(filter) <==> Names(filter, x)
    {
      TokensAreNames(config.providerFilter, x);
      TokensAreNames(filter, x);
    }
  }

  /** What the settings mean: the region as it is; an hour between refreshes unless configured, in whole seconds and
      never negative; and for the limits of a model the whole part of a configured number if that is positive. */
  lemma KeyMeans(region: string, config: Config)
    ensures var key := BuildCacheKey(region, config);
            && key.region == region
            && (forall x :: x in key.providerFilter <==>
                  x != ""
                  && exists i :: 0 <= i < |config.providerFilter| && ToLower(Trim(config.providerFilter[i])) == x)
            && StrictlySorted(key.providerFilter)
            && (match config.refreshInterval
                case None => key.refreshSeconds == 3600
                case Some(r) => if r < 0.0 then key.refreshSeconds == 0
                                else key.refreshSeconds as real <= r < key.refreshSeconds as real + 1.0)
            && LimitMeans(config.contextWindow, 32000, key.contextWindow)
            && LimitMeans(config.maxTokens, 4096, key.maxTokens)
  {
    SortedSetSorted(Tokens(config.providerFilter));
    forall x
      ensures x in BuildCacheKey(region, config).providerFilter <==>
              x != "" && exists i :: 0 <= i < |config.providerFilter| && ToLower(Trim(config.providerFilter[i])) == x
    {
      TokensAreNames(config.providerFilter, x);
    }
  }

  predicate LimitMeans(configured: Option<real>, fallback: int, limit: int) {
    if configured.Some? && configured.value >= 1.0 then limit as real <= configured.value < limit as real + 1.0
    else limit == fallback
  }

  /** Two calls share a cache key exactly when they agree on the region, the providers and the three numbers. */
  lemma SameKeyIff(region: string, config: Config, region2: string, config2: Config)
    ensures var key, key2 := BuildCacheKey(region, config), BuildCacheKey(region2, config2);
            key == key2 <==>
            && region == region2
            && (forall x :: Names(config.providerFilter, x) <==> Names(config2.providerFilter, x))
            && key.refreshSeconds == key2.refreshSeconds
            && key.contextWindow == key2.contextWindow && key.maxTokens == key2.maxTokens
  {
    var filter2 := config.(providerFilter := config2.providerFilter);
    SameKeyIffSameProviders(region, config, config2.providerFilter);
    assert BuildCacheKey(region, filter2).providerFilter == BuildCacheKey(region2, config2).providerFilter;
  }

  // ----- one fetch

  /** The part before the first dot. */
  function BeforeDot(s: string): string {
    if s == "" || s[0] == '.' then "" else [s[0]] + BeforeDot(s[1..])
  }

  function Provider(summary: Summary): Option<string> {
    if summary.providerName.Some? then summary.providerName
    else if summary.modelId.Some? then Some(BeforeDot(summary.modelId.value)) else None
  }

  /** The provider is the one that the summary names, or else what its model id has before the first dot. */
  lemma ProviderMeans(summary: Summary, name: string)
    ensures Provider(summary) == Some(name) <==>
            || summary.providerName == Some(name)
            || (summary.providerName.None? && summary.modelId.Some?
                && '.' !in name && (summary.modelId.value == name || name + "." <= summary.modelId.value))
    ensures Provider(summary).None? <==> summary.providerName.None? && summary.modelId.None?
  {
    if summary.modelId.Some? {
      BeforeDotIff(summary.modelId.value, name);
    }
  }

  lemma {:induction false} BeforeDotIff(s: string, name: string)
    ensures BeforeDot(s) == name <==> '.' !in name && (s == name || name + "." <= s)
  {
    if s != "" && s[0] != '.' {
      if name == "" {
        assert name + "." == ".";
      } else {
        BeforeDotIff(s[1..], name[1..]);
        assert name == [name[0]] + name[1..] && s == [s[0]] + s[1..];
        assert name[0] == s[0] ==> (name + "." <= s <==> name[1..] + "." <= s[1..]);
      }
    } else if name != "" && s != "" {
      assert name + "." <= s ==> name[0] == s[0];
    }
  }

  predicate MatchesProviderFilter(summary: Summary, filter: seq<string>) {
    filter == [] ||
    (Provider(summary).Some? && Normalized(Provider(summary).value) != ""
        && Normalized(Provider(summary).value) in filter)
  }

  /** A configured filter lets a model through exactly when it names no provider at all or names the model's
      provider. */
  lemma FilterMeansProviders(filter: seq<string>, summary: Summary)
    ensures MatchesProviderFilter(summary, NormalizeProviderFilter(filter))
            <==> (forall x :: !Names(filter, x))
                 || (Provider(summary).Some? && Names(filter, Normalized(Provider(summary).value)))
  {
    var kept := NormalizeProviderFilter(filter);
    forall x ensures x in kept <==> Names(filter, x) {
      TokensAreNames(filter, x);
    }
    assert kept != [] ==> kept[0] in kept;
  }

  predicate SomeEqualsLower(xs: seq<string>, word: string) {
    exists i :: 0 <= i < |xs| && ToLower(xs[i]) == word
  }

  predicate ShouldIncludeSummary(summary: Summary, filter: seq<string>) {
    && summary.modelId.Some? && Trim(summary.modelId.value) != ""
    && MatchesProviderFilter(summary, filter)
    && summary.streaming
    && SomeEqualsLower(summary.outputModalities, "text")
    && summary.status.Some? && ToLower(summary.status.value) == "active"
  }

  predicate Contains(text: string, word: string) {
    word <= text || (text != "" && Contains(text[1..], word))
  }

  function Lowered(inputs: seq<string>): (words: seq<string>)
    ensures |words| == |inputs|
    ensures forall i | 0 <= i < |inputs| :: words[i] == ToLower(inputs[i])
  {
    seq(|inputs|, i requires 0 <= i < |inputs| => ToLower(inputs[i]))
  }

  lemma InLowered(inputs: seq<string>, word: string)
    ensures word in Lowered(inputs) <==> SomeEqualsLower(inputs, word)
  {
    var words := Lowered(inputs);
    if i :| 0 <= i < |inputs| && ToLower(inputs[i]) == word {
      assert words[i] == word;
    }
  }

  /** `image` if the input names it, and `text` if the input names it or neither. */
  function MapInputModalities(inputs: seq<string>): (mapped: seq<Modality>)
    ensures Distinct(mapped)
    ensures Image in mapped <==> SomeEqualsLower(inputs, "image")
    ensures Text in mapped <==> SomeEqualsLower(inputs, "text") || !SomeEqualsLower(inputs, "image")
  {
    InLowered(inputs, "text");
    InLowered(inputs, "image");
    var found := FoundModalities(Lowered(inputs), "text", "image");
    assert found != [] ==> found[0] in found && (found[0] == Text || found[0] == Image);
    if found == [] then [Text] else found
  }

  /** The modalities in the order in which their words first appear. */
  function FoundModalities(words: seq<string>, textWord: string, imageWord: string): (found: seq<Modality>)
    ensures Distinct(found)
    ensures Text in found <==> textWord in words
    ensures Image in found <==> imageWord in words
  {
    if words == [] then [] else
      var init, last := words[..|words| - 1], words[|words| - 1];
      assert words == init + [last];
      var found := FoundModalities(init, textWord, imageWord);
      var with1 := if last == textWord && Text !in found then found + [Text] else found;
      if last == imageWord && Image !in with1 then with1 + [Image] else with1
  }

  /** The modalities come in the order in which they are first named. */
  lemma ModalityOrder(inputs: seq<string>, i: nat, j: nat)
    requires FirstNamed(inputs, "text", i) && FirstNamed(inputs, "image", j)
    ensures MapInputModalities(inputs) == if i < j then [Text, Image] else [Image, Text]
  {
    var words := Lowered(inputs);
    assert forall k | 0 <= k < |inputs| :: words[k] == ToLower(inputs[k]);
    FoundOrder(words, "text", "image", i, j);
  }

  /** Entry `i` is the first that is the word, in any case. */
  predicate FirstNamed(inputs: seq<string>, word: string, i: nat) {
    i < |inputs| && ToLower(inputs[i]) == word && forall k | 0 <= k < i :: ToLower(inputs[k]) != word
  }

  predicate FirstAt(words: seq<string>, word: string, i: nat) {
    i < |words| && words[i] == word && word !in words[..i]
  }

  lemma {:induction false} FoundOrder(words: seq<string>, textWord: string, imageWord: string, i: nat, j: nat)
    requires textWord != imageWord && FirstAt(words, textWord, i) && FirstAt(words, imageWord, j)
    ensures FoundModalities(words, textWord, imageWord) == if i < j then [Text, Image] else [Image, Text]
  {
    var n := |words| - 1;
    FirstAtInit(words, textWord, i);
    FirstAtInit(words, imageWord, j);
    if i < n && j < n {
      FoundOrder(words[..n], textWord, imageWord, i, j);
      FoundAgain(words, textWord, imageWord);
    } else {
      FoundAtLast(words, textWord, imageWord, if i < j then Text else Image);
    }
  }

  lemma FirstAtInit(words: seq<string>, word: string, i: nat)
    requires FirstAt(words, word, i)
    ensures var init := words[..|words| - 1];
            (word in init <==> i < |init|) && (i < |init| ==> FirstAt(init, word, i))
  {
    var init := words[..|words| - 1];
    if i < |init| {
      assert init[i] == word && init[..i] == words[..i];
    }
  }

  lemma FoundAgain(words: seq<string>, textWord: string, imageWord: string)
    requires words != [] && textWord in words[..|words| - 1] && imageWord in words[..|words| - 1]
    ensures FoundModalities(words, textWord, imageWord)
            == FoundModalities(words[..|words| - 1], textWord, imageWord)
  {
  }

  lemma FoundAtLast(words: seq<string>, textWord: string, imageWord: string, first: Modality)
    requires words != [] && textWord != imageWord
    requires textWord in words[..|words| - 1] <==> first == Text
    requires imageWord in words[..|words| - 1] <==> first == Image
    requires words[|words| - 1] == if first == Text then imageWord else textWord
    ensures FoundModalities(words, textWord, imageWord) == [first] + [if first == Text then Image else Text]
  {
    FoundOne(FoundModalities(words[..|words| - 1], textWord, imageWord), first);
  }

  lemma FoundOne(found: seq<Modality>, m: Modality)
    requires Distinct(found) && forall x :: x in found <==> x == m
    ensures found == [m]
  {
    assert m in found;
    forall k | 0 <= k < |found| ensures found[k] == m {
      assert found[k] in found;
    }
    if |found| > 1 {
      FirstTwoDiffer(found);
      assert false;
    }
  }

  lemma FirstTwoDiffer(found: seq<Modality>)
    requires Distinct(found) && |found| > 1
    ensures found[0] != found[1]
  {
  }

  function ToModel(summary: Summary, key: CacheKey): Model {
    var id := Trim(summary.modelId.GetOr(""));
    var trimmedName := if summary.modelName.Some? then Trim(summary.modelName.value) else "";
    var haystack := ToLower(summary.modelId.GetOr("") + " " + summary.modelName.GetOr(""));
    Model(id, if trimmedName != "" then trimmedName else id,
          Contains(haystack, "reasoning") || Contains(haystack, "thinking"),
          MapInputModalities(summary.inputModalities), key.contextWindow, key.maxTokens)
  }

  /** `word` occurs in the text. */
  predicate Occurs(text: string, word: string) {
    exists i :: 0 <= i <= |text| - |word| && word <= text[i..]
  }

  lemma {:induction false} ContainsIff(text: string, word: string)
    ensures Contains(text, word) <==> Occurs(text, word)
  {
    if word <= text {
      assert word <= text[0..];
    } else if text != "" {
      ContainsIff(text[1..], word);
      if Occurs(text[1..], word) {
        var i :| 0 <= i <= |text[1..]| - |word| && word <= text[1..][i..];
        assert text[1..][i..] == text[i + 1..];
      }
      if Occurs(text, word) {
        var i :| 0 <= i <= |text| - |word| && word <= text[i..];
        assert i > 0 && text[i..] == text[1..][i - 1..];
      }
    }
  }

  /** A summary is offered when it names its model, streams, puts out text, is active and is of an admitted provider. */
  ghost predicate Offered(summary: Summary, filter: seq<string>) {
    && summary.modelId.Some? && !AllSpaces(summary.modelId.value)
    && summary.streaming
    && (exists i :: 0 <= i < |summary.outputModalities| && ToLower(summary.outputModalities[i]) == "text")
    && summary.status.Some? && ToLower(summary.status.value) == "active"
    && (filter == [] || exists name :: Provider(summary) == Some(name) && ToLower(Trim(name)) in filter
                                       && !AllSpaces(name))
  }

  /** The model carries the trimmed id and name, the id standing in for a blank name, what its id and name say about
      reasoning, and the two limits of the key. */
  ghost predicate Describes(m: Model, summary: Summary, key: CacheKey) {
    && summary.modelId.Some? && m.id == Trim(summary.modelId.value)
    && m.name == (if summary.modelName.Some? && !AllSpaces(summary.modelName.value)
                    then Trim(summary.modelName.value) else m.id)
    && (var text := ToLower(summary.modelId.value + " " + summary.modelName.GetOr(""));
        m.reasoning <==> Occurs(text, "reasoning") || Occurs(text, "thinking"))
    && m.input == MapInputModalities(summary.inputModalities)
    && m.contextWindow == key.contextWindow && m.maxTokens == key.maxTokens
  }

  /** The discovered models are exactly those of the offered summaries. */
  lemma DiscoveredIff(collate: Collation, response: seq<Summary>, key: CacheKey, m: Model)
    ensures m in Discovered(collate, response, key) <==>
            exists i :: 0 <= i < |response| && Offered(response[i], key.providerFilter)
                && Describes(m, response[i], key)
  {
    SortByNameSorts(collate, Collected(response, key));
    assert m in Discovered(collate, response, key) <==> m in multiset(Discovered(collate, response, key));
    FilterMapIff(response, s => ShouldIncludeSummary(s, key.providerFilter), s => ToModel(s, key), m);
    forall i | 0 <= i < |response|
      ensures ShouldIncludeSummary(response[i], key.providerFilter) && ToModel(response[i], key) == m <==>
              Offered(response[i], key.providerFilter) && Describes(m, response[i], key)
    {
      OfferedIff(response[i], key.providerFilter);
      if response[i].modelId.Some? {
        DescribesIff(m, response[i], key);
      }
    }
  }

  lemma OfferedIff(summary: Summary, filter: seq<string>)
    ensures ShouldIncludeSummary(summary, filter) <==> Offered(summary, filter)
  {
    if summary.modelId.Some? {
      BlankIff(summary.modelId.value);
    }
    if Provider(summary).Some? {
      BlankIff(Provider(summary).value);
    }
  }

  lemma DescribesIff(m: Model, summary: Summary, key: CacheKey)
    requires summary.modelId.Some?
    ensures ToModel(summary, key) == m <==> Describes(m, summary, key)
  {
    if summary.modelName.Some? {
      BlankIff(summary.modelName.value);
    }
    var text := ToLower(summary.modelId.value + " " + summary.modelName.GetOr(""));
    ContainsIff(text, "reasoning");
    ContainsIff(text, "thinking");
  }

  /** The summaries of a response are converted one by one, in order, before they are sorted. */
  lemma CollectedLaws(xs: seq<Summary>, ys: seq<Summary>, summary: Summary, key: CacheKey)
    ensures Collected(xs + ys, key) == Collected(xs, key) + Collected(ys, key)
    ensures Collected([summary], key) ==
            if ShouldIncludeSummary(summary, key.providerFilter) then [ToModel(summary, key)] else []
  {
    FilterMapConcat(xs, ys, s => ShouldIncludeSummary(s, key.providerFilter), s => ToModel(s, key));
    FilterMapOne(summary, s => ShouldIncludeSummary(s, key.providerFilter), s => ToModel(s, key));
  }

  function Collected(response: seq<Summary>, key: CacheKey): seq<Model> {
    FilterMap(response, s => ShouldIncludeSummary(s, key.providerFilter), s => ToModel(s, key))
  }

  /** `collate` ranks names as `localeCompare` orders them: equal ranks compare as equal. */
  type Collation = string -> real

  function InsertByName(collate: Collation, m: Model, sorted: seq<Model>): (r: seq<Model>)
    ensures multiset(r) == multiset{m} + multiset(sorted)
  {
    if sorted == [] || collate(m.name) <= collate(sorted[0].name) then [m] + sorted
    else
      assert sorted == [sorted[0]] + sorted[1..];
      [sorted[0]] + InsertByName(collate, m, sorted[1..])
  }

  function SortByName(collate: Collation, models: seq<Model>): seq<Model> {
    if models == [] then [] else InsertByName(collate, models[0], SortByName(collate, models[1..]))
  }

  ghost predicate SortedByName(collate: Collation, models: seq<Model>) {
    forall i, j | 0 <= i < j < |models| :: collate(models[i].name) <= collate(models[j].name)
  }

  function OfRank(collate: Collation, models: seq<Model>, rank: real): seq<Model> {
    if models == [] then []
    else (if collate(models[0].name) == rank then [models[0]] else []) + OfRank(collate, models[1..], rank)
  }

  lemma {:induction false} InsertByNameSorted(collate: Collation, m: Model, sorted: seq<Model>)
    requires SortedByName(collate, sorted)
    ensures SortedByName(collate, InsertByName(collate, m, sorted))
  {
    if sorted != [] && !(collate(m.name) <= collate(sorted[0].name)) {
      InsertByNameSorted(collate, m, sorted[1..]);
      FromMultiset(InsertByName(collate, m, sorted[1..]), m, sorted[1..]);
    }
  }

  lemma FromMultiset(r: seq<Model>, m: Model, sorted: seq<Model>)
    requires multiset(r) == multiset{m} + multiset(sorted)
    ensures forall i | 0 <= i < |r| :: r[i] == m || r[i] in sorted
  {
    forall i | 0 <= i < |r| ensures r[i] == m || r[i] in sorted {
      assert r[i] in multiset(r);
    }
  }

  function Kept(collate: Collation, m: Model, rank: real): seq<Model> {
    if collate(m.name) == rank then [m] else []
  }

  lemma OfRankCons(collate: Collation, m: Model, models: seq<Model>, rank: real)
    ensures OfRank(collate, [m] + models, rank) == Kept(collate, m, rank) + OfRank(collate, models, rank)
  {
    assert ([m] + models)[1..] == models;
  }

  lemma {:induction false} InsertByNameStable(collate: Collation, m: Model, sorted: seq<Model>, rank: real)
    ensures OfRank(collate, InsertByName(collate, m, sorted), rank)
            == Kept(collate, m, rank) + OfRank(collate, sorted, rank)
  {
    if sorted == [] || collate(m.name) <= collate(sorted[0].name) {
      OfRankCons(collate, m, sorted, rank);
    } else {
      var first, rest := sorted[0], sorted[1..];
      InsertByNameStable(collate, m, rest, rank);
      OfRankCons(collate, first, InsertByName(collate, m, rest), rank);
      assert sorted == [first] + rest;
      OfRankCons(collate, first, rest, rank);
      assert Kept(collate, m, rank) == [] || Kept(collate, first, rank) == [];
    }
  }

  lemma {:induction false} SortByNameSorts(collate: Collation, models: seq<Model>)
    ensures SortedByName(collate, SortByName(collate, models))
    ensures multiset(SortByName(collate, models)) == multiset(models)
  {
    if models != [] {
      SortByNameSorts(collate, models[1..]);
      InsertByNameSorted(collate, models[0], SortByName(collate, models[1..]));
      MultisetCons(models);
    }
  }

  lemma MultisetCons(models: seq<Model>)
    requires models != []
    ensures multiset(models) == multiset{models[0]} + multiset(models[1..])
  {
    assert models == [models[0]] + models[1..];
  }

  lemma {:induction false} SortByNameKeepsOrder(collate: Collation, models: seq<Model>, rank: real)
    ensures OfRank(collate, SortByName(collate, models), rank) == OfRank(collate, models, rank)
  {
    if models != [] {
      SortByNameKeepsOrder(collate, models[1..], rank);
      InsertByNameStable(collate, models[0], SortByName(collate, models[1..]), rank);
    }
  }

  /** The sort is a sorted rearrangement that keeps the order of models with equal names: the stable sort. */
  lemma SortByNameStable(collate: Collation, models: seq<Model>, rank: real)
    ensures var r := SortByName(collate, models);
            && SortedByName(collate, r)
            && multiset(r) == multiset(models)
            && OfRank(collate, r, rank) == OfRank(collate, models, rank)
  {
    SortByNameSorts(collate, models);
    SortByNameKeepsOrder(collate, models, rank);
  }

  function Discovered(collate: Collation, response: seq<Summary>, key: CacheKey): seq<Model> {
    SortByName(collate, Collected(response, key))
  }

  /** The body of the discovery promise after the response arrived. */
  method CollectModels(collate: Collation, response: seq<Summary>, key: CacheKey) returns (models: seq<Model>)
    ensures models == Discovered(collate, response, key)
  {
    var discovered: seq<Model> := [];
    for i := 0 to |response|
      invariant discovered == Collected(response[..i], key)
    {
      assert response[..i + 1][..i] == response[..i];
      if !ShouldIncludeSummary(response[i], key.providerFilter) {
        continue;
      }
      discovered := discovered + [ToModel(response[i], key)];
    }
    assert response[..|response|] == response;
    models := SortByName(collate, discovered);
  }
}

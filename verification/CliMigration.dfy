/** Moving Anthropic model references to the Claude CLI backend. */
module CliMigration {
  import opened Common
  import opened Js

  const OLD_PREFIX := "anthropic/"
  const MODEL_PREFIX := "claude-"
  const NEW_PREFIX := "claude-cli/"
  const DEFAULT_CLAUDE_CLI_MODEL := "claude-cli/claude-sonnet-4-6"

  function ToClaudeCliModelRef(raw: string): Option<string> {
    var trimmed := Trim(raw);
    if !StartsWith(ToLower(trimmed), OLD_PREFIX) then None
    else
      var modelId := Trim(trimmed[|OLD_PREFIX|..]);
      if !StartsWith(ToLower(modelId), MODEL_PREFIX) then None else Some(NEW_PREFIX + modelId)
  }

  /** A converted reference is not converted again. */
  lemma ImageIsFinal(raw: string)
    requires ToClaudeCliModelRef(raw).Some?
    ensures ToClaudeCliModelRef(ToClaudeCliModelRef(raw).value) == None
    ensures ToClaudeCliModelRef(raw).value != raw
  {
    var image := ToClaudeCliModelRef(raw).value;
    FinalIfNew(image, Trim(Trim(raw)[|OLD_PREFIX|..]));
  }

  /** A text of the form `anthropic/claude-...`, in any case, with white space around it and after the slash. */
  ghost predicate IsOldRef(raw: string, pre: string, prefix: string, mid: string, modelId: string, post: string) {
    && raw == pre + (prefix + (mid + modelId)) + post
    && AllSpaces(pre) && AllSpaces(mid) && AllSpaces(post)
    && ToLower(prefix) == "anthropic/"
    && IsTrimmed(modelId) && "claude-" <= ToLower(modelId)
  }

  /** Such a text converts to the model id behind the new prefix, with its case kept. */
  lemma OldRefConverts(raw: string, pre: string, prefix: string, mid: string, modelId: string, post: string)
    requires IsOldRef(raw, pre, prefix, mid, modelId, post)
    ensures ToClaudeCliModelRef(raw) == Some("claude-cli/" + modelId)
  {
    var rest := mid + modelId;
    FoldedPrefix(prefix, rest, OLD_PREFIX);
    assert |prefix| == |ToLower(prefix)| == |OLD_PREFIX| && LowerChar(prefix[0]) == ToLower(prefix)[0] == 'a';
    assert |modelId| == |ToLower(modelId)| >= |MODEL_PREFIX|;
    VisibleEnds(prefix, mid, modelId);
    TrimAround(pre, prefix + rest, post);
    TrimAround(mid, modelId, "");
    assert rest + "" == rest;
    ConvertsInner(raw, prefix + rest, rest, modelId);
  }

  lemma VisibleEnds(prefix: string, mid: string, modelId: string)
    requires prefix != "" && LowerChar(prefix[0]) == 'a' && modelId != "" && IsTrimmed(modelId)
    ensures prefix + (mid + modelId) != "" && IsTrimmed(prefix + (mid + modelId))
  {
    var core := prefix + (mid + modelId);
    assert core[0] == prefix[0] && core[|core| - 1] == modelId[|modelId| - 1];
  }

  lemma ConvertsInner(raw: string, trimmed: string, rest: string, modelId: string)
    requires Trim(raw) == trimmed && StartsWith(ToLower(trimmed), OLD_PREFIX) && trimmed[|OLD_PREFIX|..] == rest
    requires Trim(rest) == modelId && StartsWith(ToLower(modelId), MODEL_PREFIX)
    ensures ToClaudeCliModelRef(raw) == Some(NEW_PREFIX + modelId)
  {
  }

  /** Lower-casing a text lower-cases what it starts with. */
  lemma FoldedPrefix(prefix: string, rest: string, folded: string)
    requires ToLower(prefix) == folded
    ensures StartsWith(ToLower(prefix + rest), folded)
  {
    var t := ToLower(prefix + rest);
    forall i | 0 <= i < |folded| ensures t[i] == folded[i] {
      assert (prefix + rest)[i] == prefix[i];
      assert LowerChar(prefix[i]) == ToLower(prefix)[i];
    }
  }

  lemma LowerTake(s: string, folded: string)
    requires StartsWith(ToLower(s), folded)
    ensures ToLower(s[..|folded|]) == folded
  {
    forall i | 0 <= i < |folded| ensures ToLower(s[..|folded|])[i] == folded[i] {
      assert s[..|folded|][i] == s[i] && ToLower(s)[i] == LowerChar(s[i]);
    }
  }

  /** And nothing else converts. */
  lemma OnlyOldRefsConvert(raw: string)
    returns (pre: string, prefix: string, mid: string, modelId: string, post: string)
    requires ToClaudeCliModelRef(raw).Some?
    ensures IsOldRef(raw, pre, prefix, mid, modelId, post)
  {
    var trimmed, after, inner := Trim(raw), "", "";
    prefix, modelId := trimmed[..|OLD_PREFIX|], Trim(trimmed[|OLD_PREFIX|..]);
    ConvertedParts(raw);
    LowerTake(trimmed, OLD_PREFIX);
    pre, after := TrimParts(raw);
    mid, inner := TrimParts(trimmed[|OLD_PREFIX|..]);
    post := inner + after;
    Reassociate(raw, trimmed, trimmed[|OLD_PREFIX|..], pre, prefix, mid, modelId, inner, after);
    BothBlank(inner, after);
  }

  lemma ConvertedParts(raw: string)
    requires ToClaudeCliModelRef(raw).Some?
    ensures StartsWith(ToLower(Trim(raw)), OLD_PREFIX)
    ensures StartsWith(ToLower(Trim(Trim(raw)[|OLD_PREFIX|..])), MODEL_PREFIX)
  {
  }

  lemma Reassociate(raw: string, t: string, r: string, a: string, b: string, c: string, d: string, e: string,
                    f: string)
    requires raw == a + t + f && |b| <= |t| && b == t[..|b|] && r == t[|b|..] && r == c + d + e
    ensures raw == a + (b + (c + d)) + (e + f)
  {
    assert t == b + (c + d) + e;
    assert a + (b + (c + d) + e) + f == a + (b + (c + d)) + (e + f);
  }

  lemma BothBlank(a: string, b: string)
    requires AllSpaces(a) && AllSpaces(b)
    ensures AllSpaces(a + b)
  {
  }

  lemma FinalIfNew(image: string, modelId: string)
    requires image == NEW_PREFIX + modelId && modelId != "" && IsTrimmed(modelId)
    ensures ToClaudeCliModelRef(image) == None
  {
    assert image[0] == 'c' && image[|image| - 1] == modelId[|modelId| - 1];
    assert Trim(image) == image;
    assert ToLower(image)[0] == 'c' && OLD_PREFIX[0] == 'a';
  }

  // ----- the model map; the conversion is a parameter here

  type Convert = string -> Option<string>

  /** Entries of the object in enumeration order. */
  datatype Entry<V> = Entry(key: string, value: V)

  ghost predicate DistinctKeys<V>(entries: seq<Entry<V>>) {
    forall i, j | 0 <= i < j < |entries| :: entries[i].key != entries[j].key
  }

  function AsMap<V>(entries: seq<Entry<V>>): map<string, V> {
    if entries == [] then map[] else
      AsMap(entries[..|entries| - 1])[entries[|entries| - 1].key := entries[|entries| - 1].value]
  }

  lemma {:induction false} AsMapAt<V>(entries: seq<Entry<V>>)
    requires DistinctKeys(entries)
    ensures forall key :: key in AsMap(entries) <==> exists i :: 0 <= i < |entries| && entries[i].key == key
    ensures forall i | 0 <= i < |entries| ::
              entries[i].key in AsMap(entries) && AsMap(entries)[entries[i].key] == entries[i].value
  {
    if entries != [] {
      var n := |entries| - 1;
      AsMapAt(entries[..n]);
      assert forall i | 0 <= i < n :: entries[..n][i] == entries[i];
    }
  }

  /** The first entry, in enumeration order, that converts to the key. */
  ghost predicate FirstSource<V>(convert: Convert, entries: seq<Entry<V>>, key: string, i: int) {
    0 <= i < |entries| && convert(entries[i].key) == Some(key)
        && forall j | 0 <= j < i :: convert(entries[j].key) != Some(key)
  }

  /** An old key is still there unless it is one of the first `n` and converts, and then it has its old value. */
  ghost predicate OldKeys<V>(convert: Convert, entries: seq<Entry<V>>, n: nat, next: map<string, V>) {
    forall i | 0 <= i < |entries| ::
      var key := entries[i].key;
      (key in next <==> convert(key).None? || i >= n) && (key in next ==> next[key] == entries[i].value)
  }

  /** A new key has the value of the first entry that converts to it, one of the first `n`. */
  ghost predicate NewKeys<V>(convert: Convert, entries: seq<Entry<V>>, n: nat, next: map<string, V>) {
    forall key | key in next && key !in AsMap(entries) ::
      exists i :: 0 <= i < n && FirstSource(convert, entries, key, i) && next[key] == entries[i].value
  }

  ghost predicate HasImages<V>(convert: Convert, entries: seq<Entry<V>>, n: nat, next: map<string, V>)
    requires n <= |entries|
  {
    forall i | 0 <= i < n && convert(entries[i].key).Some? :: convert(entries[i].key).value in next
  }

  /** The first `n` entries are migrated. */
  ghost predicate MigratedUpTo<V>(convert: Convert, entries: seq<Entry<V>>, n: nat, next: map<string, V>)
    requires n <= |entries|
  {
    OldKeys(convert, entries, n, next) && NewKeys(convert, entries, n, next) && HasImages(convert, entries, n, next)
  }

  /** The images are never converted themselves. */
  ghost predicate Final(convert: Convert) {
    forall key | convert(key).Some? :: convert(convert(key).value).None?
  }

  function Images<V>(convert: Convert, entries: seq<Entry<V>>): seq<string> {
    if entries == [] then [] else
      var image := convert(entries[|entries| - 1].key);
      Images(convert, entries[..|entries| - 1]) + if image.Some? then [image.value] else []
  }

  lemma {:induction false} ImagesConcat<V>(convert: Convert, xs: seq<Entry<V>>, ys: seq<Entry<V>>)
    ensures Images(convert, xs + ys) == Images(convert, xs) + Images(convert, ys)
  {
    if ys == [] {
      assert xs + ys == xs;
    } else {
      ImagesConcat(convert, xs, ys[..|ys| - 1]);
      assert (xs + ys)[..|xs + ys| - 1] == xs + ys[..|ys| - 1];
    }
  }

  /** The images of two lists of entries are those of each, in order; of one entry, its image if it has one. */
  lemma ImagesLaws<V>(convert: Convert, xs: seq<Entry<V>>, ys: seq<Entry<V>>, x: Entry<V>)
    ensures Images(convert, xs + ys) == Images(convert, xs) + Images(convert, ys)
    ensures Images(convert, [x]) == if convert(x.key).Some? then [convert(x.key).value] else []
  {
    ImagesConcat(convert, xs, ys);
    assert [x][..0] == [];
  }

  /** `rewriteModelEntryMap`: the new map, and the images in the order of their sources. */
  method RewriteModelEntryMap<V>(convert: Convert, entries: seq<Entry<V>>)
    returns (value: map<string, V>, migrated: seq<string>)
    requires DistinctKeys(entries) && Final(convert)
    ensures MigratedUpTo(convert, entries, |entries|, value)
    ensures migrated == Images(convert, entries)
    ensures migrated == [] ==> value == AsMap(entries)
  {
    MigrateStart(convert, entries);
    var next := AsMap(entries);
    migrated := [];
    for i := 0 to |entries|
      invariant MigratedUpTo(convert, entries, i, next)
      invariant migrated == Images(convert, entries[..i])
      invariant migrated == [] ==> next == AsMap(entries)
    {
      assert entries[..i + 1][..i] == entries[..i];
      var converted := convert(entries[i].key);
      MigrateOne(convert, entries, i, next);
      ghost var after := MigrateEntry(convert, entries[i], next);
      if converted.None? {
        continue;
      }
      if converted.value !in next {
        next := next[converted.value := entries[i].value];
      }
      next := next - {entries[i].key};
      assert next == after;
      migrated := migrated + [converted.value];
    }
    assert entries[..|entries|] == entries;
    value := next;
  }

  function MigrateEntry<V>(convert: Convert, entry: Entry<V>, next: map<string, V>): map<string, V> {
    var converted := convert(entry.key);
    if converted.None? then next
    else (if converted.value in next then next else next[converted.value := entry.value]) - {entry.key}
  }

  lemma MigrateOne<V>(convert: Convert, entries: seq<Entry<V>>, n: nat, next: map<string, V>)
    requires n < |entries| && DistinctKeys(entries) && Final(convert) && MigratedUpTo(convert, entries, n, next)
    ensures MigratedUpTo(convert, entries, n + 1, MigrateEntry(convert, entries[n], next))
  {
    if convert(entries[n].key).Some? {
      MigrateOldKeys(convert, entries, n, next);
      MigrateNewKeys(convert, entries, n, next);
      MigrateImages(convert, entries, n, next);
    }
  }

  lemma MigrateOldKeys<V>(convert: Convert, entries: seq<Entry<V>>, n: nat, next: map<string, V>)
    requires n < |entries| && DistinctKeys(entries) && Final(convert) && OldKeys(convert, entries, n, next)
    requires convert(entries[n].key).Some?
    ensures OldKeys(convert, entries, n + 1, MigrateEntry(convert, entries[n], next))
  {
    var image := convert(entries[n].key).value;
    var after := MigrateEntry(convert, entries[n], next);
    forall i | 0 <= i < |entries|
      ensures entries[i].key in after <==> convert(entries[i].key).None? || i >= n + 1
      ensures entries[i].key in after ==> after[entries[i].key] == entries[i].value
    {
      assert entries[i].key == image ==> image in next;
    }
  }

  lemma MigrateNewKeys<V>(convert: Convert, entries: seq<Entry<V>>, n: nat, next: map<string, V>)
    requires n < |entries| && DistinctKeys(entries) && MigratedUpTo(convert, entries, n, next)
    requires convert(entries[n].key).Some?
    ensures NewKeys(convert, entries, n + 1, MigrateEntry(convert, entries[n], next))
  {
    var image := convert(entries[n].key).value;
    var after := MigrateEntry(convert, entries[n], next);
    forall key | key in after && key !in AsMap(entries)
      ensures exists i :: 0 <= i < n + 1 && FirstSource(convert, entries, key, i) && after[key] == entries[i].value
    {
      if key in next {
        var i :| 0 <= i < n && FirstSource(convert, entries, key, i) && next[key] == entries[i].value;
        assert after[key] == next[key];
      } else {
        assert key == image && forall j | 0 <= j < n :: convert(entries[j].key) != Some(image);
        assert FirstSource(convert, entries, key, n);
      }
    }
  }

  lemma MigrateImages<V>(convert: Convert, entries: seq<Entry<V>>, n: nat, next: map<string, V>)
    requires n < |entries| && Final(convert) && HasImages(convert, entries, n, next)
    requires convert(entries[n].key).Some?
    ensures HasImages(convert, entries, n + 1, MigrateEntry(convert, entries[n], next))
  {
    forall i | 0 <= i <= n && convert(entries[i].key).Some? ensures convert(entries[i].key).value != entries[n].key {
      assert convert(convert(entries[i].key).value).None?;
    }
  }

  lemma MigrateStart<V>(convert: Convert, entries: seq<Entry<V>>)
    requires DistinctKeys(entries)
    ensures MigratedUpTo(convert, entries, 0, AsMap(entries))
  {
    AsMapAt(entries);
  }

  /** The finished map has exactly the keys that do not convert and the images of those that do. A key that was there
      keeps its value, and any other takes the value of its first source. */
  lemma MigratedKeys<V>(convert: Convert, entries: seq<Entry<V>>, value: map<string, V>, key: string)
    requires DistinctKeys(entries) && Final(convert) && MigratedUpTo(convert, entries, |entries|, value)
    ensures key in value <==>
              || (key in AsMap(entries) && convert(key).None?)
              || exists i :: 0 <= i < |entries| && convert(entries[i].key) == Some(key)
    ensures key in value && key in AsMap(entries) ==> value[key] == AsMap(entries)[key]
    ensures forall i | FirstSource(convert, entries, key, i) && key !in AsMap(entries) ::
              key in value && value[key] == entries[i].value
  {
    AsMapAt(entries);
    forall i | 0 <= i < |entries| && convert(entries[i].key) == Some(key) ensures key in value {
      assert convert(entries[i].key).value in value;
    }
    forall i | FirstSource(convert, entries, key, i) && key !in AsMap(entries)
      ensures key in value && value[key] == entries[i].value
    {
      assert convert(entries[i].key).value in value;
      var j :| 0 <= j < |entries| && FirstSource(convert, entries, key, j) && value[key] == entries[j].value;
    }
  }

  /** Migrating the result again changes nothing: none of its keys converts. */
  lemma MigrateTwice<V>(convert: Convert, entries: seq<Entry<V>>, value: map<string, V>, again: seq<Entry<V>>,
                        value2: map<string, V>)
    requires DistinctKeys(entries) && Final(convert) && MigratedUpTo(convert, entries, |entries|, value)
    requires DistinctKeys(again) && AsMap(again) == value && MigratedUpTo(convert, again, |again|, value2)
    ensures Images(convert, again) == []
    ensures value2 == value
  {
    AsMapAt(again);
    forall i | 0 <= i < |again| ensures convert(again[i].key).None? {
      MigratedKeys(convert, entries, value, again[i].key);
      if exists k :: 0 <= k < |entries| && convert(entries[k].key) == Some(again[i].key) {
        var k :| 0 <= k < |entries| && convert(entries[k].key) == Some(again[i].key);
        assert convert(convert(entries[k].key).value).None?;
      }
    }
    NoImages(convert, again);
    NothingToMigrate(convert, again, value2);
  }

  lemma {:induction false} NoImages<V>(convert: Convert, entries: seq<Entry<V>>)
    requires forall i | 0 <= i < |entries| :: convert(entries[i].key).None?
    ensures Images(convert, entries) == []
  {
    if entries != [] {
      NoImages(convert, entries[..|entries| - 1]);
    }
  }

  lemma RefIsFinal()
    ensures Final(ToClaudeCliModelRef)
  {
    forall key | ToClaudeCliModelRef(key).Some? ensures ToClaudeCliModelRef(ToClaudeCliModelRef(key).value).None? {
      ImageIsFinal(key);
    }
  }

  // ----- the model selection

  /** A property of the selection object: text, something else, or missing. */
  datatype Field = Missing | Text(text: string) | Other

  datatype Selection = NotAnObject | Name(name: string) | Object(primary: Field, fallbacks: Option<seq<Field>>)

  datatype Rewrite = Rewrite(value: Selection, primary: Option<string>, changed: bool)

  function FieldRef(field: Field): Option<string> {
    if field.Text? then ToClaudeCliModelRef(field.text) else None
  }

  function RewriteField(field: Field): Field {
    if FieldRef(field).Some? then Text(FieldRef(field).value) else field
  }

  function RewriteFields(fields: seq<Field>): (r: seq<Field>)
    ensures |r| == |fields|
    ensures forall i | 0 <= i < |fields| :: r[i] == RewriteField(fields[i])
  {
    seq(|fields|, i requires 0 <= i < |fields| => RewriteField(fields[i]))
  }

  function RewriteModelSelection(model: Selection): Rewrite {
    match model
    case NotAnObject => Rewrite(model, None, false)
    case Name(name) =>
      var converted := ToClaudeCliModelRef(name);
      if converted.Some? then Rewrite(Name(converted.value), converted, true) else Rewrite(model, None, false)
    case Object(primary, fallbacks) =>
      var converted := FieldRef(primary);
      var changedFallbacks := fallbacks.Some? && RewriteFields(fallbacks.value) != fallbacks.value;
      var value := Object(RewriteField(primary),
          if changedFallbacks then Some(RewriteFields(fallbacks.value)) else fallbacks);
      var changed := converted.Some? || changedFallbacks;
      Rewrite(if changed then value else model, converted, changed)
  }

  /** A text that converts becomes its image; anything else stays. */
  predicate FieldBecomes(old1: Field, new1: Field) {
    new1 == if old1.Text? && ToClaudeCliModelRef(old1.text).Some?
              then Text(ToClaudeCliModelRef(old1.text).value) else old1
  }

  lemma FieldMeans(field: Field)
    ensures FieldBecomes(field, RewriteField(field))
    ensures FieldRef(field) == if field.Text? then ToClaudeCliModelRef(field.text) else None
  {
  }

  /** Every name in the selection is converted where it can be, fallbacks too, and the primary model is the converted
      one, if any. */
  lemma SelectionMeans(model: Selection)
    ensures var r := RewriteModelSelection(model);
            && (model.NotAnObject? ==> r.value == model && r.primary == None)
            && (model.Name? ==> r.value.Name? && FieldBecomes(Text(model.name), Text(r.value.name))
                                && r.primary == ToClaudeCliModelRef(model.name))
            && (model.Object? ==>
                  && r.value.Object? && FieldBecomes(model.primary, r.value.primary)
                  && r.primary == (if model.primary.Text? then ToClaudeCliModelRef(model.primary.text) else None)
                  && FallbacksBecome(model.fallbacks, r.value.fallbacks))
  {
    match model
    case NotAnObject =>
    case Name(name) => FieldMeans(Text(name));
    case Object(primary, fallbacks) =>
      FieldMeans(primary);
      if fallbacks.Some? {
        FallbacksMean(fallbacks.value);
        assert RewriteModelSelection(model).value.fallbacks == Some(RewriteFields(fallbacks.value));
      }
  }

  lemma FallbacksMean(fields: seq<Field>)
    ensures FallbacksBecome(Some(fields), Some(RewriteFields(fields)))
  {
    forall i | 0 <= i < |fields| ensures FieldBecomes(fields[i], RewriteFields(fields)[i]) {
      FieldMeans(fields[i]);
    }
  }

  predicate FallbacksBecome(old1: Option<seq<Field>>, new1: Option<seq<Field>>) {
    if old1.None? then new1.None?
    else new1.Some? && |new1.value| == |old1.value|
         && forall i | 0 <= i < |old1.value| :: FieldBecomes(old1.value[i], new1.value[i])
  }

  /** `rewriteModelSelection`: a copy of the object, changed property by property. */
  method RewriteSelection(model: Selection) returns (r: Rewrite)
    ensures r == RewriteModelSelection(model)
  {
    match model
    case NotAnObject => return Rewrite(model, None, false);
    case Name(name) =>
      var converted := ToClaudeCliModelRef(name);
      return if converted.Some? then Rewrite(Name(converted.value), converted, true) else Rewrite(model, None, false);
    case Object(current, fallbacks) =>
      var next, primary, changed := model, None, false;
      if current.Text? {
        var converted := ToClaudeCliModelRef(current.text);
        if converted.Some? {
          next := next.(primary := Text(converted.value));
          primary := converted;
          changed := true;
        }
      }
      if fallbacks.Some? {
        var nextFallbacks := RewriteFields(fallbacks.value);
        if nextFallbacks != fallbacks.value {
          next := next.(fallbacks := Some(nextFallbacks));
          changed := true;
        }
      }
      return Rewrite(if changed then next else model, primary, changed);
  }

  lemma FieldTwice(field: Field)
    ensures FieldRef(RewriteField(field)) == None
    ensures RewriteField(field) != field <==> FieldRef(field).Some?
  {
    if FieldRef(field).Some? {
      ImageIsFinal(field.text);
    }
  }

  lemma FieldsTwice(fields: seq<Field>)
    ensures RewriteFields(RewriteFields(fields)) == RewriteFields(fields)
  {
    forall i | 0 <= i < |fields| ensures RewriteField(RewriteField(fields[i])) == RewriteField(fields[i]) {
      FieldTwice(fields[i]);
    }
  }

  /** The flag says whether the value changed, and rewriting the result again changes nothing. */
  lemma SelectionTwice(model: Selection)
    ensures RewriteModelSelection(model).changed <==> RewriteModelSelection(model).value != model
    ensures var r := RewriteModelSelection(model).value; RewriteModelSelection(r) == Rewrite(r, None, false)
  {
    match model
    case NotAnObject =>
    case Name(name) => FieldTwice(Text(name));
    case Object(primary, fallbacks) =>
      FieldTwice(primary);
      if fallbacks.Some? {
        FieldsTwice(fallbacks.value);
      }
  }

  // ----- the whole migration

  /** The settings after the patch, and the model it makes the default. */
  datatype Migration<V> = Migration(model: Selection, models: map<string, V>, defaultModel: string)

  function DefaultModel(model: Selection): string {
    RewriteModelSelection(model).primary.GetOr(DEFAULT_CLAUDE_CLI_MODEL)
  }

  /** `buildAnthropicCliMigrationResult`; `empty` is the entry for a default model that had none. */
  method BuildMigration<V(!new)>(model: Selection, entries: seq<Entry<V>>, empty: V) returns (m: Migration<V>)
    requires DistinctKeys(entries)
    ensures IsMigration(model, entries, empty, m)
  {
    RefIsFinal();
    var rewritten := RewriteSelection(model);
    var existing, migrated := RewriteModelEntryMap(ToClaudeCliModelRef, entries);
    var defaultModel := rewritten.primary.GetOr(DEFAULT_CLAUDE_CLI_MODEL);
    SelectionTwice(model);
    m := Migration(if rewritten.changed then rewritten.value else model, WithDefault(existing, defaultModel, empty),
        defaultModel);
    assert ModelsFrom(entries, existing, defaultModel, empty, m.models);
  }

  ghost predicate IsMigration<V(!new)>(model: Selection, entries: seq<Entry<V>>, empty: V, m: Migration<V>) {
    && m.model == RewriteModelSelection(model).value
    && m.defaultModel == DefaultModel(model)
    && exists existing :: ModelsFrom(entries, existing, m.defaultModel, empty, m.models)
  }

  /** The models are the migrated entries with an entry for the default model. */
  ghost predicate ModelsFrom<V>(entries: seq<Entry<V>>, existing: map<string, V>, defaultModel: string, empty: V,
                                models: map<string, V>)
  {
    MigratedUpTo(ToClaudeCliModelRef, entries, |entries|, existing)
        && models == WithDefault(existing, defaultModel, empty)
  }

  function WithDefault<V>(existing: map<string, V>, defaultModel: string, empty: V): map<string, V> {
    existing[defaultModel := if defaultModel in existing then existing[defaultModel] else empty]
  }

  /** The default model is the converted primary one or else the built-in one. The models are the keys that do not
      convert, the images of those that do, and the default model; a key that was there keeps its value, an image takes
      the value of its first source, and a default model from neither is empty. */
  lemma MigrationMeans<V(!new)>(model: Selection, entries: seq<Entry<V>>, empty: V, m: Migration<V>, key: string)
    requires DistinctKeys(entries) && IsMigration(model, entries, empty, m)
    ensures m.defaultModel == (if RewriteModelSelection(model).primary.Some?
                                 then RewriteModelSelection(model).primary.value else "claude-cli/claude-sonnet-4-6")
    ensures key in m.models <==>
              || key == m.defaultModel
              || (key in AsMap(entries) && ToClaudeCliModelRef(key).None?)
              || exists i :: 0 <= i < |entries| && ToClaudeCliModelRef(entries[i].key) == Some(key)
    ensures key in m.models && key in AsMap(entries) ==> m.models[key] == AsMap(entries)[key]
    ensures forall i | FirstSource(ToClaudeCliModelRef, entries, key, i) && key !in AsMap(entries) ::
              key in m.models && m.models[key] == entries[i].value
    ensures key in m.models && key !in AsMap(entries)
            && (forall i | 0 <= i < |entries| :: ToClaudeCliModelRef(entries[i].key) != Some(key)) ==>
              m.models[key] == empty
  {
    RefIsFinal();
    var existing :| ModelsFrom(entries, existing, m.defaultModel, empty, m.models);
    MigratedKeys(ToClaudeCliModelRef, entries, existing, key);
    DefaultIsFinal(model);
    AddedDefault(existing, m.defaultModel, empty, key);
  }

  lemma AddedDefault<V>(existing: map<string, V>, defaultModel: string, empty: V, key: string)
    ensures var models := WithDefault(existing, defaultModel, empty);
            && (key in models <==> key == defaultModel || key in existing)
            && (key in models ==> models[key] == if key in existing then existing[key] else empty)
  {
  }

  /** The built-in default model is the default of the selection, a key of the map, or the image of one. */
  ghost predicate NamesBuiltIn<V>(model: Selection, entries: seq<Entry<V>>) {
    || DefaultModel(model) == DEFAULT_CLAUDE_CLI_MODEL
    || exists i :: 0 <= i < |entries| && BecomesBuiltIn(entries[i].key)
  }

  predicate BecomesBuiltIn(key: string) {
    key == DEFAULT_CLAUDE_CLI_MODEL || ToClaudeCliModelRef(key) == Some(DEFAULT_CLAUDE_CLI_MODEL)
  }

  /** Running the migration on its own result keeps the models if and only if the settings already name the built-in
      default model; otherwise the second run adds it. */
  lemma MigrationTwiceIff<V(!new)>(model: Selection, entries: seq<Entry<V>>, empty: V, m: Migration<V>,
                                   again: seq<Entry<V>>, m2: Migration<V>)
    requires DistinctKeys(entries) && IsMigration(model, entries, empty, m)
    requires DistinctKeys(again) && AsMap(again) == m.models && IsMigration(m.model, again, empty, m2)
    ensures m2.model == m.model && m2.defaultModel == DEFAULT_CLAUDE_CLI_MODEL
    ensures m2.models == m.models <==> NamesBuiltIn(model, entries)
  {
    SelectionAgain(model);
    DefaultIsFinal(model);
    WithDefaultIff(m.models, DEFAULT_CLAUDE_CLI_MODEL, empty);
    var existing :| ModelsFrom(entries, existing, m.defaultModel, empty, m.models);
    var existing2 :| ModelsFrom(again, existing2, m2.defaultModel, empty, m2.models);
    ModelsTwice(entries, existing, m.defaultModel, empty, m.models, again, existing2);
    BuiltInIff(model, entries, existing, empty);
  }

  /** The interactive setup merges the result into the old settings, so that the old keys come back beside the new ones;
      running the migration on the merged settings gives the same models under the same condition. */
  lemma MergedTwiceIff<V(!new)>(model: Selection, entries: seq<Entry<V>>, empty: V, m: Migration<V>,
                                again: seq<Entry<V>>, m2: Migration<V>)
    requires DistinctKeys(entries) && IsMigration(model, entries, empty, m)
    requires DistinctKeys(again) && AsMap(again) == AsMap(entries) + m.models && IsMigration(m.model, again, empty, m2)
    ensures m2.models == m.models <==> NamesBuiltIn(model, entries)
    ensures AsMap(again) + m2.models == AsMap(again) <==> NamesBuiltIn(model, entries)
  {
    SelectionAgain(model);
    DefaultIsFinal(model);
    RefIsFinal();
    var existing :| ModelsFrom(entries, existing, m.defaultModel, empty, m.models);
    var existing2 :| ModelsFrom(again, existing2, m2.defaultModel, empty, m2.models);
    MigratedMerge(ToClaudeCliModelRef, entries, existing, m.defaultModel, empty, again, existing2);
    BuiltInIff(model, entries, existing, empty);
    OldBuiltInNamed(model, entries);
    MergeAddsIff(AsMap(entries), m.models, DEFAULT_CLAUDE_CLI_MODEL, empty);
  }

  lemma OldBuiltInNamed<V>(model: Selection, entries: seq<Entry<V>>)
    requires DistinctKeys(entries)
    ensures DEFAULT_CLAUDE_CLI_MODEL in AsMap(entries) ==> NamesBuiltIn(model, entries)
  {
    AsMapAt(entries);
  }

  lemma MergeAddsIff<V>(old1: map<string, V>, models: map<string, V>, key: string, empty: V)
    requires key in old1 ==> key in models
    ensures WithDefault(models, key, empty) == models <==> key in models
    ensures old1 + models + WithDefault(models, key, empty) == old1 + models <==> key in models
  {
    if key !in models {
      assert key in old1 + models + WithDefault(models, key, empty) && key !in old1 + models;
    }
  }

  /** Migrating the old and the new entries together gives the new ones. */
  lemma MigratedMerge<V>(convert: Convert, entries: seq<Entry<V>>, existing: map<string, V>, default: string, empty: V,
                         again: seq<Entry<V>>, existing2: map<string, V>)
    requires DistinctKeys(entries) && Final(convert) && MigratedUpTo(convert, entries, |entries|, existing)
    requires convert(default).None? && DistinctKeys(again)
    requires AsMap(again) == AsMap(entries) + WithDefault(existing, default, empty)
    requires MigratedUpTo(convert, again, |again|, existing2)
    ensures existing2 == WithDefault(existing, default, empty)
  {
    forall key
      ensures key in existing2 <==> key in WithDefault(existing, default, empty)
      ensures key in existing2 ==> existing2[key] == WithDefault(existing, default, empty)[key]
    {
      MergedKey(convert, entries, existing, default, empty, again, existing2, key);
      MergedValue(convert, again, existing2, AsMap(entries), WithDefault(existing, default, empty), key);
    }
  }

  lemma MergedKey<V>(convert: Convert, entries: seq<Entry<V>>, existing: map<string, V>, default: string, empty: V,
                     again: seq<Entry<V>>, existing2: map<string, V>, key: string)
    requires DistinctKeys(entries) && Final(convert) && MigratedUpTo(convert, entries, |entries|, existing)
    requires convert(default).None? && DistinctKeys(again)
    requires AsMap(again) == AsMap(entries) + WithDefault(existing, default, empty)
    requires MigratedUpTo(convert, again, |again|, existing2)
    ensures key in existing2 <==> key in WithDefault(existing, default, empty)
  {
    MigratedKeys(convert, again, existing2, key);
    MigratedKeys(convert, entries, existing, key);
    ImagesOfMerge(convert, entries, existing, default, empty, again, key);
  }

  lemma MergedValue<V>(convert: Convert, again: seq<Entry<V>>, existing2: map<string, V>, old1: map<string, V>,
                       models: map<string, V>, key: string)
    requires DistinctKeys(again) && Final(convert) && MigratedUpTo(convert, again, |again|, existing2)
    requires AsMap(again) == old1 + models && (key in existing2 ==> key in models)
    ensures key in existing2 ==> existing2[key] == models[key]
  {
    MigratedKeys(convert, again, existing2, key);
  }

  lemma ImagesOfMerge<V>(convert: Convert, entries: seq<Entry<V>>, existing: map<string, V>, default: string, empty: V,
                         again: seq<Entry<V>>, key: string)
    requires DistinctKeys(entries) && Final(convert) && MigratedUpTo(convert, entries, |entries|, existing)
    requires convert(default).None? && DistinctKeys(again)
    requires AsMap(again) == AsMap(entries) + WithDefault(existing, default, empty)
    ensures key in WithDefault(existing, default, empty) ==> convert(key).None?
    ensures (exists i :: 0 <= i < |again| && convert(again[i].key) == Some(key)) ==> key in existing
  {
    AsMapAt(again);
    AsMapAt(entries);
    MigratedKeys(convert, entries, existing, key);
    forall i | 0 <= i < |again| && convert(again[i].key) == Some(key) ensures key in existing {
      MigratedKeys(convert, entries, existing, again[i].key);
      assert again[i].key in AsMap(entries);
    }
  }

  lemma BuiltInIff<V>(model: Selection, entries: seq<Entry<V>>, existing: map<string, V>, empty: V)
    requires DistinctKeys(entries) && MigratedUpTo(ToClaudeCliModelRef, entries, |entries|, existing)
    ensures DEFAULT_CLAUDE_CLI_MODEL in WithDefault(existing, DefaultModel(model), empty)
            <==> NamesBuiltIn(model, entries)
  {
    RefIsFinal();
    BuiltInIsFinal();
    AsMapAt(entries);
    MigratedKeys(ToClaudeCliModelRef, entries, existing, DEFAULT_CLAUDE_CLI_MODEL);
  }

  /** A reference without blanks or capitals converts by its prefix. */
  lemma PlainRefConverts(modelId: string)
    requires MODEL_PREFIX <= modelId && IsTrimmed(modelId)
    requires forall i | 0 <= i < |modelId| :: LowerChar(modelId[i]) == modelId[i]
    ensures ToClaudeCliModelRef(OLD_PREFIX + modelId) == Some(NEW_PREFIX + modelId)
  {
    FoldedPrefix(OLD_PREFIX, modelId, OLD_PREFIX);
    LowerAlready(modelId);
    TrimmedRef(modelId);
    ConvertsByPrefix(OLD_PREFIX + modelId, modelId);
  }

  lemma ConvertsByPrefix(raw: string, modelId: string)
    requires IsTrimmed(raw) && StartsWith(ToLower(raw), OLD_PREFIX) && raw[|OLD_PREFIX|..] == modelId
    requires IsTrimmed(modelId) && StartsWith(ToLower(modelId), MODEL_PREFIX)
    ensures ToClaudeCliModelRef(raw) == Some(NEW_PREFIX + modelId)
  {
  }

  lemma TrimmedRef(modelId: string)
    requires IsTrimmed(modelId) && modelId != ""
    ensures IsTrimmed(OLD_PREFIX + modelId) && (OLD_PREFIX + modelId)[|OLD_PREFIX|..] == modelId
  {
    var raw := OLD_PREFIX + modelId;
    assert raw[0] == OLD_PREFIX[0] == 'a' && raw[|raw| - 1] == modelId[|modelId| - 1];
  }

  lemma LowerAlready(s: string)
    requires forall i | 0 <= i < |s| :: LowerChar(s[i]) == s[i]
    ensures ToLower(s) == s
  {
  }

  /** Without a model map, a selection that converts to another model gains the built-in default in the second run. */
  lemma SecondRunAddsBuiltIn<V(!new)>(raw: string, ref: string, empty: V, m: Migration<V>,
                                      again: seq<Entry<V>>, m2: Migration<V>)
    requires ToClaudeCliModelRef(raw) == Some(ref) && ref != DEFAULT_CLAUDE_CLI_MODEL
    requires IsMigration(Name(raw), [], empty, m)
    requires DistinctKeys(again) && AsMap(again) == m.models && IsMigration(m.model, again, empty, m2)
    ensures m.models == map[ref := empty]
    ensures DEFAULT_CLAUDE_CLI_MODEL in m2.models && m2.models != m.models
  {
    var none: seq<Entry<V>> := [];
    RefIsFinal();
    var existing :| ModelsFrom(none, existing, m.defaultModel, empty, m.models);
    forall key ensures key !in existing {
      MigratedKeys(ToClaudeCliModelRef, none, existing, key);
    }
    assert existing == map[];
    MigrationTwiceIff(Name(raw), none, empty, m, again, m2);
  }

  /** That happens for `anthropic/claude-opus-4`. */
  lemma OpusIsNotBuiltIn()
    ensures ToClaudeCliModelRef(OLD_PREFIX + "claude-opus-4") == Some(NEW_PREFIX + "claude-opus-4")
    ensures NEW_PREFIX + "claude-opus-4" != DEFAULT_CLAUDE_CLI_MODEL
  {
    assert |"claude-opus-4"| == 13 && |DEFAULT_CLAUDE_CLI_MODEL| == 28;
    PlainRefConverts("claude-opus-4");
  }

  lemma SelectionAgain(model: Selection)
    ensures var r := RewriteModelSelection(model).value;
            RewriteModelSelection(r).value == r && DefaultModel(r) == DEFAULT_CLAUDE_CLI_MODEL
  {
    SelectionTwice(model);
  }

  lemma WithDefaultIff<V>(models: map<string, V>, key: string, empty: V)
    ensures WithDefault(models, key, empty) == models <==> key in models
  {
  }

  lemma ModelsTwice<V>(entries: seq<Entry<V>>, existing: map<string, V>, key: string, empty: V, models: map<string, V>,
                       again: seq<Entry<V>>, existing2: map<string, V>)
    requires DistinctKeys(entries) && ToClaudeCliModelRef(key).None?
    requires ModelsFrom(entries, existing, key, empty, models)
    requires DistinctKeys(again) && AsMap(again) == models
             && MigratedUpTo(ToClaudeCliModelRef, again, |again|, existing2)
    ensures existing2 == models
  {
    RefIsFinal();
    MigrateAgain(ToClaudeCliModelRef, entries, existing, key, empty, again, existing2);
  }

  /** Neither the built-in default nor a converted primary model converts. */
  lemma DefaultIsFinal(model: Selection)
    ensures ToClaudeCliModelRef(DefaultModel(model)) == None
  {
    var primary := RewriteModelSelection(model).primary;
    if primary.Some? {
      match model
      case Name(name) => ImageIsFinal(name);
      case Object(field, _) => ImageIsFinal(field.text);
    } else {
      BuiltInIsFinal();
    }
  }

  lemma BuiltInIsFinal()
    ensures ToClaudeCliModelRef(DEFAULT_CLAUDE_CLI_MODEL) == None
  {
    FinalIfNew(DEFAULT_CLAUDE_CLI_MODEL, "claude-sonnet-4-6");
  }

  lemma MigrateAgain<V>(convert: Convert, entries: seq<Entry<V>>, existing: map<string, V>, key: string, empty: V,
                        again: seq<Entry<V>>, existing2: map<string, V>)
    requires DistinctKeys(entries) && Final(convert) && MigratedUpTo(convert, entries, |entries|, existing)
    requires convert(key).None?
    requires DistinctKeys(again) && AsMap(again) == WithDefault(existing, key, empty)
             && MigratedUpTo(convert, again, |again|, existing2)
    ensures existing2 == WithDefault(existing, key, empty)
  {
    AsMapAt(again);
    var models := WithDefault(existing, key, empty);
    forall k | k in models ensures convert(k).None? {
      MigratedKeys(convert, entries, existing, k);
    }
    NothingToMigrate(convert, again, existing2);
  }

  lemma NothingToMigrate<V>(convert: Convert, entries: seq<Entry<V>>, value: map<string, V>)
    requires DistinctKeys(entries) && Final(convert) && MigratedUpTo(convert, entries, |entries|, value)
    requires forall i | 0 <= i < |entries| :: convert(entries[i].key).None?
    ensures value == AsMap(entries)
  {
    AsMapAt(entries);
    forall key ensures key in value <==> key in AsMap(entries) {
      MigratedKeys(convert, entries, value, key);
    }
    forall key | key in value ensures value[key] == AsMap(entries)[key] {
      MigratedKeys(convert, entries, value, key);
    }
  }
}

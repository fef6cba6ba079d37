/** The framework's own configuration models, and what becomes of their fields on loading. */
module ConfigModels {
  import opened Wrappers
  import opened Json
  import opened Models
  import opened Storage

  // ---------------------------------------------------------------- telemetry

  const TELEMETRY := "telemetry"
  const ENABLED := "enabled"
  const ENABLED_AT := "enabled_at"

  function Suppressed(): Fields {
    Field("domains", Sequence(Scalar(Str(""))), Field("events", Sequence(Scalar(Str(""))), NoField))
  }

  function TelemetryBlock(): Fields {
    Field(ENABLED, Scalar(False),
      Field(ENABLED_AT, Scalar(Str("0001-01-01T00:00:00Z")),
        Field("validity", Scalar(Num("0")),
          Field("suppressed", Record(true, Suppressed()), NoField))))
  }

  // The path to a field of the telemetry block.
  function InTelemetry(field: string): seq<Place> { [Name(TELEMETRY), Name(field)] }

  /** Telemetry that was saved as disabled, which is written by leaving the flag out, loads as enabled when
      the defaults file enables it. */
  lemma DisabledComesBackEnabled(given: Model, saved: Model, fs: Fields, disk: Disk)
    requires IsDeclared(fs) && ShapeOf(fs, TELEMETRY) == Some(Record(true, TelemetryBlock()))
    requires Storable(given, fs) && At(Some(Tree(given)), InTelemetry(ENABLED)) == Some(Leaf(True))
    requires Storable(saved, fs) && IsOmitted(Some(Tree(saved)), InTelemetry(ENABLED))
    requires disk.data == Some(Body(saved, fs))
    ensures var loaded := LoadResult(map[], disk, File(Body(given, fs)), fs);
      loaded.ok && At(Some(Tree(loaded.model)), InTelemetry(ENABLED)) == Some(Leaf(True))
  {
    DefaultsFillIn(given, saved, fs, disk, InTelemetry(ENABLED));
  }

  lemma TelemetryBlockIsDeclared()
    ensures IsDeclared(TelemetryBlock())
  {
    assert IsDeclared(Suppressed());
  }

  // A configuration with nothing but one field.
  function Only(name: string, shape: Shape): Fields { Field(name, shape, NoField) }

  lemma OnlyIsDeclared(name: string, shape: Shape, v: Value)
    requires IsPlain(name) && IsDeclaredShape(shape) && Fits(v, shape)
    ensures IsDeclared(Only(name, shape)) && ShapeOf(Only(name, shape), name) == Some(shape)
    ensures Storable(map[name := v], Only(name, shape))
  {
    var fs, m := Only(name, shape), map[name := v];
    assert Names(fs) == {name} + Names(NoField) && IsDeclared(NoField) && FitsEach(m, NoField);
  }

  // A block with a single field set.
  lemma OneFieldFits(fs: Fields, name: string, v: Value)
    requires ShapeOf(fs, name).Some? && Fits(v, ShapeOf(fs, name).value) && IsDeclared(fs)
    ensures Storable(map[name := v], fs)
  {
    OneFieldFitsEach(fs, name, v);
  }

  lemma {:induction false} OneFieldFitsEach(fs: Fields, name: string, v: Value)
    requires IsDeclared(fs) && (ShapeOf(fs, name).Some? ==> Fits(v, ShapeOf(fs, name).value))
    ensures FitsEach(map[name := v], fs)
    ensures name in Names(fs) <==> ShapeOf(fs, name).Some?
    decreases fs
  {
    if fs.Field? && fs.name != name {
      OneFieldFitsEach(fs.more, name, v);
    } else if fs.Field? {
      OneFieldFitsElsewhere(fs.more, name, v);
    }
  }

  lemma {:induction false} OneFieldFitsElsewhere(fs: Fields, name: string, v: Value)
    requires name !in Names(fs)
    ensures FitsEach(map[name := v], fs)
    decreases fs
  {
    if fs.Field? {
      OneFieldFitsElsewhere(fs.more, name, v);
    }
  }

  function TelemetryOnly(): Fields { Only(TELEMETRY, Record(true, TelemetryBlock())) }

  function InBlock(field: string, v: Value): Model { map[TELEMETRY := Tree(map[field := v])] }

  lemma InBlockIsStorable(field: string, v: Value)
    requires ShapeOf(TelemetryBlock(), field).Some? && Fits(v, ShapeOf(TelemetryBlock(), field).value)
    ensures Storable(InBlock(field, v), TelemetryOnly())
    ensures IsDeclared(TelemetryOnly()) && ShapeOf(TelemetryOnly(), TELEMETRY) == Some(Record(true, TelemetryBlock()))
  {
    TelemetryBlockIsDeclared();
    OneFieldFits(TelemetryBlock(), field, v);
    OnlyIsDeclared(TELEMETRY, Record(true, TelemetryBlock()), Tree(map[field := v]));
  }

  lemma InBlockAt(field: string, v: Value, other: string)
    ensures At(Some(Tree(InBlock(field, v))), InTelemetry(field)) == Some(v)
    ensures other != field ==> IsOmitted(Some(Tree(InBlock(field, v))), InTelemetry(other))
  {
    var top, block := Some(Tree(InBlock(field, v))), Some(Tree(map[field := v]));
    assert Below(top, Name(TELEMETRY)) == block;
    StepInto(top, Name(TELEMETRY), [Name(field)]);
    StepInto(top, Name(TELEMETRY), [Name(other)]);
    StepInto(block, Name(field), []);
    assert [Name(field)] + [] == [Name(field)];
  }

  /** A configuration that meets the conditions: the defaults file gives only the flag, the saved one only
      when telemetry was enabled last. */
  lemma DisabledComesBackEnabledHere(on: Json, at: string, disk: Disk)
    requires IsStringBody(at) && (on == True || on == False)
    requires disk.data == Some(Body(InBlock(ENABLED_AT, Leaf(Str(at))), TelemetryOnly()))
    ensures var fs := TelemetryOnly();
      var loaded := LoadResult(map[], disk, File(Body(InBlock(ENABLED, Leaf(on)), fs)), fs);
      loaded.ok && At(Some(Tree(loaded.model)), InTelemetry(ENABLED)) == Some(Leaf(on))
  {
    InBlockIsStorable(ENABLED, Leaf(on));
    InBlockIsStorable(ENABLED_AT, Leaf(Str(at)));
    InBlockAt(ENABLED, Leaf(on), ENABLED);
    InBlockAt(ENABLED_AT, Leaf(Str(at)), ENABLED);
    assert |ENABLED| != |ENABLED_AT|;
    DefaultsFillIn(InBlock(ENABLED, Leaf(on)), InBlock(ENABLED_AT, Leaf(Str(at))), TelemetryOnly(), disk,
                   InTelemetry(ENABLED));
  }

  // ---------------------------------------------------------------- the manifest

  const CONFIGS := "configs"
  const LABEL := "label"

  function Setting(): Fields {
    Field("ui", Record(false, Field("type", Scalar(Str("")), Field("select", Scalar(Null), NoField))),
      Field("val", Record(false, Field("default", Scalar(Null), NoField)),
        Field("is_required", Scalar(False),
          Field("config_point", Scalar(Str("")),
            Field("hidden", Scalar(False), NoField)))))
  }

  function AppConfig(): Fields {
    Field("id", Scalar(Str("")), Field(LABEL, Dictionary, Field("val_t", Scalar(Str("")), Setting())))
  }

  // The path to the label of a setting in one language.
  function InLabel(i: nat, language: string): seq<Place> { [Name(CONFIGS), Index(i), Name(LABEL), Entry(language)] }

  /** Settings are a list, and lists are decoded element by element whatever the elements are about: a label
      that the saved manifest does not give its i-th setting is the one the defaults give theirs. */
  lemma LabelComesFromDefaults(given: Model, saved: Model, fs: Fields, disk: Disk, i: nat, language: string)
    requires IsDeclared(fs) && ShapeOf(fs, CONFIGS) == Some(Sequence(Record(false, AppConfig())))
    requires Storable(given, fs) && Storable(saved, fs) && disk.data == Some(Body(saved, fs))
    requires IsOmitted(Some(Tree(saved)), InLabel(i, language))
    ensures var loaded := LoadResult(map[], disk, File(Body(given, fs)), fs);
      loaded.ok && At(Some(Tree(loaded.model)), InLabel(i, language)) == At(Some(Tree(given)), InLabel(i, language))
  {
    DefaultsFillIn(given, saved, fs, disk, InLabel(i, language));
  }

  lemma AppConfigIsDeclared()
    ensures IsDeclared(AppConfig())
  {
    SettingIsDeclared();
    assert Names(Setting()) == {"ui", "val", "is_required", "config_point", "hidden"};
  }

  lemma SettingIsDeclared()
    ensures IsDeclared(Setting())
  {
  }

  function ManifestOnly(): Fields { Only(CONFIGS, Sequence(Record(false, AppConfig()))) }

  // A manifest with one setting, of which only the label is given.
  function Labelled(texts: Entries): Model { map[CONFIGS := List([Tree(map[LABEL := Table(texts)])])] }

  // The format with nothing but settings is one.
  lemma LabelledIsStorable(texts: Entries)
    requires forall k :: k in texts ==> IsStringBody(k) && Writable(texts[k])
    ensures Storable(Labelled(texts), ManifestOnly())
    ensures IsDeclared(ManifestOnly())
    ensures ShapeOf(ManifestOnly(), CONFIGS) == Some(Sequence(Record(false, AppConfig())))
  {
    AppConfigIsDeclared();
    OneFieldFits(AppConfig(), LABEL, Table(texts));
    OnlyIsDeclared(CONFIGS, Sequence(Record(false, AppConfig())), List([Tree(map[LABEL := Table(texts)])]));
  }

  lemma LabelAt(texts: Entries, language: string)
    ensures At(Some(Tree(Labelled(texts))), InLabel(0, language)) == Below(Some(Table(texts)), Entry(language))
    ensures language !in texts ==> IsOmitted(Some(Tree(Labelled(texts))), InLabel(0, language))
  {
    var top, config := Some(Tree(Labelled(texts))), Tree(map[LABEL := Table(texts)]);
    var all := Some(List([config]));
    assert Below(top, Name(CONFIGS)) == all && Below(all, Index(0)) == Some(config);
    assert Below(Some(config), Name(LABEL)) == Some(Table(texts));
    StepInto(top, Name(CONFIGS), [Index(0), Name(LABEL), Entry(language)]);
    StepInto(all, Index(0), [Name(LABEL), Entry(language)]);
    StepInto(Some(config), Name(LABEL), [Entry(language)]);
    StepInto(Some(Table(texts)), Entry(language), []);
    assert InLabel(0, language) == [Name(CONFIGS)] + [Index(0), Name(LABEL), Entry(language)];
    assert [Index(0), Name(LABEL), Entry(language)] == [Index(0)] + [Name(LABEL), Entry(language)];
    assert [Name(LABEL), Entry(language)] == [Name(LABEL)] + [Entry(language)];
    assert [Entry(language)] == [Entry(language)] + [];
  }

  /** So a translation that was saved away comes back, in every manifest format that has such settings. */
  lemma RemovedLabelComesBack(language: string, text: Json, texts: Entries, fs: Fields, disk: Disk)
    requires IsDeclared(fs) && ShapeOf(fs, CONFIGS) == Some(Sequence(Record(false, AppConfig()))) && language !in texts
    requires Storable(Labelled(texts), fs) && Storable(Labelled(texts[language := text]), fs)
    requires disk.data == Some(Body(Labelled(texts), fs))
    ensures var loaded := LoadResult(map[], disk, File(Body(Labelled(texts[language := text]), fs)), fs);
      loaded.ok && At(Some(Tree(loaded.model)), InLabel(0, language)) == Some(Leaf(text))
  {
    LabelAt(texts, language);
    LabelAt(texts[language := text], language);
    LabelComesFromDefaults(Labelled(texts[language := text]), Labelled(texts), fs, disk, 0, language);
  }
}

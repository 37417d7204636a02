/**
 * The settings record and its manager. The settings file is an abstract
 * store: absent, not parsable as JSON, a JSON document that is not an
 * object, or an object mapping keys to JSON values. The manager caches the
 * record after the first load and writes the whole record back after every
 * update.
 */
module Config {
  import opened Wrappers

  /** `CommiterConfig`: the six settings, with Python's dataclass field names listed in `FieldNames`. */
  datatype CommiterConfig = CommiterConfig(
    interactiveMode: bool,
    autoCommit: bool,
    maxChoices: int,
    aiProvider: string,
    aiModel: string,
    gitEditor: Option<string>)

  /** The values a JSON document can hold, as far as the record cares; `Other` is any array, object or float. */
  datatype Value = Bool(b: bool) | Int(i: int) | Str(s: string) | Null | Other

  const Defaults := CommiterConfig(true, false, 3, "placeholder", "placeholder", None)

  const FieldNames: set<string> := {"interactive_mode", "auto_commit", "max_choices", "ai_provider", "ai_model", "git_editor"}

  /** The value of the named field, as `to_dict` renders it. */
  function Field(c: CommiterConfig, name: string): Value
    requires name in FieldNames
  {
    if name == "interactive_mode" then Bool(c.interactiveMode)
    else if name == "auto_commit" then Bool(c.autoCommit)
    else if name == "max_choices" then Int(c.maxChoices)
    else if name == "ai_provider" then Str(c.aiProvider)
    else if name == "ai_model" then Str(c.aiModel)
    else match c.gitEditor
      case Some(e) => Str(e)
      case None => Null
  }

  /** A value the named field can hold. */
  predicate Fits(name: string, v: Value) {
    if name == "interactive_mode" || name == "auto_commit" then v.Bool?
    else if name == "max_choices" then v.Int?
    else if name == "ai_provider" || name == "ai_model" then v.Str?
    else if name == "git_editor" then v.Str? || v.Null?
    else true
  }

  /** Every value given for a field of the record fits that field. */
  predicate WellTyped(u: map<string, Value>) {
    forall f :: f in u && f in FieldNames ==> Fits(f, u[f])
  }

  lemma FieldFits(c: CommiterConfig, name: string)
    requires name in FieldNames
    ensures Fits(name, Field(c, name))
  {
  }

  /** Two records with the same fields are the same record. */
  lemma FieldsDetermine(a: CommiterConfig, b: CommiterConfig)
    requires forall f :: f in FieldNames ==> Field(a, f) == Field(b, f)
    ensures a == b
  {
    assert Field(a, "interactive_mode") == Field(b, "interactive_mode");
    assert Field(a, "auto_commit") == Field(b, "auto_commit");
    assert Field(a, "max_choices") == Field(b, "max_choices");
    assert Field(a, "ai_provider") == Field(b, "ai_provider");
    assert Field(a, "ai_model") == Field(b, "ai_model");
    assert Field(a, "git_editor") == Field(b, "git_editor");
  }

  function PickBool(u: map<string, Value>, name: string, keep: bool): bool
    requires name in u ==> u[name].Bool?
  {
    if name in u then u[name].b else keep
  }

  function PickStr(u: map<string, Value>, name: string, keep: string): string
    requires name in u ==> u[name].Str?
  {
    if name in u then u[name].s else keep
  }

  /**
   * The record `base` with every field named in `u` set to the value given
   * there: `setattr` for each key that is a field, and `cls(**data)` over the
   * defaults when `base` is `Defaults`. Keys that are no field are ignored.
   */
  function Overlay(base: CommiterConfig, u: map<string, Value>): (c: CommiterConfig)
    requires WellTyped(u)
    ensures forall f :: f in FieldNames ==> Field(c, f) == if f in u then u[f] else Field(base, f)
  {
    assert "interactive_mode" in u ==> Fits("interactive_mode", u["interactive_mode"]);
    assert "auto_commit" in u ==> Fits("auto_commit", u["auto_commit"]);
    assert "max_choices" in u ==> Fits("max_choices", u["max_choices"]);
    assert "ai_provider" in u ==> Fits("ai_provider", u["ai_provider"]);
    assert "ai_model" in u ==> Fits("ai_model", u["ai_model"]);
    assert "git_editor" in u ==> Fits("git_editor", u["git_editor"]);
    var c := CommiterConfig(
      PickBool(u, "interactive_mode", base.interactiveMode),
      PickBool(u, "auto_commit", base.autoCommit),
      if "max_choices" in u then u["max_choices"].i else base.maxChoices,
      PickStr(u, "ai_provider", base.aiProvider),
      PickStr(u, "ai_model", base.aiModel),
      if "git_editor" in u then (if u["git_editor"].Str? then Some(u["git_editor"].s) else None) else base.gitEditor);
    assert forall f :: f in FieldNames ==> f in {"interactive_mode", "auto_commit", "max_choices", "ai_provider", "ai_model", "git_editor"};
    OverlayFields(base, u, c);
    c
  }

  lemma OverlayFields(base: CommiterConfig, u: map<string, Value>, c: CommiterConfig)
    requires c.interactiveMode == (if "interactive_mode" in u && u["interactive_mode"].Bool? then u["interactive_mode"].b else base.interactiveMode)
    requires c.autoCommit == (if "auto_commit" in u && u["auto_commit"].Bool? then u["auto_commit"].b else base.autoCommit)
    requires c.maxChoices == (if "max_choices" in u && u["max_choices"].Int? then u["max_choices"].i else base.maxChoices)
    requires c.aiProvider == (if "ai_provider" in u && u["ai_provider"].Str? then u["ai_provider"].s else base.aiProvider)
    requires c.aiModel == (if "ai_model" in u && u["ai_model"].Str? then u["ai_model"].s else base.aiModel)
    requires c.gitEditor == (if "git_editor" in u then (if u["git_editor"].Str? then Some(u["git_editor"].s) else None) else base.gitEditor)
    requires WellTyped(u)
    ensures forall f :: f in FieldNames ==> Field(c, f) == if f in u then u[f] else Field(base, f)
  {
  }

  /** `from_dict`: `None` when a key is no field of the record or a value does not fit its field. */
  function FromDict(d: map<string, Value>): (r: Option<CommiterConfig>)
    ensures r.Some? <==> d.Keys <= FieldNames && WellTyped(d)
    ensures r.Some? ==> forall f :: f in FieldNames ==> Field(r.value, f) == if f in d then d[f] else Field(Defaults, f)
  {
    if d.Keys <= FieldNames && WellTyped(d) then Some(Overlay(Defaults, d)) else None
  }

  /** `to_dict`: one entry per field; reading it back gives the record. */
  function ToDict(c: CommiterConfig): (d: map<string, Value>)
    ensures d.Keys == FieldNames
    ensures forall f :: f in FieldNames ==> d[f] == Field(c, f)
    ensures FromDict(d) == Some(c)
  {
    var d := map f | f in FieldNames :: Field(c, f);
    assert WellTyped(d) by {
      forall f | f in d && f in FieldNames ensures Fits(f, d[f]) {
        FieldFits(c, f);
      }
    }
    FieldsDetermine(FromDict(d).value, c);
    d
  }

  /** An empty settings object reads as the defaults. */
  lemma EmptyObjectIsDefaults()
    ensures FromDict(map[]) == Some(Defaults)
  {
    FieldsDetermine(FromDict(map[]).value, Defaults);
  }

  // ---------------------------------------------------------------- the manager

  /** The settings file. */
  datatype Store = Missing | Unparsable | NotObject | Object(fields: map<string, Value>)

  /** `ConfigManager`: the cached record, if loaded, and the file. */
  datatype Manager = Manager(cache: Option<CommiterConfig>, store: Store)

  /** The record a file holds, or `None` when loading it raises (a decoding or a type error). */
  function Read(s: Store): (r: Option<CommiterConfig>)
    ensures r.Some? <==> s.Object? && FromDict(s.fields).Some?
  {
    if s.Object? then FromDict(s.fields) else None
  }

  /** `save_config`: writes the cached record, if any. */
  function Save(m: Manager): (m': Manager)
    ensures m'.cache == m.cache
    ensures m.cache.None? ==> m' == m
    ensures m.cache.Some? ==> Read(m'.store) == m.cache
  {
    match m.cache
    case None => m
    case Some(c) => Manager(m.cache, Object(ToDict(c)))
  }

  /**
   * `load_config`: the cached record when there is one; otherwise the file's
   * record, or the defaults written over a file that is missing or does not
   * load.
   */
  function Load(m: Manager): (r: (CommiterConfig, Manager))
    ensures r.1.cache == Some(r.0)
    ensures m.cache.Some? ==> r == (m.cache.value, m)
    ensures m.cache.None? && Read(m.store).Some? ==> r.0 == Read(m.store).value && r.1.store == m.store
    ensures m.cache.None? && Read(m.store).None? ==> r.0 == Defaults && r.1.store == Object(ToDict(Defaults))
    ensures m.cache.None? ==> Read(r.1.store) == Some(r.0)
  {
    match m.cache
    case Some(c) => (c, m)
    case None =>
      match Read(m.store)
      case Some(c) => (c, Manager(Some(c), m.store))
      case None => (Defaults, Save(Manager(Some(Defaults), m.store)))
  }

  /** `get_config`: loads on first use, then keeps returning the cached record. */
  function Get(m: Manager): (r: (CommiterConfig, Manager))
    ensures r == Load(m)
    ensures m.cache.Some? ==> r == (m.cache.value, m)
  {
    if m.cache.None? then Load(m) else (m.cache.value, m)
  }

  /**
   * `update_config(**u)`: loads if needed, sets every key that is a field of
   * the record, ignores the rest, and writes the whole record back.
   */
  function Update(m: Manager, u: map<string, Value>): (m': Manager)
    requires WellTyped(u)
    ensures m'.cache == Some(Overlay(Get(m).0, u))
    ensures Read(m'.store) == m'.cache
  {
    var (c, m1) := Get(m);
    Save(Manager(Some(Overlay(c, u)), m1.store))
  }

  /** Once loaded, loading again rereads nothing and returns the same record. */
  lemma LoadCached(m: Manager)
    ensures Load(Load(m).1) == Load(m)
  {
  }

  /** An update sets the named fields and leaves every other field as it was. */
  lemma UpdateTouchesOnlyNamedFields(m: Manager, u: map<string, Value>)
    requires WellTyped(u)
    ensures var before := Get(m).0;
            var after := Update(m, u).cache.value;
            (forall f :: f in FieldNames && f !in u ==> Field(after, f) == Field(before, f)) &&
            (forall f :: f in FieldNames && f in u ==> Field(after, f) == u[f])
  {
  }

  /** Keys that are not fields of the record make no difference to an update. */
  lemma UnknownKeysIgnored(m: Manager, u: map<string, Value>)
    requires WellTyped(u)
    ensures Update(m, u) == Update(m, map f | f in u && f in FieldNames :: u[f])
  {
    var known := map f | f in u && f in FieldNames :: u[f];
    var c := Get(m).0;
    FieldsDetermine(Overlay(c, u), Overlay(c, known));
  }

  /** A fresh manager over the file an update wrote loads the updated record. */
  lemma UpdateSurvivesReload(m: Manager, u: map<string, Value>)
    requires WellTyped(u)
    ensures Load(Manager(None, Update(m, u).store)).0 == Update(m, u).cache.value
  {
  }

  /** A file with a key the record lacks is replaced by the defaults on first load. */
  lemma UnknownKeyResetsFile(fields: map<string, Value>, key: string)
    requires key in fields && key !in FieldNames
    ensures Load(Manager(None, Object(fields))).0 == Defaults
    ensures Load(Manager(None, Object(fields))).1.store == Object(ToDict(Defaults))
  {
  }

  /** A missing file is created holding the defaults. */
  lemma MissingFileGetsDefaults()
    ensures Load(Manager(None, Missing)) == (Defaults, Manager(Some(Defaults), Object(ToDict(Defaults))))
  {
  }
}

/**
 The configuration pipeline of config.py: the default tree and validation
 schema of `ConfigurationSettings`, the recursive overlay
 `__merge_conf_dicts`, and the decision logic of `get_config`.

 Reading the file and the YAML parser are not modelled: `GetConfig` receives
 what they produced, `None` when opening, reading or parsing raised.
 */
module Config {
  import opened Values

  // ---------------------------------------------------------------------------
  // ConfigurationSettings.default
  // ---------------------------------------------------------------------------

  const DefaultHost: string := "127.0.0.1"
  const DefaultPort: int := 8080

  /** The default `general` section. */
  const DefaultGeneral: map<string, Value> :=
    map["host" := Str(DefaultHost), "port" := Int(DefaultPort)]

  /** The default configuration tree: a `general` section and no requests. */
  const Default: map<string, Value> :=
    map["general" := Map(DefaultGeneral), "requests" := List([])]

  // ---------------------------------------------------------------------------
  // ConfigurationSettings.schema, as a predicate
  //
  // No field is required, a nullable field may be `null`, and unknown keys are
  // accepted at every level (the validator runs with `allow_unknown`).
  // ---------------------------------------------------------------------------

  const MinPort: int := 1024
  const MaxPort: int := 65535

  /** The only request types the schema allows. */
  const AllowedTypes: set<string> := {"DELETE", "POST"}

  predicate ValidHost(v: Value) {
    v.Str?
  }

  predicate ValidPort(v: Value) {
    v.Int? && MinPort <= v.i <= MaxPort
  }

  /** `general`: a nullable mapping with a string `host` and an integer `port` in range. */
  predicate ValidGeneral(v: Value) {
    || v.Null?
    || (&& v.Map?
        && ("host" in v.entries ==> ValidHost(v.entries["host"]))
        && ("port" in v.entries ==> ValidPort(v.entries["port"])))
  }

  predicate ValidType(v: Value) {
    v.Str? && v.s in AllowedTypes
  }

  /** One element of `requests`: a (non-null) mapping with string `title`, `type` and `path`. */
  predicate ValidRequest(v: Value) {
    && v.Map?
    && ("title" in v.entries ==> v.entries["title"].Str?)
    && ("type" in v.entries ==> ValidType(v.entries["type"]))
    && ("path" in v.entries ==> v.entries["path"].Str?)
  }

  /** `requests`: a nullable list of valid request mappings. */
  predicate ValidRequests(v: Value) {
    || v.Null?
    || (v.List? && forall i :: 0 <= i < |v.items| ==> ValidRequest(v.items[i]))
  }

  /** A parsed document (a mapping) that passes the schema. */
  predicate Valid(doc: map<string, Value>) {
    && ("general" in doc ==> ValidGeneral(doc["general"]))
    && ("requests" in doc ==> ValidRequests(doc["requests"]))
  }

  // ---------------------------------------------------------------------------
  // __merge_conf_dicts
  // ---------------------------------------------------------------------------

  /** The exception Python raises when a key test or subscript is applied to a non-mapping. */
  datatype MergeError = TypeError

  /** What `key in update and update[key] ...` finds in an update value of any shape. */
  datatype KeyTest = Absent | Found(v: Value) | Raises

  /** True iff `part` occurs in `s` as a contiguous slice (Python's `part in s` on strings). */
  predicate IsSubstring(part: string, s: string) {
    exists i :: 0 <= i <= |s| && OccursAt(part, s, i)
  }

  /** True iff `part` occurs in `s` starting at index `i`. */
  predicate OccursAt(part: string, s: string, i: int) {
    0 <= i && i + |part| <= |s| && s[i..i + |part|] == part
  }

  /**
   Python's membership test and subscript for a string key against `update`:
   a mapping answers by its keys; a string tests for a substring and a list
   for an equal element, and either raises on the subscript that follows a
   hit; `None`, integers and booleans raise on the membership test itself.
   */
  function LookupKey(update: Value, key: string): (r: KeyTest)
    ensures r.Found? <==> update.Map? && key in update.entries
    ensures r.Found? ==> r.v == update.entries[key]
    ensures update.Map? ==> !r.Raises?
    ensures (update.Null? || update.Int? || update.Bool?) ==> r.Raises?
  {
    match update
    case Map(m) => if key in m then Found(m[key]) else Absent
    case Str(s) => if IsSubstring(key, s) then Raises else Absent
    case List(xs) => if Str(key) in xs then Raises else Absent
    case _ => Raises
  }

  /**
   The recursive overlay of `update` onto `base`. It is driven by the keys of
   `base`: a key missing from `update` or mapped to `null` keeps the base
   value, a base mapping is merged into recursively, and any other base value
   is replaced by the update value whole. Keys only in `update` are dropped.
   */
  function MergeDict(base: map<string, Value>, update: Value): (r: Result<map<string, Value>, MergeError>)
    ensures r.Success? ==> r.value.Keys == base.Keys
    ensures r.Success? <==> forall k :: k in base ==> MergeKey(base, update, k).Success?
    decreases Value.Map(base), 1
  {
    if exists k :: k in base && MergeKey(base, update, k).Failure? then
      Failure(TypeError)
    else
      Success(map k | k in base :: MergeKey(base, update, k).value)
  }

  /** The value `__merge_conf_dicts` stores under `key`, or the error it raises there. */
  function MergeKey(base: map<string, Value>, update: Value, key: string): (r: Result<Value, MergeError>)
    requires key in base
    ensures r.Failure? ==> !update.Map? || (base[key].Map? && key in update.entries && update.entries[key] != Null)
    decreases Value.Map(base), 0
  {
    match LookupKey(update, key)
    case Raises => Failure(TypeError)
    case Absent => Success(base[key])
    case Found(u) =>
      if u == Null then Success(base[key])
      else if base[key].Map? then
        match MergeDict(base[key].entries, u)
        case Success(m) => Success(Map(m))
        case Failure(e) => Failure(e)
      else Success(u)
  }

  // ---------------------------------------------------------------------------
  // get_config
  // ---------------------------------------------------------------------------

  /** Which of the branches of `get_config` produced the configuration (the log line it writes). */
  datatype Outcome = NotSpecified | ReadingFailed | ValidationFailed | ValidationPassed

  datatype Loaded = Loaded(outcome: Outcome, config: map<string, Value>)

  /** The shape every configuration `get_config` returns has: the default keys, filled and valid. */
  predicate Settled(c: map<string, Value>) {
    && c.Keys == Default.Keys
    && c["general"].Map?
    && c["general"].entries.Keys == DefaultGeneral.Keys
    && ValidHost(c["general"].entries["host"])
    && ValidPort(c["general"].entries["port"])
    && c["requests"].List?
    && ValidRequests(c["requests"])
  }

  /** True iff the path argument is truthy in Python (given and non-empty). */
  predicate PathGiven(path: Option<string>) {
    path.Some? && path.value != ""
  }

  /**
   The decision logic of `get_config`. `read` is what opening the file at
   `path` and loading it as YAML produced (`None` when either raised). A
   document that is not a mapping makes the validator raise, which lands in
   the same exception handler as a failed read.
   */
  function GetConfig(path: Option<string>, read: Option<Value>): (r: Loaded)
    ensures Settled(r.config)
    ensures r.outcome != ValidationPassed ==> r.config == Default
    ensures r.outcome == NotSpecified <==> !PathGiven(path)
    ensures r.outcome == ValidationPassed <==>
              PathGiven(path) && read.Some? && read.value.Map? && Valid(read.value.entries)
    ensures r.outcome == ValidationPassed ==> MergeDict(Default, read.value) == Success(r.config)
  {
    DefaultSettled();
    if !PathGiven(path) then
      Loaded(NotSpecified, Default)
    else
      match read
      case None => Loaded(ReadingFailed, Default)
      case Some(doc) =>
        if !doc.Map? then
          Loaded(ReadingFailed, Default)
        else if !Valid(doc.entries) then
          Loaded(ValidationFailed, Default)
        else
          MergeDefaultSettled(doc);
          match MergeDict(Default, doc)
          case Success(m) => Loaded(ValidationPassed, m)
          case Failure(_) => Loaded(ReadingFailed, Default)
  }

  /** The default tree passes its own schema and already has the settled shape. */
  lemma DefaultSettled()
    ensures Valid(Default)
    ensures Settled(Default)
  {
  }

  /** A valid, non-null `general` section merges onto the default section into a valid one. */
  lemma MergeGeneralValid(u: Value)
    requires ValidGeneral(u) && u != Null
    ensures MergeDict(DefaultGeneral, u).Success?
    ensures var g := MergeDict(DefaultGeneral, u).value;
      g.Keys == DefaultGeneral.Keys && ValidHost(g["host"]) && ValidPort(g["port"])
  {
    assert MergeKey(DefaultGeneral, u, "host").Success?;
    assert MergeKey(DefaultGeneral, u, "port").Success?;
  }

  /**
   A document that passes the schema merges onto the defaults without
   raising, and the merge is again a settled configuration.
   */
  lemma MergeDefaultSettled(doc: Value)
    requires doc.Map? && Valid(doc.entries)
    ensures MergeDict(Default, doc).Success?
    ensures Settled(MergeDict(Default, doc).value)
  {
    var g := MergeKey(Default, doc, "general");
    var q := MergeKey(Default, doc, "requests");
    if "general" in doc.entries && doc.entries["general"] != Null {
      MergeGeneralValid(doc.entries["general"]);
    }
    assert g.Success? && q.Success?;
    assert g.value.Map? && g.value.entries.Keys == DefaultGeneral.Keys;
  }
}

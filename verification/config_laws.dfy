/**
 Laws of the configuration merge and of the `get_config` gate: what the
 merge keeps, replaces and recurses into, when it raises, its idempotence,
 and what configuration each kind of input document ends in.
 */
module ConfigLaws {
  import opened Values
  import opened Config

  // ---------------------------------------------------------------------------
  // The merge, key by key
  // ---------------------------------------------------------------------------

  /**
   For a mapping update, each base key ends up with: the base value when the
   update omits the key or maps it to `null`; the update value verbatim when
   the base value is not a mapping; the recursive merge when it is.
   */
  lemma MergeEntry(b: map<string, Value>, u: map<string, Value>, k: string)
    requires MergeDict(b, Map(u)).Success?
    requires k in b
    ensures var r := MergeDict(b, Map(u)).value;
      && (k !in u || u[k] == Null ==> r[k] == b[k])
      && (k in u && u[k] != Null && !b[k].Map? ==> r[k] == u[k])
      && (k in u && u[k] != Null && b[k].Map? ==>
            MergeDict(b[k].entries, u[k]).Success? && r[k] == Map(MergeDict(b[k].entries, u[k]).value))
  {
    assert MergeKey(b, Map(u), k).Success?;
  }

  /** The merge is determined by the values it stores key by key. */
  lemma MergeFromKeys(b: map<string, Value>, u: Value, r: map<string, Value>)
    requires r.Keys == b.Keys
    requires forall k :: k in b ==> MergeKey(b, u, k) == Success(r[k])
    ensures MergeDict(b, u) == Success(r)
  {
    assert MergeDict(b, u).Success?;
    var m := MergeDict(b, u).value;
    assert m == map k | k in b :: MergeKey(b, u, k).value;
    assert m.Keys == r.Keys;
    forall k | k in m
      ensures m[k] == r[k]
    {
      assert MergeKey(b, u, k) == Success(r[k]);
    }
    assert m == r;
  }

  /** Merging with an empty update gives back the base. */
  lemma MergeEmptyUpdate(b: map<string, Value>)
    ensures MergeDict(b, Map(map[])) == Success(b)
  {
    forall k | k in b
      ensures MergeKey(b, Map(map[]), k) == Success(b[k])
    {
    }
    MergeFromKeys(b, Map(map[]), b);
  }

  /** Merging a mapping onto itself gives it back. */
  lemma {:induction false} MergeSelf(d: map<string, Value>)
    ensures MergeDict(d, Map(d)) == Success(d)
    decreases Value.Map(d)
  {
    forall k | k in d
      ensures MergeKey(d, Map(d), k) == Success(d[k])
    {
      if d[k] != Null && d[k].Map? {
        MergeSelf(d[k].entries);
      }
    }
    MergeFromKeys(d, Map(d), d);
  }

  /** Applying the same update twice is the same as applying it once. */
  lemma {:induction false} MergeIdempotent(b: map<string, Value>, u: Value)
    requires MergeDict(b, u).Success?
    ensures MergeDict(MergeDict(b, u).value, u) == MergeDict(b, u)
    decreases Value.Map(b)
  {
    var r := MergeDict(b, u).value;
    forall k | k in r
      ensures MergeKey(r, u, k) == Success(r[k])
    {
      assert MergeKey(b, u, k).Success?;
      match LookupKey(u, k)
      case Raises =>
      case Absent =>
      case Found(v) =>
        if v != Null {
          if b[k].Map? {
            MergeIdempotent(b[k].entries, v);
          } else if v.Map? {
            MergeSelf(v.entries);
          }
        }
    }
    MergeFromKeys(r, u, r);
  }

  /** Keys of the update that the base does not have play no part in the merge. */
  lemma MergeIgnoresUnknownKey(b: map<string, Value>, u: map<string, Value>, k: string, v: Value)
    requires k !in b
    ensures MergeDict(b, Map(u[k := v])) == MergeDict(b, Map(u))
  {
    forall k' | k' in b
      ensures MergeKey(b, Map(u[k := v]), k') == MergeKey(b, Map(u), k')
    {
      assert LookupKey(Map(u[k := v]), k') == LookupKey(Map(u), k');
    }
    var r := MergeDict(b, Map(u));
    if r.Success? {
      MergeFromKeys(b, Map(u[k := v]), r.value);
    }
  }

  // ---------------------------------------------------------------------------
  // When the merge raises
  // ---------------------------------------------------------------------------

  /**
   An update that is a mapping wherever the base has a mapping and the update
   says something: the shape under which the merge cannot raise.
   */
  predicate Fits(b: map<string, Value>, u: Value)
    decreases Value.Map(b)
  {
    && u.Map?
    && forall k :: k in b && b[k].Map? && k in u.entries && u.entries[k] != Null ==>
         Fits(b[k].entries, u.entries[k])
  }

  lemma {:induction false} MergeFitsSucceeds(b: map<string, Value>, u: Value)
    requires Fits(b, u)
    ensures MergeDict(b, u).Success?
    decreases Value.Map(b)
  {
    forall k | k in b
      ensures MergeKey(b, u, k).Success?
    {
      if b[k].Map? && k in u.entries && u.entries[k] != Null {
        MergeFitsSucceeds(b[k].entries, u.entries[k]);
      }
    }
  }

  /**
   An update that is not a mapping raises as soon as one base key is "in" it
   (or always, for `None`, numbers and booleans); otherwise every base value
   is kept.
   */
  lemma MergeNonMapping(b: map<string, Value>, u: Value)
    requires !u.Map?
    ensures MergeDict(b, u).Success? <==> forall k :: k in b ==> LookupKey(u, k) == Absent
    ensures MergeDict(b, u).Success? ==> MergeDict(b, u).value == b
  {
  }

  /** A string `general` section raises because "host" occurs in "localhost". */
  lemma StringSectionRaises()
    ensures MergeDict(Default, Map(map["general" := Str("localhost")])).Failure?
  {
    assert OccursAt("host", "localhost", 5);
    assert MergeKey(DefaultGeneral, Str("localhost"), "host").Failure?;
    assert MergeKey(Default, Map(map["general" := Str("localhost")]), "general").Failure?;
  }

  /** A string `general` section without "host" or "port" in it is silently ignored. */
  lemma ShortStringSectionIgnored()
    ensures MergeDict(Default, Map(map["general" := Str("x")])) == Success(Default)
  {
    assert MergeKey(DefaultGeneral, Str("x"), "host") == Success(Str(DefaultHost));
    assert MergeKey(DefaultGeneral, Str("x"), "port") == Success(Int(DefaultPort));
    MergeFromKeys(DefaultGeneral, Str("x"), DefaultGeneral);
    assert MergeKey(Default, Map(map["general" := Str("x")]), "general") == Success(Map(DefaultGeneral));
    assert MergeKey(Default, Map(map["general" := Str("x")]), "requests") == Success(List([]));
    MergeFromKeys(Default, Map(map["general" := Str("x")]), Default);
  }

  // ---------------------------------------------------------------------------
  // get_config
  // ---------------------------------------------------------------------------

  /** Without a path, or when reading or parsing raised, the defaults are returned exactly. */
  lemma NoDocumentGivesDefaults(path: Option<string>, read: Option<Value>)
    requires !PathGiven(path) || read.None?
    ensures GetConfig(path, read).config == Default
    ensures GetConfig(path, read).outcome != ValidationPassed
  {
  }

  /** A document that fails validation yields exactly the defaults: nothing of it is applied. */
  lemma InvalidGivesDefaults(path: Option<string>, doc: Value)
    requires PathGiven(path)
    requires doc.Map? && !Valid(doc.entries)
    ensures GetConfig(path, Some(doc)) == Loaded(ValidationFailed, Default)
  {
  }

  /**
   The schema requires no field: an empty document passes, and so does one
   whose two sections are null. Keys the schema does not name are accepted at
   every level: at the top, inside `general`, and inside each request.
   */
  lemma SchemaIsOpen(doc: map<string, Value>, k: string, v: Value, req: Value)
    ensures Valid(map[])
    ensures Valid(map["general" := Null, "requests" := Null])
    ensures k !in Default ==> (Valid(doc[k := v]) <==> Valid(doc))
    ensures "general" in doc && doc["general"].Map? && k != "host" && k != "port" ==>
      (Valid(doc["general" := Map(doc["general"].entries[k := v])]) <==> Valid(doc))
    ensures req.Map? && k != "title" && k != "type" && k != "path" ==>
      (ValidRequest(Map(req.entries[k := v])) <==> ValidRequest(req))
  {
  }

  /** A `port` outside [1024, 65535] rejects the whole document, whatever else it holds. */
  lemma PortOutOfRangeGivesDefaults(path: Option<string>, doc: map<string, Value>, g: map<string, Value>, p: int)
    requires PathGiven(path)
    requires p < MinPort || MaxPort < p
    requires "general" in doc && doc["general"] == Map(g) && "port" in g && g["port"] == Int(p)
    ensures GetConfig(path, Some(Map(doc))) == Loaded(ValidationFailed, Default)
  {
  }

  /** A request whose `type` is anything but DELETE or POST rejects the whole document. */
  lemma DisallowedTypeGivesDefaults(path: Option<string>, doc: map<string, Value>, xs: seq<Value>, i: int, t: string)
    requires PathGiven(path)
    requires t != "DELETE" && t != "POST"
    requires "requests" in doc && doc["requests"] == List(xs)
    requires 0 <= i < |xs| && xs[i].Map? && "type" in xs[i].entries && xs[i].entries["type"] == Str(t)
    ensures GetConfig(path, Some(Map(doc))) == Loaded(ValidationFailed, Default)
  {
    assert !ValidRequest(xs[i]);
  }

  /** Setting only `general.host` changes only the host: the port and requests keep their defaults. */
  lemma HostOnlyOverride(path: Option<string>, h: string)
    requires PathGiven(path)
    ensures var doc := Map(map["general" := Map(map["host" := Str(h)])]);
      GetConfig(path, Some(doc)) ==
        Loaded(ValidationPassed, Default["general" := Map(DefaultGeneral["host" := Str(h)])])
  {
    var doc := Map(map["general" := Map(map["host" := Str(h)])]);
    var u := Map(map["host" := Str(h)]);
    assert MergeKey(DefaultGeneral, u, "host") == Success(Str(h));
    assert MergeKey(DefaultGeneral, u, "port") == Success(Int(DefaultPort));
    MergeFromKeys(DefaultGeneral, u, DefaultGeneral["host" := Str(h)]);
    assert MergeKey(Default, doc, "general") == Success(Map(DefaultGeneral["host" := Str(h)]));
    assert MergeKey(Default, doc, "requests") == Success(List([]));
    MergeFromKeys(Default, doc, Default["general" := Map(DefaultGeneral["host" := Str(h)])]);
  }

  /** A `general: null` document validates and keeps the whole default configuration. */
  lemma NullGeneralKeepsDefaults(path: Option<string>)
    requires PathGiven(path)
    ensures GetConfig(path, Some(Map(map["general" := Null]))) == Loaded(ValidationPassed, Default)
  {
    var doc := Map(map["general" := Null]);
    assert MergeKey(Default, doc, "general") == Success(Map(DefaultGeneral));
    assert MergeKey(Default, doc, "requests") == Success(List([]));
    MergeFromKeys(Default, doc, Default);
  }

  /** A valid `requests` list replaces the default list whole. */
  lemma RequestsReplacedWhole(path: Option<string>, doc: map<string, Value>, xs: seq<Value>)
    requires PathGiven(path) && Valid(doc)
    requires "requests" in doc && doc["requests"] == List(xs)
    ensures GetConfig(path, Some(Map(doc))).outcome == ValidationPassed
    ensures GetConfig(path, Some(Map(doc))).config["requests"] == List(xs)
  {
    MergeDefaultSettled(Map(doc));
    MergeEntry(Default, doc, "requests");
  }

  /**
   An unknown top-level key is accepted by the schema and leaves no trace:
   the document with it loads exactly like the document without it.
   */
  lemma UnknownTopLevelKeyIgnored(path: Option<string>, doc: map<string, Value>, k: string, v: Value)
    requires k !in Default
    ensures GetConfig(path, Some(Map(doc[k := v]))) == GetConfig(path, Some(Map(doc)))
  {
    assert Valid(doc[k := v]) == Valid(doc);
    MergeIgnoresUnknownKey(Default, doc, k, v);
  }

  /** Loading twice with the same valid document changes nothing further. */
  lemma LoadIdempotent(path: Option<string>, doc: Value)
    requires GetConfig(path, Some(doc)).outcome == ValidationPassed
    ensures MergeDict(GetConfig(path, Some(doc)).config, doc) == Success(GetConfig(path, Some(doc)).config)
  {
    MergeIdempotent(Default, doc);
  }
}

/**
 Removing generated titles from tool schemas (butler/mcp_client/client.py, `_strip_schema_annotations`).
 */
module SchemaStrip {

  datatype Json =
    | Null
    | Bool(b: bool)
    | Number(n: real)
    | Str(s: string)
    | Arr(items: seq<Json>)
    | Obj(fields: map<string, Json>)

  const SCHEMA_VALUE_KEYS: set<string> := {"items", "additionalProperties", "not"}
  const SCHEMA_LIST_KEYS: set<string> := {"anyOf", "oneOf", "allOf", "prefixItems"}
  const SCHEMA_MAP_KEYS: set<string> := {"properties", "$defs", "definitions", "patternProperties"}

  // ---------------------------------------------------------------------------
  // The rewrite
  // ---------------------------------------------------------------------------

  function StripAnnotations(node: Json): Json
    decreases node, 1
  {
    match node
    case Arr(items) => Arr(StripEach(items))
    case Obj(fields) => Obj(map key | key in fields && key != "title" :: StripField(key, fields[key]))
    case _ => node
  }

  function StripEach(items: seq<Json>): (r: seq<Json>)
    ensures |r| == |items|
    ensures forall i :: 0 <= i < |items| ==> r[i] == StripAnnotations(items[i])
    decreases items, 2
  {
    if items == [] then [] else [StripAnnotations(items[0])] + StripEach(items[1..])
  }

  function StripField(key: string, value: Json): Json
    decreases value, 2
  {
    if key in SCHEMA_MAP_KEYS && value.Obj? then
      Obj(map name | name in value.fields :: StripAnnotations(value.fields[name]))
    else if key in SCHEMA_VALUE_KEYS || key in SCHEMA_LIST_KEYS then
      StripAnnotations(value)
    else
      value
  }

  /** Where a schema stands inside a schema, and where it does not. */
  lemma SchemasStandUnder(key: string, value: Json)
    ensures key in {"items", "additionalProperties", "not", "anyOf", "oneOf", "allOf", "prefixItems"} ==>
              StripField(key, value) == StripAnnotations(value)
    ensures key in {"properties", "$defs", "definitions", "patternProperties"} && value.Obj? ==>
              var stripped := StripField(key, value);
              && stripped.Obj? && stripped.fields.Keys == value.fields.Keys
              && forall name :: name in value.fields ==> stripped.fields[name] == StripAnnotations(value.fields[name])
    ensures || key in {"items", "additionalProperties", "not", "anyOf", "oneOf", "allOf", "prefixItems"}
            || key in {"properties", "$defs", "definitions", "patternProperties"}
            || StripField(key, value) == value
  {
  }

  // ---------------------------------------------------------------------------
  // What a schema means
  // ---------------------------------------------------------------------------

  /**
   The parts of validation that the rewrite must not disturb, left arbitrary: pattern matching, the
   assertions of every keyword that is copied verbatim (they may look at each other), and the verdict
   on a keyword whose value has the wrong JSON type.
   */
  datatype Semantics = Semantics(
    matches: (string, string) -> bool,
    others: (map<string, Json>, Json) -> bool,
    malformed: (string, Json) -> bool)

  /** The keywords whose values the rewrite may change; "title" and the definition maps assert nothing. */
  predicate Rewritten(key: string) {
    key == "title" || key in SCHEMA_VALUE_KEYS || key in SCHEMA_LIST_KEYS || key in SCHEMA_MAP_KEYS
  }

  function Verbatim(fields: map<string, Json>): map<string, Json> {
    map key | key in fields && !Rewritten(key) :: fields[key]
  }

  /** Whether "properties" or "patternProperties" speaks about a member of the instance. */
  predicate Covered(sem: Semantics, fields: map<string, Json>, name: string) {
    || ("properties" in fields && fields["properties"].Obj? && name in fields["properties"].fields)
    || ("patternProperties" in fields && fields["patternProperties"].Obj?
        && exists pattern :: pattern in fields["patternProperties"].fields && sem.matches(pattern, name))
  }

  function PrefixLength(fields: map<string, Json>): nat {
    if "prefixItems" in fields && fields["prefixItems"].Arr? then |fields["prefixItems"].items| else 0
  }

  function CountValid(sem: Semantics, schemas: seq<Json>, v: Json): nat
    decreases schemas, 2
  {
    if schemas == [] then 0 else (if Valid(sem, schemas[0], v) then 1 else 0) + CountValid(sem, schemas[1..], v)
  }

  /** The instance satisfies the schema. */
  predicate Valid(sem: Semantics, schema: Json, v: Json)
    decreases schema, 1
  {
    match schema
    case Bool(b) => b
    case Obj(fields) =>
      && sem.others(Verbatim(fields), v)
      && forall key :: key in fields ==> Holds(sem, key, fields[key], fields, v)
    case _ => sem.malformed("", v)
  }

  /** One keyword holds; `siblings` is the schema it belongs to. */
  predicate Holds(sem: Semantics, key: string, value: Json, siblings: map<string, Json>, v: Json)
    decreases value, 2
  {
    if key == "not" then
      !Valid(sem, value, v)
    else if key == "anyOf" then
      if value.Arr? then exists i :: 0 <= i < |value.items| && Valid(sem, value.items[i], v) else sem.malformed(key, v)
    else if key == "allOf" then
      if value.Arr? then forall i :: 0 <= i < |value.items| ==> Valid(sem, value.items[i], v) else sem.malformed(key, v)
    else if key == "oneOf" then
      if value.Arr? then CountValid(sem, value.items, v) == 1 else sem.malformed(key, v)
    else if key == "prefixItems" then
      if value.Arr? then TupleHolds(sem, value.items, v) else sem.malformed(key, v)
    else if key == "items" then
      if value.Arr? then TupleHolds(sem, value.items, v)
      else v.Arr? ==> forall i :: PrefixLength(siblings) <= i < |v.items| ==> Valid(sem, value, v.items[i])
    else if key == "additionalProperties" then
      v.Obj? ==> forall name :: name in v.fields && !Covered(sem, siblings, name) ==> Valid(sem, value, v.fields[name])
    else if key == "properties" then
      if value.Obj? then
        v.Obj? ==> forall name :: name in value.fields && name in v.fields ==> Valid(sem, value.fields[name], v.fields[name])
      else sem.malformed(key, v)
    else if key == "patternProperties" then
      if value.Obj? then
        v.Obj? ==> forall pattern, name :: pattern in value.fields && name in v.fields && sem.matches(pattern, name)
                                           ==> Valid(sem, value.fields[pattern], v.fields[name])
      else sem.malformed(key, v)
    else
      true
  }

  predicate TupleHolds(sem: Semantics, schemas: seq<Json>, v: Json)
    decreases schemas, 2
  {
    v.Arr? ==> forall i :: 0 <= i < |schemas| && i < |v.items| ==> Valid(sem, schemas[i], v.items[i])
  }

  // ---------------------------------------------------------------------------
  // Stripping keeps the meaning
  // ---------------------------------------------------------------------------

  /** Every instance validates against the stripped schema exactly when it did before. */
  lemma {:induction false} MeaningIsKept(sem: Semantics, schema: Json, v: Json)
    ensures Valid(sem, StripAnnotations(schema), v) <==> Valid(sem, schema, v)
    decreases schema, 1
  {
    if schema.Obj? {
      var fields := schema.fields;
      var clean := StripAnnotations(schema).fields;
      VerbatimIsKept(fields);
      SiblingsAreKept(sem, fields);
      forall key | key in fields && key != "title"
        ensures Holds(sem, key, StripField(key, fields[key]), clean, v) <==> Holds(sem, key, fields[key], fields, v)
      {
        KeywordIsKept(sem, key, fields[key], fields, clean, v);
      }
      KeywordsAreKept(sem, fields, clean, v);
    }
  }

  /** From the keywords one by one to the whole schema. */
  lemma KeywordsAreKept(sem: Semantics, fields: map<string, Json>, clean: map<string, Json>, v: Json)
    requires clean == StripAnnotations(Obj(fields)).fields && Verbatim(clean) == Verbatim(fields)
    requires forall key :: key in fields && key != "title" ==>
               (Holds(sem, key, StripField(key, fields[key]), clean, v) <==> Holds(sem, key, fields[key], fields, v))
    ensures Valid(sem, Obj(clean), v) <==> Valid(sem, Obj(fields), v)
  {
    hide Holds;
    hide Verbatim;
    hide StripField;
    if "title" in fields {
      OthersAssertNothingHere(sem, "title", fields["title"], fields, v);
    }
    if Valid(sem, Obj(fields), v) {
      forall key | key in clean ensures Holds(sem, key, clean[key], clean, v) {
        assert Holds(sem, key, fields[key], fields, v);
      }
    }
    if Valid(sem, Obj(clean), v) {
      forall key | key in fields ensures Holds(sem, key, fields[key], fields, v) {
        assert key != "title" ==> Holds(sem, key, clean[key], clean, v);
      }
    }
  }

  lemma VerbatimIsKept(fields: map<string, Json>)
    ensures Verbatim(StripAnnotations(Obj(fields)).fields) == Verbatim(fields)
  {
    var clean := StripAnnotations(Obj(fields)).fields;
    forall key | key in fields && !Rewritten(key)
      ensures key in clean && clean[key] == fields[key]
    {
      assert clean[key] == StripField(key, fields[key]);
    }
    assert Verbatim(clean).Keys == Verbatim(fields).Keys;
  }

  lemma SiblingsAreKept(sem: Semantics, fields: map<string, Json>)
    ensures SameReach(sem, fields, StripAnnotations(Obj(fields)).fields)
  {
    var clean := StripAnnotations(Obj(fields)).fields;
    FieldIsKept(fields, "prefixItems");
    FieldIsKept(fields, "properties");
    FieldIsKept(fields, "patternProperties");
    hide StripAnnotations;
    PrefixLengthIsKept(fields, clean);
    forall name ensures Covered(sem, clean, name) <==> Covered(sem, fields, name) {
      CoverIsKept(sem, fields, clean, name);
    }
  }

  lemma FieldIsKept(fields: map<string, Json>, key: string)
    requires key != "title"
    ensures Same(fields, StripAnnotations(Obj(fields)).fields, key)
  {
  }

  predicate Same(fields: map<string, Json>, clean: map<string, Json>, key: string) {
    (key in fields <==> key in clean) && (key in fields ==> clean[key] == StripField(key, fields[key]))
  }

  lemma PrefixLengthIsKept(fields: map<string, Json>, clean: map<string, Json>)
    requires Same(fields, clean, "prefixItems")
    ensures PrefixLength(clean) == PrefixLength(fields)
  {
    if "prefixItems" in fields {
      assert clean["prefixItems"] == StripAnnotations(fields["prefixItems"]);
    }
  }

  lemma CoverIsKept(sem: Semantics, fields: map<string, Json>, clean: map<string, Json>, name: string)
    requires Same(fields, clean, "properties") && Same(fields, clean, "patternProperties")
    ensures Covered(sem, clean, name) <==> Covered(sem, fields, name)
  {
    hide StripAnnotations;
    if "patternProperties" in fields && fields["patternProperties"].Obj? {
      assert clean["patternProperties"].fields.Keys == fields["patternProperties"].fields.Keys;
    }
  }

  /** The stripped siblings say as much about which members are covered as the original ones. */
  ghost predicate SameReach(sem: Semantics, siblings: map<string, Json>, clean: map<string, Json>) {
    && PrefixLength(clean) == PrefixLength(siblings)
    && forall name :: Covered(sem, clean, name) <==> Covered(sem, siblings, name)
  }

  lemma {:induction false} KeywordIsKept(sem: Semantics, key: string, value: Json,
                                         siblings: map<string, Json>, clean: map<string, Json>, v: Json)
    requires SameReach(sem, siblings, clean)
    ensures Holds(sem, key, StripField(key, value), clean, v) <==> Holds(sem, key, value, siblings, v)
    decreases value, 3
  {
    hide Holds;
    hide SameReach;
    hide StripAnnotations;
    if key in SCHEMA_MAP_KEYS {
      MapKeywordIsKept(sem, key, value, siblings, clean, v);
    } else if key in SCHEMA_LIST_KEYS {
      ListKeywordIsKept(sem, key, value, siblings, clean, v);
    } else if key == "not" {
      NotIsKept(sem, value, siblings, clean, v);
    } else if key == "additionalProperties" {
      AdditionalIsKept(sem, value, siblings, clean, v);
    } else if key == "items" {
      ItemsIsKept(sem, value, siblings, clean, v);
    } else {
      OthersAssertNothingHere(sem, key, value, siblings, v);
      OthersAssertNothingHere(sem, key, value, clean, v);
    }
  }

  lemma OthersAssertNothingHere(sem: Semantics, key: string, value: Json, siblings: map<string, Json>, v: Json)
    requires key !in SCHEMA_MAP_KEYS + SCHEMA_LIST_KEYS + SCHEMA_VALUE_KEYS
    ensures Holds(sem, key, value, siblings, v)
  {
  }

  lemma {:induction false} NotIsKept(sem: Semantics, value: Json, siblings: map<string, Json>, clean: map<string, Json>, v: Json)
    ensures Holds(sem, "not", StripAnnotations(value), clean, v) <==> Holds(sem, "not", value, siblings, v)
    decreases value, 2
  {
    MeaningIsKept(sem, value, v);
  }

  lemma {:induction false} AdditionalIsKept(sem: Semantics, value: Json, siblings: map<string, Json>, clean: map<string, Json>, v: Json)
    requires SameReach(sem, siblings, clean)
    ensures Holds(sem, "additionalProperties", StripAnnotations(value), clean, v) <==>
            Holds(sem, "additionalProperties", value, siblings, v)
    decreases value, 2
  {
    if v.Obj? {
      forall name | name in v.fields
        ensures Valid(sem, StripAnnotations(value), v.fields[name]) <==> Valid(sem, value, v.fields[name])
      {
        MeaningIsKept(sem, value, v.fields[name]);
      }
    }
  }

  lemma {:induction false} ItemsIsKept(sem: Semantics, value: Json, siblings: map<string, Json>, clean: map<string, Json>, v: Json)
    requires SameReach(sem, siblings, clean)
    ensures Holds(sem, "items", StripAnnotations(value), clean, v) <==> Holds(sem, "items", value, siblings, v)
    decreases value, 2
  {
    hide Valid;
    hide TupleHolds;
    hide Covered;
    if value.Arr? {
      ListIsKept(sem, value.items, v);
    } else if v.Arr? {
      forall i | 0 <= i < |v.items|
        ensures Valid(sem, StripAnnotations(value), v.items[i]) <==> Valid(sem, value, v.items[i])
      {
        MeaningIsKept(sem, value, v.items[i]);
      }
    }
  }

  lemma {:induction false} ListKeywordIsKept(sem: Semantics, key: string, value: Json,
                                             siblings: map<string, Json>, clean: map<string, Json>, v: Json)
    requires key in SCHEMA_LIST_KEYS
    ensures Holds(sem, key, StripAnnotations(value), clean, v) <==> Holds(sem, key, value, siblings, v)
    decreases value, 2
  {
    hide Valid;
    hide CountValid;
    hide TupleHolds;
    if value.Arr? {
      ListIsKept(sem, value.items, v);
      CountIsKept(sem, value.items, v);
    }
  }

  lemma {:induction false} MapKeywordIsKept(sem: Semantics, key: string, value: Json,
                                            siblings: map<string, Json>, clean: map<string, Json>, v: Json)
    requires key in SCHEMA_MAP_KEYS
    ensures Holds(sem, key, StripField(key, value), clean, v) <==> Holds(sem, key, value, siblings, v)
    decreases value, 2
  {
    hide Valid;
    hide TupleHolds;
    hide CountValid;
    hide Covered;
    if value.Obj? && v.Obj? {
      forall sub, name | sub in value.fields && name in v.fields
        ensures Valid(sem, StripAnnotations(value.fields[sub]), v.fields[name]) <==> Valid(sem, value.fields[sub], v.fields[name])
      {
        MeaningIsKept(sem, value.fields[sub], v.fields[name]);
      }
    }
  }

  lemma {:induction false} ListIsKept(sem: Semantics, schemas: seq<Json>, v: Json)
    ensures forall i :: 0 <= i < |schemas| ==> (Valid(sem, StripEach(schemas)[i], v) <==> Valid(sem, schemas[i], v))
    ensures TupleHolds(sem, StripEach(schemas), v) <==> TupleHolds(sem, schemas, v)
    decreases schemas, 2
  {
    forall i | 0 <= i < |schemas|
      ensures Valid(sem, StripEach(schemas)[i], v) <==> Valid(sem, schemas[i], v)
    {
      MeaningIsKept(sem, schemas[i], v);
    }
    if v.Arr? {
      forall i | 0 <= i < |schemas| && i < |v.items|
        ensures Valid(sem, StripEach(schemas)[i], v.items[i]) <==> Valid(sem, schemas[i], v.items[i])
      {
        MeaningIsKept(sem, schemas[i], v.items[i]);
      }
    }
  }

  lemma {:induction false} CountIsKept(sem: Semantics, schemas: seq<Json>, v: Json)
    ensures CountValid(sem, StripEach(schemas), v) == CountValid(sem, schemas, v)
    decreases schemas, 2
  {
    if schemas != [] {
      MeaningIsKept(sem, schemas[0], v);
      CountIsKept(sem, schemas[1..], v);
      assert StripEach(schemas)[1..] == StripEach(schemas[1..]);
    }
  }

  // ---------------------------------------------------------------------------
  // What is removed, and what is not
  // ---------------------------------------------------------------------------

  /** No schema inside `node` carries a title; names of parameters and verbatim data do not count. */
  predicate TitleFree(node: Json)
    decreases node, 1
  {
    match node
    case Arr(items) => forall i :: 0 <= i < |items| ==> TitleFree(items[i])
    case Obj(fields) => "title" !in fields && forall key :: key in fields ==> FieldTitleFree(key, fields[key])
    case _ => true
  }

  predicate FieldTitleFree(key: string, value: Json)
    decreases value, 2
  {
    if key in SCHEMA_MAP_KEYS && value.Obj? then
      forall name :: name in value.fields ==> TitleFree(value.fields[name])
    else if key in SCHEMA_VALUE_KEYS || key in SCHEMA_LIST_KEYS then
      TitleFree(value)
    else
      true
  }

  /** The result carries no title, and only schemas that carried none are left as they were. */
  lemma {:induction false} StripRemovesExactlyTitles(node: Json)
    ensures TitleFree(StripAnnotations(node))
    ensures StripAnnotations(node) == node <==> TitleFree(node)
    decreases node, 1
  {
    match node
    case Arr(items) =>
      forall i | 0 <= i < |items|
        ensures TitleFree(StripAnnotations(items[i])) && (StripAnnotations(items[i]) == items[i] <==> TitleFree(items[i]))
      {
        StripRemovesExactlyTitles(items[i]);
      }
      assert StripAnnotations(node).items == items <==> forall i :: 0 <= i < |items| ==> StripAnnotations(items[i]) == items[i];
    case Obj(fields) =>
      var clean := StripAnnotations(node).fields;
      forall key | key in fields
        ensures FieldTitleFree(key, StripField(key, fields[key]))
        ensures StripField(key, fields[key]) == fields[key] <==> FieldTitleFree(key, fields[key])
      {
        FieldLosesExactlyTitles(key, fields[key]);
      }
      assert forall key :: key in clean ==> clean[key] == StripField(key, fields[key]);
      assert clean == fields <==> "title" !in fields && forall key :: key in fields ==> StripField(key, fields[key]) == fields[key];
    case _ =>
  }

  lemma {:induction false} FieldLosesExactlyTitles(key: string, value: Json)
    ensures FieldTitleFree(key, StripField(key, value))
    ensures StripField(key, value) == value <==> FieldTitleFree(key, value)
    decreases value, 2
  {
    if key in SCHEMA_MAP_KEYS && value.Obj? {
      var clean := StripField(key, value).fields;
      forall name | name in value.fields
        ensures TitleFree(StripAnnotations(value.fields[name]))
        ensures StripAnnotations(value.fields[name]) == value.fields[name] <==> TitleFree(value.fields[name])
      {
        StripRemovesExactlyTitles(value.fields[name]);
      }
      assert clean == value.fields <==>
             forall name :: name in value.fields ==> StripAnnotations(value.fields[name]) == value.fields[name];
    } else if key in SCHEMA_VALUE_KEYS || key in SCHEMA_LIST_KEYS {
      StripRemovesExactlyTitles(value);
    }
  }

  lemma StripIsIdempotent(node: Json)
    ensures StripAnnotations(StripAnnotations(node)) == StripAnnotations(node)
  {
    StripRemovesExactlyTitles(node);
    StripRemovesExactlyTitles(StripAnnotations(node));
  }

  /** A parameter keeps its place whatever its name, "title" included, and copied keywords keep their data. */
  lemma ParametersAndDataSurvive(fields: map<string, Json>)
    ensures var clean := StripAnnotations(Obj(fields)).fields;
            && clean.Keys == fields.Keys - {"title"}
            && Verbatim(clean) == Verbatim(fields)
            && forall key :: key in fields && key in SCHEMA_MAP_KEYS && fields[key].Obj? ==>
                 clean[key].Obj? && clean[key].fields.Keys == fields[key].fields.Keys
  {
    var clean := StripAnnotations(Obj(fields)).fields;
    VerbatimIsKept(fields);
    forall key | key in fields && key in SCHEMA_MAP_KEYS && fields[key].Obj?
      ensures clean[key].Obj? && clean[key].fields.Keys == fields[key].fields.Keys
    {
      assert clean[key] == StripField(key, fields[key]);
    }
  }
}

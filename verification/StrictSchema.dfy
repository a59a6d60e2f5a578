/**
 Tightening of JSON schemas: every schema of type object that is reached from the root through
 `properties` gets `additionalProperties: false`.  Meaning is given by a validator for the keywords
 `type`, `properties` and `additionalProperties` (section 10.3.2 of JSON Schema Core, draft 2020-12).
 */
module StrictSchema {
  import opened Prelude

  datatype Json =
    | Null
    | Boolean(b: bool)
    | Number(n: real)
    | Text(s: string)
    | Array(items: seq<Json>)
    | Object(members: map<string, Json>)

  datatype TypeKeyword = NoType | One(name: string) | Several(names: set<string>)

  /** The value of `properties`, which nothing forces to be a mapping. */
  datatype Properties = NoProperties | NotAMapping | Declared(schemas: map<string, Schema>)

  /** A boolean schema, or one with keywords. */
  datatype Schema =
    | Always(accepts: bool)
    | Keywords(kind: TypeKeyword, properties: Properties, additional: Option<Schema>)

  // ----- Validation -----

  predicate HasType(name: string, doc: Json) {
    match doc
    case Null => name == "null"
    case Boolean(_) => name == "boolean"
    case Number(n) => name == "number" || (name == "integer" && n.Floor as real == n)
    case Text(_) => name == "string"
    case Array(_) => name == "array"
    case Object(_) => name == "object"
  }

  predicate TypeAccepts(kind: TypeKeyword, doc: Json) {
    match kind
    case NoType => true
    case One(name) => HasType(name, doc)
    case Several(names) => exists name :: name in names && HasType(name, doc)
  }

  predicate Declares(s: Schema, key: string) {
    s.Keywords? && s.properties.Declared? && key in s.properties.schemas
  }

  ghost predicate Accepts(s: Schema, doc: Json)
    decreases s
  {
    match s
    case Always(b) => b
    case Keywords(kind, properties, additional) =>
      && TypeAccepts(kind, doc)
      && (doc.Object? ==>
            && (properties.Declared? ==>
                  forall k :: k in properties.schemas && k in doc.members ==>
                    Accepts(properties.schemas[k], doc.members[k]))
            && (additional.Some? ==>
                  forall k :: k in doc.members && !Declares(s, k) ==> Accepts(additional.value, doc.members[k])))
  }

  // ----- The transformation -----

  predicate IsObjectSchema(s: Schema) {
    s.Keywords? && s.kind == One("object")
  }

  function Strict(s: Schema): Schema
    decreases s
  {
    if IsObjectSchema(s) then
      Keywords(s.kind,
               match s.properties
               case Declared(schemas) => Declared(map k | k in schemas :: Strict(schemas[k]))
               case other => other,
               Some(Always(false)))
    else s
  }

  /** No undeclared key at any object position that the schema reaches through `properties`. */
  ghost predicate NoUndeclaredKeys(s: Schema, doc: Json)
    decreases s
  {
    s.Keywords? && s.kind == One("object") && doc.Object? ==>
      && (forall k :: k in doc.members ==> s.properties.Declared? && k in s.properties.schemas)
      && (s.properties.Declared? ==>
            forall k :: k in s.properties.schemas && k in doc.members ==>
              NoUndeclaredKeys(s.properties.schemas[k], doc.members[k]))
  }

  /** The strict schema accepts exactly what the original accepts and what has no undeclared keys. */
  lemma {:induction false} StrictAcceptsIff(s: Schema, doc: Json)
    ensures Accepts(Strict(s), doc) <==> Accepts(s, doc) && NoUndeclaredKeys(s, doc)
    decreases s
  {
    if IsObjectSchema(s) && doc.Object? && s.properties.Declared? {
      forall k | k in s.properties.schemas && k in doc.members
        ensures Accepts(Strict(s.properties.schemas[k]), doc.members[k]) <==>
                Accepts(s.properties.schemas[k], doc.members[k])
                && NoUndeclaredKeys(s.properties.schemas[k], doc.members[k])
      {
        StrictAcceptsIff(s.properties.schemas[k], doc.members[k]);
      }
    }
  }

  /** Tightening never widens: whatever passes the strict schema passes the original. */
  lemma StrictOnlyNarrows(s: Schema, doc: Json)
    requires Accepts(Strict(s), doc)
    ensures Accepts(s, doc)
  {
    StrictAcceptsIff(s, doc);
  }

  /** What an object schema accepts is an object: nothing else is ever tightened. */
  lemma ObjectSchemasAcceptObjects(s: Schema, doc: Json)
    requires s.Keywords? && s.kind == One("object") && Accepts(s, doc)
    ensures doc.Object?
  {
  }

  /** A document has one type, a whole number two. */
  lemma TypesOf(doc: Json, a: string, b: string)
    requires HasType(a, doc) && HasType(b, doc)
    ensures a == b || (doc.Number? && {a, b} == {"number", "integer"} && doc.n == doc.n.Floor as real)
  {
  }

  /** Every document has a type, a whole number is an integer too, and a schema that names none takes them all. */
  lemma TypesExist(doc: Json)
    ensures exists name :: HasType(name, doc)
    ensures doc.Number? ==> HasType("number", doc) && (HasType("integer", doc) <==> doc.n.Floor as real == doc.n)
    ensures Accepts(Keywords(NoType, NoProperties, None), doc)
  {
    assert HasType(match doc
                   case Null => "null"
                   case Boolean(_) => "boolean"
                   case Number(_) => "number"
                   case Text(_) => "string"
                   case Array(_) => "array"
                   case Object(_) => "object", doc);
  }

  // ----- Fixpoints -----

  /** Every object schema reached through `properties` already forbids undeclared keys. */
  ghost predicate IsStrict(s: Schema)
    decreases s
  {
    s.Keywords? && s.kind == One("object") ==>
      && s.additional == Some(Always(false))
      && (s.properties.Declared? ==> forall k :: k in s.properties.schemas ==> IsStrict(s.properties.schemas[k]))
  }

  lemma {:induction false} StrictIsStrict(s: Schema)
    ensures IsStrict(Strict(s))
    decreases s
  {
    if IsObjectSchema(s) && s.properties.Declared? {
      forall k | k in s.properties.schemas
        ensures IsStrict(Strict(s.properties.schemas[k]))
      {
        StrictIsStrict(s.properties.schemas[k]);
      }
    }
  }

  /** A schema is left as it is exactly when it is strict already. */
  lemma {:induction false} UnchangedIffStrict(s: Schema)
    ensures Strict(s) == s <==> IsStrict(s)
    decreases s
  {
    if IsObjectSchema(s) && s.properties.Declared? {
      var schemas := s.properties.schemas;
      var tight := map k | k in schemas :: Strict(schemas[k]);
      forall k | k in schemas
        ensures Strict(schemas[k]) == schemas[k] <==> IsStrict(schemas[k])
      {
        UnchangedIffStrict(schemas[k]);
      }
      assert tight == schemas <==> forall k :: k in schemas ==> tight[k] == schemas[k];
    }
  }

  lemma {:induction false} StrictIsIdempotent(s: Schema)
    ensures Strict(Strict(s)) == Strict(s)
  {
    StrictIsStrict(s);
    UnchangedIffStrict(Strict(s));
  }

  // ----- The caller's own schema -----

  /**
   What is left of the schema passed in: the copy made of it is shallow, so its `properties` mapping is
   the one that is rewritten, while its own `additionalProperties` is not touched.
   */
  function Leftover(s: Schema): Schema {
    if IsObjectSchema(s) then s.(properties := Strict(s).properties) else s
  }

  /**
   The leftover of an object schema is as open at the root as it was, and strict below: it accepts what the
   original accepts and what has no undeclared keys in the documents under its properties.
   */
  lemma LeftoverAcceptsIff(s: Schema, doc: Json)
    requires s.Keywords? && s.kind == One("object")
    ensures Leftover(s).Keywords? && Leftover(s).additional == s.additional && Leftover(s).kind == s.kind
    ensures Accepts(Leftover(s), doc) <==>
            && Accepts(s, doc)
            && (doc.Object? && s.properties.Declared? ==>
                  forall k :: k in s.properties.schemas && k in doc.members ==>
                    NoUndeclaredKeys(s.properties.schemas[k], doc.members[k]))
  {
    if doc.Object? && s.properties.Declared? {
      forall k | k in s.properties.schemas && k in doc.members
        ensures Accepts(Strict(s.properties.schemas[k]), doc.members[k]) <==>
                Accepts(s.properties.schemas[k], doc.members[k])
                && NoUndeclaredKeys(s.properties.schemas[k], doc.members[k])
      {
        StrictAcceptsIff(s.properties.schemas[k], doc.members[k]);
      }
    }
  }

  /** Handing the leftover in again gives the same strict schema. */
  lemma LeftoverIsStillGood(s: Schema)
    ensures Strict(Leftover(s)) == Strict(s)
    ensures Leftover(Leftover(s)) == Leftover(s)
  {
    if IsObjectSchema(s) && s.properties.Declared? {
      var schemas := s.properties.schemas;
      forall k | k in schemas
        ensures Strict(Strict(schemas[k])) == Strict(schemas[k])
      {
        StrictIsIdempotent(schemas[k]);
      }
      var tight := map k | k in schemas :: Strict(schemas[k]);
      assert Leftover(s).properties == Declared(tight);
      assert (map k | k in tight :: Strict(tight[k])) == tight;
    }
  }

  /**
   The loop over the properties, which rewrites the mapping entry by entry; `leftover` is the caller's
   schema afterwards.
   */
  method EnsureStrict(schema: Schema) returns (strict: Schema, leftover: Schema)
    ensures strict == Strict(schema) && leftover == Leftover(schema)
    decreases schema
  {
    strict, leftover := schema, schema;
    if schema.Keywords? && schema.kind == One("object") {
      strict := strict.(additional := Some(Always(false)));
      if schema.properties.Declared? {
        var schemas := schema.properties.schemas;
        var rest := schemas.Keys;
        while rest != {}
          invariant rest <= schema.properties.schemas.Keys == schemas.Keys
          invariant forall k :: k in schemas ==>
                      schemas[k] == if k in rest then schema.properties.schemas[k]
                                    else Strict(schema.properties.schemas[k])
        {
          var k :| k in rest;
          rest := rest - {k};
          var prop := schema.properties.schemas[k];
          if prop.Keywords? && prop.kind == One("object") {
            var tight, _ := EnsureStrict(prop);
            schemas := schemas[k := tight];
          }
        }
        assert schemas == (map k | k in schema.properties.schemas :: Strict(schema.properties.schemas[k]));
        strict := strict.(properties := Declared(schemas));
        leftover := leftover.(properties := Declared(schemas));
      }
    }
  }
}

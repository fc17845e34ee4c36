/** The text generation of swagger-to-flow (index.js): the `definitions` of a parsed
    Swagger document become Flow `export type` declarations, one per definition, in the
    order the document lists them. */
module SwaggerToFlow {
  import opened Wrappers
  import opened Strings

  // ---------------------------------------------------------------------------
  // Data model
  // ---------------------------------------------------------------------------

  /** The `transformProperty` choice of the command line. */
  datatype TransformProperty = Normal | FirstCaseLower

  /** The `items` schema of an array property: its `type` and `$ref` members. */
  datatype ItemSchema = ItemSchema(itemType: Option<string>, itemRef: Option<string>)

  /** A property schema: its `type`, `$ref` and `items` members, each possibly absent. */
  datatype PropertySchema =
    PropertySchema(propType: Option<string>, ref: Option<string>, items: Option<ItemSchema>)

  /** A definition: its `type` and its `properties`, in `Object.entries` order. */
  datatype Definition =
    Definition(defType: Option<string>, properties: Option<seq<(string, PropertySchema)>>)

  /** The parsed document; only its `definitions` member is read. */
  datatype Document = Document(definitions: Option<seq<(string, Definition)>>)

  /** The primitive map `swaggerToFlowTypes`, from Swagger type names to Flow type names. */
  type PrimitiveMap = map<string, string>

  /** What the generator throws. */
  datatype Error =
    | NoDefinitions                              // the document has no `definitions`
    | UnableToParse(kind: string, name: string)  // a definition whose `type` is not "object"
    | PropertiesMissing                          // `Object.entries` of absent `properties`
    | ItemsMissing                               // reading `type` of absent `items`

  /** The message each error carries. */
  function Message(e: Error): (r: string)
    ensures e == NoDefinitions ==> r == "No swagger definitions to parse"
    ensures e.UnableToParse? ==>
              && |r| == |"Unable to parse "| + |e.kind| + |" for "| + |e.name|
              && r[..|"Unable to parse "|] == "Unable to parse "
              && r[|r| - |e.name|..] == e.name
  {
    match e
    case NoDefinitions => "No swagger definitions to parse"
    case UnableToParse(kind, name) => "Unable to parse " + kind + " for " + name
    case PropertiesMissing => "Cannot convert undefined or null to object"
    case ItemsMissing => "Cannot read property 'type' of undefined"
  }

  /** JavaScript truthiness of a member that holds a string or is absent. */
  predicate Truthy(v: Option<string>): (b: bool)
    ensures b ==> v.Some?
    ensures v == Some("") ==> !b
    ensures v.Some? && v.value != "" ==> b
  {
    v.Some? && v.value != ""
  }

  /** How a string or `undefined` reads when interpolated or used as an object key. */
  function Text(v: Option<string>): (r: string)
    ensures v.Some? ==> r == v.value
    ensures v.None? ==> r == "undefined"
  {
    match v
    case Some(s) => s
    case None => "undefined"
  }

  /** `swaggerToFlowTypes[key]`: a miss is `undefined`. */
  function Lookup(prims: PrimitiveMap, key: string): (r: Option<string>)
    ensures r.Some? <==> key in prims
    ensures r.Some? ==> r.value == prims[key]
  {
    if key in prims then Some(prims[key]) else None
  }

  const DefinitionsPrefix: string := "#/definitions/"

  /** `ref.replace("#/definitions/", "")`. */
  function StripRef(ref: string): (r: string)
    ensures (forall j: nat :: !OccursAt(ref, DefinitionsPrefix, j)) ==> r == ref
    ensures (exists j: nat :: OccursAt(ref, DefinitionsPrefix, j)) ==> |r| == |ref| - |DefinitionsPrefix|
  {
    ReplaceFirst(ref, DefinitionsPrefix, "")
  }

  /** A local reference `#/definitions/<name>` strips to `<name>`. */
  lemma StripRefOfPointer(name: string)
    ensures StripRef(DefinitionsPrefix + name) == name
  {
    var s := DefinitionsPrefix + name;
    assert s[0..|DefinitionsPrefix|] == DefinitionsPrefix;
    ReplaceFirstAt(s, DefinitionsPrefix, "", 0);
  }

  // ---------------------------------------------------------------------------
  // parsePropertyName
  // ---------------------------------------------------------------------------

  /** The emitted name of a property under the `transformProperty` policy. */
  function ParsePropertyName(name: string, policy: TransformProperty): (r: string)
    ensures |r| == |name|
    ensures policy == Normal ==> r == name
    ensures policy == FirstCaseLower && !HasLowerAscii(name) ==>
              r == ToLower(name) && !HasUpperAscii(r)
    ensures policy == FirstCaseLower && HasLowerAscii(name) ==>
              r[0] == LowerAscii(name[0]) && r[1..] == name[1..]
  {
    match policy
    case Normal => name
    case FirstCaseLower =>
      if !HasLowerAscii(name) then ToLower(name)
      else [LowerAscii(name[0])] + name[1..]
  }

  /** The transform changes only the case of letters. */
  lemma PropertyNameOnlyChangesCase(name: string, policy: TransformProperty)
    ensures ToLower(ParsePropertyName(name, policy)) == ToLower(name)
  {
    var r := ParsePropertyName(name, policy);
    if policy == FirstCaseLower {
      if !HasLowerAscii(name) {
        ToLowerIdempotent(name);
      } else {
        assert forall i :: 0 <= i < |r| ==> LowerAscii(r[i]) == LowerAscii(name[i]);
      }
    }
  }

  /** Transforming an already transformed name changes nothing. */
  lemma PropertyNameIdempotent(name: string, policy: TransformProperty)
    ensures ParsePropertyName(ParsePropertyName(name, policy), policy)
            == ParsePropertyName(name, policy)
  {
    var r := ParsePropertyName(name, policy);
    if policy == FirstCaseLower {
      if !HasLowerAscii(name) {
        if HasLowerAscii(r) {
          assert [LowerAscii(r[0])] + r[1..] == r;
        } else {
          ToLowerIdempotent(name);
        }
      } else {
        var i :| 0 <= i < |name| && IsLowerAscii(name[i]);
        assert IsLowerAscii(r[i]);
        assert [LowerAscii(r[0])] + r[1..] == r;
      }
    }
  }

  /** The acronym and camel-case examples. */
  lemma PropertyNameExamples()
    ensures ParsePropertyName("ID", FirstCaseLower) == "id"
    ensures ParsePropertyName("UserId", FirstCaseLower) == "userId"
    ensures ParsePropertyName("UserId", Normal) == "UserId"
  {
    assert IsLowerAscii("UserId"[1]);
    assert ToLower("ID") == "id";
  }

  // ---------------------------------------------------------------------------
  // parsePropertyType
  // ---------------------------------------------------------------------------

  /** The Flow type of a property: Success(None) is the `undefined` the source returns
      when no branch applies or the primitive map has no entry. */
  function ParsePropertyType(p: PropertySchema, prims: PrimitiveMap): (r: Result<Option<string>, Error>)
    ensures r.Failure? <==> p.propType == Some("array") && p.items.None?
    ensures r.Failure? ==> r.error == ItemsMissing
    ensures p.propType == Some("array") && r.Success? && r.value.Some? ==>
              && |r.value.value| >= |"Array<>"|
              && r.value.value[..|"Array<"|] == "Array<"
              && r.value.value[|r.value.value| - 1] == '>'
  {
    if p.propType == Some("array") then
      match p.items
      case None => Failure(ItemsMissing)
      case Some(items) =>
        if Truthy(items.itemType) then
          Success(Some("Array<" + Text(Lookup(prims, items.itemType.value)) + ">"))
        else if Truthy(items.itemRef) then
          Success(Some("Array<" + StripRef(items.itemRef.value) + ">"))
        else Success(None)
    else if !Truthy(p.propType) && Truthy(p.ref) then
      Success(Some(StripRef(p.ref.value)))
    else
      Success(Lookup(prims, Text(p.propType)))
  }

  /** A reference to `#/definitions/<name>` renders as `<name>`, bare or as array items. */
  lemma PropertyTypeOfReference(name: string, prims: PrimitiveMap)
    ensures ParsePropertyType(PropertySchema(None, Some(DefinitionsPrefix + name), None), prims)
            == Success(Some(name))
    ensures ParsePropertyType(
              PropertySchema(Some("array"), None, Some(ItemSchema(None, Some(DefinitionsPrefix + name)))),
              prims)
            == Success(Some("Array<" + name + ">"))
  {
    StripRefOfPointer(name);
  }

  /** Without a truthy `type`, a truthy `$ref` renders as the reference with its first
      `#/definitions/` removed, wherever that occurrence is; the same holds for array items
      without a truthy `items.type`. */
  lemma PropertyTypeOfAnyReference(p: PropertySchema, prims: PrimitiveMap)
    ensures !Truthy(p.propType) && Truthy(p.ref) ==>
              ParsePropertyType(p, prims) == Success(Some(StripRef(p.ref.value)))
    ensures p.propType == Some("array") && p.items.Some?
            && !Truthy(p.items.value.itemType) && Truthy(p.items.value.itemRef) ==>
              ParsePropertyType(p, prims)
              == Success(Some("Array<" + StripRef(p.items.value.itemRef.value) + ">"))
  {
  }

  /** A non-array property that is not a bare reference is rendered from the primitive
      map under the text of its `type` (an absent `type` looks up "undefined"); array items
      with a `type` are rendered from the map, whatever their `$ref` says, and a miss reads
      as "undefined" inside `Array<...>`. */
  lemma PropertyTypePrimitive(p: PropertySchema, prims: PrimitiveMap)
    ensures p.propType != Some("array") && (Truthy(p.propType) || !Truthy(p.ref)) ==>
              ParsePropertyType(p, prims) == Success(Lookup(prims, Text(p.propType)))
    ensures p.propType == Some("array") && p.items.Some? && Truthy(p.items.value.itemType) ==>
              ParsePropertyType(p, prims)
              == Success(Some("Array<" + Text(Lookup(prims, p.items.value.itemType.value)) + ">"))
  {
  }

  /** `type` takes precedence over `$ref`, and `items.type` over `items.$ref`: the
      overridden member does not affect the result. */
  lemma PropertyTypePrecedence(p: PropertySchema, prims: PrimitiveMap)
    ensures Truthy(p.propType) ==>
              ParsePropertyType(p, prims) == ParsePropertyType(p.(ref := None), prims)
    ensures p.items.Some? && Truthy(p.items.value.itemType) ==>
              ParsePropertyType(p, prims)
              == ParsePropertyType(p.(items := Some(p.items.value.(itemRef := None))), prims)
  {
  }

  /** Exactly when the source produces `undefined`. */
  lemma PropertyTypeUndefinedIff(p: PropertySchema, prims: PrimitiveMap)
    ensures ParsePropertyType(p, prims) == Success(None) <==>
              || (p.propType == Some("array") && p.items.Some?
                  && !Truthy(p.items.value.itemType) && !Truthy(p.items.value.itemRef))
              || (p.propType != Some("array") && (Truthy(p.propType) || !Truthy(p.ref))
                  && Text(p.propType) !in prims)
  {
  }

  /** A primitive the map does not know is not an error: the entry reads `undefined`,
      bare or inside `Array<...>`. */
  lemma UnmappedPrimitiveRendersUndefined(key: string, p: PropertySchema,
                                          policy: TransformProperty, prims: PrimitiveMap)
    requires Truthy(p.propType)
    ensures p.propType.value != "array" && p.propType.value !in prims ==>
              PropertyEntry(key, p, policy, prims)
              == Success(ParsePropertyName(key, policy) + ": " + "undefined")
    ensures p.propType.value == "array" && p.items.Some? && Truthy(p.items.value.itemType)
            && p.items.value.itemType.value !in prims ==>
              PropertyEntry(key, p, policy, prims)
              == Success(ParsePropertyName(key, policy) + ": " + "Array<undefined>")
  {
    assert "Array<" + "undefined" + ">" == "Array<undefined>";
  }

  // ---------------------------------------------------------------------------
  // processDefinition
  // ---------------------------------------------------------------------------

  /** One `name: Type` entry of an object body. */
  function PropertyEntry(key: string, p: PropertySchema, policy: TransformProperty,
                         prims: PrimitiveMap): (r: Result<string, Error>)
    ensures r.Failure? <==> ParsePropertyType(p, prims).Failure?
    ensures r.Failure? ==> r.error == ParsePropertyType(p, prims).error
    ensures r.Success? ==>
              && |r.value| == |key| + 2 + |Text(ParsePropertyType(p, prims).value)|
              && r.value[..|key|] == ParsePropertyName(key, policy)
              && r.value[|key|..|key| + 2] == ": "
              && r.value[|key| + 2..] == Text(ParsePropertyType(p, prims).value)
  {
    match ParsePropertyType(p, prims)
    case Failure(e) => Failure(e)
    case Success(t) => Success(ParsePropertyName(key, policy) + ": " + Text(t))
  }

  /** The body of the Flow type for one definition. */
  function ProcessDefinition(name: string, d: Definition, policy: TransformProperty,
                             prims: PrimitiveMap): (r: Result<string, Error>)
    ensures d.defType != Some("object") ==>
              r == Failure(UnableToParse(Text(d.defType), name))
              && Message(r.error) == "Unable to parse " + Text(d.defType) + " for " + name
    ensures d.defType == Some("object") && d.properties.None? ==> r == Failure(PropertiesMissing)
    ensures r.Success? ==>
              && d.defType == Some("object") && d.properties.Some?
              && forall i :: 0 <= i < |d.properties.value| ==>
                   ParsePropertyType(d.properties.value[i].1, prims).Success?
  {
    if d.defType != Some("object") then Failure(UnableToParse(Text(d.defType), name))
    else
      match d.properties
      case None => Failure(PropertiesMissing)
      case Some(props) =>
        match Traverse(props, (e: (string, PropertySchema)) => PropertyEntry(e.0, e.1, policy, prims))
        case Failure(e) => Failure(e)
        case Success(entries) => Success("{\n\t" + Join(entries, ",\n\t") + "\n}")
  }

  /** The `name: Type` entries of an object body whose properties all render, one per
      property, in input order. */
  function RenderedEntries(props: seq<(string, PropertySchema)>, policy: TransformProperty,
                           prims: PrimitiveMap): (r: seq<string>)
    requires forall i :: 0 <= i < |props| ==> ParsePropertyType(props[i].1, prims).Success?
    ensures |r| == |props|
  {
    seq(|props|, i requires 0 <= i < |props| =>
      ParsePropertyName(props[i].0, policy) + ": " + Text(ParsePropertyType(props[i].1, prims).value))
  }

  /** An object definition whose properties all render is `{`, its entries separated by
      `,\n\t`, and `}`. */
  lemma DefinitionBody(name: string, d: Definition, policy: TransformProperty, prims: PrimitiveMap)
    requires d.defType == Some("object") && d.properties.Some?
    requires forall i :: 0 <= i < |d.properties.value| ==>
               ParsePropertyType(d.properties.value[i].1, prims).Success?
    ensures ProcessDefinition(name, d, policy, prims)
            == Success("{\n\t" + Join(RenderedEntries(d.properties.value, policy, prims), ",\n\t") + "\n}")
  {
    var props := d.properties.value;
    var f := (e: (string, PropertySchema)) => PropertyEntry(e.0, e.1, policy, prims);
    assert forall i :: 0 <= i < |props| ==> f(props[i]).Success?;
    assert Traverse(props, f).value == RenderedEntries(props, policy, prims);
  }

  /** A definition renders exactly when it is an object with properties and no array
      property lacks `items`. */
  lemma ProcessDefinitionSucceedsIff(name: string, d: Definition, policy: TransformProperty,
                                     prims: PrimitiveMap)
    ensures ProcessDefinition(name, d, policy, prims).Success? <==>
              && d.defType == Some("object") && d.properties.Some?
              && forall i :: 0 <= i < |d.properties.value| ==>
                   !(d.properties.value[i].1.propType == Some("array")
                     && d.properties.value[i].1.items.None?)
  {
    if d.defType == Some("object") && d.properties.Some? {
      var props := d.properties.value;
      var f := (e: (string, PropertySchema)) => PropertyEntry(e.0, e.1, policy, prims);
      assert forall i :: 0 <= i < |props| ==>
        (f(props[i]).Success? <==> !(props[i].1.propType == Some("array") && props[i].1.items.None?));
    }
  }

  // ---------------------------------------------------------------------------
  // processDefinitions
  // ---------------------------------------------------------------------------

  /** The text of one `export type` declaration. */
  function Declaration(key: string, body: string): (r: string)
    ensures |r| == |"export type "| + |key| + |" = "| + |body|
    ensures r[..|"export type "|] == "export type "
    ensures r[|"export type "|..|"export type "| + |key|] == key
    ensures r[|"export type "| + |key|..|"export type "| + |key| + |" = "|] == " = "
    ensures r[|r| - |body|..] == body
  {
    "export type " + key + " = " + body
  }

  /** The declaration for one definition, or what rendering it throws. */
  function DeclarationOf(key: string, d: Definition, policy: TransformProperty,
                         prims: PrimitiveMap): (r: Result<string, Error>)
    ensures r.Success? <==> ProcessDefinition(key, d, policy, prims).Success?
    ensures r.Failure? ==> r.error == ProcessDefinition(key, d, policy, prims).error
    ensures r.Success? ==> r.value == Declaration(key, ProcessDefinition(key, d, policy, prims).value)
  {
    match ProcessDefinition(key, d, policy, prims)
    case Failure(e) => Failure(e)
    case Success(body) => Success(Declaration(key, body))
  }

  /** The text the generator outputs for a document, or the error it throws. */
  function DocumentText(doc: Document, policy: TransformProperty, prims: PrimitiveMap)
    : (r: Result<string, Error>)
    ensures doc.definitions.None? ==>
              r == Failure(NoDefinitions) && Message(r.error) == "No swagger definitions to parse"
  {
    match doc.definitions
    case None => Failure(NoDefinitions)
    case Some(defs) =>
      match Traverse(defs, (e: (string, Definition)) => DeclarationOf(e.0, e.1, policy, prims))
      case Failure(e) => Failure(e)
      case Success(decls) => Success(Join(decls, "\n\n"))
  }

  /** Builds the declarations one definition at a time and joins them with blank lines;
      the first definition that throws aborts the run before anything is output. */
  method ProcessDefinitions(doc: Document, policy: TransformProperty, prims: PrimitiveMap)
    returns (r: Result<string, Error>)
    ensures r == DocumentText(doc, policy, prims)
  {
    if doc.definitions.None? {
      return Failure(NoDefinitions);
    }
    var defs := doc.definitions.value;
    ghost var f := (e: (string, Definition)) => DeclarationOf(e.0, e.1, policy, prims);
    var data: seq<string> := [];
    var i := 0;
    while i < |defs|
      invariant 0 <= i <= |defs|
      invariant |data| == i
      invariant forall k :: 0 <= k < i ==> f(defs[k]) == Success(data[k])
    {
      var (key, value) := defs[i];
      var decl := DeclarationOf(key, value, policy, prims);
      if decl.Failure? {
        TraverseFailsAtFirst(defs, f, i);
        return Failure(decl.error);
      }
      data := data + [decl.value];
      i := i + 1;
    }
    TraverseAllSucceed(defs, f, data);
    r := Success(Join(data, "\n\n"));
  }

  /** The declarations of a document whose definitions all render: one
      `export type <key> = <body>` per definition, key verbatim, in input order. */
  function RenderedDeclarations(defs: seq<(string, Definition)>, policy: TransformProperty,
                                prims: PrimitiveMap): (r: seq<string>)
    requires forall i :: 0 <= i < |defs| ==> ProcessDefinition(defs[i].0, defs[i].1, policy, prims).Success?
    ensures |r| == |defs|
  {
    seq(|defs|, i requires 0 <= i < |defs| =>
      Declaration(defs[i].0, ProcessDefinition(defs[i].0, defs[i].1, policy, prims).value))
  }

  /** With every definition rendering, the output is the declarations separated by blank
      lines. */
  lemma DocumentDeclarations(doc: Document, policy: TransformProperty, prims: PrimitiveMap)
    requires doc.definitions.Some?
    requires forall i :: 0 <= i < |doc.definitions.value| ==>
               ProcessDefinition(doc.definitions.value[i].0, doc.definitions.value[i].1,
                                 policy, prims).Success?
    ensures DocumentText(doc, policy, prims)
            == Success(Join(RenderedDeclarations(doc.definitions.value, policy, prims), "\n\n"))
  {
    var defs := doc.definitions.value;
    var f := (e: (string, Definition)) => DeclarationOf(e.0, e.1, policy, prims);
    assert forall i :: 0 <= i < |defs| ==> f(defs[i]).Success?;
    assert Traverse(defs, f).value == RenderedDeclarations(defs, policy, prims);
  }

  /** The first definition that fails decides the error, and no text is produced. */
  lemma DocumentFailsAtFirstBadDefinition(doc: Document, policy: TransformProperty,
                                          prims: PrimitiveMap, i: nat)
    requires doc.definitions.Some? && i < |doc.definitions.value|
    requires ProcessDefinition(doc.definitions.value[i].0, doc.definitions.value[i].1,
                               policy, prims).Failure?
    requires forall j :: 0 <= j < i ==>
               ProcessDefinition(doc.definitions.value[j].0, doc.definitions.value[j].1,
                                 policy, prims).Success?
    ensures DocumentText(doc, policy, prims) == Failure(
              ProcessDefinition(doc.definitions.value[i].0, doc.definitions.value[i].1,
                                policy, prims).error)
  {
    var defs := doc.definitions.value;
    var f := (e: (string, Definition)) => DeclarationOf(e.0, e.1, policy, prims);
    TraverseFailsAtFirst(defs, f, i);
  }

  /** Definitions are rendered independently: the output for two non-empty lists of
      definitions that both render is the output for the first, a blank line, and the
      output for the second. */
  lemma DocumentConcat(defs1: seq<(string, Definition)>, defs2: seq<(string, Definition)>,
                       policy: TransformProperty, prims: PrimitiveMap)
    requires defs1 != [] && defs2 != []
    requires DocumentText(Document(Some(defs1)), policy, prims).Success?
    requires DocumentText(Document(Some(defs2)), policy, prims).Success?
    ensures DocumentText(Document(Some(defs1 + defs2)), policy, prims) == Success(
              DocumentText(Document(Some(defs1)), policy, prims).value + "\n\n"
              + DocumentText(Document(Some(defs2)), policy, prims).value)
  {
    var f := (e: (string, Definition)) => DeclarationOf(e.0, e.1, policy, prims);
    var t1, t2 := Traverse(defs1, f), Traverse(defs2, f);
    TraverseAppend(defs1, defs2, f);
    JoinAppend(t1.value, t2.value, "\n\n");
  }

  // A pet store document: `Pet` with a string `name`, and `Order` whose `pet` refers to
  // `Pet`.

  const NameProperty := PropertySchema(Some("string"), None, None)
  const PetProperty := PropertySchema(None, Some("#/definitions/Pet"), None)
  const PetDefinition := Definition(Some("object"), Some([("name", NameProperty)]))
  const OrderDefinition := Definition(Some("object"), Some([("pet", PetProperty)]))

  /** The body of an object definition with one property that renders. */
  lemma SinglePropertyBody(name: string, key: string, p: PropertySchema,
                           policy: TransformProperty, prims: PrimitiveMap)
    requires ParsePropertyType(p, prims).Success?
    ensures ProcessDefinition(name, Definition(Some("object"), Some([(key, p)])), policy, prims)
            == Success("{\n\t" + (ParsePropertyName(key, policy) + ": "
                                  + Text(ParsePropertyType(p, prims).value)) + "\n}")
  {
    var d := Definition(Some("object"), Some([(key, p)]));
    DefinitionBody(name, d, policy, prims);
    var entries := RenderedEntries([(key, p)], policy, prims);
    assert entries == [ParsePropertyName(key, policy) + ": " + Text(ParsePropertyType(p, prims).value)];
  }

  lemma PetDefinitionExample(prims: PrimitiveMap)
    requires "string" in prims && prims["string"] == "string"
    ensures ProcessDefinition("Pet", PetDefinition, Normal, prims) == Success("{\n\tname: string\n}")
  {
    assert ParsePropertyType(NameProperty, prims) == Success(Some("string"));
    SinglePropertyBody("Pet", "name", NameProperty, Normal, prims);
    assert "{\n\t" + ("name" + ": " + "string") + "\n}" == "{\n\tname: string\n}";
  }

  lemma OrderDefinitionExample(prims: PrimitiveMap)
    ensures ProcessDefinition("Order", OrderDefinition, Normal, prims) == Success("{\n\tpet: Pet\n}")
  {
    PropertyTypeOfReference("Pet", prims);
    assert DefinitionsPrefix + "Pet" == "#/definitions/Pet";
    assert ParsePropertyType(PetProperty, prims) == Success(Some("Pet"));
    SinglePropertyBody("Order", "pet", PetProperty, Normal, prims);
    assert "{\n\t" + ("pet" + ": " + "Pet") + "\n}" == "{\n\tpet: Pet\n}";
  }

  /** A document of two definitions that both render is their two declarations with a
      blank line between. */
  lemma TwoDefinitionDocument(key1: string, d1: Definition, key2: string, d2: Definition,
                              policy: TransformProperty, prims: PrimitiveMap)
    requires ProcessDefinition(key1, d1, policy, prims).Success?
    requires ProcessDefinition(key2, d2, policy, prims).Success?
    ensures DocumentText(Document(Some([(key1, d1), (key2, d2)])), policy, prims)
            == Success(Declaration(key1, ProcessDefinition(key1, d1, policy, prims).value) + "\n\n"
                       + Declaration(key2, ProcessDefinition(key2, d2, policy, prims).value))
  {
    var f := (e: (string, Definition)) => DeclarationOf(e.0, e.1, policy, prims);
    TraverseTwo((key1, d1), (key2, d2), f);
    JoinTwo(f((key1, d1)).value, f((key2, d2)).value, "\n\n");
  }

  /** `Pet` is declared before `Order`, and `Order`'s body names `Pet`. */
  lemma PetStoreExample(prims: PrimitiveMap)
    requires "string" in prims && prims["string"] == "string"
    ensures DocumentText(Document(Some([("Pet", PetDefinition), ("Order", OrderDefinition)])), Normal, prims)
            == Success(Declaration("Pet", "{\n\tname: string\n}") + "\n\n"
                       + Declaration("Order", "{\n\tpet: Pet\n}"))
  {
    PetDefinitionExample(prims);
    OrderDefinitionExample(prims);
    TwoDefinitionDocument("Pet", PetDefinition, "Order", OrderDefinition, Normal, prims);
  }
}

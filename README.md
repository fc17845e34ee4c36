# swagger-to-flow, modelled in Dafny

swagger-to-flow reads a Swagger document and prints one Flow `export type` declaration
per entry of its `definitions`. This project models the text generation in `index.js`:

- `parsePropertyName`: the `transformProperty` naming policy for property keys.
- `parsePropertyType`: the Flow type of one property schema. It handles arrays, `$ref`
  references and the primitive map `swaggerToFlowTypes`.
- `processDefinition`: the `{ name: Type, ... }` body of one object definition.
- `processDefinitions`: the loop that builds every declaration and joins them with blank
  lines.

The model uses these Dafny types:

- A property schema is a datatype with optional `type`, `$ref` and `items` members.
- A definition has an optional `type` and optional `properties`, a sequence of
  `(key, schema)` pairs.
- A document has optional `definitions`, also a sequence of pairs.
- Each sequence stands for the order `Object.entries` yields.
- JavaScript `undefined` is `None`.

The model keeps these JavaScript details:

- Truthiness: an absent member or an empty string is false.
- `String(undefined)` is `"undefined"`. This text is interpolated into the output, used as
  the key of the primitive-map lookup, and used in error messages.
- `String.prototype.replace` with a string pattern replaces only the FIRST occurrence of
  `#/definitions/`.
- Two `TypeError`s are modelled as error values: `Object.entries` of missing `properties`,
  and reading `type` of missing `items`.
- `Array.prototype.map` stops at the first callback that throws. `Wrappers.Traverse`
  models this once. `ProcessDefinition` and the specification function `DocumentText`
  use it.

`processDefinitions` keeps its imperative form. The method `SwaggerToFlow.ProcessDefinitions`
pushes one declaration per definition inside a `while` loop and then joins them. It is
proved equal to the specification function `SwaggerToFlow.DocumentText`. The lemmas state
the promised properties of `DocumentText`. The other three operations are pure functions.

The primitive map `lib/swagger_to_flow_types` is not part of this model. It is a parameter
of type `map<string, string>`. A miss is `None`, and it appears in the output as the text
`undefined`.

## Behaviour notes

- Declarations come out in input order, each under its raw key.
- An unmapped primitive does not fail. It renders as `undefined` (see
  `SwaggerToFlow.UnmappedPrimitiveRendersUndefined`).
- An array whose items have neither a `type` nor a `$ref` renders as `undefined`.

## Model

| member | source | states |
|---|---|---|
| `SwaggerToFlow.ParsePropertyName` | index.js:107-119 | The length is kept. Under `normal` the name is unchanged. Under `firstCaseLower`, a name without an ASCII lowercase letter is lowercased entirely and has no uppercase letter left; otherwise only the first character is lowercased and the rest is kept. |
| `SwaggerToFlow.PropertyNameOnlyChangesCase` | index.js:108-118 | The transform changes only letter case: the result and the name are equal once lowercased. |
| `SwaggerToFlow.PropertyNameIdempotent` | index.js:108-118 | Applying the transform to its own result changes nothing. |
| `SwaggerToFlow.PropertyNameExamples` | index.js:110-114 | `"ID"` becomes `"id"`, not `"iD"`. `"UserId"` becomes `"userId"`. Under `normal`, `"UserId"` stays `"UserId"`. |
| `SwaggerToFlow.Truthy` | index.js:90-95 | The truthiness tests `type.items.type`, `type.items["$ref"]`, `!type.type` and `type["$ref"]`: an absent member and the empty string are false, and every other string is true. |
| `SwaggerToFlow.Text` | index.js:75-98 | How a member reads when interpolated into a template or used as the key `swaggerToFlowTypes[type.type]`: a string reads as itself and `undefined` reads as `undefined`. |
| `Strings.LowerAscii` | index.js:112-114 | `toLowerCase` of one ASCII character: the result is never an uppercase letter, an uppercase letter becomes its own lowercase letter (same distance from `a` as from `A`), and any other character is unchanged. |
| `Strings.ToLower` | index.js:112 | `name.toLowerCase()` keeps the length and leaves no uppercase ASCII letter. Each character is lowercased on its own: each uppercase letter becomes its own lowercase letter, and every other character is kept. |
| `Strings.ToLowerIdempotent` | index.js:112 | Lowercasing twice is the same as lowercasing once. |
| `Strings.IndexOfFrom` | index.js:93-96 | The search behind `replace`: a result is an occurrence of the pattern with no earlier occurrence; `None` means the pattern does not occur. |
| `Strings.ReplaceFirstAt` | index.js:93-96 | `replace` removes exactly the first occurrence of the pattern and keeps the text before and after it. |
| `SwaggerToFlow.StripRef` | index.js:93-96 | `.replace("#/definitions/", "")` leaves a reference without the prefix unchanged. When the prefix occurs, exactly its length is removed. |
| `Strings.ReplaceFirst` | index.js:93-96 | `replace` leaves a string without the pattern unchanged. When the pattern occurs, the result is shorter by the pattern and longer by the replacement. |
| `SwaggerToFlow.StripRefOfPointer` | index.js:96 | `"#/definitions/" + name` strips to `name`, for every name. |
| `SwaggerToFlow.ParsePropertyType` | index.js:88-100 | `parsePropertyType` throws exactly when an array property has no `items`, and the error is the missing-`items` `TypeError`. A rendered array type starts with `Array<` and ends with `>`. |
| `SwaggerToFlow.Lookup` | index.js:91-98 | `swaggerToFlowTypes[key]` is defined exactly when the key is in the map, and then it is the mapped value. |
| `SwaggerToFlow.PropertyTypeOfReference` | index.js:92-96 | A bare `$ref` to `#/definitions/<name>` renders as `<name>`. An array whose items are such a reference renders as `Array<<name>>`. |
| `SwaggerToFlow.PropertyTypeOfAnyReference` | index.js:92-96 | For every property: without a truthy `type`, a truthy `$ref` renders as that reference with its first `#/definitions/` removed, wherever it occurs. An array whose items have no truthy `type` but a truthy `$ref` renders as `Array<...>` around that stripped reference. |
| `SwaggerToFlow.PropertyTypePrimitive` | index.js:89-98 | A non-array property with a non-empty `type`, or with no truthy `$ref`, renders as the primitive-map lookup of its `type` text; an absent `type` looks up the key `undefined`. An array with an `items.type` renders as `Array<...>` around the lookup of that type, with `undefined` on a miss. |
| `SwaggerToFlow.PropertyTypePrecedence` | index.js:89-98 | A truthy `type` makes `$ref` irrelevant. A truthy `items.type` makes `items.$ref` irrelevant. |
| `SwaggerToFlow.PropertyTypeUndefinedIff` | index.js:88-100 | Both directions of when `undefined` is produced: an array whose items have neither `type` nor `$ref`, or a non-array, non-reference property whose `type` text is missing from the primitive map. |
| `SwaggerToFlow.UnmappedPrimitiveRendersUndefined` | index.js:88-100 | An unmapped primitive is not an error. Its entry reads `name: undefined`, or `name: Array<undefined>` for array items. |
| `SwaggerToFlow.PropertyEntry` | index.js:74-75 | One entry fails exactly when `parsePropertyType` throws, with the same error. Otherwise it is the transformed key, `: `, then the property type or `undefined`. |
| `Wrappers.Traverse` | index.js:72-77 | Mapping in order succeeds exactly when every element succeeds, and then gives one result per element, in order. Otherwise it fails with the error of the first failing element. |
| `Wrappers.TraverseFailsAtFirst` | index.js:54-55 | When the first failing element is known, the traversal fails with exactly its error. |
| `Wrappers.TraverseAllSucceed` | index.js:54-55 | When every element succeeds with a known result, the traversal gives exactly those results. |
| `SwaggerToFlow.ProcessDefinition` | index.js:70-81 | A non-object definition fails with `UnableToParse(type, name)`, whose message is `Unable to parse <type> for <name>`. An object without `properties` fails. A success means an object whose every property type rendered. |
| `SwaggerToFlow.RenderedEntries` | index.js:73-76 | One `name: Type` entry per property. |
| `SwaggerToFlow.DefinitionBody` | index.js:71-77 | An object whose properties all render gives `{\n\t`, then the entries in input order joined by `,\n\t`, then `\n}`. |
| `SwaggerToFlow.ProcessDefinitionSucceedsIff` | index.js:70-81 | A definition renders exactly when it is an object with `properties` and no array property lacks `items`. |
| `SwaggerToFlow.DocumentText` | index.js:51-62 | A document without `definitions` fails with `No swagger definitions to parse`. |
| `SwaggerToFlow.Message` | index.js:60-79 | The message of a missing `definitions` is `No swagger definitions to parse`. The message of a non-object definition starts with `Unable to parse `, ends with the definition name, and has the length of `Unable to parse <type> for <name>`. |
| `SwaggerToFlow.Declaration` | index.js:55 | A declaration is `export type `, then the key verbatim, then ` = `, and ends with the body. |
| `SwaggerToFlow.DeclarationOf` | index.js:55 | The declaration of one definition exists exactly when `processDefinition` succeeds, and is built from its body. Otherwise it carries the same error. |
| `SwaggerToFlow.ProcessDefinitions` | index.js:51-62 | The push loop and the join produce exactly `DocumentText`: the joined declarations, or the first error thrown. |
| `SwaggerToFlow.RenderedDeclarations` | index.js:54-55 | One declaration per definition. |
| `SwaggerToFlow.DocumentDeclarations` | index.js:53-58 | When every definition renders, the output is one `export type <key> = <body>` per definition, with the key verbatim and in input order, joined by `\n\n`. |
| `SwaggerToFlow.DocumentFailsAtFirstBadDefinition` | index.js:54-55 | The first definition that throws decides the error, and no text is produced. |
| `SwaggerToFlow.DocumentConcat` | index.js:54-58 | Definitions render independently. For two non-empty lists that both render, the output is the output for the first, a blank line, and the output for the second. |
| `Wrappers.TraverseAppend` | index.js:54-55 | When both halves succeed, traversing two lists one after the other gives the two result lists concatenated. |
| `Strings.JoinAppend` | index.js:58 | Joining two non-empty lists equals joining each and putting one separator between them. |
| `Strings.Join` | index.js:58 | `join` of no elements is the empty string, and of one element is that element. Otherwise the result starts with the first element and ends with the last one. |
| `Strings.JoinCons` | index.js:58 | An element in front of a non-empty list adds the element and one separator to the joined text. |
| `Strings.HasLowerAscii` | index.js:110 | `/[a-z]/.test(name)` holds exactly when some character is an ASCII lowercase letter. |
| `SwaggerToFlow.PetDefinitionExample` | index.js:70-77 | `Pet` with a string `name` renders as `{\n\tname: string\n}`. |
| `SwaggerToFlow.OrderDefinitionExample` | index.js:70-77 | `Order` whose `pet` refers to `#/definitions/Pet` renders as `{\n\tpet: Pet\n}`. |
| `SwaggerToFlow.TwoDefinitionDocument` | index.js:53-58 | Two definitions that both render give the first declaration, a blank line, and the second declaration. |
| `SwaggerToFlow.PetStoreExample` | index.js:51-58 | The two-definition document prints `Pet` first and then `Order`, separated by a blank line. |

## Left out

- Command-line parsing with `yargs` (index.js:11-25). The `transformProperty` choice is the
  parameter `TransformProperty`. Its two values are the two values the command line accepts.
- Reading the document from a URL or a file, and `JSON.parse` (index.js:27-49). This is
  I/O and asynchronous promise handling. The model starts from the parsed document.
- `console.log` and `console.error` (index.js:38, 47, 58). `ProcessDefinitions` returns
  the text it would print, or the error it would throw.
- The `Object.entries` polyfill (index.js:7-9). This is environment set-up.
- The contents of `lib/swagger_to_flow_types`. It is not part of this model, so it is a
  map parameter. Keys that JavaScript objects inherit from `Object.prototype` (such as
  `constructor`) are not modelled as hits.
- `toLowerCase` beyond ASCII. Only `A`-`Z` are lowercased. The `/[a-z]/` test is ASCII in
  the source too.
- The order of `Object.entries`, which lists integer-like keys first. The model takes the
  entries in the order given.
- Non-string JSON values for `type`, `$ref` or `items.type`, and `null` members. Each
  member is a string or absent.
- The exact wording of the two `TypeError` messages depends on the JavaScript engine. The
  model uses one fixed wording for each.

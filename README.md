# Annotation spec handler of the service binding operator

The operator reads binding annotations on a backing-service resource
(a database custom resource, say) and gathers the connection data they point
at. One annotation is handled by a `SpecHandler`. Its `Handle` operation runs
four steps:

1. map the annotation key and value to a *definition*;
2. apply the definition to the resource;
3. coerce the extracted value into a flat `Data` map;
4. compose a nested `RawData` map from `Data` and the definition's path
   segments joined with `"."`.

`Handle` returns a `result` with the fields `Data`, `Type`, `Path` and
`RawData`, or an error. `IsSpec` picks out the annotation keys that carry the
binding prefix. `errHandlerNotFound` is the package's own error for an
annotation value no definition handles, and `IsErrHandlerNotFound` recognises
that error.

The project has four modules:

- `Wrappers` (`wrappers.dfy`): `Option`, which stands for Go's nil, and `Result`.
- `Values` (`values.dfy`): the dynamically typed `interface{}` values. The
  shapes are nil, bool, integer, string, list, `map[string]string` and
  `map[string]interface{}`.
- `GoStrings` (`go_strings.dfy`): the Go library functions the handler uses.
  These are `strings.HasPrefix`, `strings.Join` and the `%q` verb of
  `fmt.Sprintf`. `HasPrefix` is described by a lemma saying the string is
  the prefix followed by a rest. `Join` and `%q` each come with a partner that
  reads their output back: `strings.Split` on one rune, and `Unquote`. These
  lemmas are facts about the Go library. `Binding` relies on them for `IsSpec`
  and `Error()`, and for what `Handle` passes to `nested.NewPath`.
- `Binding` (`binding.dfy`): the handler itself. This covers the
  `bindingType` constants, the `result` record (`BindingResult`), the error
  type, `Error()`, `IsErrHandlerNotFound`, `IsSpec` and `Handle`.

`Handle` is imperative in the source: it allocates `out` and fills it with a
`for k, v := range t` loop. The model is a method whose loop takes the keys in
any order, as Go's map iteration does. Its invariant follows the keys copied
so far.

The mapper, `Definition.Apply`, `Definition.GetPath`, `Value.GetValue`,
`nested.NewPath` and `nested.ComposeValue` are defined outside this model. They
are the fields of a `Collaborators` value that `Handle` receives. Each is an
arbitrary total function, so every contract holds for every choice of them.
The handler's Kubernetes client reaches `Handle` only through the mapper, so it
lives inside `mapAnnotation`. The `AnnotationPrefix` constant is a parameter of
`IsSpec`.

The field doc-comments promise more than `Handle` delivers, and the model
follows the code:

- The comment on `Type` (spec.go:28-29) says it can be either `"env"` or
  `"volumemount"`. The comment on `Path` (spec.go:31) calls it the nested
  location of the data. `Handle` (spec.go:91-94) sets neither field, so both
  stay `""` on every outcome, and `""` matches neither medium.
- `Handle` has no failure cases of its own, such as a missing path. It passes
  on whatever error the mapper or `Apply` returns (spec.go:64-72).

## Model

| member | source | states |
|---|---|---|
| `Binding.Handle` | pkg/controller/servicebindingrequest/binding/spec.go:59-95 | If the mapper fails, the result is the zero `result{}` with exactly the mapper's error, and the outcome depends on the mapper alone, so `Apply` plays no part. If `Apply` fails, the result is the zero result with exactly `Apply`'s error. Otherwise the error is nil, and `Data` is the extracted value coerced by shape: a `map[string]string` gives the same keys bound to the same strings, a `map[string]interface{}` gives the same map, and any other shape gives an empty map with no error. On success `RawData` is `ComposeValue(Data, NewPath(Join(GetPath(d), ".")))`. `Type` and `Path` are `""` on every outcome. The returned error is recognised as handler-not-found exactly when the failing step returned that error. |
| `Binding.CoercedIsAFunction` | pkg/controller/servicebindingrequest/binding/spec.go:78-89 | The coercion that `Handle` promises fixes `Data` completely: two maps that both satisfy it for the same value are equal. |
| `Binding.IsSpec` | pkg/controller/servicebindingrequest/binding/spec.go:113-115 | A key is a binding spec exactly when it is the prefix followed by some rest. |
| `Binding.ErrorMessage` | pkg/controller/servicebindingrequest/binding/spec.go:40-44 | The handler-not-found message is the fixed text followed by the `%q`-quoted annotation value, and the value reads back from the message unchanged. As a result, different values give different messages. |
| `Binding.IsErrHandlerNotFound` | pkg/controller/servicebindingrequest/binding/spec.go:46-49 | The recogniser holds exactly when the error is non-nil and is some `errHandlerNotFound(v)`. |
| `Binding.RecognitionIsByType` | pkg/controller/servicebindingrequest/binding/spec.go:40-49 | For every annotation value there is another error with the same message text that the recogniser rejects: the type assertion looks at the error's type, never at its text. |
| `GoStrings.SplitJoin` | pkg/controller/servicebindingrequest/binding/spec.go:76 | `strings.Join` with a one-rune separator is undone by splitting on that rune, provided there is at least one segment and no segment contains the separator. |
| `Binding.DottedSegmentsShareRawData` | pkg/controller/servicebindingrequest/binding/spec.go:76-93 | `RawData` depends on the definition's path only through the segments joined with ".", so for any `ComposeValue` and `NewPath` the different paths `["a.b"]` and `["a", "b"]` give the same `RawData`. |
| `GoStrings.HasPrefixIsConcat` | pkg/controller/servicebindingrequest/binding/spec.go:114 | `strings.HasPrefix(s, prefix)` holds exactly when `s` is `prefix` followed by some rest. |
| `GoStrings.JoinMergesDottedSegments` | pkg/controller/servicebindingrequest/binding/spec.go:76 | The conditions of `SplitJoin` are needed: the different segment lists `["a.b"]` and `["a", "b"]` join to the same path string. |
| `GoStrings.UnescapeEscape` | pkg/controller/servicebindingrequest/binding/spec.go:43 | The escaping that `%q` applies to each rune loses nothing: unescaping gives the original string back. |
| `GoStrings.UnquoteQuote` | pkg/controller/servicebindingrequest/binding/spec.go:43 | A `%q`-quoted string, with its surrounding double quotes removed and its body unescaped, gives the original string back. |

## Left out

- Kubernetes plumbing. The dynamic client, the REST mapper and the internals of
  `unstructured.Unstructured` are I/O handles. The resource is an opaque type
  parameter.
- `NewSpecHandler` only stores its arguments and never fails. The
  `SpecHandler` datatype constructor plays its part, and the unused REST mapper
  is dropped.
- The mapper, `Definition.Apply`, `GetPath`, `GetValue`, `nested.NewPath`,
  `nested.ComposeValue` and the value of `AnnotationPrefix` are defined outside
  this model. They are arbitrary functions here. So the round trip between
  `RawData` and `Data` cannot be stated: it is a property of `ComposeValue`.
- `Apply` receives a pointer to the resource and could in principle change it.
  In the model it is a pure function of the definition and the resource.
- A mapper or `Apply` could return a nil value together with a nil error. If
  `Definition` and the applied value are interface or pointer types, the calls
  at spec.go:69 and spec.go:74 would then dereference nil and panic. The
  model's `Result` has no such case.
- `Binding.Handle`: Go maps are references, but the model treats them as
  values. So the freshness of `out` holds by construction and is not stated.
  The model also does not capture that `out` shallowly shares nested values
  with an extracted `map[string]interface{}`.
- `Binding.Handle`: nil maps and allocated empty maps are not distinguished. The
  zero result's nil `Data` reads as an empty map.
- `GoStrings.Quote`: ASCII is escaped exactly as `strconv.Quote` does it.
  Non-ASCII runes are kept verbatim, although Go escapes non-printable Unicode
  runes as `\u` or `\U`. Strings are sequences of Unicode scalar values, not
  bytes, so invalid UTF-8 cannot occur.
- Floating-point values from unstructured content are not among the value
  shapes. Every shape other than the two maps is treated alike: it gives an
  empty `Data`.
- The Retriever (template evaluation and env-var prefix precedence) and the
  secret materializer (create, update, get, delete, commit, custom parsing).
  They are separate components that consume the handler's results, and they
  are outside this model.
- Logging setup and test fixtures.

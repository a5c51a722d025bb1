/**
 * The annotation spec handler of the service binding operator: given one
 * binding annotation of a backing-service resource, it resolves the
 * annotation to a definition, applies that definition to the resource and
 * turns the extracted value into a binding result with a flat view (`Data`)
 * and a nested view (`RawData`).
 *
 * The definition mapper, the definitions themselves and the nested-path
 * helpers live in code that is not part of this model; they are passed in
 * as a `Collaborators` value, and the operations below hold for every
 * choice of them.
 */
module Binding {
  import opened Wrappers
  import opened Values
  import GoStrings

  // ---------------------------------------------------------------------
  // Binding medium and result
  // ---------------------------------------------------------------------

  /** The medium through which a binding delivers its value. */
  type BindingType = string

  const BindingTypeVolumeMount: BindingType := "volumemount"
  const BindingTypeEnvVar: BindingType := "env"

  /** What an annotation handler collected. */
  datatype BindingResult = BindingResult(
    data: map<string, Value>,
    bindingType: BindingType,
    path: string,
    rawData: map<string, Value>)

  /** Go's zero value `result{}`; a nil map reads as the empty map. */
  const EmptyResult := BindingResult(map[], "", "", map[])

  // ---------------------------------------------------------------------
  // Errors
  // ---------------------------------------------------------------------

  /**
   * The errors a handler can report: the package's own `errHandlerNotFound`,
   * which carries the annotation value no handler was found for, and any
   * other error a collaborator returns, known only by its message.
   */
  datatype Error =
    | HandlerNotFound(annotationValue: string)
    | Failure(message: string)

  const HandlerNotFoundText := "could not find handler for annotation value "

  /**
   * Reads the annotation value back out of a handler-not-found message;
   * None when the text has another form.
   */
  function HandlerValueOf(msg: string): Option<string> {
    var n := |HandlerNotFoundText|;
    if n <= |msg| && msg[..n] == HandlerNotFoundText then GoStrings.Unquote(msg[n..]) else None
  }

  /**
   * `Error()`: a handler-not-found error says it could not find a handler
   * and quotes the annotation value with `%q`, so the value can be read
   * back from the message.
   */
  function ErrorMessage(e: Error): (msg: string)
    ensures e.HandlerNotFound? ==> HandlerValueOf(msg) == Some(e.annotationValue)
  {
    match e
    case HandlerNotFound(v) =>
      var msg := HandlerNotFoundText + GoStrings.Quote(v);
      assert msg[..|HandlerNotFoundText|] == HandlerNotFoundText;
      assert msg[|HandlerNotFoundText|..] == GoStrings.Quote(v);
      GoStrings.UnquoteQuote(v);
      msg
    case Failure(m) => m
  }

  /**
   * `IsErrHandlerNotFound`: a type assertion on the error, so it holds
   * exactly for a handler-not-found error, and not for a nil error.
   */
  function IsErrHandlerNotFound(err: Option<Error>): (r: bool)
    ensures r <==> exists v :: err == Some(HandlerNotFound(v))
  {
    err.Some? && err.value.HandlerNotFound?
  }

  /** Recognition goes by the error's type, not its text: another error
      with the very same message is not recognised. */
  lemma RecognitionIsByType(v: string)
    ensures exists e :: ErrorMessage(e) == ErrorMessage(HandlerNotFound(v)) && !IsErrHandlerNotFound(Some(e))
  {
    var e := Failure(ErrorMessage(HandlerNotFound(v)));
    assert ErrorMessage(e) == ErrorMessage(HandlerNotFound(v)) && !IsErrHandlerNotFound(Some(e));
  }

  // ---------------------------------------------------------------------
  // Annotation keys
  // ---------------------------------------------------------------------

  /** `IsSpec`: a key is a binding spec exactly when it carries the prefix. */
  function IsSpec(annotationPrefix: string, annotationKey: string): (r: bool)
    ensures r <==> exists rest :: annotationKey == annotationPrefix + rest
  {
    GoStrings.HasPrefixIsConcat(annotationKey, annotationPrefix);
    GoStrings.HasPrefix(annotationKey, annotationPrefix)
  }

  // ---------------------------------------------------------------------
  // The handler
  // ---------------------------------------------------------------------

  /**
   * The steps `Handle` hands off: the mapper that turns an annotation into
   * a definition (built from the handler's client), a definition's `Apply`
   * and `GetPath`, the applied value's `GetValue`, and `nested.NewPath` and
   * `nested.ComposeValue`. `D` is the definition type, `O` the resource,
   * `V` the applied value and `P` a nested path.
   */
  datatype Collaborators<!D, -O, !V, !P> = Collaborators(
    mapAnnotation: (string, string) -> Result<D, Error>,
    apply: (D, O) -> Result<V, Error>,
    getValue: V -> Value,
    getPath: D -> seq<string>,
    newPath: string -> P,
    composeValue: (map<string, Value>, P) -> map<string, Value>)

  /** A handler for one annotation of one resource. */
  datatype SpecHandler<O> = SpecHandler(obj: O, annotationKey: string, annotationValue: string)

  /**
   * How the extracted value becomes `Data`: a string map gives the same keys
   * bound to the same strings, a map of values the same keys bound to the
   * same values, and any other shape gives no entries.
   */
  ghost predicate Coerced(v: Value, data: map<string, Value>) {
    && (v.StringMap? ==> data.Keys == v.strings.Keys && forall k :: k in data ==> data[k] == Str(v.strings[k]))
    && (v.AnyMap? ==> data == v.fields)
    && (!v.StringMap? && !v.AnyMap? ==> data == map[])
  }

  /** Coerced pins `Data` down: one value admits one flat view. */
  lemma CoercedIsAFunction(v: Value, d1: map<string, Value>, d2: map<string, Value>)
    requires Coerced(v, d1) && Coerced(v, d2)
    ensures d1 == d2
  {
  }

  /**
   * `Handle` hands the definition's path to `nested.NewPath` only as the
   * segments joined with ".", so definitions whose segment lists differ but
   * join alike, such as ["a.b"] and ["a", "b"], get the same `RawData`.
   */
  lemma DottedSegmentsShareRawData<D, O, V, P>(c: Collaborators<D, O, V, P>, data: map<string, Value>)
    ensures exists a: seq<string>, b: seq<string> ::
      && a != b
      && c.composeValue(data, c.newPath(GoStrings.Join(a, "."))) == c.composeValue(data, c.newPath(GoStrings.Join(b, ".")))
  {
    var a, b := ["a.b"], ["a", "b"];
    assert GoStrings.Join(a, ".") == "a.b";
    assert GoStrings.Join(b, ".") == "a" + "." + "b" == "a.b";
    assert a != b by { assert |a| != |b|; }
  }

  /**
   * `Handle`: map the annotation to a definition, apply it to the resource,
   * copy the extracted value into a new map and compose the nested view.
   * A failing mapper or a failing `Apply` ends the call with the zero result
   * and that very error; otherwise there is no error, `Data` is the coerced
   * value, `RawData` is composed from `Data` and the definition's path
   * segments joined with ".", and `Type` and `Path` stay empty.
   */
  method Handle<D, O, V, P>(c: Collaborators<D, O, V, P>, h: SpecHandler<O>)
    returns (res: BindingResult, err: Option<Error>)
    ensures var m := c.mapAnnotation(h.annotationKey, h.annotationValue);
      m.Err? ==> res == EmptyResult && err == Some(m.error)
    ensures var m := c.mapAnnotation(h.annotationKey, h.annotationValue);
      m.Ok? && c.apply(m.value, h.obj).Err? ==>
        res == EmptyResult && err == Some(c.apply(m.value, h.obj).error)
    ensures var m := c.mapAnnotation(h.annotationKey, h.annotationValue);
      m.Ok? && c.apply(m.value, h.obj).Ok? ==>
        var v := c.getValue(c.apply(m.value, h.obj).value);
        && err == None
        && Coerced(v, res.data)
        && res.rawData == c.composeValue(res.data, c.newPath(GoStrings.Join(c.getPath(m.value), ".")))
    ensures res.bindingType == "" && res.path == ""
    ensures IsErrHandlerNotFound(err) <==>
      var m := c.mapAnnotation(h.annotationKey, h.annotationValue);
      || (m.Err? && m.error.HandlerNotFound?)
      || (m.Ok? && c.apply(m.value, h.obj).Err? && c.apply(m.value, h.obj).error.HandlerNotFound?)
  {
    var m := c.mapAnnotation(h.annotationKey, h.annotationValue);
    if m.Err? {
      return EmptyResult, Some(m.error);
    }
    var d := m.value;

    var applied := c.apply(d, h.obj);
    if applied.Err? {
      return EmptyResult, Some(applied.error);
    }

    var v := c.getValue(applied.value);
    var path := GoStrings.Join(c.getPath(d), ".");

    var out: map<string, Value> := map[];
    match v {
      case StringMap(t) =>
        var todo := t.Keys;
        while todo != {}
          invariant todo <= t.Keys
          invariant out.Keys == t.Keys - todo
          invariant forall k :: k in out ==> out[k] == Str(t[k])
          decreases todo
        {
          var k :| k in todo;
          out := out[k := Str(t[k])];
          todo := todo - {k};
        }
      case AnyMap(t) =>
        var todo := t.Keys;
        while todo != {}
          invariant todo <= t.Keys
          invariant out.Keys == t.Keys - todo
          invariant forall k :: k in out ==> out[k] == t[k]
          decreases todo
        {
          var k :| k in todo;
          out := out[k := t[k]];
          todo := todo - {k};
        }
      case _ =>
    }

    res := BindingResult(out, "", "", c.composeValue(out, c.newPath(path)));
    err := None;
  }
}

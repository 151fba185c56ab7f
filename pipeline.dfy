/**
 * The validation/filter pipeline of `check()`, as functions over the state it
 * touches: the current values, the message store and the plugin cache.
 *
 * What a filter returns and whether a validator accepts a value are inputs
 * (`Env.filter`, `Env.validate`), applied to the configured plugin instance.
 * The early exits of the source (`continue` past a field, `break 2` out of
 * both loops) are an explicit `aborted` flag returned with the new state.
 */
module Pipeline {
  import opened Wrappers
  import opened Assoc
  import opened Php
  import opened Registry
  import opened Plugins

  /** What a validator reports: valid, or its error messages keyed by error kind, in order. */
  datatype Verdict = Valid | Invalid(errors: Assoc<string>)

  /** `_messages`: field => (error kind => message). */
  type Messages = map<string, Assoc<string>>

  /** `_validatorMessages`: field => validator name => (error kind => message template). */
  type CustomMessages = map<string, map<string, map<string, string>>>

  datatype Env = Env(
    loadable: set<string>,
    custom: CustomMessages,
    filter: (Plugin, Value) -> Value,
    validate: (Plugin, Value) -> Verdict)

  datatype PipeState = PipeState(values: map<string, Value>, messages: Messages, cache: Cache)

  /** The value of a configured field: the stored one, or null when none was set. */
  function ValueOf(values: map<string, Value>, f: string): Value {
    if f in values then values[f] else Null
  }

  /** `isset($this->_messages[$f]) && !empty($this->_messages[$f])` */
  predicate HasMessages(m: Messages, f: string) {
    f in m && m[f] != []
  }

  function MessagesOf(m: Messages, f: string): Assoc<string> {
    if f in m then m[f] else []
  }

  /** Every field holds at most one message. */
  predicate AtMostOnePerField(m: Messages) {
    forall g :: g in m ==> |m[g]| <= 1
  }

  /** `getCustomMessages`: the templates configured for a field and validator, if any. */
  function GetCustomMessages(custom: CustomMessages, field: string, validator: string): (r: Option<map<string, string>>)
    ensures r.Some? <==> field in custom && validator in custom[field]
    ensures r.Some? ==> r.value == custom[field][validator]
  {
    if field in custom && validator in custom[field] then Some(custom[field][validator]) else None
  }

  /** `Zend_Validate_NotEmpty::STRING` */
  const NotEmptyStringType := 8

  /** The parameters of the `NotEmpty` validator inserted for required fields. */
  const NotEmptyParams := ValidatorParams(false, Some(map["type" := Int(NotEmptyStringType)]))

  /**
   * The validators a run uses for a field: a required field without a
   * `NotEmpty` validator gets one in front, for this run only.
   */
  function EffectiveValidators(o: FieldOptions): (vs: Assoc<ValidatorParams>)
    ensures o.required ==> HasKey(vs, "NotEmpty")
    ensures o.required && !HasKey(o.validators, "NotEmpty") ==> vs[0] == ("NotEmpty", NotEmptyParams) && vs[1..] == o.validators
    ensures !o.required || HasKey(o.validators, "NotEmpty") ==> vs == o.validators
  {
    if o.required && !HasKey(o.validators, "NotEmpty") then
      assert ([("NotEmpty", NotEmptyParams)] + o.validators)[0].0 == "NotEmpty";
      [("NotEmpty", NotEmptyParams)] + o.validators
    else o.validators
  }

  /** One filter: resolve it (skip if unresolved), fetch and configure the cached instance, filter the value. */
  function FilterStep(env: Env, field: string, name: string, params: FilterParams, st: PipeState): PipeState {
    match GetClassFullName(env.loadable, name, FilterType)
    case None => st
    case Some(cls) =>
      var (p0, c1) := Fetch(st.cache, FilterType, cls, params.options);
      var p := ApplyPluginOptions(p0, params.options);
      st.(cache := Store(c1, FilterType, p),
          values := st.values[field := env.filter(p, ValueOf(st.values, field))])
  }

  /** The filters of a field, in order. */
  function RunFilters(env: Env, field: string, fs: Assoc<FilterParams>, st: PipeState): PipeState
    decreases |fs|
  {
    if fs == [] then st else RunFilters(env, field, fs[1..], FilterStep(env, field, fs[0].0, fs[0].1, st))
  }

  /** Record the first error kind and message of a failed validator (an empty report records `""`). */
  function Record(m: Messages, field: string, errors: Assoc<string>): (r: Messages)
    ensures field in r && r[field] != []
    ensures errors != [] ==> Lookup(r[field], errors[0].0) == Some(errors[0].1)
    ensures MessagesOf(m, field) == [] ==> r[field] == [if errors == [] then ("", "") else errors[0]]
    ensures forall g :: g != field ==> (g in r <==> g in m)
    ensures forall g :: g != field && g in m ==> r[g] == m[g]
  {
    var (k, msg) := if errors == [] then ("", "") else errors[0];
    PutLookup(MessagesOf(m, field), k, msg, k);
    m[field := Put(MessagesOf(m, field), k, msg)]
  }

  /**
   * One validator: skipped once the field has a message, skipped when
   * unresolved; otherwise configured (options, custom templates) and run.  A
   * failure records a message and aborts everything when the validator breaks
   * the chain.
   */
  function ValidatorStep(env: Env, field: string, name: string, params: ValidatorParams, st: PipeState): (PipeState, bool) {
    if HasMessages(st.messages, field) then (st, false)
    else
      match GetClassFullName(env.loadable, name, ValidatorType)
      case None => (st, false)
      case Some(cls) =>
        var (p0, c1) := Fetch(st.cache, ValidatorType, cls, params.options);
        var p1 := ApplyPluginOptions(p0, params.options);
        var custom := GetCustomMessages(env.custom, field, name);
        var p := if custom.Some? && custom.value != map[] then SetMessages(p1, custom.value) else p1;
        var st1 := st.(cache := Store(c1, ValidatorType, p));
        match env.validate(p, ValueOf(st.values, field))
        case Valid => (st1, false)
        case Invalid(errors) => (st1.(messages := Record(st.messages, field, errors)), params.breakChainOnFailure)
  }

  /** The validators of a field, in order, stopping at an abort. */
  function RunValidators(env: Env, field: string, vs: Assoc<ValidatorParams>, st: PipeState): (PipeState, bool)
    decreases |vs|
  {
    if vs == [] then (st, false)
    else
      var (st1, aborted) := ValidatorStep(env, field, vs[0].0, vs[0].1, st);
      if aborted then (st1, true) else RunValidators(env, field, vs[1..], st1)
  }

  /** Filters, then null coercion of an empty value when the field asks for it. */
  function PrepareField(env: Env, f: string, o: FieldOptions, st: PipeState): PipeState {
    var st1 := RunFilters(env, f, o.filters, st);
    if o.nullWhenEmpty && IsEmpty(ValueOf(st1.values, f)) then st1.(values := st1.values[f := Null]) else st1
  }

  /**
   * One registry entry.  A bare entry has no options and no settable value,
   * so it is always skipped.  A configured field is skipped when the field it
   * depends on has a message; otherwise its value is prepared, and validated
   * unless it is optional and empty.
   */
  function CheckField(env: Env, e: Entry, st: PipeState): (PipeState, bool) {
    match e
    case Listed(_) => (st, false)
    case Configured(f, o) =>
      if o.dependent.Some? && HasMessages(st.messages, o.dependent.value) then (st, false)
      else
        var st2 := PrepareField(env, f, o, st);
        if !o.required && IsEmpty(ValueOf(st2.values, f)) then (st2, false)
        else RunValidators(env, f, EffectiveValidators(o), st2)
  }

  /** The whole run over the registry, in order, stopping at an abort. */
  function CheckFields(env: Env, es: Fields, st: PipeState): (PipeState, bool)
    decreases |es|
  {
    if es == [] then (st, false)
    else
      var (st1, aborted) := CheckField(env, es[0], st);
      if aborted then (st1, true) else CheckFields(env, es[1..], st1)
  }

  // ---------------------------------------------------------------------------
  // Properties

  /** Filters change the field's own value and nothing else: no other value and no message. */
  lemma {:induction false} FiltersTouchOnlyTheField(env: Env, f: string, fs: Assoc<FilterParams>, st: PipeState)
    ensures var r := RunFilters(env, f, fs, st);
      r.messages == st.messages &&
      (forall g :: g != f ==> (g in r.values <==> g in st.values)) &&
      (forall g :: g != f && g in st.values ==> r.values[g] == st.values[g])
    decreases |fs|
  {
    if fs != [] {
      FiltersTouchOnlyTheField(env, f, fs[1..], FilterStep(env, f, fs[0].0, fs[0].1, st));
    }
  }

  /** Once a field has a message, none of its validators runs: state and cache are untouched. */
  lemma {:induction false} ValidatorsSkippedOnceMessage(env: Env, f: string, vs: Assoc<ValidatorParams>, st: PipeState)
    requires HasMessages(st.messages, f)
    ensures RunValidators(env, f, vs, st) == (st, false)
    decreases |vs|
  {
    if vs != [] {
      ValidatorsSkippedOnceMessage(env, f, vs[1..], st);
    }
  }

  /**
   * Validators never change values.  Starting from a field with no message,
   * they leave the messages alone or give the field exactly one message and
   * touch no other field; an abort comes only with that message and only from
   * a validator that breaks the chain.
   */
  lemma {:induction false} ValidatorsRecordAtMostOne(env: Env, f: string, vs: Assoc<ValidatorParams>, st: PipeState)
    requires MessagesOf(st.messages, f) == []
    ensures var (r, aborted) := RunValidators(env, f, vs, st);
      r.values == st.values &&
      (r.messages == st.messages || (f in r.messages && |r.messages[f]| == 1 && r.messages == st.messages[f := r.messages[f]])) &&
      (aborted ==> f in r.messages && |r.messages[f]| == 1) &&
      (aborted ==> exists i :: 0 <= i < |vs| && vs[i].1.breakChainOnFailure)
    decreases |vs|
  {
    if vs != [] {
      var (st1, ab1) := ValidatorStep(env, f, vs[0].0, vs[0].1, st);
      assert st1.values == st.values;
      if st1.messages == st.messages {
        if !ab1 {
          ValidatorsRecordAtMostOne(env, f, vs[1..], st1);
          var (r, aborted) := RunValidators(env, f, vs[1..], st1);
          if aborted {
            var i :| 0 <= i < |vs[1..]| && vs[1..][i].1.breakChainOnFailure;
            assert vs[i + 1] == vs[1..][i];
          }
        }
      } else {
        assert f in st1.messages && |st1.messages[f]| == 1;
        assert st1.messages == st.messages[f := st1.messages[f]];
        if !ab1 {
          ValidatorsSkippedOnceMessage(env, f, vs[1..], st1);
        } else {
          assert vs[0].1.breakChainOnFailure;
        }
      }
    }
  }

  /** A field's run keeps every message already recorded and adds at most one message to a field that had none. */
  lemma {:induction false} CheckFieldKeepsMessages(env: Env, e: Entry, st: PipeState)
    ensures var r := CheckField(env, e, st).0;
      st.messages.Keys <= r.messages.Keys &&
      (forall g :: HasMessages(st.messages, g) ==> r.messages[g] == st.messages[g]) &&
      (AtMostOnePerField(st.messages) ==> AtMostOnePerField(r.messages))
  {
    match e
    case Listed(_) =>
    case Configured(f, o) =>
      if !(o.dependent.Some? && HasMessages(st.messages, o.dependent.value)) {
        var st1 := RunFilters(env, f, o.filters, st);
        FiltersTouchOnlyTheField(env, f, o.filters, st);
        var st2 := PrepareField(env, f, o, st);
        assert st2.messages == st.messages;
        if !(!o.required && IsEmpty(ValueOf(st2.values, f))) {
          if HasMessages(st2.messages, f) {
            ValidatorsSkippedOnceMessage(env, f, EffectiveValidators(o), st2);
          } else {
            ValidatorsRecordAtMostOne(env, f, EffectiveValidators(o), st2);
          }
        }
      }
  }

  /**
   * Messages are never cleared: a run keeps every message recorded before it.
   * And a run adds at most one message per field.
   */
  lemma {:induction false} CheckFieldsKeepsMessages(env: Env, es: Fields, st: PipeState)
    ensures var r := CheckFields(env, es, st).0;
      st.messages.Keys <= r.messages.Keys &&
      (forall g :: HasMessages(st.messages, g) ==> r.messages[g] == st.messages[g]) &&
      (AtMostOnePerField(st.messages) ==> AtMostOnePerField(r.messages))
    decreases |es|
  {
    if es != [] {
      CheckFieldKeepsMessages(env, es[0], st);
      var (st1, aborted) := CheckField(env, es[0], st);
      if !aborted {
        CheckFieldsKeepsMessages(env, es[1..], st1);
      }
    }
  }

  /** A break-chain failure ends the run: fields after the aborting prefix are never looked at. */
  lemma {:induction false} AbortSkipsLaterFields(env: Env, es1: Fields, es2: Fields, st: PipeState)
    requires CheckFields(env, es1, st).1
    ensures CheckFields(env, es1 + es2, st) == CheckFields(env, es1, st)
    decreases |es1|
  {
    assert es1 != [];
    assert (es1 + es2)[0] == es1[0] && (es1 + es2)[1..] == es1[1..] + es2;
    var (st1, aborted) := CheckField(env, es1[0], st);
    if !aborted {
      AbortSkipsLaterFields(env, es1[1..], es2, st1);
    }
  }

  /** Without an abort, a run over two parts of the registry is the run over the first followed by the run over the second. */
  lemma {:induction false} CheckFieldsCompose(env: Env, es1: Fields, es2: Fields, st: PipeState)
    requires !CheckFields(env, es1, st).1
    ensures CheckFields(env, es1 + es2, st) == CheckFields(env, es2, CheckFields(env, es1, st).0)
    decreases |es1|
  {
    if es1 == [] {
      assert es1 + es2 == es2;
    } else {
      assert (es1 + es2)[0] == es1[0] && (es1 + es2)[1..] == es1[1..] + es2;
      var (st1, aborted) := CheckField(env, es1[0], st);
      CheckFieldsCompose(env, es1[1..], es2, st1);
    }
  }

  /** A field whose `dependent` field already has a message is skipped entirely. */
  lemma DependentFieldSkipped(env: Env, f: string, o: FieldOptions, st: PipeState)
    requires o.dependent.Some? && HasMessages(st.messages, o.dependent.value)
    ensures CheckField(env, Configured(f, o), st) == (st, false)
  {
  }

  /**
   * An optional field whose value is empty after filters and null coercion
   * runs no validator: the messages and the cache stay as the filters left them.
   */
  lemma OptionalEmptyFieldNotValidated(env: Env, f: string, o: FieldOptions, st: PipeState)
    requires !o.required
    requires !(o.dependent.Some? && HasMessages(st.messages, o.dependent.value))
    requires IsEmpty(ValueOf(PrepareField(env, f, o, st).values, f))
    ensures CheckField(env, Configured(f, o), st) == (PrepareField(env, f, o, st), false)
    ensures CheckField(env, Configured(f, o), st).0.messages == st.messages
  {
    FiltersTouchOnlyTheField(env, f, o.filters, st);
  }

  /** An optional field with no filters and an empty value never gets a message. */
  lemma OptionalEmptyUnfilteredNoMessage(env: Env, f: string, o: FieldOptions, st: PipeState)
    requires !o.required && o.filters == []
    requires IsEmpty(ValueOf(st.values, f))
    ensures CheckField(env, Configured(f, o), st).0.messages == st.messages
    ensures !CheckField(env, Configured(f, o), st).1
  {
  }

  /** Filters cache every instance under its own class name. */
  lemma {:induction false} FiltersKeepCacheValid(env: Env, f: string, fs: Assoc<FilterParams>, st: PipeState)
    requires CacheValid(st.cache)
    ensures CacheValid(RunFilters(env, f, fs, st).cache)
    decreases |fs|
  {
    if fs != [] {
      FiltersKeepCacheValid(env, f, fs[1..], FilterStep(env, f, fs[0].0, fs[0].1, st));
    }
  }

  /** `NotEmpty` is not a class name, so it resolves to `Zend_Validate_NotEmpty`. */
  lemma ResolveNotEmpty(loadable: set<string>)
    requires "NotEmpty" !in loadable && "Zend_Validate_NotEmpty" in loadable
    ensures GetClassFullName(loadable, "NotEmpty", ValidatorType) == Some("Zend_Validate_NotEmpty")
  {
    assert Ucfirst("NotEmpty") == "NotEmpty" by {
      assert UpperChar('N') == 'N';
      assert [UpperChar('N')] + "NotEmpty"[1..] == "NotEmpty";
    }
    assert Prefix(ValidatorType) + Ucfirst("NotEmpty") == "Zend_Validate_NotEmpty" by {
      assert Prefix(ValidatorType) == "Zend_Validate_";
      assert "Zend_Validate_" + "NotEmpty" == "Zend_Validate_NotEmpty";
    }
  }

  /**
   * The inserted `NotEmpty`, run on a field without a message whose value it
   * rejects, records its first error as the field's only message and does not
   * abort.
   */
  lemma NotEmptyStepRecords(env: Env, f: string, st: PipeState)
    requires "NotEmpty" !in env.loadable && "Zend_Validate_NotEmpty" in env.loadable
    requires CacheValid(st.cache)
    requires MessagesOf(st.messages, f) == []
    requires var v := ValueOf(st.values, f);
      forall p: Plugin :: p.cls == "Zend_Validate_NotEmpty" ==> env.validate(p, v).Invalid? && env.validate(p, v).errors != []
    ensures var (r, aborted) := ValidatorStep(env, f, "NotEmpty", NotEmptyParams, st);
      !aborted && f in r.messages &&
      exists p: Plugin :: p.cls == "Zend_Validate_NotEmpty" &&
        r.messages[f] == [env.validate(p, ValueOf(st.values, f)).errors[0]]
  {
    ResolveNotEmpty(env.loadable);
    var v := ValueOf(st.values, f);
    var (p0, c1) := Fetch(st.cache, ValidatorType, "Zend_Validate_NotEmpty", NotEmptyParams.options);
    var p1 := ApplyPluginOptions(p0, NotEmptyParams.options);
    var custom := GetCustomMessages(env.custom, f, "NotEmpty");
    var p := if custom.Some? && custom.value != map[] then SetMessages(p1, custom.value) else p1;
    assert p.cls == "Zend_Validate_NotEmpty";
    var errors := env.validate(p, v).errors;
    assert errors != [];
    var (r, aborted) := ValidatorStep(env, f, "NotEmpty", NotEmptyParams, st);
    assert r.messages == Record(st.messages, f, errors);
  }

  /**
   * A required field with no `NotEmpty` of its own and no message yet, whose
   * value after filters and null coercion the `NotEmpty` validator rejects,
   * ends with exactly one message: the first error the `NotEmpty` validator
   * reports.  The run goes on.
   */
  lemma RequiredEmptyFieldGetsNotEmptyMessage(env: Env, f: string, o: FieldOptions, st: PipeState)
    requires o.required && !HasKey(o.validators, "NotEmpty")
    requires !(o.dependent.Some? && HasMessages(st.messages, o.dependent.value))
    requires MessagesOf(st.messages, f) == []
    requires "NotEmpty" !in env.loadable && "Zend_Validate_NotEmpty" in env.loadable
    requires CacheValid(st.cache)
    requires var v := ValueOf(PrepareField(env, f, o, st).values, f);
      forall p: Plugin :: p.cls == "Zend_Validate_NotEmpty" ==> env.validate(p, v).Invalid? && env.validate(p, v).errors != []
    ensures var (r, aborted) := CheckField(env, Configured(f, o), st);
      !aborted && f in r.messages &&
      exists p: Plugin :: p.cls == "Zend_Validate_NotEmpty" &&
        r.messages[f] == [env.validate(p, ValueOf(PrepareField(env, f, o, st).values, f)).errors[0]]
  {
    var st2 := PrepareField(env, f, o, st);
    var vs := EffectiveValidators(o);
    assert vs == [("NotEmpty", NotEmptyParams)] + o.validators;
    FiltersKeepCacheValid(env, f, o.filters, st);
    assert MessagesOf(st2.messages, f) == [] by { FiltersTouchOnlyTheField(env, f, o.filters, st); }
    NotEmptyStepRecords(env, f, st2);
    var (st3, ab) := ValidatorStep(env, f, "NotEmpty", NotEmptyParams, st2);
    ValidatorsSkippedOnceMessage(env, f, vs[1..], st3);
    assert RunValidators(env, f, vs, st2) == RunValidators(env, f, vs[1..], st3);
  }
}

/**
 * `Dc_Model_Abstract`: a model object holding its field registry, its current
 * and original values, custom validator messages and the messages of its last
 * checks, sharing one plugin cache with every other model.
 *
 * The data mapper is a function from lookup keys to a record (an empty map
 * when there is none); the loadable class names, filters and validators are
 * parameters of the operations that use them.
 */
module Models {
  import opened Wrappers
  import opened Assoc
  import opened Php
  import opened Registry
  import opened Plugins
  import opened Pipeline

  /** `Dc_Model_Exception("Field ... does not exists")` */
  datatype ModelError = FieldDoesNotExist(field: string)

  // ---------------------------------------------------------------------------
  // Specification functions

  /** The entries of `m` whose value is not empty, values unchanged. */
  function NonEmptyEntries(m: map<string, Value>): (r: map<string, Value>)
    ensures forall k :: k in r <==> k in m && !IsEmpty(m[k])
    ensures forall k :: k in r ==> r[k] == m[k]
  {
    map k | k in m && !IsEmpty(m[k]) :: m[k]
  }

  /** The entries of `d` whose key is a configured field. */
  function KnownValues(d: map<string, Value>, fs: Fields): (r: map<string, Value>)
    ensures forall k :: k in r <==> k in d && IsField(fs, k)
    ensures forall k :: k in r ==> r[k] == d[k]
  {
    map k | k in d && IsField(fs, k) :: d[k]
  }

  /** The values without the fields that are not mapped to the data source. */
  function MappedValues(values: map<string, Value>, notMapped: seq<string>): (r: map<string, Value>)
    ensures forall k :: k in r <==> k in values && k !in notMapped
    ensures forall k :: k in r ==> r[k] == values[k]
  {
    map k | k in values && k !in notMapped :: values[k]
  }

  /**
   * The changed values.  With no original values everything is new.
   * Otherwise a value is changed when its field has an original value that is
   * loosely different; a field without an original value is never reported.
   */
  function ChangedValues(current: map<string, Value>, original: map<string, Value>): (r: map<string, Value>)
    ensures original == map[] ==> r == current
    ensures original != map[] ==> forall k :: k in r <==> k in current && k in original && !LooseEq(original[k], current[k])
    ensures forall k :: k in r ==> k in current && r[k] == current[k]
  {
    if original == map[] then current
    else map k | k in current && k in original && !LooseEq(original[k], current[k]) :: current[k]
  }

  /** `mergeMessages`: the first message of each field, `None` (PHP `false`) for a field with none. */
  function MergeMessages(ms: Messages): (r: map<string, Option<string>>)
    ensures r.Keys == ms.Keys
    ensures forall f :: f in ms && ms[f] != [] ==> r[f] == Some(ms[f][0].1)
    ensures forall f :: f in ms && ms[f] == [] ==> r[f] == None
  {
    map f | f in ms :: First(ms[f])
  }

  /** `getValidators`: the validators of every configured field, by field name; bare entries have none. */
  function GetValidators(fs: Fields): (r: map<string, Assoc<ValidatorParams>>)
    ensures forall f :: f in r <==> IsField(fs, f)
    ensures forall f :: f in r ==> FindField(fs, f).Some? && r[f] == FindField(fs, f).value.validators
  {
    map f | f in FieldSet(fs) :: FindField(fs, f).value.validators
  }

  /** `_validatorMessages[$field][$validator][$errorType] = $message` */
  function PutTemplate(vm: CustomMessages, f: string, validator: string, errorType: string, message: string): (r: CustomMessages)
    ensures GetCustomMessages(r, f, validator).Some?
    ensures var t := GetCustomMessages(r, f, validator).value; errorType in t && t[errorType] == message
    ensures forall g, v :: (g, v) != (f, validator) ==> GetCustomMessages(r, g, v) == GetCustomMessages(vm, g, v)
    ensures forall t :: t != errorType && GetCustomMessages(vm, f, validator).Some? && t in GetCustomMessages(vm, f, validator).value ==>
      t in GetCustomMessages(r, f, validator).value && GetCustomMessages(r, f, validator).value[t] == GetCustomMessages(vm, f, validator).value[t]
  {
    var perField := if f in vm then vm[f] else map[];
    var perValidator := if validator in perField then perField[validator] else map[];
    vm[f := perField[validator := perValidator[errorType := message]]]
  }

  /** Registry assignments applied one after the other (`foreach ... $this->setValidator(...)`). */
  function PutAll<V>(a: Assoc<V>, b: Assoc<V>): Assoc<V>
    decreases |b|
  {
    if b == [] then a else PutAll(Put(a, b[0].0, b[0].1), b[1..])
  }

  // ---------------------------------------------------------------------------
  // Properties of the specification functions

  /** The model is empty exactly when every current value is empty. */
  lemma ModelEmptyIff(values: map<string, Value>)
    ensures NonEmptyEntries(values) == map[] <==> forall k :: k in values ==> IsEmpty(values[k])
  {
    if exists k :: k in values && !IsEmpty(values[k]) {
      var k :| k in values && !IsEmpty(values[k]);
      assert k in NonEmptyEntries(values);
    }
  }

  /** Removing empty entries twice removes nothing more. */
  lemma NonEmptyEntriesIdempotent(m: map<string, Value>)
    ensures NonEmptyEntries(NonEmptyEntries(m)) == NonEmptyEntries(m)
  {
  }

  /**
   * Right after a load, with no value set since, nothing is reported as
   * changed: every loaded value equals its original, and loose equality is
   * reflexive.
   */
  lemma {:induction false} FreshLoadIsClean(values: map<string, Value>, data: map<string, Value>, fs: Fields)
    requires data != map[]
    requires forall k :: k in values ==> IsField(fs, k)
    ensures ChangedValues(values + KnownValues(data, fs), data) == map[]
  {
    var current := values + KnownValues(data, fs);
    forall k | k in current && k in data
      ensures LooseEq(data[k], current[k])
    {
      assert IsField(fs, k);
      assert current[k] == data[k];
      LooseEqReflexiveSymmetric(data[k], data[k]);
    }
    var r := ChangedValues(current, data);
    assert r.Keys == {};
  }

  /** Once something is loaded, a field set later but absent from the record is never reported as changed. */
  lemma NewFieldNeverChanged(current: map<string, Value>, original: map<string, Value>, f: string)
    requires original != map[] && f !in original
    ensures f !in ChangedValues(current, original)
  {
  }

  /** After a check every field holds at most one message, so merging loses nothing. */
  lemma MergeLosesNothing(ms: Messages, f: string)
    requires AtMostOnePerField(ms) && HasMessages(ms, f)
    ensures MergeMessages(ms)[f].Some? && ms[f] == [(ms[f][0].0, MergeMessages(ms)[f].value)]
  {
  }

  /** Replacing a field's options twice is replacing them once with the second options. */
  lemma {:induction false} SetFieldTwice(fs: Fields, f: string, o1: FieldOptions, o2: FieldOptions)
    ensures SetField(SetField(fs, f, o1), f, o2) == SetField(fs, f, o2)
  {
    if fs != [] && !(fs[0].Configured? && fs[0].name == f) {
      SetFieldTwice(fs[1..], f, o1, o2);
      assert SetField(fs, f, o1)[1..] == SetField(fs[1..], f, o1);
    }
  }

  /** A later assignment of the same key overrides an earlier one. */
  lemma {:induction false} PutAllLookup<V>(a: Assoc<V>, b: Assoc<V>, k: string)
    ensures Lookup(PutAll(a, b), k) == if HasKey(b, k) then Lookup(Reverse(b), k) else Lookup(a, k)
    decreases |b|
  {
    if b != [] {
      PutAllLookup(Put(a, b[0].0, b[0].1), b[1..], k);
      PutLookup(a, b[0].0, b[0].1, k);
      ReverseLookup(b, k);
      ReverseLookup(b[1..], k);
      assert HasKey(b, k) <==> b[0].0 == k || HasKey(b[1..], k) by {
        if HasKey(b, k) && b[0].0 != k {
          var i :| 0 <= i < |b| && b[i].0 == k;
          assert b[1..][i - 1].0 == k;
        }
        if HasKey(b[1..], k) {
          var i :| 0 <= i < |b[1..]| && b[1..][i].0 == k;
          assert b[i + 1].0 == k;
        }
      }
    }
  }

  function Reverse<V>(b: Assoc<V>): (r: Assoc<V>)
    ensures |r| == |b|
    decreases |b|
  {
    if b == [] then [] else Reverse(b[1..]) + [b[0]]
  }

  /** In the reversed array, lookup finds the last assignment of a key. */
  lemma {:induction false} ReverseLookup<V>(b: Assoc<V>, k: string)
    ensures b != [] && HasKey(b[1..], k) ==> Lookup(Reverse(b), k) == Lookup(Reverse(b[1..]), k)
    ensures b != [] && !HasKey(b[1..], k) && b[0].0 == k ==> Lookup(Reverse(b), k) == Some(b[0].1)
  {
    if b != [] {
      LookupAppend(Reverse(b[1..]), b[0], k);
      ReverseHasKey(b[1..], k);
    }
  }

  lemma {:induction false} LookupAppend<V>(a: Assoc<V>, x: (string, V), k: string)
    ensures HasKey(a, k) ==> Lookup(a + [x], k) == Lookup(a, k)
    ensures !HasKey(a, k) && x.0 == k ==> Lookup(a + [x], k) == Some(x.1)
    decreases |a|
  {
    if a != [] {
      assert (a + [x])[1..] == a[1..] + [x];
      LookupAppend(a[1..], x, k);
      if a[0].0 != k {
        assert HasKey(a, k) ==> HasKey(a[1..], k) by {
          if HasKey(a, k) {
            var i :| 0 <= i < |a| && a[i].0 == k;
            assert a[1..][i - 1].0 == k;
          }
        }
      }
    } else {
      assert [x][0] == x;
    }
  }

  lemma {:induction false} ReverseHasKey<V>(b: Assoc<V>, k: string)
    ensures HasKey(Reverse(b), k) <==> HasKey(b, k)
    decreases |b|
  {
    if b != [] {
      ReverseHasKey(b[1..], k);
      var r := Reverse(b);
      assert r == Reverse(b[1..]) + [b[0]];
      if HasKey(b, k) {
        var i :| 0 <= i < |b| && b[i].0 == k;
        if i == 0 {
          assert r[|r| - 1].0 == k;
        } else {
          assert b[1..][i - 1].0 == k;
          var j :| 0 <= j < |Reverse(b[1..])| && Reverse(b[1..])[j].0 == k;
          assert r[j].0 == k;
        }
      }
      if HasKey(r, k) {
        var j :| 0 <= j < |r| && r[j].0 == k;
        if j == |r| - 1 {
          assert b[0].0 == k;
        } else {
          assert Reverse(b[1..])[j].0 == k;
          var i :| 0 <= i < |b[1..]| && b[1..][i].0 == k;
          assert b[i + 1].0 == k;
        }
      }
    }
  }

  // ---------------------------------------------------------------------------
  // The model object

  class Model {
    /** `_fields` */
    var fields: Fields
    /** `_notMapped`: fields the data source does not hold. */
    var notMapped: seq<string>
    /** `_values`: only fields explicitly set are present. */
    var values: map<string, Value>
    /** `_originalValues`: the record of the last successful load. */
    var originalValues: map<string, Value>
    /** `_validatorMessages` */
    var validatorMessages: CustomMessages
    /** `_messages`, accumulated across checks. */
    var messages: Messages
    /** The process-wide `_pluginCache`. */
    const cache: PluginCache

    /** The state a check works on. */
    ghost function State(): PipeState
      reads this, cache
    {
      PipeState(values, messages, cache.entries)
    }

    /** A new model whose `init` configured the given registry. */
    constructor (fields: Fields, notMapped: seq<string>, cache: PluginCache)
      ensures this.fields == fields && this.notMapped == notMapped && this.cache == cache
      ensures values == map[] && originalValues == map[] && validatorMessages == map[] && messages == map[]
    {
      this.fields := fields;
      this.notMapped := notMapped;
      this.cache := cache;
      values := map[];
      originalValues := map[];
      validatorMessages := map[];
      messages := map[];
    }

    // ----- value store

    /** `setValue`: ignored for a field that is not configured. */
    method SetValue(f: string, v: Value)
      modifies this`values
      ensures values == if IsField(fields, f) then old(values)[f := v] else old(values)
    {
      if IsField(fields, f) {
        values := values[f := v];
      }
    }

    /** `setValues`: every entry whose key is a configured field is set; the others are ignored. */
    method SetValues(d: map<string, Value>)
      modifies this`values
      ensures values == old(values) + KnownValues(d, fields)
    {
      var rest := d.Keys;
      while rest != {}
        invariant rest <= d.Keys
        invariant forall k :: k in values <==> k in old(values) || (k in d && k !in rest && IsField(fields, k))
        invariant forall k :: k in values ==>
          values[k] == if k in d && k !in rest && IsField(fields, k) then d[k] else old(values)[k]
        decreases rest
      {
        var k :| k in rest;
        SetValue(k, d[k]);
        rest := rest - {k};
      }
    }

    /** `getValue`: the value of a configured field that was set, null otherwise. */
    function GetValue(f: string): (r: Value)
      reads this
      ensures !IsField(fields, f) || f !in values ==> r == Null
      ensures IsField(fields, f) && f in values ==> r == values[f]
    {
      if IsField(fields, f) && f in values then values[f] else Null
    }

    /** `clearValues` */
    method ClearValues()
      modifies this`values
      ensures values == map[]
    {
      values := map[];
    }

    /** `removeEmptyKeys`: drop every entry whose value is empty. */
    method RemoveEmptyKeys(keys: map<string, Value>) returns (r: map<string, Value>)
      ensures r == NonEmptyEntries(keys)
    {
      r := keys;
      var rest := keys.Keys;
      while rest != {}
        invariant rest <= keys.Keys
        invariant forall k :: k in r <==> k in keys && (k in rest || !IsEmpty(keys[k]))
        invariant forall k :: k in r ==> r[k] == keys[k]
        decreases rest
      {
        var k :| k in rest;
        if IsEmpty(keys[k]) {
          r := r - {k};
        }
        rest := rest - {k};
      }
    }

    /** `isModelEmpty`: every current value is empty. */
    method IsModelEmpty() returns (b: bool)
      ensures b <==> forall k :: k in values ==> IsEmpty(values[k])
    {
      var nonEmpty := RemoveEmptyKeys(values);
      ModelEmptyIff(values);
      b := nonEmpty == map[];
    }

    /** `getChangedValues` */
    method GetChangedValues() returns (changed: map<string, Value>)
      ensures changed == ChangedValues(values, originalValues)
    {
      if originalValues == map[] {
        return values;
      }
      changed := map[];
      var rest := values.Keys;
      while rest != {}
        invariant rest <= values.Keys
        invariant forall k :: k in changed <==>
          k in values && k !in rest && k in originalValues && !LooseEq(originalValues[k], values[k])
        invariant forall k :: k in changed ==> changed[k] == values[k]
        decreases rest
      {
        var k :| k in rest;
        if k in originalValues && originalValues[k] != values[k] && !LooseEq(originalValues[k], values[k]) {
          changed := changed[k := values[k]];
        }
        rest := rest - {k};
      }
    }

    /** `getMappedValues` */
    method GetMappedValues() returns (r: map<string, Value>)
      ensures r == MappedValues(values, notMapped)
    {
      r := values;
      var i := 0;
      while i < |notMapped|
        invariant 0 <= i <= |notMapped|
        invariant forall k :: k in r <==> k in values && k !in notMapped[..i]
        invariant forall k :: k in r ==> r[k] == values[k]
      {
        if notMapped[i] in r {
          r := r - {notMapped[i]};
        }
        assert notMapped[..i + 1] == notMapped[..i] + [notMapped[i]];
        i := i + 1;
      }
      assert notMapped[..i] == notMapped;
    }

    // ----- loading

    /**
     * `load`: look the record up by the non-empty keys (the mapped values when
     * no keys are given).  With no non-empty key the mapper is not asked and
     * nothing changes; a non-empty record is set as values and kept as the
     * original values.  `queried` is what the mapper was asked with.
     */
    method Load(keys: Option<map<string, Value>>, get: map<string, Value> -> map<string, Value>)
      returns (queried: Option<map<string, Value>>)
      modifies this`values, this`originalValues
      ensures var k := NonEmptyEntries(if keys.Some? then keys.value else MappedValues(old(values), notMapped));
        && (k == map[] ==> queried == None)
        && (k != map[] ==> queried == Some(k))
        && (k != map[] && get(k) != map[] ==> values == old(values) + KnownValues(get(k), fields) && originalValues == get(k))
        && (k == map[] || get(k) == map[] ==> values == old(values) && originalValues == old(originalValues))
    {
      var candidates;
      if keys.None? {
        candidates := GetMappedValues();
      } else {
        candidates := keys.value;
      }
      var k := RemoveEmptyKeys(candidates);
      if k == map[] {
        return None;
      }
      queried := Some(k);
      var data := get(k);
      if data != map[] {
        SetValues(data);
        originalValues := data;
      }
    }

    /** `isLoaded` */
    predicate IsLoaded()
      reads this
    {
      originalValues != map[]
    }

    /** `reset`: forget the values and the loaded record. */
    method Reset()
      modifies this`values, this`originalValues
      ensures values == map[] && originalValues == map[]
      ensures !IsLoaded()
    {
      values := map[];
      originalValues := map[];
    }

    /** `recordExists`: the mapper, asked with the non-empty keys (even none), finds a record. */
    method RecordExists(keys: map<string, Value>, get: map<string, Value> -> map<string, Value>)
      returns (found: bool, queried: map<string, Value>)
      ensures queried == NonEmptyEntries(keys)
      ensures found <==> get(queried) != map[]
    {
      queried := RemoveEmptyKeys(keys);
      found := get(queried) != map[];
    }

    // ----- field registry

    /** `setFields` */
    method SetFields(fs: Fields)
      modifies this`fields
      ensures fields == fs
    {
      fields := fs;
    }

    /** `setField`: replace a field's options, or add the field at the end. */
    method SetFieldOptions(f: string, o: FieldOptions)
      modifies this`fields
      ensures fields == SetField(old(fields), f, o)
      ensures FindField(fields, f) == Some(o)
      ensures forall g :: g != f ==> FindField(fields, g) == FindField(old(fields), g)
      ensures WellFormed(old(fields)) ==> WellFormed(fields)
    {
      if WellFormed(fields) {
        SetFieldWellFormed(fields, f, o);
      }
      forall g ensures FindField(SetField(fields, f, o), g) == if g == f then Some(o) else FindField(fields, g) {
        SetFieldFind(fields, f, o, g);
      }
      fields := SetField(fields, f, o);
    }

    /** `setValidator`: set one validator of a configured field; an unknown field is an error. */
    method SetValidator(f: string, name: string, params: ValidatorParams) returns (err: Option<ModelError>)
      modifies this`fields
      ensures !IsField(old(fields), f) ==> err == Some(FieldDoesNotExist(f)) && fields == old(fields)
      ensures IsField(old(fields), f) ==> (err == None &&
        var o := FindField(old(fields), f).value;
        fields == SetField(old(fields), f, o.(validators := Put(o.validators, name, params))))
      ensures IsField(old(fields), f) ==> (IsField(fields, f) &&
        Lookup(FindField(fields, f).value.validators, name) == Some(params))
      ensures forall g :: g != f ==> FindField(fields, g) == FindField(old(fields), g)
      ensures WellFormed(old(fields)) ==> WellFormed(fields)
    {
      if !IsField(fields, f) {
        return Some(FieldDoesNotExist(f));
      }
      var o := FindField(fields, f).value;
      PutLookup(o.validators, name, params, name);
      SetFieldOptions(f, o.(validators := Put(o.validators, name, params)));
      err := None;
    }

    /** `setValidators`: `setValidator` for each entry, in order. */
    method SetValidators(f: string, vs: Assoc<ValidatorParams>) returns (err: Option<ModelError>)
      modifies this`fields
      ensures !IsField(old(fields), f) ==> err == Some(FieldDoesNotExist(f)) && fields == old(fields)
      ensures IsField(old(fields), f) ==> (err == None &&
        var o := FindField(old(fields), f).value;
        fields == SetField(old(fields), f, o.(validators := PutAll(o.validators, vs))))
      ensures WellFormed(old(fields)) ==> WellFormed(fields)
    {
      if !IsField(fields, f) {
        return Some(FieldDoesNotExist(f));
      }
      ghost var o0 := FindField(fields, f).value;
      ghost var fs0 := fields;
      SetFieldFound(fields, f);
      var j := 0;
      while j < |vs|
        invariant 0 <= j <= |vs|
        invariant IsField(fields, f)
        invariant fields == SetField(fs0, f, FindField(fields, f).value)
        invariant FindField(fields, f).value == o0.(validators := FindField(fields, f).value.validators)
        invariant PutAll(o0.validators, vs) == PutAll(FindField(fields, f).value.validators, vs[j..])
        invariant WellFormed(old(fields)) ==> WellFormed(fields)
      {
        ghost var before := fields;
        ghost var o := FindField(fields, f).value;
        var e := SetValidator(f, vs[j].0, vs[j].1);
        SetFieldTwice(fs0, f, o, o.(validators := Put(o.validators, vs[j].0, vs[j].1)));
        SetFieldFind(before, f, o.(validators := Put(o.validators, vs[j].0, vs[j].1)), f);
        assert vs[j..][1..] == vs[j + 1..];
        j := j + 1;
      }
      err := None;
    }

    /**
     * `setValidatorMessage`: store a message template.  The guard is
     * `in_array`, so only a bare field name passes; a configured field is
     * reported as unknown.
     */
    method SetValidatorMessage(f: string, validator: string, errorType: string, message: string)
      returns (err: Option<ModelError>)
      modifies this`validatorMessages
      ensures !InArray(fields, f) ==> err == Some(FieldDoesNotExist(f)) && validatorMessages == old(validatorMessages)
      ensures InArray(fields, f) ==> (err == None &&
        validatorMessages == PutTemplate(old(validatorMessages), f, validator, errorType, message))
    {
      if !InArray(fields, f) {
        return Some(FieldDoesNotExist(f));
      }
      validatorMessages := PutTemplate(validatorMessages, f, validator, errorType, message);
      err := None;
    }

    /** `setValidatorMessages`: `setValidatorMessage` for each entry, in order. */
    method SetValidatorMessages(f: string, validator: string, msgs: Assoc<string>) returns (err: Option<ModelError>)
      modifies this`validatorMessages
      ensures !InArray(fields, f) ==> err == Some(FieldDoesNotExist(f)) && validatorMessages == old(validatorMessages)
      ensures InArray(fields, f) ==> (err == None &&
        forall g, v :: (g, v) != (f, validator) ==>
          GetCustomMessages(validatorMessages, g, v) == GetCustomMessages(old(validatorMessages), g, v))
      ensures InArray(fields, f) && msgs != [] ==> GetCustomMessages(validatorMessages, f, validator).Some?
    {
      if !InArray(fields, f) {
        return Some(FieldDoesNotExist(f));
      }
      var j := 0;
      while j < |msgs|
        invariant 0 <= j <= |msgs|
        invariant forall g, v :: (g, v) != (f, validator) ==>
          GetCustomMessages(validatorMessages, g, v) == GetCustomMessages(old(validatorMessages), g, v)
        invariant j > 0 ==> GetCustomMessages(validatorMessages, f, validator).Some?
      {
        var e := SetValidatorMessage(f, validator, msgs[j].0, msgs[j].1);
        j := j + 1;
      }
      err := None;
    }

    /**
     * `setViewHelper`: guarded by `in_array` like `setValidatorMessage`, and it
     * stores the helper directly under the field's options (`stray`), not
     * under `viewHelpers`; a bare field becomes a configured one.
     */
    method SetViewHelper(f: string, helper: string, options: ViewHelperOptions) returns (err: Option<ModelError>)
      modifies this`fields
      ensures !InArray(old(fields), f) ==> err == Some(FieldDoesNotExist(f)) && fields == old(fields)
      ensures InArray(old(fields), f) ==> (err == None &&
        var o := FindField(old(fields), f).GetOr(NoOptions);
        fields == SetField(old(fields), f, o.(stray := Put(o.stray, helper, options))))
      ensures InArray(old(fields), f) ==> (IsField(fields, f) &&
        FindField(fields, f).value.viewHelpers == FindField(old(fields), f).GetOr(NoOptions).viewHelpers &&
        Lookup(FindField(fields, f).value.stray, helper) == Some(options))
      ensures InArray(old(fields), f) ==> InArray(fields, f)
      ensures forall g :: g != f ==> FindField(fields, g) == FindField(old(fields), g)
      ensures WellFormed(old(fields)) ==> WellFormed(fields)
    {
      if !InArray(fields, f) {
        return Some(FieldDoesNotExist(f));
      }
      var o := FindField(fields, f).GetOr(NoOptions);
      PutLookup(o.stray, helper, options, helper);
      SetFieldKeepsInArray(fields, f, o.(stray := Put(o.stray, helper, options)), f);
      SetFieldOptions(f, o.(stray := Put(o.stray, helper, options)));
      err := None;
    }

    /** `setViewHelpers`: `setViewHelper` for each entry, in order. */
    method SetViewHelpers(f: string, helpers: Assoc<ViewHelperOptions>) returns (err: Option<ModelError>)
      modifies this`fields
      ensures !InArray(old(fields), f) ==> err == Some(FieldDoesNotExist(f)) && fields == old(fields)
      ensures InArray(old(fields), f) ==> err == None
      ensures forall g :: g != f ==> FindField(fields, g) == FindField(old(fields), g)
      ensures WellFormed(old(fields)) ==> WellFormed(fields)
    {
      if !InArray(fields, f) {
        return Some(FieldDoesNotExist(f));
      }
      var j := 0;
      while j < |helpers|
        invariant 0 <= j <= |helpers|
        invariant InArray(fields, f)
        invariant forall g :: g != f ==> FindField(fields, g) == FindField(old(fields), g)
        invariant WellFormed(old(fields)) ==> WellFormed(fields)
      {
        var e := SetViewHelper(f, helpers[j].0, helpers[j].1);
        j := j + 1;
      }
      err := None;
    }

    /**
     * `getViewHelpers` reads `_viewHelpers`, a property the class never
     * declares, so PHP answers it through `__get`, that is `getValue`: the
     * value of a field named `_viewHelpers`, never the registry's helpers.
     */
    function GetViewHelpers(): (r: Value)
      reads this
      ensures !IsField(fields, "_viewHelpers") || "_viewHelpers" !in values ==> r == Null
      ensures IsField(fields, "_viewHelpers") && "_viewHelpers" in values ==> r == values["_viewHelpers"]
    {
      GetValue("_viewHelpers")
    }

    // ----- validation

    /** `hasMessages` */
    predicate HasAnyMessages()
      reads this
    {
      messages != map[]
    }

    /** The filter loop of `check` for one field. */
    method ApplyFilters(env: Env, field: string, fs: Assoc<FilterParams>)
      modifies this`values, cache
      ensures State() == RunFilters(env, field, fs, old(State()))
    {
      var j := 0;
      while j < |fs|
        invariant 0 <= j <= |fs|
        invariant RunFilters(env, field, fs, old(State())) == RunFilters(env, field, fs[j..], State())
      {
        var name := fs[j].0;
        var params := fs[j].1;
        ghost var expected := FilterStep(env, field, name, params, State());
        var cls := GetClassFullName(env.loadable, name, FilterType);
        if cls.Some? {
          var p := cache.GetCachedPlugin(FilterType, cls.value, params.options);
          p := ApplyPluginOptions(p, params.options);
          cache.SetCachedPlugin(FilterType, p);
          values := values[field := env.filter(p, ValueOf(values, field))];
        }
        assert State() == expected;
        assert fs[j..][1..] == fs[j + 1..];
        j := j + 1;
      }
    }

    /** One pass of the validator loop of `check`; `aborted` is the `break 2`. */
    method RunValidator(env: Env, field: string, name: string, params: ValidatorParams) returns (aborted: bool)
      modifies this`messages, cache
      ensures (State(), aborted) == ValidatorStep(env, field, name, params, old(State()))
    {
      if HasMessages(messages, field) {
        return false;
      }
      var cls := GetClassFullName(env.loadable, name, ValidatorType);
      if cls.None? {
        return false;
      }
      var p := cache.GetCachedPlugin(ValidatorType, cls.value, params.options);
      p := ApplyPluginOptions(p, params.options);
      var custom := GetCustomMessages(env.custom, field, name);
      if custom.Some? && custom.value != map[] {
        p := SetMessages(p, custom.value);
      }
      cache.SetCachedPlugin(ValidatorType, p);
      var verdict := env.validate(p, ValueOf(values, field));
      aborted := false;
      if verdict.Invalid? {
        messages := Record(messages, field, verdict.errors);
        aborted := params.breakChainOnFailure;
      }
    }

    /** The validator loop of `check` for one field; `aborted` is the `break 2`. */
    method ApplyValidators(env: Env, field: string, vs: Assoc<ValidatorParams>) returns (aborted: bool)
      modifies this`messages, cache
      ensures (State(), aborted) == RunValidators(env, field, vs, old(State()))
    {
      var j := 0;
      while j < |vs|
        invariant 0 <= j <= |vs|
        invariant RunValidators(env, field, vs, old(State())) == RunValidators(env, field, vs[j..], State())
      {
        assert vs[j..][1..] == vs[j + 1..];
        var stop := RunValidator(env, field, vs[j].0, vs[j].1);
        if stop {
          return true;
        }
        j := j + 1;
      }
      aborted := false;
    }

    /** The body of `check`'s outer loop for one registry entry; `aborted` is the `break 2`. */
    method CheckEntry(env: Env, e: Entry) returns (aborted: bool)
      modifies this`values, this`messages, cache
      ensures (State(), aborted) == CheckField(env, e, old(State()))
    {
      if e.Listed? {
        return false;
      }
      var f := e.name;
      var o := e.options;
      if o.dependent.Some? && HasMessages(messages, o.dependent.value) {
        return false;
      }
      var validators := EffectiveValidators(o);
      ApplyFilters(env, f, o.filters);
      if o.nullWhenEmpty && IsEmpty(ValueOf(values, f)) {
        values := values[f := Null];
      }
      assert State() == PrepareField(env, f, o, old(State()));
      if !o.required && IsEmpty(ValueOf(values, f)) {
        return false;
      }
      aborted := ApplyValidators(env, f, validators);
    }

    /**
     * `check`: run the pipeline over the registry in order and report whether
     * no message is recorded.  Messages of earlier checks stay, and the
     * registry is not changed (the inserted `NotEmpty` is local to the run).
     */
    method Check(loadable: set<string>, filter: (Plugin, Value) -> Value, validate: (Plugin, Value) -> Verdict)
      returns (ok: bool)
      modifies this`values, this`messages, cache
      ensures fields == old(fields) && validatorMessages == old(validatorMessages) && originalValues == old(originalValues)
      ensures State() == CheckFields(Env(loadable, validatorMessages, filter, validate), fields, old(State())).0
      ensures ok <==> messages == map[]
      ensures forall g :: HasMessages(old(messages), g) ==> g in messages && messages[g] == old(messages)[g]
      ensures AtMostOnePerField(old(messages)) ==> AtMostOnePerField(messages)
    {
      var env := Env(loadable, validatorMessages, filter, validate);
      ghost var total := CheckFields(env, fields, State());
      CheckFieldsKeepsMessages(env, fields, State());
      var i := 0;
      while i < |fields|
        invariant 0 <= i <= |fields|
        invariant total == CheckFields(env, fields[i..], State())
      {
        assert fields[i..][1..] == fields[i + 1..];
        var aborted := CheckEntry(env, fields[i]);
        if aborted {
          break;
        }
        i := i + 1;
      }
      assert State() == total.0;
      ok := !HasAnyMessages();
    }
  }
}

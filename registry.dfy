/**
 * The field registry (`_fields`) of a model: per-field declarative
 * configuration, kept in insertion order.
 *
 * A PHP registry array mixes two shapes of entry: `'email' => array(...)`,
 * a string key with an options array, and a bare `'email'`, a value under an
 * automatic integer key.  Only the first kind is a key of the array, which is
 * what `array_key_exists` sees; only the second kind is a value that
 * `in_array` can match.
 */
module Registry {
  import opened Wrappers
  import opened Assoc
  import opened Php

  /** The parameters of one filter: the options passed to its constructor and setters. */
  datatype FilterParams = FilterParams(options: Option<map<string, Value>>)

  /** The parameters of one validator. */
  datatype ValidatorParams = ValidatorParams(breakChainOnFailure: bool, options: Option<map<string, Value>>)

  /** Display options of one view helper; consumed only by rendering. */
  datatype ViewHelperOptions = ViewHelperOptions(
    name: Option<string>,
    value: Option<Value>,
    attribs: Option<Assoc<Value>>,
    choices: Option<Assoc<string>>)

  /**
   * The options of a configured field.  `stray` holds the view helpers that
   * `setViewHelper` stores directly under the field's options, beside
   * `viewHelpers` rather than inside it; nothing reads them back.
   */
  datatype FieldOptions = FieldOptions(
    required: bool,
    nullWhenEmpty: bool,
    dependent: Option<string>,
    filters: Assoc<FilterParams>,
    validators: Assoc<ValidatorParams>,
    viewHelpers: Assoc<ViewHelperOptions>,
    stray: Assoc<ViewHelperOptions>)

  const NoOptions := FieldOptions(false, false, None, [], [], [], [])

  /** One registry entry: a field name keyed to options, or a bare name under an integer key. */
  datatype Entry = Configured(name: string, options: FieldOptions) | Listed(name: string)

  type Fields = seq<Entry>

  /** `array_key_exists($f, $this->_fields)` */
  predicate IsField(fs: Fields, f: string) {
    exists i :: 0 <= i < |fs| && fs[i].Configured? && fs[i].name == f
  }

  /** `in_array($f, $this->_fields)`: loose comparison against the values; an options array never equals a string. */
  predicate InArray(fs: Fields, f: string) {
    exists i :: 0 <= i < |fs| && fs[i].Listed? && LooseEq(Str(f), Str(fs[i].name))
  }

  /** String keys are unique in a PHP array. */
  predicate WellFormed(fs: Fields) {
    forall i, j :: 0 <= i < j < |fs| && fs[i].Configured? && fs[j].Configured? ==> fs[i].name != fs[j].name
  }

  /** `getField`: the options of a field, `None` for an unknown field. */
  function FindField(fs: Fields, f: string): (r: Option<FieldOptions>)
    ensures r.Some? <==> IsField(fs, f)
    ensures r.Some? ==> exists i :: 0 <= i < |fs| && fs[i] == Configured(f, r.value)
  {
    if fs == [] then None
    else if fs[0].Configured? && fs[0].name == f then Some(fs[0].options)
    else
      var r := FindField(fs[1..], f);
      assert forall i :: 1 <= i < |fs| ==> fs[i] == fs[1..][i - 1];
      r
  }

  /** `setField`: `$this->_fields[$f] = $options`, in place when `f` is a key, appended otherwise. */
  function SetField(fs: Fields, f: string, o: FieldOptions): (r: Fields)
  {
    if fs == [] then [Configured(f, o)]
    else if fs[0].Configured? && fs[0].name == f then [Configured(f, o)] + fs[1..]
    else [fs[0]] + SetField(fs[1..], f, o)
  }

  /** After `setField` the field reads back with the new options and every other field is unchanged. */
  lemma {:induction false} SetFieldFind(fs: Fields, f: string, o: FieldOptions, g: string)
    ensures FindField(SetField(fs, f, o), g) == if g == f then Some(o) else FindField(fs, g)
  {
    if fs != [] && !(fs[0].Configured? && fs[0].name == f) {
      SetFieldFind(fs[1..], f, o, g);
      assert SetField(fs, f, o)[1..] == SetField(fs[1..], f, o);
    }
  }

  /** `setField` replaces in place or appends, and leaves every other entry, bare ones included, where it was. */
  lemma {:induction false} SetFieldShape(fs: Fields, f: string, o: FieldOptions)
    ensures IsField(fs, f) ==> |SetField(fs, f, o)| == |fs|
    ensures !IsField(fs, f) ==> SetField(fs, f, o) == fs + [Configured(f, o)]
    ensures forall i :: 0 <= i < |fs| && !(fs[i].Configured? && fs[i].name == f) ==> SetField(fs, f, o)[i] == fs[i]
  {
    if fs == [] {
    } else if fs[0].Configured? && fs[0].name == f {
      var r := SetField(fs, f, o);
      assert forall i :: 1 <= i < |fs| ==> r[i] == fs[i];
    } else {
      SetFieldShape(fs[1..], f, o);
      var r := SetField(fs, f, o);
      assert r == [fs[0]] + SetField(fs[1..], f, o);
      assert IsField(fs, f) <==> IsField(fs[1..], f) by {
        if IsField(fs, f) {
          var i :| 0 <= i < |fs| && fs[i].Configured? && fs[i].name == f;
          assert fs[1..][i - 1] == fs[i];
        }
        if IsField(fs[1..], f) {
          var i :| 0 <= i < |fs[1..]| && fs[1..][i].Configured? && fs[1..][i].name == f;
          assert fs[i + 1] == fs[1..][i];
        }
      }
      forall i | 0 <= i < |fs| && !(fs[i].Configured? && fs[i].name == f)
        ensures r[i] == fs[i]
      {
        if i > 0 { assert fs[i] == fs[1..][i - 1]; }
      }
    }
  }

  /** `setField` never duplicates a key. */
  lemma {:induction false} SetFieldWellFormed(fs: Fields, f: string, o: FieldOptions)
    requires WellFormed(fs)
    ensures WellFormed(SetField(fs, f, o))
  {
    if fs == [] {
    } else if fs[0].Configured? && fs[0].name == f {
      var r := SetField(fs, f, o);
      assert forall i :: 1 <= i < |fs| ==> r[i] == fs[i];
    } else {
      var r := SetField(fs, f, o);
      var t := SetField(fs[1..], f, o);
      assert r == [fs[0]] + t;
      assert WellFormed(fs[1..]) by {
        forall i, j | 0 <= i < j < |fs[1..]| && fs[1..][i].Configured? && fs[1..][j].Configured?
          ensures fs[1..][i].name != fs[1..][j].name
        {
          assert fs[1..][i] == fs[i + 1] && fs[1..][j] == fs[j + 1];
        }
      }
      SetFieldWellFormed(fs[1..], f, o);
      forall i, j | 0 <= i < j < |r| && r[i].Configured? && r[j].Configured?
        ensures r[i].name != r[j].name
      {
        if i == 0 {
          assert r[j] == t[j - 1];
          if t[j - 1].name != f {
            SetFieldNames(fs[1..], f, o, j - 1);
            var k :| 0 <= k < |fs[1..]| && fs[1..][k] == t[j - 1];
            assert fs[k + 1] == fs[1..][k];
          }
        } else {
          assert r[i] == t[i - 1] && r[j] == t[j - 1];
        }
      }
    }
  }

  /** Every entry `setField` yields is the new entry or an entry that was already there. */
  lemma {:induction false} SetFieldNames(fs: Fields, f: string, o: FieldOptions, j: int)
    requires 0 <= j < |SetField(fs, f, o)|
    ensures SetField(fs, f, o)[j] == Configured(f, o) || exists k :: 0 <= k < |fs| && fs[k] == SetField(fs, f, o)[j]
  {
    if fs == [] {
    } else if fs[0].Configured? && fs[0].name == f {
      if j > 0 { assert SetField(fs, f, o)[j] == fs[j]; }
    } else if j > 0 {
      SetFieldNames(fs[1..], f, o, j - 1);
      assert SetField(fs, f, o)[j] == SetField(fs[1..], f, o)[j - 1];
      if SetField(fs[1..], f, o)[j - 1] != Configured(f, o) {
        var k :| 0 <= k < |fs[1..]| && fs[1..][k] == SetField(fs[1..], f, o)[j - 1];
        assert fs[k + 1] == fs[1..][k];
      }
    }
  }

  /** Writing back the options a field already has changes nothing. */
  lemma {:induction false} SetFieldFound(fs: Fields, f: string)
    requires IsField(fs, f)
    ensures SetField(fs, f, FindField(fs, f).value) == fs
  {
    if !(fs[0].Configured? && fs[0].name == f) {
      assert IsField(fs[1..], f) by {
        var i :| 0 <= i < |fs| && fs[i].Configured? && fs[i].name == f;
        assert fs[1..][i - 1] == fs[i];
      }
      SetFieldFound(fs[1..], f);
    }
  }

  /** `setField` leaves every bare entry in place, so what `in_array` accepts stays accepted. */
  lemma {:induction false} SetFieldKeepsInArray(fs: Fields, f: string, o: FieldOptions, g: string)
    requires InArray(fs, g)
    ensures InArray(SetField(fs, f, o), g)
  {
    var i :| 0 <= i < |fs| && fs[i].Listed? && LooseEq(Str(g), Str(fs[i].name));
    SetFieldShape(fs, f, o);
    assert SetField(fs, f, o)[i] == fs[i];
  }

  /** `array_keys($this->_fields)` restricted to the string keys: the configured field names, in order. */
  function FieldNames(fs: Fields): (names: seq<string>)
    ensures forall f :: f in names <==> IsField(fs, f)
  {
    if fs == [] then []
    else
      var rest := FieldNames(fs[1..]);
      assert forall f :: IsField(fs, f) <==> (fs[0].Configured? && fs[0].name == f) || IsField(fs[1..], f) by {
        forall f ensures IsField(fs, f) <==> (fs[0].Configured? && fs[0].name == f) || IsField(fs[1..], f) {
          if IsField(fs, f) && !(fs[0].Configured? && fs[0].name == f) {
            var i :| 0 <= i < |fs| && fs[i].Configured? && fs[i].name == f;
            assert fs[1..][i - 1] == fs[i];
          }
          if IsField(fs[1..], f) {
            var i :| 0 <= i < |fs[1..]| && fs[1..][i].Configured? && fs[1..][i].name == f;
            assert fs[i + 1] == fs[1..][i];
          }
        }
      }
      if fs[0].Configured? then [fs[0].name] + rest else rest
  }

  /** The set of configured field names. */
  function FieldSet(fs: Fields): (s: set<string>)
    ensures forall f :: f in s <==> IsField(fs, f)
  {
    set f | f in FieldNames(fs)
  }

  /**
   * The two membership tests disagree: a field configured with options is a
   * key but not a value, and a bare field name is a value but not a key.  So
   * the setters guarded by `in_array` reject every configured field and accept
   * bare names.
   */
  lemma InArrayIsNotIsField()
    ensures var fs := [Configured("email", NoOptions), Listed("phone")];
      IsField(fs, "email") && !InArray(fs, "email") && InArray(fs, "phone") && !IsField(fs, "phone")
  {
    var fs := [Configured("email", NoOptions), Listed("phone")];
    assert fs[0].Configured? && fs[0].name == "email";
    assert fs[1].Listed? && LooseEq(Str("phone"), Str(fs[1].name)) by {
      LooseEqReflexiveSymmetric(Str("phone"), Str("phone"));
    }
  }
}

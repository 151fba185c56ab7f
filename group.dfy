/**
 * `Dc_Model_Group`: one model shared by several rows of a sub-form.  The
 * group keeps the rows' values, loads one row at a time into the model, and
 * rewrites the model's view helper names and ids into array notation so that
 * every row renders with its own element ids.
 */
module Groups {
  import opened Wrappers
  import opened Assoc
  import opened Php
  import opened Registry
  import opened Models

  /** Input of `setValues`: for each field, its value in each row. */
  type Columns = map<string, map<int, Value>>

  /** The group's rows: for each row index, a field-to-value map. */
  type Rows = map<int, map<string, Value>>

  // ---------------------------------------------------------------------------
  // Rows

  /** `isset($data[$field][$x])`: the column has an entry for row `x` and it is not null. */
  predicate Isset(input: Columns, f: string, x: int) {
    f in input && x in input[f] && input[f][x] != Null
  }

  /** Row `x` gathered from the columns of the listed fields, before empty values are removed. */
  function RawRow(names: seq<string>, input: Columns, x: int): (r: map<string, Value>)
    ensures forall f :: f in r <==> f in names && Isset(input, f, x)
    ensures forall f :: f in r ==> f in input && x in input[f] && r[f] == input[f][x]
  {
    map f | f in names && Isset(input, f, x) :: input[f][x]
  }

  /** Gathering one more field adds its value when it is set, and nothing otherwise. */
  lemma RawRowSnoc(names: seq<string>, f: string, input: Columns, x: int)
    ensures RawRow(names + [f], input, x) ==
      if Isset(input, f, x) then RawRow(names, input, x)[f := input[f][x]] else RawRow(names, input, x)
  {
    var a := RawRow(names + [f], input, x);
    var b := if Isset(input, f, x) then RawRow(names, input, x)[f := input[f][x]] else RawRow(names, input, x);
    assert forall g :: g in names + [f] <==> g in names || g == f;
    assert a.Keys == b.Keys;
  }

  /**
   * The rows `setValues` builds: a row for each index below the count at
   * which some configured field's column is set, holding the non-empty ones.
   * A row whose set values are all empty is kept, as an empty row.
   */
  function SpreadRows(names: seq<string>, input: Columns, count: int): (r: Rows)
    ensures forall x :: x in r <==> 0 <= x < count && exists f :: f in names && Isset(input, f, x)
    ensures forall x, f :: x in r ==> (f in r[x] <==> f in names && Isset(input, f, x) && !IsEmpty(input[f][x]))
    ensures forall x, f :: x in r && f in r[x] ==> f in input && x in input[f] && r[x][f] == input[f][x]
  {
    forall x | exists f :: f in names && Isset(input, f, x)
      ensures RawRow(names, input, x) != map[]
    {
      var f :| f in names && Isset(input, f, x);
      assert f in RawRow(names, input, x);
    }
    map x | 0 <= x < count && RawRow(names, input, x) != map[] :: NonEmptyEntries(RawRow(names, input, x))
  }

  /**
   * `setValues` part way: rows `0 .. max - 1` gathered from the fields `b`
   * below row `x` and from the fields `a` from row `x` on.
   */
  ghost predicate Gathered(data: Rows, input: Columns, max: int, a: seq<string>, b: seq<string>, x: int) {
    forall y ::
      && (y in data <==> 0 <= y < max && RawRow(if y < x then b else a, input, y) != map[])
      && (y in data ==> data[y] == RawRow(if y < x then b else a, input, y))
  }

  /** One step of `setValues`' inner loop: field `f` of row `x`. */
  function GatherStep(data: Rows, input: Columns, f: string, x: int): Rows {
    if Isset(input, f, x) then data[x := RowAt(data, x)[f := input[f][x]]] else data
  }

  lemma GatherNothing(input: Columns, max: int)
    ensures Gathered(map[], input, max, [], [], 0)
  {
    forall y ensures RawRow([], input, y) == map[] {
      assert RawRow([], input, y).Keys == {};
    }
  }

  lemma GatherStart(data: Rows, input: Columns, max: int, a: seq<string>, b: seq<string>)
    requires Gathered(data, input, max, a, a, 0)
    ensures Gathered(data, input, max, a, b, 0)
  {
  }

  lemma GatherStepKeeps(data: Rows, input: Columns, max: int, a: seq<string>, f: string, x: int)
    requires 0 <= x < max
    requires Gathered(data, input, max, a, a + [f], x)
    ensures Gathered(GatherStep(data, input, f, x), input, max, a, a + [f], x + 1)
  {
    RawRowSnoc(a, f, input, x);
    var d := GatherStep(data, input, f, x);
    forall y
      ensures && (y in d <==> 0 <= y < max && RawRow(if y < x + 1 then a + [f] else a, input, y) != map[])
              && (y in d ==> d[y] == RawRow(if y < x + 1 then a + [f] else a, input, y))
    {
      if y == x && Isset(input, f, x) {
        assert f in RawRow(a + [f], input, x);
      }
    }
  }

  lemma GatherEnd(data: Rows, input: Columns, max: int, a: seq<string>, b: seq<string>, x: int)
    requires x >= max
    requires Gathered(data, input, max, a, b, x)
    ensures Gathered(data, input, max, b, b, 0)
  {
  }

  lemma GatherFinish(raw: Rows, r: Rows, names: seq<string>, input: Columns, max: int)
    requires Gathered(raw, input, max, names, names, 0)
    requires forall y :: y in r <==> y in raw
    requires forall y :: y in r ==> r[y] == NonEmptyEntries(raw[y])
    ensures SameRows(r, SpreadRows(names, input, max))
  {
  }

  /**
   * The rows `setIndexedValues` builds: every input row with at least one
   * configured field, restricted to the configured fields.  Empty values are
   * kept.
   */
  function IndexRows(fs: Fields, input: Rows): (r: Rows)
    ensures forall k :: k in r <==> k in input && KnownValues(input[k], fs) != map[]
    ensures forall k, f :: k in r ==> (f in r[k] <==> f in input[k] && IsField(fs, f))
    ensures forall k, f :: k in r && f in r[k] ==> k in input && f in input[k] && r[k][f] == input[k][f]
  {
    map k | k in input && KnownValues(input[k], fs) != map[] :: KnownValues(input[k], fs)
  }

  /** A non-empty set of row indexes has a member. */
  lemma SomeIndex(s: set<int>) returns (x: int)
    requires s != {}
    ensures x in s
  {
    if forall y :: y !in s {
      assert false;
    }
    x :| x in s;
  }

  /** The same rows, with the same values: map equality, stated entry by entry. */
  ghost predicate SameRows(a: Rows, b: Rows) {
    (forall k :: k in a <==> k in b) && (forall k :: k in a ==> a[k] == b[k])
  }

  /** The row at `k`, empty when there is none. */
  function RowAt(d: Rows, k: int): map<string, Value> {
    if k in d then d[k] else map[]
  }

  /**
   * Loading an indexed row into the model gives the model exactly the
   * configured fields of the input row, whether or not the row was kept.
   */
  lemma IndexedRowLoadsBack(fs: Fields, input: Rows, k: int)
    ensures KnownValues(RowAt(IndexRows(fs, input), k), fs) == KnownValues(RowAt(input, k), fs)
  {
    var a := KnownValues(RowAt(IndexRows(fs, input), k), fs);
    var b := KnownValues(RowAt(input, k), fs);
    assert a.Keys == b.Keys;
  }

  /** Saving the model's values and loading them back gives the same values, when they are all configured fields. */
  lemma SavedRowLoadsBack(values: map<string, Value>, fs: Fields)
    requires forall f :: f in values ==> IsField(fs, f)
    ensures KnownValues(values, fs) == values
  {
    assert KnownValues(values, fs).Keys == values.Keys;
  }

  // ---------------------------------------------------------------------------
  // View helper names and ids

  /** The array-notation element name of a field: `field` + suffix + `[]`. */
  function RowName(field: string, suffix: string): string {
    field + suffix + "[]"
  }

  /** The element id of a field in row `index`: `field` + suffix + `_` + the index. */
  function RowId(field: string, suffix: string, index: int): string {
    field + suffix + "_" + IntToString(index)
  }

  /** What `initViewHelpers` does to one view helper's options. */
  function RewriteHelper(field: string, suffix: string, index: int, h: ViewHelperOptions): ViewHelperOptions {
    h.(name := Some(RowName(field, suffix)),
       attribs := Some(Put(h.attribs.GetOr([]), "id", Str(RowId(field, suffix, index)))))
  }

  function RewriteOptions(field: string, suffix: string, index: int, o: FieldOptions): FieldOptions {
    o.(viewHelpers := seq(|o.viewHelpers|, i requires 0 <= i < |o.viewHelpers| =>
      (o.viewHelpers[i].0, RewriteHelper(field, suffix, index, o.viewHelpers[i].1))))
  }

  function RewriteEntry(suffix: string, index: int, e: Entry): Entry {
    match e
    case Listed(_) => e
    case Configured(f, o) => Configured(f, RewriteOptions(f, suffix, index, o))
  }

  /** The registry `initViewHelpers` gives the model: the original one, every view helper renamed for row `index`. */
  function RewriteRegistry(fs: Fields, suffix: string, index: int): Fields {
    seq(|fs|, i requires 0 <= i < |fs| => RewriteEntry(suffix, index, fs[i]))
  }

  /**
   * A rewritten helper gets the row name and the row id; its other attributes,
   * its value and its choices are kept.
   */
  lemma RewriteHelperSets(field: string, suffix: string, index: int, h: ViewHelperOptions, k: string)
    ensures var r := RewriteHelper(field, suffix, index, h);
      && r.name == Some(RowName(field, suffix))
      && r.attribs.Some?
      && Lookup(r.attribs.value, "id") == Some(Str(RowId(field, suffix, index)))
      && (k != "id" ==> Lookup(r.attribs.value, k) == Lookup(h.attribs.GetOr([]), k))
      && r.value == h.value && r.choices == h.choices
  {
    PutLookup(h.attribs.GetOr([]), "id", Str(RowId(field, suffix, index)), k);
    PutLookup(h.attribs.GetOr([]), "id", Str(RowId(field, suffix, index)), "id");
  }

  /** The rewrite keeps every field, with the same options apart from its view helpers. */
  lemma {:induction false} RewriteFind(fs: Fields, suffix: string, index: int, f: string)
    ensures FindField(fs, f).None? ==> FindField(RewriteRegistry(fs, suffix, index), f).None?
    ensures FindField(fs, f).Some? ==>
      FindField(RewriteRegistry(fs, suffix, index), f) == Some(RewriteOptions(f, suffix, index, FindField(fs, f).value))
  {
    if fs != [] {
      var r := RewriteRegistry(fs, suffix, index);
      assert r[1..] == RewriteRegistry(fs[1..], suffix, index);
      RewriteFind(fs[1..], suffix, index, f);
    }
  }

  /** The rewrite changes no membership test: the same fields are configured and the same bare names listed. */
  lemma RewriteKeepsFields(fs: Fields, suffix: string, index: int, f: string)
    ensures IsField(RewriteRegistry(fs, suffix, index), f) <==> IsField(fs, f)
    ensures InArray(RewriteRegistry(fs, suffix, index), f) <==> InArray(fs, f)
  {
    RewriteFind(fs, suffix, index, f);
    var r := RewriteRegistry(fs, suffix, index);
    if InArray(fs, f) {
      var i :| 0 <= i < |fs| && fs[i].Listed? && LooseEq(Str(f), Str(fs[i].name));
      assert r[i] == fs[i];
    }
    if InArray(r, f) {
      var i :| 0 <= i < |r| && r[i].Listed? && LooseEq(Str(f), Str(r[i].name));
      assert r[i] == fs[i];
    }
  }

  /** The model therefore takes the same values from a row before and after the rewrite. */
  lemma RewriteKeepsKnownValues(d: map<string, Value>, fs: Fields, suffix: string, index: int)
    ensures KnownValues(d, RewriteRegistry(fs, suffix, index)) == KnownValues(d, fs)
  {
    forall f ensures IsField(RewriteRegistry(fs, suffix, index), f) <==> IsField(fs, f) {
      RewriteKeepsFields(fs, suffix, index, f);
    }
    assert KnownValues(d, RewriteRegistry(fs, suffix, index)).Keys == KnownValues(d, fs).Keys;
  }

  /** The rewrite keeps every entry's kind and name, so string keys stay unique. */
  lemma RewriteWellFormed(fs: Fields, suffix: string, index: int)
    requires WellFormed(fs)
    ensures WellFormed(RewriteRegistry(fs, suffix, index))
  {
    var r := RewriteRegistry(fs, suffix, index);
    forall i, j | 0 <= i < j < |r| && r[i].Configured? && r[j].Configured?
      ensures r[i].name != r[j].name
    {
      assert r[i] == RewriteEntry(suffix, index, fs[i]) && r[j] == RewriteEntry(suffix, index, fs[j]);
    }
  }

  /** Rewriting for one row and then for another is rewriting for the second: the last row wins. */
  lemma {:induction false} RewriteLastRowWins(fs: Fields, suffix: string, i: int, j: int)
    ensures RewriteRegistry(RewriteRegistry(fs, suffix, i), suffix, j) == RewriteRegistry(fs, suffix, j)
  {
    var a := RewriteRegistry(RewriteRegistry(fs, suffix, i), suffix, j);
    var b := RewriteRegistry(fs, suffix, j);
    forall n | 0 <= n < |fs|
      ensures a[n] == b[n]
    {
      if fs[n].Configured? {
        var f := fs[n].name;
        var hs := fs[n].options.viewHelpers;
        var once := RewriteOptions(f, suffix, i, fs[n].options).viewHelpers;
        var twice := RewriteOptions(f, suffix, j, RewriteOptions(f, suffix, i, fs[n].options)).viewHelpers;
        var direct := RewriteOptions(f, suffix, j, fs[n].options).viewHelpers;
        forall m | 0 <= m < |hs|
          ensures twice[m] == direct[m]
        {
          var h := hs[m].1;
          PutTwice(h.attribs.GetOr([]), "id", Str(RowId(f, suffix, i)), Str(RowId(f, suffix, j)));
          assert once[m].1 == RewriteHelper(f, suffix, i, h);
        }
      }
    }
  }

  /** Different rows give a field different element ids. */
  lemma RowIdsDiffer(field: string, suffix: string, i: int, j: int)
    requires i != j
    ensures RowId(field, suffix, i) != RowId(field, suffix, j)
  {
    var p := field + suffix + "_";
    if RowId(field, suffix, i) == RowId(field, suffix, j) {
      assert RowId(field, suffix, i) == p + IntToString(i);
      assert RowId(field, suffix, j) == p + IntToString(j);
      assert IntToString(i) == RowId(field, suffix, i)[|p|..];
      assert IntToString(j) == RowId(field, suffix, j)[|p|..];
      IntToStringInjective(i, j);
    }
  }

  // ---------------------------------------------------------------------------
  // Message keys

  /** `reIndexMessages`: every key gets `_` and the row index appended; order and messages are kept. */
  function ReIndexMessages<V>(index: int, messages: Assoc<V>): (r: Assoc<V>)
    ensures |r| == |messages|
    ensures forall i :: 0 <= i < |r| ==> r[i].1 == messages[i].1
  {
    seq(|messages|, i requires 0 <= i < |messages| => (messages[i].0 + "_" + IntToString(index), messages[i].1))
  }

  /** `k + "_" + s` splits back at its last `_` when `s` holds no `_`. */
  lemma SplitAtLastUnderscore(k1: string, s1: string, k2: string, s2: string)
    requires forall i :: 0 <= i < |s1| ==> s1[i] != '_'
    requires forall i :: 0 <= i < |s2| ==> s2[i] != '_'
    requires k1 + "_" + s1 == k2 + "_" + s2
    ensures k1 == k2 && s1 == s2
  {
    var w := k1 + "_" + s1;
    assert w == k2 + "_" + s2;
    assert w[|k1|] == '_' && w[|k2|] == '_';
    if |k1| == |k2| {
      assert k1 == w[..|k1|] == k2;
      assert s1 == w[|k1| + 1..] == s2;
    }
  }

  /** A re-indexed key determines both the original key and the row. */
  lemma ReIndexedKeyDetermines(k1: string, i: int, k2: string, j: int)
    requires k1 + "_" + IntToString(i) == k2 + "_" + IntToString(j)
    ensures k1 == k2 && i == j
  {
    SplitAtLastUnderscore(k1, IntToString(i), k2, IntToString(j));
    IntToStringInjective(i, j);
  }

  /** The message stored under `k` is found under `k_index` after re-indexing. */
  lemma {:induction false} ReIndexLookup<V>(index: int, messages: Assoc<V>, k: string)
    ensures Lookup(ReIndexMessages(index, messages), k + "_" + IntToString(index)) == Lookup(messages, k)
  {
    if messages != [] {
      var r := ReIndexMessages(index, messages);
      assert r[1..] == ReIndexMessages(index, messages[1..]);
      ReIndexLookup(index, messages[1..], k);
      if r[0].0 == k + "_" + IntToString(index) {
        ReIndexedKeyDetermines(messages[0].0, index, k, index);
      }
    }
  }

  /** Distinct keys stay distinct, so no message is overwritten by another. */
  lemma ReIndexDistinct<V>(index: int, messages: Assoc<V>)
    requires DistinctKeys(messages)
    ensures DistinctKeys(ReIndexMessages(index, messages))
  {
    var r := ReIndexMessages(index, messages);
    forall i, j | 0 <= i < j < |r|
      ensures r[i].0 != r[j].0
    {
      if r[i].0 == r[j].0 {
        ReIndexedKeyDetermines(messages[i].0, index, messages[j].0, index);
      }
    }
  }

  /** Messages of different rows, once re-indexed, never share a key. */
  lemma ReIndexRowsDisjoint<V>(i: int, a: Assoc<V>, j: int, b: Assoc<V>, k: string)
    requires i != j
    ensures !(HasKey(ReIndexMessages(i, a), k) && HasKey(ReIndexMessages(j, b), k))
  {
    if HasKey(ReIndexMessages(i, a), k) && HasKey(ReIndexMessages(j, b), k) {
      var m :| 0 <= m < |ReIndexMessages(i, a)| && ReIndexMessages(i, a)[m].0 == k;
      var n :| 0 <= n < |ReIndexMessages(j, b)| && ReIndexMessages(j, b)[n].0 == k;
      ReIndexedKeyDetermines(a[m].0, i, b[n].0, j);
    }
  }

  // ---------------------------------------------------------------------------
  // The group object

  class ModelGroup {
    /** `_model` */
    var model: Model
    /** `_data`: the rows. */
    var data: Rows
    /** `_originalFields`: the model's registry before any rewrite. */
    var originalFields: Fields
    /** `_modelCount`: how many rows `setValues` reads. */
    var modelCount: int
    /** `_initViewHelperIndex`: the row the view helpers are set up for; none before the first. */
    var initViewHelperIndex: Option<int>
    /** `_initValueIndex`: the row last loaded into the model. */
    var initValueIndex: Option<int>
    /** `nameSuffix`: unset in the source, which reads as the empty string. */
    var nameSuffix: string

    constructor (model: Model, count: int)
      ensures this.model == model && modelCount == count && originalFields == model.fields
      ensures data == map[] && initViewHelperIndex == None && initValueIndex == None && nameSuffix == ""
    {
      this.model := model;
      modelCount := count;
      originalFields := model.fields;
      data := map[];
      initViewHelperIndex := None;
      initValueIndex := None;
      nameSuffix := "";
    }

    /** `factory`: the only way to build a group. */
    static method Factory(model: Model, count: int) returns (g: ModelGroup)
      ensures fresh(g)
      ensures g.model == model && g.modelCount == count && g.originalFields == model.fields
      ensures g.data == map[] && g.initViewHelperIndex == None && g.initValueIndex == None && g.nameSuffix == ""
    {
      g := new ModelGroup(model, count);
    }

    /** `setModel` */
    method SetModel(m: Model)
      modifies this`model
      ensures model == m
    {
      model := m;
    }

    /** `setOriginalFields` */
    method SetOriginalFields(fs: Fields)
      modifies this`originalFields
      ensures originalFields == fs
    {
      originalFields := fs;
    }

    /**
     * `initViewHelpers`: give the model the original registry with every view
     * helper of every configured field named and identified for row `index`.
     * Helper keys are unique, so writing a helper back under its key is
     * replacing it at its position.
     */
    method InitViewHelpers(index: int)
      modifies this`initViewHelperIndex, model`fields
      ensures initViewHelperIndex == Some(index)
      ensures model.fields == RewriteRegistry(originalFields, nameSuffix, index)
      ensures WellFormed(originalFields) ==> WellFormed(model.fields)
    {
      initViewHelperIndex := Some(index);
      var newFields: Fields := [];
      var i := 0;
      while i < |originalFields|
        invariant 0 <= i <= |originalFields|
        invariant |newFields| == i
        invariant forall n :: 0 <= n < i ==> newFields[n] == RewriteEntry(nameSuffix, index, originalFields[n])
      {
        var e := originalFields[i];
        if e.Configured? {
          var hs := e.options.viewHelpers;
          var j := 0;
          while j < |hs|
            invariant 0 <= j <= |hs| && |hs| == |e.options.viewHelpers|
            invariant forall m :: 0 <= m < j ==>
              hs[m] == (e.options.viewHelpers[m].0, RewriteHelper(e.name, nameSuffix, index, e.options.viewHelpers[m].1))
            invariant forall m :: j <= m < |hs| ==> hs[m] == e.options.viewHelpers[m]
          {
            var h := hs[j].1;
            h := h.(name := Some(e.name + nameSuffix + "[]"));
            h := h.(attribs := Some(Put(h.attribs.GetOr([]), "id", Str(e.name + nameSuffix + "_" + IntToString(index)))));
            hs := hs[j := (hs[j].0, h)];
            j := j + 1;
          }
          e := Configured(e.name, e.options.(viewHelpers := hs));
        }
        newFields := newFields + [e];
        i := i + 1;
      }
      if WellFormed(originalFields) {
        RewriteWellFormed(originalFields, nameSuffix, index);
      }
      model.SetFields(newFields);
    }

    /** `initValues`: clear the model and load row `index` into it, if there is one. */
    method InitValues(index: int)
      modifies this`initValueIndex, model`values
      ensures initValueIndex == Some(index)
      ensures model.values == KnownValues(RowAt(data, index), model.fields)
    {
      initValueIndex := Some(index);
      model.ClearValues();
      if index in data {
        model.SetValues(data[index]);
      }
    }

    /**
     * `view`, without the rendering: switching to another row sets up the
     * view helpers and the values for it; the same row again changes nothing.
     */
    method View(index: int)
      modifies this`initViewHelperIndex, this`initValueIndex, model`fields, model`values
      ensures old(initViewHelperIndex) == Some(index) ==>
        initViewHelperIndex == old(initViewHelperIndex) && initValueIndex == old(initValueIndex) &&
        model.fields == old(model.fields) && model.values == old(model.values)
      ensures old(initViewHelperIndex) != Some(index) ==>
        initViewHelperIndex == Some(index) && initValueIndex == Some(index) &&
        model.fields == RewriteRegistry(originalFields, nameSuffix, index) &&
        model.values == KnownValues(RowAt(data, index), originalFields)
    {
      if initViewHelperIndex != Some(index) {
        InitViewHelpers(index);
        InitValues(index);
        RewriteKeepsKnownValues(RowAt(data, index), originalFields, nameSuffix, index);
      }
    }

    /**
     * `setValues`: turn per-field columns into rows `0 .. count - 1`, reading
     * the configured fields, then drop the empty values of every row.
     */
    method SetValues(input: Columns)
      modifies this`data
      ensures SameRows(data, SpreadRows(FieldNames(model.fields), input, modelCount))
    {
      var names := FieldNames(model.fields);
      var max := modelCount;
      data := map[];
      GatherNothing(input, max);
      var i := 0;
      while i < |names|
        invariant 0 <= i <= |names|
        invariant Gathered(data, input, max, names[..i], names[..i], 0)
      {
        var f := names[i];
        GatherStart(data, input, max, names[..i], names[..i] + [f]);
        var x := 0;
        while x < max
          invariant 0 <= x && (x <= max || x == 0)
          invariant Gathered(data, input, max, names[..i], names[..i] + [f], x)
        {
          GatherStepKeeps(data, input, max, names[..i], f, x);
          if f in input && x in input[f] && input[f][x] != Null {
            var row := if x in data then data[x] else map[];
            data := data[x := row[f := input[f][x]]];
          }
          x := x + 1;
        }
        GatherEnd(data, input, max, names[..i], names[..i] + [f], x);
        assert names[..i + 1] == names[..i] + [f];
        i := i + 1;
      }
      assert names[..i] == names;
      ghost var raw := data;
      data := RemoveEmptyValues(data);
      GatherFinish(raw, data, names, input, max);
    }

    /** The last loop of `setValues`: `removeEmptyKeys` on every row. */
    method RemoveEmptyValues(rows: Rows) returns (r: Rows)
      ensures forall y :: y in r <==> y in rows
      ensures forall y :: y in r ==> r[y] == NonEmptyEntries(rows[y])
    {
      r := rows;
      var rest := rows.Keys;
      while rest != {}
        invariant rest <= rows.Keys
        invariant forall y :: y in r <==> y in rows
        invariant forall y :: y in rest ==> r[y] == rows[y]
        invariant forall y :: y in r && y !in rest ==> r[y] == NonEmptyEntries(rows[y])
        decreases rest
      {
        ghost var some := SomeIndex(rest);
        var y :| y in rest;
        var group := model.RemoveEmptyKeys(r[y]);
        r := r[y := group];
        rest := rest - {y};
      }
    }

    /** `setIndexedValues`: take rows as given, keeping in each only the configured fields. */
    method SetIndexedValues(input: Rows)
      modifies this`data
      ensures SameRows(data, IndexRows(model.fields, input))
    {
      var fs := model.fields;
      data := map[];
      var keys := input.Keys;
      while keys != {}
        invariant keys <= input.Keys
        invariant forall k :: k in data <==> k in input && k !in keys && KnownValues(input[k], fs) != map[]
        invariant forall k :: k in data ==> data[k] == KnownValues(input[k], fs)
        decreases keys
      {
        ghost var some := SomeIndex(keys);
        var k :| k in keys;
        var row := input[k];
        var known: map<string, Value> := map[];
        var cols := row.Keys;
        while cols != {}
          invariant cols <= row.Keys
          invariant forall f :: f in known <==> f in row && f !in cols && IsField(fs, f)
          invariant forall f :: f in known ==> known[f] == row[f]
          decreases cols
        {
          var f :| f in cols;
          if IsField(fs, f) {
            known := known[f := row[f]];
          }
          cols := cols - {f};
        }
        assert known == KnownValues(row, fs);
        if known != map[] {
          data := data[k := known];
        }
        keys := keys - {k};
      }
    }

    /** `saveCurrentValues`: store the model's values as row `index`. */
    method SaveCurrentValues(index: int)
      modifies this`data
      ensures data == old(data)[index := model.values]
    {
      data := data[index := model.values];
    }
  }
}

# dc-modeling: the model layer, in Dafny

This project models the in-memory model layer of the `Dc` library.

- **`Dc_Model_Abstract`** is a model object. It holds:
  - a field registry (`_fields`);
  - the current values (`_values`);
  - the record of the last load (`_originalValues`);
  - custom validator message templates (`_validatorMessages`);
  - the messages of its checks (`_messages`);
  - a plugin cache (`_pluginCache`) shared by every model.

  Its `check` runs each configured field through its filters and validators.
- **`Dc_Model_Group`** wraps one model for a sub-form of several rows:
  - It turns column-shaped form input into rows.
  - It loads one row at a time into the model.
  - It rewrites the model's view helper names and ids per row.
  - It re-keys messages per row.

## Modules

- `Wrappers`: `Option`.
- `Assoc`: PHP arrays with string keys, as ordered sequences of pairs. `Put` is `$a[$k] = $v`: it replaces the value in place or appends.
- `Php`: what the model needs of PHP's semantics:
  - a `Value` type (null, int, string, bool);
  - `trim`, `empty`, the model's `isEmpty` and loose `==`;
  - `ucfirst` and the decimal form of an int.
- `Registry`: the field registry. It has two kinds of entry:
  - a field name keyed to its options;
  - a bare field name under an automatic integer key.

  For field names that are not decimal integers, `array_key_exists` sees only the first kind and `in_array` matches only the second. A name such as `"0"` is an integer key in PHP and can meet a bare entry's automatic key; this case is not modelled (see Left out).
- `Plugins`: class name resolution, plugin instances as values, and the plugin cache (class `PluginCache`).
- `Pipeline`: the filter/validator pipeline of `check`, as functions over the values, the messages and the cache. `check`'s `continue` and `break 2` become an explicit abort flag.
- `Models`: the class `Model`. Most loops of the source are methods proved equal to a specification function. The loops of `getValidators` and `mergeMessages` are modelled only as the functions `GetValidators` and `MergeMessages`. `SetValidatorMessages` and `SetViewHelpers` carry the weaker contracts listed under Left out.
- `Groups`: the class `ModelGroup`, with the specification of its row building and name rewriting.

## Inputs instead of the environment

- Which class names the autoloader can load is a set of names, `loadable`.
- A filter is a function `filter(plugin, value)`. A validator is a function `validate(plugin, value)` that returns `Valid` or `Invalid(errors)`. Both receive the configured instance, so options and custom templates reach them.
- The data mapper is a function `get(keys)`. It returns the record, or an empty map when there is none.
- A thrown `Dc_Model_Exception("Field … does not exists")` is the result `Some(FieldDoesNotExist(field))`.

## Model

| member | source | states |
|---|---|---|
| Assoc.Lookup | library/Dc/Model/Abstract.php:1280-1282 | Reading `$a[$k]` after `isset`: a value exactly when the key is present, and it is the value stored under the key, which is unique when keys are distinct. |
| Assoc.Put | library/Dc/Model/Abstract.php:567 | `$a[$k] = $v` adds one entry exactly when the key is new. Its properties are those of `PutLookup`, `PutTwice`, `PutShape` and `PutDistinct`. |
| Assoc.PutLookup | library/Dc/Model/Abstract.php:567 | After `$a[$k] = $v`, `k` reads back as `v` and every other key reads as before. |
| Assoc.PutTwice | library/Dc/Model/Abstract.php:567 | A second assignment to the same key overrides the first and leaves nothing else behind. |
| Assoc.PutShape | library/Dc/Model/Abstract.php:567 | A new key is appended at the end; an existing key keeps every key at its position. |
| Assoc.PutDistinct | library/Dc/Model/Abstract.php:567 | Assignment never puts a key in an array twice. |
| Assoc.First | library/Dc/Model/Abstract.php:1320 | `reset($a)` gives nothing exactly for an empty array, and otherwise the value stored under the first key. |
| Php.Trim | library/Dc/Model/Abstract.php:262 | PHP's `trim` with its default character set. Its property is that of `TrimEmptyIff`. |
| Php.IsEmpty | library/Dc/Model/Abstract.php:260-267 | The condition of `isEmpty`, written out: not `0`, not `"0"`, `trim` gives `""`, and `empty` holds. Its property is that of `IsEmptyExactly`. |
| Php.LooseEq | library/Dc/Model/Abstract.php:824 | PHP's `==` on null, int, string and bool. Its properties are those of `LooseEqReflexiveSymmetric` and `LooseEqNotTransitive`. |
| Php.IsEmptyExactly | library/Dc/Model/Abstract.php:260-267 | `isEmpty` holds exactly for null, `""` and `false`. `0`, `"0"` and whitespace-only strings are not empty. |
| Php.TrimEmptyIff | library/Dc/Model/Abstract.php:262 | `trim(s)` is `""` exactly when every character of `s` is one `trim` strips. |
| Php.LooseEqReflexiveSymmetric | library/Dc/Model/Abstract.php:824 | PHP's loose `==` on the modelled values is reflexive and symmetric. |
| Php.LooseEqNotTransitive | library/Dc/Model/Abstract.php:824 | Loose `==` is not transitive: `"abc" == 0` and `0 == "0"`, but `"abc" != "0"`. |
| Php.Ucfirst | library/Dc/Model/Abstract.php:911 | `ucfirst` keeps the length, upper-cases only the first character and keeps the rest. |
| Php.UcfirstIdempotent | library/Dc/Model/Abstract.php:911 | Applying `ucfirst` twice is applying it once. |
| Php.PhpEmpty | library/Dc/Model/Abstract.php:262 | PHP's `empty()` on a scalar. Its relation to `isEmpty` is that of `EmptyWiderThanIsEmpty`. |
| Php.EmptyWiderThanIsEmpty | library/Dc/Model/Abstract.php:260-267 | `empty()` accepts every value `isEmpty` accepts, and exactly two more: `0` and `"0"`. |
| Php.IntToString | library/Dc/Model/Group.php:166 | The decimal form of an integer, as string concatenation writes it: non-empty, made of digits and `-`. Its properties are those of `IntToStringSign` and `IntToStringInjective`. |
| Php.IntToStringSign | library/Dc/Model/Group.php:166 | The decimal form starts with `-` exactly for a negative integer. |
| Php.IntToStringInjective | library/Dc/Model/Group.php:166 | Different integers have different decimal forms. |
| Registry.IsField | library/Dc/Model/Abstract.php:482-485 | `array_key_exists` on the registry: some configured entry has the name. |
| Registry.InArray | library/Dc/Model/Abstract.php:628 | `in_array` on the registry: some bare entry loosely equals the name. |
| Registry.SetField | library/Dc/Model/Abstract.php:455-458 | `$this->_fields[$f] = $options`. Its properties are those of the `SetField…` lemmas below. |
| Registry.FindField | library/Dc/Model/Abstract.php:466-474 | `getField` yields options exactly for a key of the registry, and they are that entry's options. |
| Registry.SetFieldFind | library/Dc/Model/Abstract.php:455-458 | After `setField`, the field reads back with the new options and every other field reads as before. |
| Registry.SetFieldShape | library/Dc/Model/Abstract.php:455-458 | `setField` keeps the length for a known field and appends an unknown one. Every other entry, bare ones included, stays at its position. |
| Registry.SetFieldWellFormed | library/Dc/Model/Abstract.php:455-458 | `setField` never creates a second entry under a key. |
| Registry.SetFieldNames | library/Dc/Model/Abstract.php:455-458 | Every entry after `setField` is the new entry or one that was already there. |
| Registry.SetFieldFound | library/Dc/Model/Abstract.php:455-458 | Writing back a field's own options leaves the registry unchanged. |
| Registry.SetFieldKeepsInArray | library/Dc/Model/Abstract.php:690 | Storing under a key never removes a bare name, so what `in_array` accepted stays accepted. |
| Registry.FieldNames | library/Dc/Model/Group.php:229 | The string keys of the registry are exactly the configured fields. |
| Registry.InArrayIsNotIsField | library/Dc/Model/Abstract.php:628 | The `in_array` guard rejects a configured field that `array_key_exists` accepts, and accepts a bare name that `array_key_exists` rejects. |
| Plugins.GetClassFullName | library/Dc/Model/Abstract.php:903-919 | The name is the given one if loadable, else prefix plus `ucfirst(name)` if that is loadable, else nothing. A result is always loadable. |
| Plugins.ResolveIdempotent | library/Dc/Model/Abstract.php:903-919 | Resolving a resolved name gives it back. |
| Plugins.IndexOf | library/Dc/Model/Abstract.php:879 | `strpos` finds the first position of the prefix, or reports none when it occurs nowhere. |
| Plugins.ClassBaseNameKeepsPrefix | library/Dc/Model/Abstract.php:876-888 | `getClassBaseName` returns a suffix of the name that still starts with the prefix, and a full class name comes back whole, not the short name. |
| Plugins.Construct | library/Dc/Model/Abstract.php:949-956 | Filters and validators get the options in their constructor; view helpers get none. |
| Plugins.Fetch | library/Dc/Model/Abstract.php:945-960 | A hit returns the cached instance and changes nothing. A miss builds the instance and caches it under its class. Every cached instance stays under its own class name. |
| Plugins.FirstInstanceWins | library/Dc/Model/Abstract.php:945-960 | A second fetch with other options returns the first instance and leaves the cache as it was. |
| Plugins.ApplyPluginOptions | library/Dc/Model/Abstract.php:1009-1021 | Each option reaches its setter, so it is recorded on the instance. Settings not among the options keep their values. With no options the instance is unchanged. |
| Plugins.SetMessages | library/Dc/Model/Abstract.php:1241-1244 | Custom templates override the validator's templates of the same kind and keep the others. No other kind is added, and the instance's class, constructor options and settings are unchanged. |
| Plugins.Store | library/Dc/Model/Abstract.php:975-986 | The instance is cached under its kind and class, every other entry is unchanged, and every instance stays under its own class name. |
| Plugins.GetClassBaseName | library/Dc/Model/Abstract.php:876-888 | The tail of the name from the first occurrence of the prefix, or the whole name when the prefix does not occur. Its properties are those of `ClassBaseNameKeepsPrefix`. |
| Plugins.PluginCache.constructor | library/Dc/Model/Abstract.php:203 | The cache starts empty. |
| Plugins.PluginCache.GetCachedPlugin | library/Dc/Model/Abstract.php:945-960 | The instance returned and the new cache are those of `Fetch`. |
| Plugins.PluginCache.SetCachedPlugin | library/Dc/Model/Abstract.php:971-987 | The instance replaces whatever was cached under its kind and class. |
| Plugins.PluginCache.ClearCachedPlugin | library/Dc/Model/Abstract.php:994-997 | The cache is empty for every kind. |
| Pipeline.FilterStep | library/Dc/Model/Abstract.php:1179-1193 | One filter: an unresolved name is skipped; otherwise the cached instance gets its options and filters the field's value. |
| Pipeline.RunFilters | library/Dc/Model/Abstract.php:1177-1194 | The filters of a field, in order. Its properties are those of `FiltersTouchOnlyTheField` and `FiltersKeepCacheValid`. |
| Pipeline.Record | library/Dc/Model/Abstract.php:1248-1250 | A failure stores its first error under the field, and no other field changes. A field that had no message then holds exactly that one. |
| Pipeline.ValidatorStep | library/Dc/Model/Abstract.php:1218-1257 | One validator: skipped once the field has a message or when its name does not resolve. Otherwise it is configured with options and custom templates and run; a failure is recorded, and aborts when the validator breaks the chain. |
| Pipeline.RunValidators | library/Dc/Model/Abstract.php:1216-1259 | The validators of a field, in order, stopping at an abort. Its properties are those of `ValidatorsSkippedOnceMessage` and `ValidatorsRecordAtMostOne`. |
| Pipeline.PrepareField | library/Dc/Model/Abstract.php:1169-1201 | Filters, then null for an empty value when the field asks for it. |
| Pipeline.CheckField | library/Dc/Model/Abstract.php:1119-1260 | One pass of the outer loop. Its properties are those of `DependentFieldSkipped`, `OptionalEmptyFieldNotValidated`, `RequiredEmptyFieldGetsNotEmptyMessage` and `CheckFieldKeepsMessages`. |
| Pipeline.CheckFields | library/Dc/Model/Abstract.php:1119-1260 | The outer loop over the registry, stopping at an abort. Its properties are those of `CheckFieldsKeepsMessages`, `AbortSkipsLaterFields` and `CheckFieldsCompose`. |
| Pipeline.GetCustomMessages | library/Dc/Model/Abstract.php:1278-1286 | Templates are returned exactly when some are configured for the field and validator. |
| Pipeline.EffectiveValidators | library/Dc/Model/Abstract.php:1139-1160 | A required field without `NotEmpty` gets `NotEmpty` in front of its validators, with the option `type` set to `Zend_Validate_NotEmpty::STRING` (8). Otherwise the validators are the configured ones. |
| Pipeline.FiltersTouchOnlyTheField | library/Dc/Model/Abstract.php:1177-1194 | Filters change no message, and no value of any other field. |
| Pipeline.ValidatorsSkippedOnceMessage | library/Dc/Model/Abstract.php:1218-1222 | Once a field has a message, none of its validators runs. Values, messages and cache are untouched, and nothing aborts. |
| Pipeline.ValidatorsRecordAtMostOne | library/Dc/Model/Abstract.php:1216-1259 | Validators never change values. A field that had no message ends with none or exactly one, and no other field's messages change. An abort comes only with that message and from a validator that breaks the chain. |
| Pipeline.CheckFieldKeepsMessages | library/Dc/Model/Abstract.php:1119-1260 | Handling one field never removes or changes an existing message, and keeps at most one message per field. |
| Pipeline.CheckFieldsKeepsMessages | library/Dc/Model/Abstract.php:1119-1260 | The same holds for a run over the whole registry, so messages accumulate across runs. |
| Pipeline.AbortSkipsLaterFields | library/Dc/Model/Abstract.php:1253-1257 | After a break-chain failure, no later field is looked at. |
| Pipeline.CheckFieldsCompose | library/Dc/Model/Abstract.php:1119-1260 | Without an abort, a run over two parts of the registry is the run over the first part followed by the run over the second. |
| Pipeline.DependentFieldSkipped | library/Dc/Model/Abstract.php:1122-1130 | A field whose dependent field has a message is skipped entirely: nothing changes. |
| Pipeline.OptionalEmptyFieldNotValidated | library/Dc/Model/Abstract.php:1203-1207 | An optional field that is empty after filters and null coercion runs no validator and gets no message. |
| Pipeline.OptionalEmptyUnfilteredNoMessage | library/Dc/Model/Abstract.php:1203-1207 | An optional, unfiltered, empty field adds no message and never aborts. |
| Pipeline.ResolveNotEmpty | library/Dc/Model/Abstract.php:1224 | The inserted name `NotEmpty` resolves to `Zend_Validate_NotEmpty` when only the latter is loadable. |
| Pipeline.NotEmptyStepRecords | library/Dc/Model/Abstract.php:1224-1257 | The inserted `NotEmpty`, run on a field without a message whose value it rejects, records its first error as the field's only message and does not abort. |
| Pipeline.RequiredEmptyFieldGetsNotEmptyMessage | library/Dc/Model/Abstract.php:1139-1160 | A required field without `NotEmpty` and without a message is checked by the inserted `Zend_Validate_NotEmpty`, whatever its filters. When that validator rejects the value left after filters and null coercion, the field ends with exactly its first error, and the run does not abort. |
| Pipeline.FiltersKeepCacheValid | library/Dc/Model/Abstract.php:1190-1191 | Filters leave every cached instance under its own class name. |
| Models.NonEmptyEntries | library/Dc/Model/Abstract.php:288-300 | The entries whose value is not empty, with their values unchanged. |
| Models.KnownValues | library/Dc/Model/Abstract.php:733-757 | The entries whose key is a configured field, with their values unchanged. |
| Models.MappedValues | library/Dc/Model/Abstract.php:851-863 | The values without the fields that are not mapped to the data source. |
| Models.ChangedValues | library/Dc/Model/Abstract.php:806-832 | With no original values, everything is changed. Otherwise a value is changed exactly when its field has an original value that is loosely different. |
| Models.MergeMessages | library/Dc/Model/Abstract.php:1314-1324 | Each field maps to its first message, or `false` when it has none. |
| Models.GetValidators | library/Dc/Model/Abstract.php:600-611 | Each configured field maps to its validators. Bare entries do not appear. |
| Models.PutTemplate | library/Dc/Model/Abstract.php:633 | The template is stored under field, validator and error kind. The other templates of that validator and every other field/validator pair keep theirs. |
| Models.ModelEmptyIff | library/Dc/Model/Abstract.php:275-281 | The model is empty exactly when every current value is empty. |
| Models.NonEmptyEntriesIdempotent | library/Dc/Model/Abstract.php:288-300 | Removing empty keys twice removes nothing more. |
| Models.FreshLoadIsClean | library/Dc/Model/Abstract.php:806-832 | After loading a non-empty record, nothing is reported as changed until a value is set, provided every key of the current values is a configured field. A key left over from a field no longer in the registry is reported as changed. |
| Models.NewFieldNeverChanged | library/Dc/Model/Abstract.php:819-829 | Once a record is loaded, a field absent from it is never reported as changed. |
| Models.MergeLosesNothing | library/Dc/Model/Abstract.php:1314-1324 | When each field holds at most one message, as after a check, merging keeps every message. |
| Models.SetFieldTwice | library/Dc/Model/Abstract.php:455-458 | Setting a field's options twice is setting them once with the second options. |
| Models.PutAllLookup | library/Dc/Model/Abstract.php:587-590 | After a sequence of assignments, a key holds the last value assigned to it, or its old value when none was. |
| Models.Model.constructor | library/Dc/Model/Abstract.php:211-220 | A new model has the registry its `init` gives it, and no values, record, templates or messages. |
| Models.Model.SetValue | library/Dc/Model/Abstract.php:749-757 | The value is set for a configured field. An unknown field leaves the values unchanged. |
| Models.Model.SetValues | library/Dc/Model/Abstract.php:733-741 | The values gain exactly the entries whose key is a configured field. |
| Models.Model.GetValue | library/Dc/Model/Abstract.php:766-777 | The value of a configured field that was set. Null for an unknown or unset field. |
| Models.Model.ClearValues | library/Dc/Model/Abstract.php:795-799 | No value is left. |
| Models.Model.RemoveEmptyKeys | library/Dc/Model/Abstract.php:288-300 | The result is `NonEmptyEntries` of the input. |
| Models.Model.IsModelEmpty | library/Dc/Model/Abstract.php:275-281 | True exactly when every current value is empty. |
| Models.Model.GetChangedValues | library/Dc/Model/Abstract.php:806-832 | The result is `ChangedValues` of the values and the record. |
| Models.Model.GetMappedValues | library/Dc/Model/Abstract.php:851-863 | The result is `MappedValues` of the values. |
| Models.Model.Load | library/Dc/Model/Abstract.php:309-332 | The non-empty keys are taken from the argument, or from the mapped values when there is none. With no non-empty key the mapper is not asked and nothing changes. A non-empty record is set as values and kept as the original. An empty record changes nothing. |
| Models.Model.IsLoaded | library/Dc/Model/Abstract.php:339-342 | A record was loaded: the original values are not empty. |
| Models.Model.Reset | library/Dc/Model/Abstract.php:349-355 | Values and record are cleared, so the model is no longer loaded. |
| Models.Model.RecordExists | library/Dc/Model/Abstract.php:521-532 | The mapper is asked with the non-empty keys, even when there are none. The answer is whether it found a record. |
| Models.Model.SetFields | library/Dc/Model/Abstract.php:431-436 | The registry is replaced. |
| Models.Model.SetFieldOptions | library/Dc/Model/Abstract.php:455-458 | The field reads back with the new options, and every other field is unchanged. String keys stay unique. |
| Models.Model.SetValidator | library/Dc/Model/Abstract.php:560-570 | An unknown field is an error that changes nothing. Otherwise the validator is stored in the field's options, and no other field changes. String keys stay unique. |
| Models.Model.SetValidators | library/Dc/Model/Abstract.php:580-593 | An unknown field is an error. Otherwise the registry is that of the assignments made one after the other. String keys stay unique. |
| Models.Model.SetValidatorMessage | library/Dc/Model/Abstract.php:626-636 | Only a bare field name passes the `in_array` guard; anything else is an error that changes nothing. A passing name gets the template stored. |
| Models.Model.SetValidatorMessages | library/Dc/Model/Abstract.php:649-662 | The same guard. A passing name gets its templates stored, and every other field/validator pair is unchanged. |
| Models.Model.SetViewHelper | library/Dc/Model/Abstract.php:683-692 | The same guard. The helper is stored directly under the field's options, not under `viewHelpers`, which stay as they were. A bare name becomes a configured field, and no other field changes. String keys stay unique. |
| Models.Model.SetViewHelpers | library/Dc/Model/Abstract.php:702-715 | The same guard, and no other field changes. String keys stay unique. |
| Models.Model.GetViewHelpers | library/Dc/Model/Abstract.php:722-725 | `_viewHelpers` is not a declared property, so `__get` (Abstract.php:228-231) answers it: the value of a configured field named `_viewHelpers` when one is set, null otherwise. |
| Models.Model.HasAnyMessages | library/Dc/Model/Abstract.php:1293-1296 | Some message is recorded. |
| Models.Model.ApplyFilters | library/Dc/Model/Abstract.php:1177-1194 | Values and cache become those of `RunFilters`. |
| Models.Model.RunValidator | library/Dc/Model/Abstract.php:1218-1257 | One pass of the validator loop: the new messages, cache and abort flag are those of `ValidatorStep`. |
| Models.Model.ApplyValidators | library/Dc/Model/Abstract.php:1216-1259 | Messages, cache and abort flag become those of `RunValidators`. |
| Models.Model.CheckEntry | library/Dc/Model/Abstract.php:1119-1260 | One pass of the outer loop: the new state and abort flag are those of `CheckField`. |
| Models.Model.Check | library/Dc/Model/Abstract.php:1112-1268 | The new state is that of the pipeline over the registry. The result is true exactly when no message is recorded. Old messages are kept, at most one per field. Registry, templates and record are unchanged. |
| Groups.RawRow | library/Dc/Model/Group.php:241-245 | Row `x` holds the listed fields whose column is set (non-null) at `x`, with those values. |
| Groups.RawRowSnoc | library/Dc/Model/Group.php:235-247 | Reading one more field adds its value when set and nothing otherwise. |
| Groups.SpreadRows | library/Dc/Model/Group.php:225-257 | A row exists for an index below the count where some configured field's column is set. It holds exactly the set, non-empty values of configured fields, taken from the input. |
| Groups.IndexRows | library/Dc/Model/Group.php:273-290 | A row is kept when it has a configured field, and it holds exactly its configured fields, values unchanged. |
| Groups.IndexedRowLoadsBack | library/Dc/Model/Group.php:308-317 | Loading an indexed row gives the model the configured fields of the input row. |
| Groups.SavedRowLoadsBack | library/Dc/Model/Group.php:325-330 | A saved row loads back into the model unchanged. |
| Groups.RewriteHelperSets | library/Dc/Model/Group.php:164-166 | A helper gets the row name `field+suffix+"[]"` and the id `field+suffix+"_"+index`. Its other attributes, value and choices are kept. |
| Groups.RewriteFind | library/Dc/Model/Group.php:149-174 | Every field keeps its options except its view helpers, and no field is added. |
| Groups.RewriteKeepsFields | library/Dc/Model/Group.php:149-174 | The rewrite changes neither which fields are configured nor which bare names are listed. |
| Groups.RewriteKeepsKnownValues | library/Dc/Model/Group.php:181-188 | The model takes the same values from a row before and after the rewrite. |
| Groups.RewriteWellFormed | library/Dc/Model/Group.php:156-170 | The rewrite keeps each entry's kind and key, so string keys stay unique. |
| Groups.RewriteRegistry | library/Dc/Model/Group.php:154-173 | The original registry, entry by entry, with the view helpers of each configured field rewritten. Its properties are those of `RewriteFind`, `RewriteKeepsFields` and `RewriteLastRowWins`. |
| Groups.RewriteHelper | library/Dc/Model/Group.php:164-166 | One helper's new name and id. Its properties are those of `RewriteHelperSets`. |
| Groups.RewriteLastRowWins | library/Dc/Model/Group.php:149-174 | Rewriting for one row, then for another, is rewriting for the second only. |
| Groups.RowIdsDiffer | library/Dc/Model/Group.php:166 | Two rows give a field different element ids. |
| Groups.ReIndexMessages | library/Dc/Model/Group.php:340-349 | The result has the same entry count and the same messages, in order. |
| Groups.ReIndexedKeyDetermines | library/Dc/Model/Group.php:345 | A re-indexed key determines the original key and the row. |
| Groups.ReIndexLookup | library/Dc/Model/Group.php:340-349 | The message under `k` is found under `k_index` afterwards. |
| Groups.ReIndexDistinct | library/Dc/Model/Group.php:340-349 | Distinct keys stay distinct, so no message overwrites another. |
| Groups.ReIndexRowsDisjoint | library/Dc/Model/Group.php:340-349 | Messages of two different rows never share a key. |
| Groups.ModelGroup.constructor | library/Dc/Model/Group.php:65-71 | The group wraps the model, stores the count, and snapshots the model's registry as the original fields. |
| Groups.ModelGroup.Factory | library/Dc/Model/Group.php:81-84 | A fresh group built by the constructor. |
| Groups.ModelGroup.SetModel | library/Dc/Model/Group.php:92-96 | The wrapped model is replaced. |
| Groups.ModelGroup.SetOriginalFields | library/Dc/Model/Group.php:134-139 | The original fields are replaced. |
| Groups.ModelGroup.InitViewHelpers | library/Dc/Model/Group.php:149-174 | The model's registry becomes the original fields rewritten for the row. The original fields are untouched, the index is recorded, and unique string keys stay unique. |
| Groups.ModelGroup.InitValues | library/Dc/Model/Group.php:308-317 | The model holds exactly the configured fields of the stored row, and none when there is no row. The index is recorded. |
| Groups.ModelGroup.View | library/Dc/Model/Group.php:181-191 | The same row as last time changes nothing. Another row gets the registry rewritten and the row's values loaded. |
| Groups.ModelGroup.SetValues | library/Dc/Model/Group.php:225-257 | The rows become `SpreadRows` of the configured field names, the input and the count. |
| Groups.ModelGroup.RemoveEmptyValues | library/Dc/Model/Group.php:250-253 | Same rows, each with its empty values removed. |
| Groups.ModelGroup.SetIndexedValues | library/Dc/Model/Group.php:273-290 | The rows become `IndexRows` of the registry and the input. |
| Groups.ModelGroup.SaveCurrentValues | library/Dc/Model/Group.php:325-330 | Row `index` becomes the model's values, and every other row is unchanged. |

`setIndexedValues` (Group.php:278-287) creates a row only when one of its fields is configured. Other input rows are dropped, not kept as empty rows.

## Left out

- Sessions (`setSession` … `getSessionValue`), the `Dc_Mapper_Db` implementation, `getDefaultMapper` and the constructor's `mapper` option are left out. The mapper is the `get` parameter.
- Logging, and exceptions as thrown objects: an exception is an error result.
- The rendering in `view` of both classes. `ModelGroup.View` models only the row switching.
- The view renderer that `setCachedPlugin` attaches to view helpers.
- The dynamic `set<Key>` call in `applyPluginOptions`: an option is recorded on the instance, under its key.
- `initValidators` and the Abstract `initViewHelpers`: these are empty hooks for subclasses.
- `__get`, `__set`, `toArray`, `getFields`, `getValues`, `getOriginalValues`, `getMessages`, `getValidatorMessages`, `getModel`, `getCount`, `getOriginalFields` and `hasField` only return a property or forward to a modelled member.
- Floats, arrays as values, and numeric strings with exponents or a fraction are not modelled. Loose `==` covers null, int, string and bool.
- The model assumes PHP 5.4 to 7.4. `isset` on a string offset with a non-numeric key is false, so a bare registry entry has no options and `check` passes over it; under PHP 5.3 it is true. Loose `==` follows PHP 7, where a non-numeric string equals `0`. Hex strings, which PHP 5 compares as numbers (`26 == "0x1A"`), are plain strings here.
- Models.Model.SetViewHelper: a helper named like an option key (`required`, `nullWhenEmpty`, `dependent`, `filters`, `validators`, `viewHelpers`) replaces that option in PHP, since the helper is stored beside the options. The model stores every helper in `stray`, and its contract says `viewHelpers` is unchanged, which is wrong for a helper named `viewHelpers`. Options are a record of typed parts here, and one of them cannot hold a helper's options.
- Class names are compared case-sensitively, while PHP's `class_exists` is case-insensitive.
- The order of `_values` and `_data` is not kept: they are maps. Registry, filter, validator, helper and message order is kept.
- `(int)` casts in the group (`(int)$count`, `(int)$index`): count and index are already integers here.
- Registry.IsField / Registry.SetField: PHP turns a field name written as a decimal integer (`"0"`, `"12"`) into an integer key. Such a key can collide with the automatic key of a bare entry, so `array_key_exists("0", …)` sees the bare entry at position 0 and `setField("0", …)` or `setViewHelper("0", …)` writes into its slot. The model keeps configured names apart from bare entries, so it answers `IsField(fs, "0") == false` there and can hold a registry, such as a bare `phone` beside a configured `"0"`, that PHP cannot build. Such names are not modelled.
- Models.GetValidators: a configured field with no `validators` key is listed with an empty list. An absent and an empty list are the same here.
- Pipeline.Record: a validator that fails with an empty message list records the message `""` under the kind `""`. PHP also uses the key `""` (a null key becomes `""`) but stores `false` as the message.
- Groups.ModelGroup.SetValues: bare registry entries sit under integer keys, and those keys are not matched against input columns.
- Groups.ModelGroup.SetIndexedValues: the same holds for bare entries here.
- Models.Model.SetValidatorMessages: states that the pair's templates exist after a non-empty list, not the exact final template map.
- Models.Model.SetViewHelpers: states the guard and that no other field changes, not the final options of the field.

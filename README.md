# forms_to_json in Dafny

A model of the `FormToJSON` class of forms_to_json. The class turns a form's
ordered list of controls into a flat name → value record.

- `parse` walks the controls in order. It skips every control that has an
  empty `name` or `value`, that is an unchecked checkbox or radio, or that is
  a file input. Each remaining control writes one entry: a multi-select writes
  the list of its selected option values, and every other control writes its
  `value`. A later write to the same name replaces an earlier one.
- `parseWithFiles` runs `parse`, then encodes the files of every file input
  with a non-empty name and value. It encodes one file at a time into a
  per-call store and merges that store over the `parse` record. The first read
  error rejects the whole call.

Modules, one per part of `index.js`:

- `FormData` (form_data.dfy): the control, option, file and field-value
  datatypes; the predicates `IsValidElement`, `IsValidValue`, `IsCheckbox`,
  `IsMultiSelect` and `IsFile` (index.js:114-141); `SelectValues`, which models
  `getSelectValues`.
- `Extraction` (extraction.dfy): `Extract`, the left fold `parse` computes, and
  the lemmas about it.
- `FileStore` (file_store.dfy): the store of `_createStoreForFiles` as the class
  `Store`. Its field `hash` is updated in place by `Add`, read by `Get`, and
  copied into the result by `MergeTo`. Beside the class sit the pure update
  `StoreAdd` and its repeated form `AddAll`.
- `Uploads` (uploads.dfy): the file inputs `parseWithFiles` selects, the
  sequence of `add` calls they cause (`Jobs`), the sequential fold over those
  calls (`Run`), a reference version that encodes first and adds afterwards
  (`EncodeAll` with `AddAll`), and `ExtractWithFiles`, the value
  `parseWithFiles` resolves to.
- `FormToJson` (form_to_json.dfy): the class `FormToJson`. It keeps the list of
  controls the constructor copies (the list only: each control's state is a
  value read once, see "## Left out") and has the methods `Parse`,
  `HasManyCheckboxFor` and `ParseWithFiles`. `Parse` and `ParseWithFiles`
  are proved equal to the specification functions above (`Extract` and
  `ExtractWithFiles`); `HasManyCheckboxFor` is proved to return false for
  every name.

The file encoder (`convertToBase64`, a browser `FileReader`) is a parameter
`encode: File -> Result<string>`. Each call either succeeds with a string or
fails with a `ReadError`. `Convert` adds one case of the code's own: a
single-file input whose file list is empty hands `undefined` to the encoder,
and the encoder rejects it. That rejection is `Err(NotABlob)`.

Where the code and its own comments disagree, the model follows the code:

- The comments at index.js:21-23 and index.js:36 describe storing the values
  of checkboxes that share a name as an array. The code never builds one:
  `_has_many_checkbox_for` breaks right after its first match, so its counter
  never exceeds 1 and it always returns false (`HasManyCheckboxFor` proves
  `!hasMany`). The array branch at index.js:28-32 is therefore dead: in `Parse`
  it is an `if hasMany { assert false; }`. Checkboxes always write a scalar,
  and the last checked one with a given name wins (`CheckboxNameIsScalar`,
  `SharedCheckboxExample`).
- File inputs are also filtered with `isValidElement` (index.js:53), so a file
  input with an empty name or value is skipped.
- `add` tests the stored entry for truthiness. A stored empty string therefore
  counts as absent, and the next file replaces it instead of starting a list.
  `StoreAdd` keeps this behaviour. The grouping lemmas assume non-empty
  encodings, which holds for the data URIs `readAsDataURL` produces (they
  start with `data:`).

## Model

| member | source | states |
|---|---|---|
| `FormToJson.FormToJson.constructor` | index.js:10-13 | the extractor keeps the given control list |
| `FormToJson.FormToJson.HasManyCheckboxFor` | index.js:97-107 | for every name and every control list the answer is false: the loop stops at the first checkbox with that name, so the counter stays at most 1 |
| `FormToJson.FormToJson.Parse` | index.js:15-45 | the record built by the in-place loop equals `Extract(elements)`; the shared-checkbox array branch is proved unreachable |
| `Extraction.Included` | index.js:19-19 | definition: the filter of `parse`, valid element and valid value and not a file input; its meaning is stated by `ExtractKeys` and `ExtractExcludes` |
| `Extraction.Entry` | index.js:25-41 | definition: the value one included control writes, a scalar for a checkbox, the selected values for a multi-select, its value otherwise; its meaning is stated by `CheckboxNameIsScalar`, `MultiSelectWins` and `PlainControlWins` |
| `Extraction.Write` | index.js:19-41 | definition: the record after one control has been visited; its meaning is stated by `ExtractIsLastWrite` |
| `Extraction.Extract` | index.js:15-45 | definition: the record `parse` returns, a left fold of `Write` over the controls; its meaning is stated by `ExtractIsLastWrite` and `ExtractKeys` |
| `Extraction.LastIncluded` | index.js:17-19 | the index of the last control that passes the three filters and carries the name, or -1; no later control with that name passes |
| `Extraction.ExtractIsLastWrite` | index.js:15-45 | a name is in the record iff some control with that name passes the filters, and then it holds the entry of the last such control in collection order |
| `Extraction.ExtractKeys` | index.js:19-19 | the record's keys are exactly the names of the controls that pass `isValidElement`, `isValidValue` and `!isFile` |
| `Extraction.ExtractExcludes` | index.js:114-125 | no key for the empty name, nor for a name whose every control has an empty value, is an unchecked checkbox or radio, or is a file input |
| `Extraction.CheckboxNameIsScalar` | index.js:25-35 | a name used only by checkboxes is never an array: it holds the scalar value of the last checked one with a non-empty value, and is present whenever one is checked with a non-empty value |
| `Extraction.MultiSelectWins` | index.js:37-38 | a multi-select that is the last qualifying control for its name leaves the list of its selected option values, no longer than its option list, overwriting earlier entries |
| `Extraction.PlainControlWins` | index.js:39-41 | any other qualifying control (text-like, checked radio) that is last for its name leaves its own value as a scalar |
| `Extraction.SharedCheckboxExample` | index.js:25-35 | `user`=alice plus two checkboxes `tags` (x checked, y not) give `{user: "alice", tags: "x"}` |
| `FormData.IsValidElement` | index.js:114-116 | definition: non-empty `name` and non-empty `value`; its meaning is stated by `Extraction.ExtractExcludes` and `Uploads.FileInputsMembers` |
| `FormData.IsValidValue` | index.js:123-125 | definition: not a checkbox or radio, or checked; its meaning is stated by `Extraction.ExtractExcludes` |
| `FormData.IsCheckbox` | index.js:132-132 | definition: type `checkbox`; its meaning is stated by `Extraction.CheckboxNameIsScalar` |
| `FormData.IsMultiSelect` | index.js:139-139 | definition: has options and `multiple`; its meaning is stated by `Extraction.MultiSelectWins` |
| `FormData.IsFile` | index.js:141-141 | definition: type `file`; its meaning is stated by `Extraction.ExtractExcludes` and `Uploads.FileInputsMembers` |
| `FormData.SelectValues` | index.js:148-152 | the read-out is no longer than the option list and every value in it is the value of a selected option |
| `FormData.SelectValuesAppend` | index.js:148-152 | option order is kept: the read-out of `a + b` is the read-out of `a` followed by that of `b` |
| `FormData.SelectedValueIncluded` | index.js:148-152 | the value of every selected option appears in the read-out |
| `FormData.SelectValuesSingle` | index.js:150-150 | one option reads out as its value when selected and as nothing otherwise; with `SelectValuesAppend` this fixes the read-out of any option list |
| `FormData.SelectValuesExample` | index.js:148-152 | options a (selected), b, c (selected) read out as `["a", "c"]` |
| `FileStore.Convert` | index.js:157-167 | definition: the encoder's result for one `add`, with `Err(NotABlob)` for the missing `files[0]` passed at index.js:62; its meaning is stated by `FileStore.Store.Add` |
| `FileStore.AddAll` | index.js:75-84 | definition: `add` repeated over already encoded uploads, in order; its meaning is stated by `AddAllGroups` and `AddAllKeepsOthers` |
| `FileStore.UrisFor` | index.js:77-83 | definition: the encodings added under one name, in order; its meaning is stated by `UrisComeFromUploads` and `AddAllGroups` |
| `FileStore.Collect` | index.js:77-83 | definition: a scalar for one encoding, a list for several; its meaning is stated by `AddAllGroups` |
| `FileStore.Store.Get` | index.js:91-93 | definition: reads the store's record, as `get` returns `hash`; `MergeTo` reads the store through it |
| `FileStore.StoreAdd` | index.js:77-83 | adding under a name makes that name present and leaves every other name of the store unchanged |
| `FileStore.AddAllKeepsOthers` | index.js:75-84 | a name that receives no file keeps exactly what the store held for it |
| `FileStore.AddAllGroups` | index.js:75-84 | k encodings e1..ek added under a name the store lacked give `Scalar(e1)` for k = 1 and `List([e1..ek])` for k >= 2, whatever other names are added in between |
| `FileStore.UrisComeFromUploads` | index.js:77-79 | every encoding grouped under a name is the encoding of an upload added under that name, for any uploads; it is non-empty when every added encoding is |
| `FileStore.Store.constructor` | index.js:67-69 | a fresh store is empty |
| `FileStore.Store.Add` | index.js:75-84 | on a successful encoding the store becomes `StoreAdd` of the old store; on a failed one it reports that error and is unchanged |
| `FileStore.Store.MergeTo` | index.js:86-90 | the merged record has the keys of both; store keys take the store's value, other keys of `to` keep theirs |
| `Uploads.FileInputs` | index.js:53-53 | definition: the valid file inputs in collection order; its meaning is stated by `FileInputsMembers` and `FileJobsSnoc` |
| `Uploads.InputJobs` | index.js:56-63 | definition: the `add` calls of one input, every file when `multiple`, else `files[0]`; its meaning is stated by `EachFile` and `FileJobsSnoc` |
| `Uploads.Jobs` | index.js:55-63 | definition: the `add` calls of a list of inputs, input after input; its meaning is stated by `JobsAppend` and `RunRest` |
| `Uploads.FileJobs` | index.js:53-63 | definition: the `add` calls `parseWithFiles` makes for the controls; its meaning is stated by `FileJobsSnoc` and `FileJobsOrigin` |
| `Uploads.Run` | index.js:55-64 | definition: the sequential encode-then-`add` fold that stops at the first failure; its meaning is stated by `RunIsEncodeThenAdd`, `RunAppend` and `RunRest` |
| `Uploads.ExtractWithFiles` | index.js:51-65 | definition: the run merged over `Extract`, or the run's error; its meaning is stated by `ExtractWithFilesFails` and `ExtractWithFilesResult` |
| `Uploads.FileInputsMembers` | index.js:53-53 | the selected inputs are exactly the controls with non-empty name and value whose type is file |
| `Uploads.EachFile` | index.js:57-60 | a `multiple` input contributes one job per file, in file order, under its own name |
| `Uploads.JobsAppend` | index.js:55-63 | the jobs of a concatenation of inputs are the jobs of the first part followed by those of the second |
| `Uploads.FileJobsSnoc` | index.js:53-63 | a further control appends its jobs at the end, and only when it is a valid file input: all of its files if `multiple`, otherwise only `files[0]` |
| `Uploads.FileJobsOrigin` | index.js:53-63 | every job carries the name of a valid file input and, when it has a file, one of that input's files |
| `Uploads.EncodeAll` | index.js:55-64 | reference encoding: succeeds iff every job's file encodes, then lists each job's name and encoding in order; otherwise fails with the error of the first failing job |
| `Uploads.RunAppend` | index.js:55-64 | running two job lists in a row is running the first, then the second on the resulting store, a failure of the first being final |
| `Uploads.RunSnoc` | index.js:55-64 | one more job extends a successful run by that job's encoding and `add` |
| `Uploads.RunRest` | index.js:55-63 | the run over the remaining inputs is the run over the next input's jobs followed by the run over the rest |
| `Uploads.RunIsEncodeThenAdd` | index.js:55-64 | interleaving encoding with `add` equals encoding everything first and then adding in order |
| `Uploads.ExtractWithFilesFails` | index.js:64-64 | the call rejects iff some selected file fails to encode, and then with the error of the first such file |
| `Uploads.ExtractWithFilesResult` | index.js:51-65 | when all files encode, a name that received files holds them grouped by name and every other name keeps its `parse` value |
| `Uploads.FileControlsExample` | index.js:51-65 | a single-file `avatar` gives a scalar encoding; a `multiple` `docs` with two files gives a two-element list in file order |
| `Uploads.ExampleJobs` | index.js:53-63 | the controls of that example give no `parse` entries and three jobs in collection and file order |
| `FormToJson.StoreInput` | index.js:56-63 | the store after one input's callback is `Run` of that input's jobs on the old store, or the run's first error |
| `FormToJson.FormToJson.ParseWithFiles` | index.js:51-65 | the method's result equals `ExtractWithFiles(elements, encode)`: the store merged over `Extract(elements)`, or the first read error |

## Left out

- Controls as live DOM objects: `FormToJson.FormToJson.Parse` and `FormToJson.FormToJson.ParseWithFiles` read controls that are values fixed when the extractor is constructed. index.js:12 copies only the list of element references, and `parse` and `parseWithFiles` read each element's `name`, `value`, `checked`, `multiple`, `files` and options' `selected` when they are called (index.js:17-41, 53-62). The model therefore covers calls on a form that has not changed since construction. After the user edits the form, the code returns the new values while the model returns the same `Extract(elements)` and `ExtractWithFiles(elements, encode)` as before.
- The `FileReader` mechanics of `convertToBase64` (index.js:157-167): they are browser I/O. The encoder is a parameter, and the data-URI format of its output is not specified.
- The asynchrony of `promise_mtd.forEach` and of the Promises (index.js:55-64): it comes from a library. The model is a sequential fold that stops at the first rejection; the error reaches the caller as `Err`.
- The DOM collection (`$form.elements`, `Array.prototype.slice`, index.js:10-13) and the HTMLOptionsCollection: they are replaced by `seq<Control>` and `seq<OptionItem>`. `getSelectValues` is passed the select element itself and reduces over its indexed options; the model passes the options.
- JavaScript truthiness in general: only the empty-string test on `name`, `value` and a stored encoding is modelled, together with the presence tests the code makes.
- Names inherited from `Object.prototype` other than `__proto__` (`toString`, `constructor`, `valueOf`, `hasOwnProperty`, …): `FileStore.StoreAdd`, `FileStore.Store.Add` and `FileStore.AddAllGroups` do not reproduce what `add` does with them. `add` reads `hash[name]` through the prototype chain (index.js:77), finds a truthy non-array function and treats the name as already holding a scalar, so the first file under such a name is stored as `[<inherited function>, encoding]`, and `mergeTo` copies that into the result. The model's `map` has no inherited entries and stores the first file as a scalar. `parse` assigns such names as own properties, so `Extract` agrees with it on them.
- The name `__proto__`: `Extraction.Extract`, `FormToJson.FormToJson.Parse`, `FileStore.StoreAdd`, `FileStore.Store.Add`, `FileStore.Store.MergeTo` and `Uploads.ExtractWithFiles` treat it as an ordinary key. In the code, `__proto__` is an accessor of `Object.prototype`. Assigning a string to it in `parse` (index.js:34, index.js:40) does nothing, and assigning a multi-select's array (index.js:38) replaces the prototype of `res` instead of creating a key. In `add`, `hash["__proto__"]` is `Object.prototype` itself, and the assignment at index.js:78 replaces the prototype of `hash`, so `Object.keys` at index.js:88 never lists it. Neither `parse` nor `mergeTo` ever produces that key, whereas the model records it like any other name.
- Aliasing between the store's lists and the merged record: the model works on values, so later mutation through a shared array is not represented.
- webpack.config.js: build configuration only, with no behaviour to model.

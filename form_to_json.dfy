/** The extractor object: a snapshot of a form's controls, taken once, and the
    two extraction operations over it. */
module FormToJson {
  import opened FormData
  import opened FileStore
  import opened Extraction
  import opened Uploads

  class FormToJson {
    /** The form's controls, in document order. */
    const elements: seq<Control>

    constructor (formElements: seq<Control>)
      ensures elements == formElements
    {
      elements := formElements;
    }

    /** `_has_many_checkbox_for`: counts checkboxes named `name` but stops at
        the first one, so the count never exceeds 1 and the answer is always
        false, whatever the controls. */
    method HasManyCheckboxFor(name: string) returns (hasMany: bool)
      ensures !hasMany
    {
      var count := 0;
      var i := 0;
      while i < |elements|
        invariant 0 <= i <= |elements|
        invariant count == 0
      {
        var el := elements[i];
        if el.kind == "checkbox" && el.name == name {
          count := count + 1;
          break;
        }
        i := i + 1;
      }
      hasMany := count > 1;
    }

    /** `parse`: visit the controls in order and write an entry for each one
        that is a valid element with a valid value and not a file input. */
    method Parse() returns (res: Record)
      ensures res == Extract(elements)
    {
      res := map[];
      var i := 0;
      while i < |elements|
        invariant 0 <= i <= |elements|
        invariant res == Extract(elements[..i])
      {
        var element := elements[i];
        if IsValidElement(element) && IsValidValue(element) && !IsFile(element) {
          if IsCheckbox(element) {
            var name := element.name;
            var hasMany := HasManyCheckboxFor(name);
            if hasMany {
              // the array branch for shared checkbox names cannot be reached
              assert false;
            }
            res := res[name := Scalar(element.value)];
          } else if IsMultiSelect(element) {
            res := res[element.name := List(SelectValues(element.options.value))];
          } else {
            res := res[element.name := Scalar(element.value)];
          }
        }
        assert elements[..i + 1][..i] == elements[..i];
        i := i + 1;
      }
      assert elements[..|elements|] == elements;
    }

    /** `parseWithFiles`: extract the ordinary fields, then hand the files of
        every valid file input, one input after another, to a fresh store, and
        merge the store over the extracted record; the first read error rejects. */
    method ParseWithFiles(encode: Encoder) returns (r: Result<Record>)
      ensures r == ExtractWithFiles(elements, encode)
    {
      var res := Parse();
      var inputs := FileInputs(elements);
      var store := new Store();
      var i := 0;
      while i < |inputs|
        invariant 0 <= i <= |inputs|
        invariant Run(map[], Jobs(inputs), encode) == Run(store.hash, Jobs(inputs[i..]), encode)
      {
        var input := inputs[i];
        RunRest(store.hash, inputs, i, encode);
        var outcome := StoreInput(store, input, encode);
        if outcome.Err? {
          return Err(outcome.error);
        }
        i := i + 1;
      }
      assert inputs[|inputs|..] == [];
      var merged := store.MergeTo(res);
      return Ok(merged);
    }
  }

  /** The callback run for each selected file input: `add` every file of a
      `multiple` input in order, or only `files[0]` otherwise, stopping at the
      first failure. */
  method StoreInput(store: Store, input: Control, encode: Encoder) returns (outcome: Result<()>)
    modifies store
    ensures outcome.Ok? ==> Run(old(store.hash), InputJobs(input), encode) == Ok(store.hash)
    ensures outcome.Err? ==> Run(old(store.hash), InputJobs(input), encode) == Err(outcome.error)
  {
    var name := input.name;
    ghost var jobs := InputJobs(input);
    if input.multiple {
      var j := 0;
      while j < |input.files|
        invariant 0 <= j <= |input.files|
        invariant Run(old(store.hash), jobs, encode) == Run(store.hash, jobs[j..], encode)
      {
        assert jobs[j..][0] == jobs[j] && jobs[j..][1..] == jobs[j + 1..];
        outcome := store.Add(name, Some(input.files[j]), encode);
        if outcome.Err? {
          return;
        }
        j := j + 1;
      }
      outcome := Ok(());
    } else {
      outcome := store.Add(name, if input.files == [] then None else Some(input.files[0]), encode);
      assert jobs[1..] == [];
    }
  }
}

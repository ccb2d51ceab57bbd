/** Form controls as plain data, the classification predicates the extractor
    filters with, and the read-out of a multi-select's selected options. */
module FormData {

  datatype Option<T> = None | Some(value: T)

  /** Why turning a file into its inline encoding failed. */
  datatype ReadError =
    | ReadFailed(reason: string)   // the platform's file reader reported an error
    | NotABlob                     // there was no file to read (an empty file list)

  datatype Result<T> = Ok(value: T) | Err(error: ReadError)

  /** A file attached to a file control; its content is opaque to the extractor. */
  datatype File = File(fileName: string, content: seq<bv8>)

  /** The file-to-text encoder (a browser file reader producing a data URI). */
  type Encoder = File -> Result<string>

  datatype OptionItem = OptionItem(value: string, selected: bool)

  /** One form control. `kind` is the control's `type` attribute; `options` is
      present only on select controls; `files` matters only for file inputs. */
  datatype Control = Control(
    name: string,
    kind: string,
    value: string,
    checked: bool,
    options: Option<seq<OptionItem>>,
    multiple: bool,
    files: seq<File>)

  /** What the result record holds under one field name. */
  datatype FieldValue = Scalar(text: string) | List(items: seq<string>)

  type Record = map<string, FieldValue>

  /** Non-empty `name` and non-empty `value`. */
  predicate IsValidElement(c: Control) {
    c.name != "" && c.value != ""
  }

  /** Checkboxes and radios count only when checked; every other kind counts. */
  predicate IsValidValue(c: Control) {
    !(c.kind == "checkbox" || c.kind == "radio") || c.checked
  }

  predicate IsCheckbox(c: Control) {
    c.kind == "checkbox"
  }

  /** A control that has an options collection and the `multiple` flag. */
  predicate IsMultiSelect(c: Control) {
    c.options.Some? && c.multiple
  }

  predicate IsFile(c: Control) {
    c.kind == "file"
  }

  /** The values of the selected options, kept in option order: a left fold
      that appends the value of every selected option it meets. */
  function SelectValues(options: seq<OptionItem>): (values: seq<string>)
    ensures |values| <= |options|
    ensures forall v :: v in values ==> exists o :: o in options && o.selected && o.value == v
  {
    if options == [] then []
    else
      var values := SelectValues(options[..|options| - 1]);
      var option := options[|options| - 1];
      if option.selected then values + [option.value] else values
  }

  /** Order: the read-out of a concatenation is the concatenation of the read-outs. */
  lemma {:induction false} SelectValuesAppend(a: seq<OptionItem>, b: seq<OptionItem>)
    ensures SelectValues(a + b) == SelectValues(a) + SelectValues(b)
    decreases |b|
  {
    if b == [] {
      assert a + b == a;
    } else {
      var b' := b[..|b| - 1];
      assert (a + b)[..|a + b| - 1] == a + b';
      assert (a + b)[|a + b| - 1] == b[|b| - 1];
      assert b[..|b| - 1] == b';
      SelectValuesAppend(a, b');
    }
  }

  /** Completeness: the value of every selected option appears in the read-out. */
  lemma {:induction false} SelectedValueIncluded(options: seq<OptionItem>, i: nat)
    requires i < |options| && options[i].selected
    ensures options[i].value in SelectValues(options)
    decreases |options|
  {
    if i < |options| - 1 {
      SelectedValueIncluded(options[..|options| - 1], i);
    }
  }

  /** The read-out of one option is its value when selected and nothing otherwise. */
  lemma SelectValuesSingle(o: OptionItem)
    ensures SelectValues([o]) == if o.selected then [o.value] else []
  {
  }

  /** Options a (selected), b (not selected), c (selected) read out as ["a", "c"]. */
  lemma SelectValuesExample()
    ensures SelectValues([OptionItem("a", true), OptionItem("b", false), OptionItem("c", true)])
         == ["a", "c"]
  {
  }
}

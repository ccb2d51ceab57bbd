/** What `parse` computes: a left fold over the controls, in collection order,
    that writes one entry per control passing the three filters. */
module Extraction {
  import opened FormData

  /** The filter of `parse`: a valid element with a valid value that is not a
      file input. */
  predicate Included(c: Control) {
    IsValidElement(c) && IsValidValue(c) && !IsFile(c)
  }

  /** The entry an included control writes. The shared-name array branch for
      checkboxes is unreachable (see `FormToJson.FormToJson.HasManyCheckboxFor`),
      so a checkbox writes its value as a scalar. */
  function Entry(c: Control): FieldValue {
    if IsCheckbox(c) then Scalar(c.value)
    else if IsMultiSelect(c) then List(SelectValues(c.options.value))
    else Scalar(c.value)
  }

  /** The record after one control has been visited. */
  function Write(res: Record, c: Control): Record {
    if Included(c) then res[c.name := Entry(c)] else res
  }

  /** The record `parse` returns for the controls `cs`. */
  function Extract(cs: seq<Control>): Record {
    if cs == [] then map[] else Write(Extract(cs[..|cs| - 1]), cs[|cs| - 1])
  }

  /** The index of the last included control named `name`, or -1 when there is none. */
  function LastIncluded(cs: seq<Control>, name: string): (r: int)
    ensures -1 <= r < |cs|
    ensures r >= 0 ==> Included(cs[r]) && cs[r].name == name
    ensures forall i :: r < i < |cs| ==> !(Included(cs[i]) && cs[i].name == name)
  {
    if cs == [] then -1
    else if Included(cs[|cs| - 1]) && cs[|cs| - 1].name == name then |cs| - 1
    else LastIncluded(cs[..|cs| - 1], name)
  }

  /** Last write wins: a name is in the record exactly when some included
      control carries it, and then it holds the entry of the last such control. */
  lemma {:induction false} ExtractIsLastWrite(cs: seq<Control>, name: string)
    ensures name in Extract(cs) <==> LastIncluded(cs, name) >= 0
    ensures name in Extract(cs) ==> Extract(cs)[name] == Entry(cs[LastIncluded(cs, name)])
    decreases |cs|
  {
    if cs != [] {
      var prefix := cs[..|cs| - 1];
      ExtractIsLastWrite(prefix, name);
      var j := LastIncluded(prefix, name);
      if j >= 0 {
        assert cs[j] == prefix[j];
      }
    }
  }

  /** The keys of the record are exactly the names of the included controls. */
  lemma ExtractKeys(cs: seq<Control>, name: string)
    ensures name in Extract(cs) <==>
            exists i :: 0 <= i < |cs| && Included(cs[i]) && cs[i].name == name
  {
    ExtractIsLastWrite(cs, name);
  }

  /** No key is added for a name whose every control has an empty value, is an
      unchecked checkbox or radio, or is a file input; nor for the empty name. */
  lemma {:induction false} ExtractExcludes(cs: seq<Control>, name: string)
    requires name == "" ||
             forall i :: 0 <= i < |cs| && cs[i].name == name ==>
               cs[i].value == "" || cs[i].kind == "file" ||
               ((cs[i].kind == "checkbox" || cs[i].kind == "radio") && !cs[i].checked)
    ensures name !in Extract(cs)
  {
    ExtractIsLastWrite(cs, name);
  }

  /** A name used only by checkboxes never yields an array: when present it is
      the scalar value of the last checked checkbox with a non-empty value. */
  lemma {:induction false} CheckboxNameIsScalar(cs: seq<Control>, name: string)
    requires forall i :: 0 <= i < |cs| && cs[i].name == name ==> IsCheckbox(cs[i])
    ensures name in Extract(cs) ==> Extract(cs)[name].Scalar?
    ensures LastIncluded(cs, name) >= 0 ==>
              var j := LastIncluded(cs, name);
              cs[j].checked && cs[j].value != "" &&
              name in Extract(cs) && Extract(cs)[name] == Scalar(cs[j].value)
    ensures name != "" ==>
              forall i :: 0 <= i < |cs| && cs[i].name == name && cs[i].checked && cs[i].value != "" ==>
                name in Extract(cs)
  {
    ExtractIsLastWrite(cs, name);
  }

  /** A multi-select that is the last included control with its name leaves the
      values of its selected options, in option order, under that name. */
  lemma {:induction false} MultiSelectWins(cs: seq<Control>, j: nat)
    requires j < |cs| && Included(cs[j]) && !IsCheckbox(cs[j]) && IsMultiSelect(cs[j])
    requires forall i :: j < i < |cs| ==> !(Included(cs[i]) && cs[i].name == cs[j].name)
    ensures cs[j].name in Extract(cs)
    ensures Extract(cs)[cs[j].name] == List(SelectValues(cs[j].options.value))
    ensures |Extract(cs)[cs[j].name].items| <= |cs[j].options.value|
  {
    ExtractIsLastWrite(cs, cs[j].name);
  }

  /** Any other included control (text-like, a checked radio) that is the last
      included one with its name leaves its own value under that name. */
  lemma {:induction false} PlainControlWins(cs: seq<Control>, j: nat)
    requires j < |cs| && Included(cs[j]) && !IsCheckbox(cs[j]) && !IsMultiSelect(cs[j])
    requires forall i :: j < i < |cs| ==> !(Included(cs[i]) && cs[i].name == cs[j].name)
    ensures cs[j].name in Extract(cs) && Extract(cs)[cs[j].name] == Scalar(cs[j].value)
  {
    ExtractIsLastWrite(cs, cs[j].name);
  }

  /** Two checkboxes share the name "tags" and only the first is checked: the
      record holds "tags" as the scalar "x", not as an array. */
  lemma SharedCheckboxExample()
    ensures Extract([Control("user", "text", "alice", false, None, false, []),
                     Control("tags", "checkbox", "x", true, None, false, []),
                     Control("tags", "checkbox", "y", false, None, false, [])])
         == map["user" := Scalar("alice"), "tags" := Scalar("x")]
  {
    var user := Control("user", "text", "alice", false, None, false, []);
    var x := Control("tags", "checkbox", "x", true, None, false, []);
    var y := Control("tags", "checkbox", "y", false, None, false, []);
    assert [user, x, y][..2] == [user, x];
    assert [user, x][..1] == [user];
    assert [user][..0] == [];
    assert Extract([user]) == map["user" := Scalar("alice")];
    assert Extract([user, x]) == map["user" := Scalar("alice"), "tags" := Scalar("x")];
  }
}

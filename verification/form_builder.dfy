/** The form-template builder (src/components/FormTemplates/CreateFormModal.jsx):
    a template is a title and a list of field records, each of which may
    carry a list of choices; the handlers add, remove and edit fields and
    choices, and submission checks the template in a fixed order. */
module FormBuilder {
  import opened Wrappers
  import opened Text
  import Seqs

  /** One choice of a dropdown or radio field; `caption` is its `label` key
      (`label` is a Dafny keyword). */
  datatype Choice = Choice(caption: string, value: string)

  /** A field record; `caption` is its `label` key. */
  datatype FormField = FormField(
    id: string,
    name: string,
    caption: string,
    fieldType: string,
    required: bool,
    options: seq<Choice>)

  datatype Template = Template(title: string, description: string, isActive: bool, fields: seq<FormField>)

  /** `field_{n}`. */
  function FieldId(n: nat): string {
    "field_" + NatToString(n)
  }

  /** The field `addField` appends when there are `n` fields already. */
  function NewField(n: nat): FormField {
    FormField(FieldId(n + 1), "", "", "text", false, [])
  }

  /** `addField()`: one blank text field is appended, numbered after the
      current count; the fields already there are untouched. */
  function AddField(t: Template): (r: Template)
    ensures r.title == t.title && r.description == t.description && r.isActive == t.isActive
    ensures |r.fields| == |t.fields| + 1 && r.fields[..|t.fields|] == t.fields
    ensures var f := r.fields[|t.fields|];
            && f.id == FieldId(|t.fields| + 1) && f.name == "" && f.caption == ""
            && f.fieldType == "text" && !f.required && f.options == []
  {
    t.(fields := t.fields + [NewField(|t.fields|)])
  }

  /** `removeField(index)`: the field at `index` goes and the rest keep
      their order; an index outside the list removes nothing. */
  function RemoveField(t: Template, index: int): (r: Template)
    ensures r == t.(fields := r.fields)
    ensures 0 <= index < |t.fields| ==>
              |r.fields| == |t.fields| - 1
              && r.fields[..index] == t.fields[..index]
              && r.fields[index..] == t.fields[index + 1..]
    ensures !(0 <= index < |t.fields|) ==> r == t
  {
    t.(fields := Seqs.RemoveAt(t.fields, index))
  }

  /** Removing the field just added gives back the template. */
  lemma RemoveUndoesAdd(t: Template)
    ensures RemoveField(AddField(t), |t.fields|) == t
  {
    var r := RemoveField(AddField(t), |t.fields|);
    assert r.fields == t.fields;
  }

  /** Ids are numbered from the count, not from the largest id in use: when
      the last of `n` fields carries `field_{n}`, removing any other field
      and adding one yields two fields with that id. */
  lemma RemoveThenAddDuplicatesId(t: Template, index: nat)
    requires |t.fields| >= 2 && index < |t.fields| - 1
    requires t.fields[|t.fields| - 1].id == FieldId(|t.fields|)
    ensures var r := AddField(RemoveField(t, index));
            |r.fields| == |t.fields|
            && r.fields[|r.fields| - 2].id == r.fields[|r.fields| - 1].id
  {
    var n := |t.fields|;
    var s := RemoveField(t, index);
    assert s.fields[n - 2] == t.fields[n - 1];
  }

  /** The keys `updateField` is called with. */
  datatype FieldKey = IdKey | NameKey | LabelKey | TypeKey | RequiredKey

  datatype FieldValue = Str(s: string) | Flag(b: bool)

  /** One `updateField(index, key, value)` call's key and value. */
  datatype FieldUpdate = SetId(id: string) | SetName(name: string) | SetCaption(caption: string)
                       | SetType(fieldType: string) | SetRequired(required: bool)
  {
    function Key(): FieldKey {
      match this
      case SetId(_) => IdKey
      case SetName(_) => NameKey
      case SetCaption(_) => LabelKey
      case SetType(_) => TypeKey
      case SetRequired(_) => RequiredKey
    }

    function Value(): FieldValue {
      match this
      case SetId(v) => Str(v)
      case SetName(v) => Str(v)
      case SetCaption(v) => Str(v)
      case SetType(v) => Str(v)
      case SetRequired(v) => Flag(v)
    }
  }

  function Attribute(f: FormField, k: FieldKey): FieldValue {
    match k
    case IdKey => Str(f.id)
    case NameKey => Str(f.name)
    case LabelKey => Str(f.caption)
    case TypeKey => Str(f.fieldType)
    case RequiredKey => Flag(f.required)
  }

  /** Field types whose choices are kept. */
  predicate TakesChoices(fieldType: string) {
    fieldType == "dropdown" || fieldType == "radio"
  }

  /** `updateField(index, key, value)`: only the given key of the given field
      changes, except that a type other than dropdown or radio also drops
      that field's choices. */
  function UpdateField(t: Template, index: nat, u: FieldUpdate): (r: Template)
    requires index < |t.fields|
    ensures r == t.(fields := r.fields) && |r.fields| == |t.fields|
    ensures forall j :: 0 <= j < |t.fields| && j != index ==> r.fields[j] == t.fields[j]
    ensures Attribute(r.fields[index], u.Key()) == u.Value()
    ensures forall k :: k != u.Key() ==> Attribute(r.fields[index], k) == Attribute(t.fields[index], k)
    ensures r.fields[index].options ==
              if u.SetType? && !TakesChoices(u.fieldType) then [] else t.fields[index].options
  {
    var f := t.fields[index];
    var g := match u
      case SetId(v) => f.(id := v)
      case SetName(v) => f.(name := v)
      case SetCaption(v) => f.(caption := v)
      case SetType(v) => f.(fieldType := v)
      case SetRequired(v) => f.(required := v);
    var h := if u.SetType? && !TakesChoices(u.fieldType) then g.(options := []) else g;
    t.(fields := t.fields[index := h])
  }

  /** Repeating an update changes nothing more. */
  lemma UpdateFieldIdempotent(t: Template, index: nat, u: FieldUpdate)
    requires index < |t.fields|
    ensures UpdateField(UpdateField(t, index, u), index, u) == UpdateField(t, index, u)
  {
    var r := UpdateField(t, index, u);
    var r2 := UpdateField(r, index, u);
    forall k ensures Attribute(r2.fields[index], k) == Attribute(r.fields[index], k) {
    }
    assert r2.fields[index] == r.fields[index];
  }

  /** Replaces the choices of field `index`. */
  function WithChoices(t: Template, index: nat, options: seq<Choice>): (r: Template)
    requires index < |t.fields|
    ensures r == t.(fields := r.fields) && |r.fields| == |t.fields|
    ensures forall j :: 0 <= j < |t.fields| && j != index ==> r.fields[j] == t.fields[j]
    ensures r.fields[index] == t.fields[index].(options := options)
  {
    t.(fields := t.fields[index := t.fields[index].(options := options)])
  }

  /** `addOption(fieldIndex)`: one empty choice is appended to that field's
      choices; nothing else changes. */
  function AddOption(t: Template, fieldIndex: nat): (r: Template)
    requires fieldIndex < |t.fields|
    ensures r == t.(fields := r.fields) && |r.fields| == |t.fields|
    ensures forall j :: 0 <= j < |t.fields| && j != fieldIndex ==> r.fields[j] == t.fields[j]
    ensures r.fields[fieldIndex] == t.fields[fieldIndex].(options := r.fields[fieldIndex].options)
    ensures var o := t.fields[fieldIndex].options;
            && |r.fields[fieldIndex].options| == |o| + 1
            && r.fields[fieldIndex].options[..|o|] == o
            && r.fields[fieldIndex].options[|o|] == Choice("", "")
  {
    WithChoices(t, fieldIndex, t.fields[fieldIndex].options + [Choice("", "")])
  }

  /** `removeOption(fieldIndex, optionIndex)`: only that choice of that field
      goes (none when the index is outside the list). */
  function RemoveOption(t: Template, fieldIndex: nat, optionIndex: int): (r: Template)
    requires fieldIndex < |t.fields|
    ensures r == t.(fields := r.fields) && |r.fields| == |t.fields|
    ensures forall j :: 0 <= j < |t.fields| && j != fieldIndex ==> r.fields[j] == t.fields[j]
    ensures r.fields[fieldIndex] == t.fields[fieldIndex].(options := r.fields[fieldIndex].options)
    ensures var o := t.fields[fieldIndex].options;
            0 <= optionIndex < |o| ==>
              |r.fields[fieldIndex].options| == |o| - 1
              && r.fields[fieldIndex].options[..optionIndex] == o[..optionIndex]
              && r.fields[fieldIndex].options[optionIndex..] == o[optionIndex + 1..]
    ensures !(0 <= optionIndex < |t.fields[fieldIndex].options|) ==> r == t
  {
    WithChoices(t, fieldIndex, Seqs.RemoveAt(t.fields[fieldIndex].options, optionIndex))
  }

  /** Removing the choice just added gives back the template. */
  lemma RemoveOptionUndoesAdd(t: Template, fieldIndex: nat)
    requires fieldIndex < |t.fields|
    ensures RemoveOption(AddOption(t, fieldIndex), fieldIndex, |t.fields[fieldIndex].options|) == t
  {
    var r := RemoveOption(AddOption(t, fieldIndex), fieldIndex, |t.fields[fieldIndex].options|);
    assert r.fields[fieldIndex] == t.fields[fieldIndex];
    assert r.fields == t.fields;
  }

  /** One `updateOption(fieldIndex, optionIndex, key, value)` call's key and value. */
  datatype OptionUpdate = SetChoiceCaption(caption: string) | SetChoiceValue(value: string)

  /** `updateOption(fieldIndex, optionIndex, key, value)`: only the given key
      of the given choice changes. */
  function UpdateOption(t: Template, fieldIndex: nat, optionIndex: nat, u: OptionUpdate): (r: Template)
    requires fieldIndex < |t.fields| && optionIndex < |t.fields[fieldIndex].options|
    ensures r == t.(fields := r.fields) && |r.fields| == |t.fields|
    ensures forall j :: 0 <= j < |t.fields| && j != fieldIndex ==> r.fields[j] == t.fields[j]
    ensures r.fields[fieldIndex] == t.fields[fieldIndex].(options := r.fields[fieldIndex].options)
    ensures var o := t.fields[fieldIndex].options;
            var o' := r.fields[fieldIndex].options;
            && |o'| == |o|
            && (forall j :: 0 <= j < |o| && j != optionIndex ==> o'[j] == o[j])
            && (u.SetChoiceCaption? ==> o'[optionIndex] == Choice(u.caption, o[optionIndex].value))
            && (u.SetChoiceValue? ==> o'[optionIndex] == Choice(o[optionIndex].caption, u.value))
  {
    var o := t.fields[fieldIndex].options;
    var c := match u
      case SetChoiceCaption(v) => o[optionIndex].(caption := v)
      case SetChoiceValue(v) => o[optionIndex].(value := v);
    WithChoices(t, fieldIndex, o[optionIndex := c])
  }

  /** Two updates of the same key of the same choice: the second one wins. */
  lemma UpdateOptionLastWins(t: Template, fieldIndex: nat, optionIndex: nat, u1: OptionUpdate, u2: OptionUpdate)
    requires fieldIndex < |t.fields| && optionIndex < |t.fields[fieldIndex].options|
    requires u1.SetChoiceCaption? == u2.SetChoiceCaption?
    ensures UpdateOption(UpdateOption(t, fieldIndex, optionIndex, u1), fieldIndex, optionIndex, u2)
            == UpdateOption(t, fieldIndex, optionIndex, u2)
  {
    var a := UpdateOption(UpdateOption(t, fieldIndex, optionIndex, u1), fieldIndex, optionIndex, u2);
    var b := UpdateOption(t, fieldIndex, optionIndex, u2);
    assert a.fields[fieldIndex].options == b.fields[fieldIndex].options;
    assert a.fields[fieldIndex] == b.fields[fieldIndex];
    assert a.fields == b.fields;
  }

  /** A field the submit check refuses: blank name or blank label. */
  predicate Incomplete(f: FormField) {
    IsBlank(f.name) || IsBlank(f.caption)
  }

  /** The reasons `handleSubmit` stops before sending. */
  datatype SubmitError =
    | TitleRequired              // "Form title is required"
    | NoFields                   // "At least one field is required"
    | FieldIncomplete(index: nat) // "Field {index + 1} is missing required name or label"

  /** `handleSubmit`'s checks, in order: the title, then the field count,
      then the fields from the first on, stopping at the first failure. The
      index reported is the lowest of an incomplete field. */
  method CheckTemplate(t: Template) returns (r: Option<SubmitError>)
    ensures r == Some(TitleRequired) <==> IsBlank(t.title)
    ensures r == Some(NoFields) <==> !IsBlank(t.title) && t.fields == []
    ensures r.Some? && r.value.FieldIncomplete? ==>
              var i := r.value.index;
              && !IsBlank(t.title)
              && i < |t.fields| && Incomplete(t.fields[i])
              && forall j :: 0 <= j < i ==> !Incomplete(t.fields[j])
    ensures r == None <==>
              !IsBlank(t.title) && t.fields != [] && forall j :: 0 <= j < |t.fields| ==> !Incomplete(t.fields[j])
  {
    if IsBlank(t.title) {
      return Some(TitleRequired);
    }
    if |t.fields| == 0 {
      return Some(NoFields);
    }
    var i := 0;
    while i < |t.fields|
      invariant i <= |t.fields|
      invariant forall j :: 0 <= j < i ==> !Incomplete(t.fields[j])
    {
      if Incomplete(t.fields[i]) {
        return Some(FieldIncomplete(i));
      }
      i := i + 1;
    }
    return None;
  }

  /** The submit button's `disabled`: no fields, a blank title, a request in
      flight, or View mode. */
  predicate SubmitDisabled(viewMode: bool, loading: bool, t: Template) {
    t.fields == [] || IsBlank(t.title) || loading || viewMode
  }

  /** Outside View mode and with no request in flight, the button is
      disabled exactly when one of the first two submit checks would fail,
      so an enabled button can only be refused for an incomplete field. */
  lemma SubmitDisabledIffHeaderCheckFails(t: Template, r: Option<SubmitError>)
    requires r == Some(TitleRequired) <==> IsBlank(t.title)
    requires r == Some(NoFields) <==> !IsBlank(t.title) && t.fields == []
    ensures SubmitDisabled(false, false, t) <==> r == Some(TitleRequired) || r == Some(NoFields)
  {
  }

  datatype HttpMethod = Post | Put

  datatype SubmitOutcome =
    | Refused(error: SubmitError)              // shown; nothing sent
    | Sent(httpMethod: HttpMethod, templateId: Option<string>, body: Template, closed: bool)

  /** `handleSubmit`: a template that fails a check is refused and nothing is
      sent; otherwise it is sent as it stands with PUT to its address in Edit
      mode and POST otherwise, and the modal closes only when the server
      accepts. */
  method Submit(editMode: bool, t: Template, templateId: string, serverOk: bool)
    returns (outcome: SubmitOutcome)
    ensures outcome.Refused? <==>
              IsBlank(t.title) || t.fields == [] || exists j :: 0 <= j < |t.fields| && Incomplete(t.fields[j])
    ensures outcome.Sent? ==>
              && outcome.body == t
              && outcome.httpMethod == (if editMode then Put else Post)
              && outcome.templateId == (if editMode then Some(templateId) else None)
              && outcome.closed == serverOk
  {
    var check := CheckTemplate(t);
    if check.Some? {
      return Refused(check.value);
    }
    if editMode {
      return Sent(Put, Some(templateId), t, serverOk);
    }
    return Sent(Post, None, t, serverOk);
  }
}

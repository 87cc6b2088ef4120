/** The course form of src/pages/AddCourse.jsx and its near-copy
    src/pages/Users.jsx: scalar inputs written by name, a tag list fed from
    a text input, a material list fed from a three-field sub-form, the
    upload size guard, and the reset after a successful submission. The two
    pages share every handler modelled here; they differ only in their
    initial record. */
module CourseForm {
  import opened Wrappers
  import opened Text
  import Seqs

  /** A stored input value: text, a number, or a checkbox state. */
  datatype FormValue = Str(s: string) | Number(n: real) | Flag(b: bool)

  /** One course material. */
  datatype Material = Material(title: string, fileUrl: string, fileType: string)

  /** `formData`: the scalar inputs by name, the tags and the materials. */
  datatype Course = Course(fields: map<string, FormValue>, tags: seq<string>, materials: seq<Material>)

  /** The scalar defaults both pages start from. */
  function CommonDefaults(): map<string, FormValue> {
    map["title" := Str(""), "slug" := Str(""), "description" := Str(""),
        "thumbnail_url" := Str(""), "instructor_image" := Str(""),
        "is_free" := Flag(false), "instructor_name" := Str(""),
        "category" := Str("Web Development"), "language" := Str("English"),
        "level" := Str("Intermediate"), "price" := Number(0.0),
        "discount_price" := Number(0.0), "validity_days" := Number(90.0)]
  }

  /** The initial record of AddCourse.jsx. */
  function AddCourseInitial(): Course {
    Course(CommonDefaults(), [], [])
  }

  /** The initial record of Users.jsx, which also has a preview video. */
  function UsersInitial(): Course {
    Course(CommonDefaults()["preview_video_url" := Str("")], [], [])
  }

  datatype InputKind = Checkbox | NumberInput | OtherInput

  /** What `handleChange` reads from its event: the input's name, kind, raw
      value and checked state, and what `Number(value)` gives (`None` for NaN). */
  datatype InputEvent = InputEvent(name: string, kind: InputKind, value: string, checked: bool,
                                   parsed: Option<real>)

  /** The value `handleChange` stores: a checkbox's checked state; for a
      non-empty number input its numeric value, 0 when it is not a number;
      otherwise the raw text. */
  function Stored(e: InputEvent): (v: FormValue)
    ensures e.kind == Checkbox ==> v == Flag(e.checked)
    ensures e.kind == NumberInput && e.value != "" ==> v.Number? && (e.parsed.Some? ==> v.n == e.parsed.value)
    ensures e.kind == NumberInput && e.value != "" && e.parsed.None? ==> v == Number(0.0)
    ensures e.kind == OtherInput || (e.kind == NumberInput && e.value == "") ==> v == Str(e.value)
  {
    if e.kind == Checkbox then Flag(e.checked)
    else if e.kind == NumberInput && e.value != "" then Number(e.parsed.GetOr(0.0))
    else Str(e.value)
  }

  /** `handleChange(e)`: only the named input changes. */
  function HandleChange(c: Course, e: InputEvent): (r: Course)
    ensures e.name in r.fields && r.fields[e.name] == Stored(e)
    ensures forall k :: k != e.name ==>
              (k in r.fields <==> k in c.fields) && (k in c.fields ==> r.fields[k] == c.fields[k])
    ensures r.tags == c.tags && r.materials == c.materials
  {
    c.(fields := c.fields[e.name := Stored(e)])
  }

  /** Writing the same input twice keeps only the second value. */
  lemma LastChangeWins(c: Course, e1: InputEvent, e2: InputEvent)
    requires e1.name == e2.name
    ensures HandleChange(HandleChange(c, e1), e2) == HandleChange(c, e2)
  {
    assert HandleChange(HandleChange(c, e1), e2).fields == HandleChange(c, e2).fields;
  }

  /** `addTag()`: the trimmed input is appended and the input cleared when
      the input is not blank and not already a tag as typed; otherwise
      neither changes. */
  function AddTag(tags: seq<string>, input: string): (r: (seq<string>, string))
    ensures !IsBlank(input) && input !in tags ==> r.0 == tags + [Trim(input)] && r.1 == ""
    ensures IsBlank(input) || input in tags ==> r == (tags, input)
  {
    if !IsBlank(input) && input !in tags then (tags + [Trim(input)], "") else (tags, input)
  }

  /** The membership test looks at the input as typed, not trimmed: a tag
      typed again behind a space is added a second time. */
  lemma PaddedTagIsAddedTwice(tags: seq<string>, t: string)
    requires t in tags && Trim(t) == t && t != []
    requires [' '] + t !in tags
    ensures var r := AddTag(tags, [' '] + t);
            |r.0| == |tags| + 1 && r.0[|tags|] == t && multiset(r.0)[t] >= 2
  {
    TrimIgnoresLeadingSpace(t);
    var s := [' '] + t;
    assert s[1..] == t;
    assert !IsWhitespace(t[0]);
    assert !IsBlank(s);
    var r := AddTag(tags, s);
    assert r.0 == tags + [t];
    assert multiset(r.0) == multiset(tags) + multiset{t};
  }

  /** `removeTag(tag)`: every copy of the tag goes; the rest keep their order. */
  function RemoveTag(tags: seq<string>, tag: string): (r: seq<string>)
    ensures tag !in r
    ensures forall x :: x in r <==> x in tags && x != tag
    ensures Seqs.IsSubsequence(r, tags)
    ensures multiset(r) == multiset(tags)[tag := 0]
  {
    Seqs.RemoveAllKeepsOrder(tags, tag);
    Seqs.RemoveAll(tags, tag)
  }

  /** Removing a tag just added, which was new, gives back the tags. */
  lemma RemoveUndoesAddTag(tags: seq<string>, input: string)
    requires !IsBlank(input) && input !in tags && Trim(input) !in tags
    ensures RemoveTag(AddTag(tags, input).0, Trim(input)) == tags
  {
    var x := Trim(input);
    RemoveAllAppended(tags, x);
  }

  lemma {:induction false} RemoveAllAppended(xs: seq<string>, x: string)
    requires x !in xs
    ensures Seqs.RemoveAll(xs + [x], x) == xs
    decreases |xs|
  {
    if xs == [] {
      assert Seqs.RemoveAll([x][1..], x) == [];
    } else {
      assert (xs + [x])[1..] == xs[1..] + [x];
      RemoveAllAppended(xs[1..], x);
      assert xs == [xs[0]] + xs[1..];
    }
  }

  /** The empty material sub-form. */
  function BlankMaterial(): Material {
    Material("", "", "pdf")
  }

  /** `addMaterial()`: with title, file URL and file type all non-empty,
      the material is appended and the sub-form reset; otherwise nothing
      changes. */
  function AddMaterial(materials: seq<Material>, current: Material): (r: (seq<Material>, Material))
    ensures current.title != "" && current.fileUrl != "" && current.fileType != "" ==>
              r.0 == materials + [current] && r.1 == BlankMaterial()
    ensures current.title == "" || current.fileUrl == "" || current.fileType == "" ==>
              r == (materials, current)
  {
    if current.title != "" && current.fileUrl != "" && current.fileType != ""
    then (materials + [current], BlankMaterial())
    else (materials, current)
  }

  /** `removeMaterial(index)`: only that material goes. */
  function RemoveMaterial(materials: seq<Material>, index: int): (r: seq<Material>)
    ensures 0 <= index < |materials| ==>
              |r| == |materials| - 1 && r[..index] == materials[..index]
              && r[index..] == materials[index + 1..]
    ensures !(0 <= index < |materials|) ==> r == materials
  {
    Seqs.RemoveAt(materials, index)
  }

  /** Removing the material just added gives back the list. */
  lemma RemoveUndoesAddMaterial(materials: seq<Material>, current: Material)
    requires current.title != "" && current.fileUrl != "" && current.fileType != ""
    ensures RemoveMaterial(AddMaterial(materials, current).0, |materials|) == materials
  {
  }

  /** `MAX_SIZE_KB`. */
  const MaxSizeKb: nat := 500

  /** The size guard of `handleFileUpload`: an image goes on to compression;
      any other file is refused when larger than 500 KB. */
  predicate UploadAccepted(isImage: bool, size: nat) {
    isImage || size <= MaxSizeKb * 1024
  }

  /** `handleFileUpload(file)` on the material sub-form. A non-image file
      over 512000 bytes is refused and the sub-form is left alone; otherwise
      the file is sent, and when the server answers with a stored path the
      sub-form's file URL becomes the backend address followed by that path,
      its title and type untouched. A failed request (`response` is `None`)
      changes nothing. */
  function UploadFile(current: Material, isImage: bool, size: nat, backend: string,
                      response: Option<string>): (r: Material)
    ensures !isImage && size > 512000 ==> r == current
    ensures response.None? ==> r == current
    ensures (isImage || size <= 512000) && response.Some? ==>
              r.fileUrl == backend + response.value
              && r.title == current.title && r.fileType == current.fileType
  {
    if !UploadAccepted(isImage, size) then current
    else
      match response
      case None => current
      case Some(path) => current.(fileUrl := backend + path)
  }

  /** A refused upload leaves what `addMaterial` does unchanged. */
  lemma RefusedUploadKeepsMaterials(materials: seq<Material>, current: Material, size: nat,
                                    backend: string, response: Option<string>)
    requires size > MaxSizeKb * 1024
    ensures AddMaterial(materials, UploadFile(current, false, size, backend, response))
            == AddMaterial(materials, current)
  {
  }

  /** After an accepted upload, adding the material appends it with the
      uploaded file's address and resets the sub-form. */
  lemma UploadThenAdd(materials: seq<Material>, current: Material, isImage: bool, size: nat,
                      backend: string, path: string)
    requires UploadAccepted(isImage, size)
    requires current.title != "" && current.fileType != "" && backend + path != ""
    ensures var r := AddMaterial(materials, UploadFile(current, isImage, size, backend, Some(path)));
            r.0 == materials + [Material(current.title, backend + path, current.fileType)]
            && r.1 == BlankMaterial()
  {
  }

  /** Users.jsx after a submission: the record goes back to its initial
      value when the server accepts and stays as it was otherwise. */
  function AfterSubmit(c: Course, serverOk: bool): (r: Course)
    ensures serverOk ==> r.tags == [] && r.materials == [] && r.fields == UsersInitial().fields
    ensures !serverOk ==> r == c
  {
    if serverOk then UsersInitial() else c
  }

  /** The two pages start from the same record except for the preview
      video URL, which only Users.jsx has. */
  lemma InitialRecordsDifferByPreview()
    ensures "preview_video_url" !in AddCourseInitial().fields
    ensures UsersInitial().fields - {"preview_video_url"} == AddCourseInitial().fields
    ensures UsersInitial().fields["preview_video_url"] == Str("")
  {
    assert UsersInitial().fields - {"preview_video_url"} == AddCourseInitial().fields;
  }

  /** A successful submission forgets every edit: whatever was entered,
      the form afterwards is the same. A refused one keeps the record, so
      submitting again sends it unchanged. */
  lemma SubmitResetForgetsEdits(c1: Course, c2: Course, serverOk: bool)
    ensures AfterSubmit(c1, true) == AfterSubmit(c2, true)
    ensures AfterSubmit(AfterSubmit(c1, false), serverOk) == AfterSubmit(c1, serverOk)
  {
  }
}

/** The admin editors for events, team members and gallery items
    (client/src/pages/admin/EventsManager.jsx, TeamManager.jsx and
    GalleryManager.jsx). The three share one logic: a form object, the id being
    edited and a chosen file, changed by the input handlers, and a submit that
    turns them into multipart entries. They differ only in their fields, their
    blank values and the collection they post to. */
module AdminForm {
  import opened Media

  datatype Kind = EventsForm | TeamForm | GalleryForm

  /** A value held in a form field: text from an input, the number a blank form
      starts `order` with, or `undefined`/`null` copied from a record that lacks
      the field. */
  datatype JsValue = Undefined | Null | Str(s: string) | Num(n: int)

  /** One multipart entry: a text field or the attached file. */
  datatype Entry = Text(key: string, value: string) | Attached(key: string, file: File)

  datatype Request = Post(path: string, payload: seq<Entry>) | Put(path: string, payload: seq<Entry>)

  /** A form object, its keys in `Object.keys` order. */
  type Form = seq<(string, JsValue)>

  function FieldNames(kind: Kind): seq<string> {
    match kind
    case EventsForm => ["title", "description", "date", "time", "location", "speaker", "status", "image"]
    case TeamForm => ["name", "role", "bio", "linkedin", "order", "image"]
    case GalleryForm => ["title", "image", "category", "order"]
  }

  function Collection(kind: Kind): string {
    match kind
    case EventsForm => "/events"
    case TeamForm => "/team"
    case GalleryForm => "/gallery"
  }

  /** The value a field has in a blank form. */
  function Blank(name: string): JsValue {
    if name == "status" then Str("upcoming")
    else if name == "order" then Num(0)
    else Str("")
  }

  /** `record[name]` for a record the server returned. */
  function ValueOf(record: Doc, name: string): JsValue {
    if name == ImageKey then Str(record.image)
    else if name in record.fields then Str(record.fields[name])
    else Undefined
  }

  /** The object literal `{ n1: value(n1), n2: value(n2), ... }`. */
  function Project(names: seq<string>, value: string -> JsValue): (form: Form)
    ensures |form| == |names|
    ensures forall i :: 0 <= i < |names| ==> form[i] == (names[i], value(names[i]))
  {
    seq(|names|, i requires 0 <= i < |names| => (names[i], value(names[i])))
  }

  /** The blank form of an editor, as `useState`, a successful submit and
      `handleCancel` set it: every field of the kind holds its blank value, so
      no image URL is there. */
  function Defaults(kind: Kind): (form: Form)
    ensures WellFormed(kind, form)
    ensures forall i :: 0 <= i < |form| ==> form[i].1 == Blank(form[i].0)
    ensures Lookup(form, ImageKey) == Str("")
  {
    DistinctFieldNames(kind);
    LookupProject(FieldNames(kind), Blank, ImageKey);
    Project(FieldNames(kind), Blank)
  }

  /** The form `handleEdit` loads from a record: every field of the kind holds
      the record's value, and the image URL is the record's image. */
  function FromRecord(kind: Kind, record: Doc): (form: Form)
    ensures WellFormed(kind, form)
    ensures forall i :: 0 <= i < |form| ==> form[i].1 == ValueOf(record, form[i].0)
    ensures Lookup(form, ImageKey) == Str(record.image)
  {
    DistinctFieldNames(kind);
    LookupProject(FieldNames(kind), name => ValueOf(record, name), ImageKey);
    Project(FieldNames(kind), name => ValueOf(record, name))
  }

  function Keys(form: Form): (keys: seq<string>)
    ensures |keys| == |form| && forall i :: 0 <= i < |form| ==> keys[i] == form[i].0
  {
    seq(|form|, i requires 0 <= i < |form| => form[i].0)
  }

  predicate Distinct(keys: seq<string>) {
    forall i, j :: 0 <= i < j < |keys| ==> keys[i] != keys[j]
  }

  predicate UniqueKeys(form: Form) {
    Distinct(Keys(form))
  }

  /** The form of an editor of `kind`: its keys are exactly the kind's fields,
      in order. */
  predicate WellFormed(kind: Kind, form: Form) {
    Keys(form) == FieldNames(kind)
  }

  /** `form[key]`, `undefined` when the form has no such key. */
  function Lookup(form: Form, key: string): JsValue
    decreases |form|
  {
    if form == [] then Undefined
    else if form[|form| - 1].0 == key then form[|form| - 1].1
    else Lookup(form[..|form| - 1], key)
  }

  /** `{...form, [key]: v}` for a key the form has: the key keeps its place. */
  function Replace(form: Form, key: string, v: JsValue): (r: Form)
    ensures |r| == |form|
    ensures forall i :: 0 <= i < |form| ==> r[i] == if form[i].0 == key then (key, v) else form[i]
  {
    seq(|form|, i requires 0 <= i < |form| => if form[i].0 == key then (key, v) else form[i])
  }

  /** The test `v !== null && v !== undefined && v !== ''`. */
  predicate Present(v: JsValue) {
    v != Null && v != Undefined && v != Str("")
  }

  function DigitChar(d: nat): char
    requires d < 10
  {
    "0123456789"[d]
  }

  function Digits(n: nat): (s: string)
    ensures |s| > 0
  {
    if n < 10 then [DigitChar(n)] else Digits(n / 10) + [DigitChar(n % 10)]
  }

  /** `String(n)` for an integer. */
  function NumberText(n: int): (s: string)
    ensures |s| > 0
  {
    if n < 0 then "-" + Digits(-n) else Digits(n)
  }

  /** The text `FormData.append` stores for a value. */
  function Wire(v: JsValue): string {
    match v
    case Undefined => "undefined"
    case Null => "null"
    case Str(s) => s
    case Num(n) => NumberText(n)
  }

  /** A value that is sent always arrives as non-empty text. */
  lemma PresentArrivesNonEmpty(v: JsValue)
    requires Present(v)
    ensures Wire(v) != ""
  {
  }

  /** The text entries the `forEach` over the form's keys appends: every field
      whose value is present, except `image` when a file is chosen. */
  function Fields(form: Form, fileChosen: bool): (entries: seq<Entry>)
    ensures |entries| <= |form|
    ensures forall j :: 0 <= j < |entries| ==>
      entries[j].Text? && entries[j].value != "" && !(entries[j].key == ImageKey && fileChosen)
    decreases |form|
  {
    if form == [] then []
    else
      var (key, value) := form[|form| - 1];
      Fields(form[..|form| - 1], fileChosen) +
        (if (key == ImageKey && fileChosen) || !Present(value) then [] else [Text(key, Wire(value))])
  }

  /** The multipart entries `handleSubmit` builds: the text entries, then the
      chosen file under `image`. */
  function Payload(form: Form, file: Option<File>): (payload: seq<Entry>)
    ensures |payload| <= |form| + 1
    ensures file.Some? ==> |payload| > 0 && payload[|payload| - 1] == Attached(ImageKey, file.value)
    ensures forall j :: 0 <= j < |payload| && payload[j].Attached? ==> file.Some? && j == |payload| - 1
    ensures forall j :: 0 <= j < |payload| && payload[j].Text? ==>
      payload[j].value != "" && !(payload[j].key == ImageKey && file.Some?)
  {
    Fields(form, file.Some?) + (if file.Some? then [Attached(ImageKey, file.value)] else [])
  }

  /** The request `handleSubmit` sends: a `PUT` of the edited record when an id
      is being edited (a truthy one), otherwise a `POST` of a new record. */
  function Target(kind: Kind, editing: Option<Id>, payload: seq<Entry>): (req: Request)
    ensures req.payload == payload && Collection(kind) <= req.path
    ensures req.Put? <==> editing.Some? && editing.value != ""
    ensures req.Put? ==> req.path == Collection(kind) + "/" + editing.value
    ensures req.Post? ==> req.path == Collection(kind)
  {
    if editing.Some? && editing.value != "" then Put(Collection(kind) + "/" + editing.value, payload)
    else Post(Collection(kind), payload)
  }

  /** What the server's multipart parser makes of the entries: text entries
      become body fields and a file under `image` becomes `req.file`. */
  datatype Received = Received(body: Body, file: Option<File>)

  function Receive(payload: seq<Entry>): (r: Received)
    ensures r.file.Some? <==> exists j :: 0 <= j < |payload| && payload[j].Attached? && payload[j].key == ImageKey
    ensures r.file.Some? ==> Attached(ImageKey, r.file.value) in payload
    ensures forall k :: k in r.body ==> Text(k, r.body[k]) in payload
    ensures forall j :: 0 <= j < |payload| && payload[j].Text? ==> payload[j].key in r.body
    decreases |payload|
  {
    if payload == [] then Received(map[], None)
    else
      var r := Receive(payload[..|payload| - 1]);
      match payload[|payload| - 1]
      case Text(k, v) => Received(r.body[k := v], r.file)
      case Attached(k, f) => if k == ImageKey then Received(r.body, Some(f)) else r
  }

  /** The entries of a payload under the key `image`. */
  function ImageEntries(payload: seq<Entry>): seq<Entry>
    decreases |payload|
  {
    if payload == [] then []
    else
      var e := payload[|payload| - 1];
      ImageEntries(payload[..|payload| - 1]) + (if e.key == ImageKey then [e] else [])
  }

  // ---------------------------------------------------------------------------
  // Facts about forms.

  lemma {:induction false} LookupMissing(form: Form, key: string)
    requires key !in Keys(form)
    ensures Lookup(form, key) == Undefined
    decreases |form|
  {
    if form != [] {
      var init := form[..|form| - 1];
      assert Keys(init) == Keys(form)[..|form| - 1];
      assert Keys(form)[|form| - 1] == form[|form| - 1].0;
      LookupMissing(init, key);
    }
  }

  /** In a form with distinct keys, `Lookup` finds the value stored at the key's
      position. */
  lemma {:induction false} LookupAt(form: Form, i: nat)
    requires UniqueKeys(form) && i < |form|
    ensures Lookup(form, form[i].0) == form[i].1
    decreases |form|
  {
    if i < |form| - 1 {
      var init := form[..|form| - 1];
      assert Keys(init) == Keys(form)[..|form| - 1];
      assert Keys(form)[i] != Keys(form)[|form| - 1];
      LookupAt(init, i);
    }
  }

  lemma LookupProject(names: seq<string>, value: string -> JsValue, key: string)
    requires Distinct(names)
    ensures Lookup(Project(names, value), key) == if key in names then value(key) else Undefined
  {
    var form := Project(names, value);
    assert Keys(form) == names;
    if key in names {
      var i :| 0 <= i < |names| && names[i] == key;
      LookupAt(form, i);
    } else {
      LookupMissing(form, key);
    }
  }

  /** Replacing a key's value keeps the keys, and a later lookup sees the new
      value for that key and the old value for every other key. */
  lemma LookupReplace(form: Form, key: string, v: JsValue, other: string)
    requires UniqueKeys(form) && key in Keys(form)
    ensures Keys(Replace(form, key, v)) == Keys(form)
    ensures Lookup(Replace(form, key, v), other) == if other == key then v else Lookup(form, other)
  {
    var r := Replace(form, key, v);
    assert Keys(r) == Keys(form);
    if other in Keys(form) {
      var i :| 0 <= i < |form| && form[i].0 == other;
      LookupAt(form, i);
      LookupAt(r, i);
    } else {
      LookupMissing(form, other);
      LookupMissing(r, other);
    }
  }

  lemma DistinctFieldNames(kind: Kind)
    ensures Distinct(FieldNames(kind))
  {
  }

  lemma WellFormedUnique(kind: Kind, form: Form)
    requires WellFormed(kind, form)
    ensures UniqueKeys(form)
  {
    DistinctFieldNames(kind);
  }

  // ---------------------------------------------------------------------------
  // What the server receives.

  /** Sent(form, fileChosen, k): the field `k` is among the text entries. */
  predicate Sent(form: Form, fileChosen: bool, key: string) {
    Present(Lookup(form, key)) && !(key == ImageKey && fileChosen)
  }

  lemma {:induction false} ReceiveFields(form: Form, fileChosen: bool, key: string)
    requires UniqueKeys(form)
    ensures Receive(Fields(form, fileChosen)).file == None
    ensures var body := Receive(Fields(form, fileChosen)).body;
      (key in body <==> Sent(form, fileChosen, key)) &&
      (key in body ==> body[key] == Wire(Lookup(form, key)))
    decreases |form|
  {
    if form != [] {
      var init := form[..|form| - 1];
      var (k, v) := form[|form| - 1];
      assert Keys(init) == Keys(form)[..|form| - 1];
      ReceiveFields(init, fileChosen, key);
      var front := Fields(init, fileChosen);
      var tail := if (k == ImageKey && fileChosen) || !Present(v) then [] else [Text(k, Wire(v))];
      assert Fields(form, fileChosen) == front + tail;
      if tail == [] {
        assert front + tail == front;
      } else {
        ReceiveText(front, k, Wire(v));
      }
      if k == key {
        assert k !in Keys(init) by {
          assert forall j :: 0 <= j < |init| ==> Keys(form)[j] != Keys(form)[|form| - 1];
        }
        LookupMissing(init, key);
      }
    }
  }

  /** One more text entry sets its field in the body and leaves the file. */
  lemma ReceiveText(payload: seq<Entry>, k: string, v: string)
    ensures Receive(payload + [Text(k, v)]) ==
      Received(Receive(payload).body[k := v], Receive(payload).file)
  {
    assert (payload + [Text(k, v)])[..|payload|] == payload;
  }

  /** The round trip from the editor to the route: the route's body holds
      exactly the fields that are sent, with their text, and its file is the
      chosen file. */
  lemma PayloadReceived(form: Form, file: Option<File>, key: string)
    requires UniqueKeys(form)
    ensures Receive(Payload(form, file)).file == file
    ensures var body := Receive(Payload(form, file)).body;
      (key in body <==> Sent(form, file.Some?, key)) &&
      (key in body ==> body[key] == Wire(Lookup(form, key)))
  {
    ReceiveFields(form, file.Some?, key);
    var front := Fields(form, file.Some?);
    if file.Some? {
      assert (front + [Attached(ImageKey, file.value)])[..|front|] == front;
    } else {
      assert Payload(form, file) == front;
    }
  }

  lemma {:induction false} ImageEntriesOfFields(form: Form, fileChosen: bool)
    requires UniqueKeys(form)
    ensures ImageEntries(Fields(form, fileChosen)) ==
      if Sent(form, fileChosen, ImageKey) then [Text(ImageKey, Wire(Lookup(form, ImageKey)))] else []
    decreases |form|
  {
    if form != [] {
      var init := form[..|form| - 1];
      var (k, v) := form[|form| - 1];
      assert Keys(init) == Keys(form)[..|form| - 1];
      ImageEntriesOfFields(init, fileChosen);
      var front := Fields(init, fileChosen);
      var tail := if (k == ImageKey && fileChosen) || !Present(v) then [] else [Text(k, Wire(v))];
      assert Fields(form, fileChosen) == front + tail;
      if tail == [] {
        assert front + tail == front;
      } else {
        assert (front + tail)[..|front + tail| - 1] == front;
      }
      if k == ImageKey {
        assert k !in Keys(init) by {
          assert forall j :: 0 <= j < |init| ==> Keys(form)[j] != Keys(form)[|form| - 1];
        }
        LookupMissing(init, ImageKey);
      }
    }
  }

  /** No two entries share a key. */
  predicate EntryKeysDistinct(entries: seq<Entry>) {
    forall j, k :: 0 <= j < k < |entries| ==> entries[j].key != entries[k].key
  }

  /** The text entries come from the form's own keys, one entry per key at
      most: the editors never send a field twice. */
  lemma {:induction false} FieldsKeysDistinct(form: Form, fileChosen: bool)
    requires UniqueKeys(form)
    ensures forall j :: 0 <= j < |Fields(form, fileChosen)| ==> Fields(form, fileChosen)[j].key in Keys(form)
    ensures EntryKeysDistinct(Fields(form, fileChosen))
    decreases |form|
  {
    if form != [] {
      var init := form[..|form| - 1];
      var last := form[|form| - 1].0;
      assert Keys(init) == Keys(form)[..|form| - 1];
      var value := form[|form| - 1].1;
      FieldsKeysDistinct(init, fileChosen);
      assert last !in Keys(init) by {
        assert forall j :: 0 <= j < |init| ==> Keys(form)[j] != Keys(form)[|form| - 1];
      }
      assert forall key :: key in Keys(init) ==> key in Keys(form);
      var front := Fields(init, fileChosen);
      var tail := if (last == ImageKey && fileChosen) || !Present(value) then [] else [Text(last, Wire(value))];
      var entries := front + tail;
      assert Fields(form, fileChosen) == entries;
      assert forall j :: 0 <= j < |front| ==> entries[j] == front[j];
      assert forall j :: |front| <= j < |entries| ==> entries[j].key == last;
    }
  }

  /** No two entries of an editor's payload share a key, so the parser never
      sees a repeated field. */
  lemma PayloadKeysDistinct(form: Form, file: Option<File>)
    requires UniqueKeys(form)
    ensures EntryKeysDistinct(Payload(form, file))
  {
    var front := Fields(form, file.Some?);
    FieldsKeysDistinct(form, file.Some?);
    if file.Some? {
      var payload := front + [Attached(ImageKey, file.value)];
      assert forall j :: 0 <= j < |front| ==> payload[j] == front[j] && front[j].key != ImageKey;
    } else {
      assert Payload(form, file) == front;
    }
  }

  /** The payloads `upload.single('image')` lets through to the route: at
      most one file entry, and that one under `image`. Any other payload is
      refused before the route runs. */
  predicate SingleImageFile(payload: seq<Entry>) {
    (forall j :: 0 <= j < |payload| && payload[j].Attached? ==> payload[j].key == ImageKey) &&
    (forall j, k :: 0 <= j < k < |payload| && payload[j].Attached? ==> !payload[k].Attached?)
  }

  /** Every payload an editor builds passes the parser's single-file rule. */
  lemma PayloadSingleImageFile(form: Form, file: Option<File>)
    ensures SingleImageFile(Payload(form, file))
  {
  }

  /** A payload carries at most one `image` entry: the chosen file when there
      is one, otherwise the form's image URL when it is present. */
  lemma AtMostOneImageEntry(form: Form, file: Option<File>)
    requires UniqueKeys(form)
    ensures ImageEntries(Payload(form, file)) ==
      if file.Some? then [Attached(ImageKey, file.value)]
      else if Present(Lookup(form, ImageKey)) then [Text(ImageKey, Wire(Lookup(form, ImageKey)))]
      else []
    ensures |ImageEntries(Payload(form, file))| <= 1
  {
    ImageEntriesOfFields(form, file.Some?);
    var front := Fields(form, file.Some?);
    if file.Some? {
      assert (front + [Attached(ImageKey, file.value)])[..|front|] == front;
    } else {
      assert Payload(form, file) == front;
    }
  }

  // ---------------------------------------------------------------------------

  /** The state of one admin editor. */
  class Editor {
    const kind: Kind
    var form: Form
    var editing: Option<Id>
    var imageFile: Option<File>

    ghost predicate Valid()
      reads this
    {
      WellFormed(kind, form)
    }

    constructor(kind: Kind)
      ensures Valid() && this.kind == kind
      ensures form == Defaults(kind) && editing == None && imageFile == None
    {
      this.kind := kind;
      form := Defaults(kind);
      editing, imageFile := None, None;
    }

    /** `handleImageChange`: a chosen file replaces the current one; closing the
        picker without a file changes nothing. */
    method PickFile(chosen: Option<File>)
      modifies this
      ensures form == old(form) && editing == old(editing)
      ensures imageFile == if chosen.Some? then chosen else old(imageFile)
    {
      if chosen.Some? {
        imageFile := chosen;
      }
    }

    /** The `onChange` of a text, number or select input other than the image
        URL: `setForm({...form, [key]: value})`. */
    method Input(key: string, value: string)
      requires Valid() && key in FieldNames(kind) && key != ImageKey
      modifies this
      ensures Valid() && form == Replace(old(form), key, Str(value))
      ensures editing == old(editing) && imageFile == old(imageFile)
    {
      form := Replace(form, key, Str(value));
      assert Keys(form) == Keys(old(form));
    }

    /** The clear button on the preview: the file is dropped and the image URL
        emptied. */
    method ClearImage()
      requires Valid()
      modifies this
      ensures Valid() && form == Replace(old(form), ImageKey, Str(""))
      ensures imageFile == None && editing == old(editing)
    {
      imageFile := None;
      form := Replace(form, ImageKey, Str(""));
      assert Keys(form) == Keys(old(form));
    }

    /** The image URL input: the URL is stored, and a non-empty one discards the
        chosen file. */
    method TypeImageUrl(url: string)
      requires Valid()
      modifies this
      ensures Valid() && form == Replace(old(form), ImageKey, Str(url))
      ensures imageFile == (if url != "" then None else old(imageFile)) && editing == old(editing)
    {
      form := Replace(form, ImageKey, Str(url));
      assert Keys(form) == Keys(old(form));
      if url != "" {
        imageFile := None;
      }
    }

    /** `handleEdit`: the record's fields are loaded, its id is being edited and
        no file is chosen. */
    method Edit(id: Id, record: Doc)
      modifies this
      ensures Valid() && form == FromRecord(kind, record)
      ensures editing == Some(id) && imageFile == None
    {
      form := FromRecord(kind, record);
      editing := Some(id);
      imageFile := None;
    }

    /** `handleCancel`: back to a blank form. */
    method Cancel()
      modifies this
      ensures Valid() && form == Defaults(kind) && editing == None && imageFile == None
    {
      form := Defaults(kind);
      editing, imageFile := None, None;
    }

    /** The `forEach` of `handleSubmit` and the file append after it. */
    method BuildPayload() returns (payload: seq<Entry>)
      ensures payload == Payload(form, imageFile)
    {
      payload := [];
      var i := 0;
      while i < |form|
        invariant 0 <= i <= |form|
        invariant payload == Fields(form[..i], imageFile.Some?)
      {
        var (key, value) := form[i];
        assert form[..i + 1][..i] == form[..i];
        if key == ImageKey && imageFile.Some? {
          // the URL is skipped when a file goes instead
        } else if value != Null && value != Undefined && value != Str("") {
          payload := payload + [Text(key, Wire(value))];
        }
        i := i + 1;
      }
      assert form[..|form|] == form;
      if imageFile.Some? {
        payload := payload + [Attached(ImageKey, imageFile.value)];
      }
    }

    /** `handleSubmit`: the request goes to `PUT /<collection>/<id>` when a
        record is being edited, else to `POST /<collection>`. When the server
        accepts it the editor returns to a blank form; when it refuses, nothing
        changes. */
    method Submit(accepted: bool) returns (req: Request)
      requires Valid()
      modifies this
      ensures Valid()
      ensures req == Target(kind, old(editing), Payload(old(form), old(imageFile)))
      ensures accepted ==> form == Defaults(kind) && editing == None && imageFile == None
      ensures !accepted ==> form == old(form) && editing == old(editing) && imageFile == old(imageFile)
    {
      var payload := BuildPayload();
      req := Target(kind, editing, payload);
      if accepted {
        form := Defaults(kind);
        editing, imageFile := None, None;
      }
    }
  }
}

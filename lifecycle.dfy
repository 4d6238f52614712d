/** End-to-end outcomes of the image lifecycle: what a route decides for the
    request an admin editor sends. Each lemma starts from an editor state that
    the editor's handlers produce (see `AdminForm.Editor`) and ends in the
    route's decision rule (`Media.ImageOr`, `Media.Merge`,
    `TeamRoute.MergeMember`). */
module Lifecycle {
  import opened Media
  import opened AdminForm
  import TeamRoute

  /** The clear button empties the URL and drops the file, so the next submit
      carries no image at all, and an update keeps the stored image: clearing
      the picture in the editor does not clear it on the server. */
  lemma ClearedImageKeepsStoredImage(kind: Kind, form: Form, stored: string)
    requires WellFormed(kind, form)
    ensures var r := Receive(Payload(Replace(form, ImageKey, Str("")), None));
      r.file == None && ImageKey !in r.body && ImageOr(r.body, stored) == stored
  {
    WellFormedUnique(kind, form);
    var cleared := Replace(form, ImageKey, Str(""));
    LookupReplace(form, ImageKey, Str(""), ImageKey);
    PayloadReceived(cleared, None, ImageKey);
  }

  /** On a new gallery item, clearing the image leaves neither a file nor a
      non-empty `image`, which is exactly the case the gallery create refuses
      with 'Image is required'. */
  lemma ClearedNewGalleryItemRejected(form: Form)
    requires WellFormed(GalleryForm, form)
    ensures var r := Receive(Payload(Replace(form, ImageKey, Str("")), None));
      r.file.None? && ImageOr(r.body, "") == ""
  {
    ClearedImageKeepsStoredImage(GalleryForm, form, "");
  }

  /** When a file is chosen the URL field is not sent, so the route sees the
      file and no body `image`: the file always wins. */
  lemma ChosenFileWins(kind: Kind, form: Form, f: File)
    requires WellFormed(kind, form)
    ensures var r := Receive(Payload(form, Some(f)));
      r.file == Some(f) && ImageKey !in r.body
  {
    WellFormedUnique(kind, form);
    PayloadReceived(form, Some(f), ImageKey);
  }

  /** Typing a non-empty URL discards the chosen file, and the route then
      stores exactly that URL, whatever the stored image was. */
  lemma TypedUrlReplacesImage(kind: Kind, form: Form, url: string, stored: string)
    requires WellFormed(kind, form) && url != ""
    ensures var r := Receive(Payload(Replace(form, ImageKey, Str(url)), None));
      r.file == None && ImageOr(r.body, stored) == url
  {
    WellFormedUnique(kind, form);
    var typed := Replace(form, ImageKey, Str(url));
    LookupReplace(form, ImageKey, Str(url), ImageKey);
    PayloadReceived(typed, None, ImageKey);
  }

  /** An event field emptied in the editor is not sent, so the update keeps
      its stored value: clearing a field never clears it on the server. */
  lemma EmptiedEventFieldKept(form: Form, key: string, file: Option<File>, stored: Doc, url: string)
    requires WellFormed(EventsForm, form) && key in FieldNames(EventsForm) && key != ImageKey
    ensures var body := Receive(Payload(Replace(form, key, Str("")), file)).body;
      var d := Merge(stored, body, url);
      key !in body && (key in d.fields <==> key in stored.fields) &&
      (key in d.fields ==> d.fields[key] == stored.fields[key])
  {
    WellFormedUnique(EventsForm, form);
    LookupReplace(form, key, Str(""), key);
    PayloadReceived(Replace(form, key, Str("")), file, key);
  }

  /** A blank team form sends `order` as "0": the number 0 is not ''. */
  lemma BlankTeamFormSendsOrder()
    ensures var body := Receive(Payload(Defaults(TeamForm), None)).body;
      TeamRoute.OrderKey in body && body[TeamRoute.OrderKey] == "0"
  {
    var form := Defaults(TeamForm);
    DistinctFieldNames(TeamForm);
    assert Keys(form) == FieldNames(TeamForm);
    LookupProject(FieldNames(TeamForm), Blank, TeamRoute.OrderKey);
    PayloadReceived(form, None, TeamRoute.OrderKey);
  }

  /** A cleared `order` input is not sent, so the team update keeps the
      stored order. */
  lemma ClearedTeamOrderKept(form: Form, file: Option<File>, stored: Doc, url: string)
    requires WellFormed(TeamForm, form)
    ensures var body := Receive(Payload(Replace(form, TeamRoute.OrderKey, Str("")), file)).body;
      var d := TeamRoute.MergeMember(stored, body, url);
      TeamRoute.OrderKey !in body &&
      (TeamRoute.OrderKey in d.fields <==> TeamRoute.OrderKey in stored.fields) &&
      (TeamRoute.OrderKey in d.fields ==> d.fields[TeamRoute.OrderKey] == stored.fields[TeamRoute.OrderKey])
  {
    WellFormedUnique(TeamForm, form);
    LookupReplace(form, TeamRoute.OrderKey, Str(""), TeamRoute.OrderKey);
    PayloadReceived(Replace(form, TeamRoute.OrderKey, Str("")), file, TeamRoute.OrderKey);
  }

  /** The body a route receives when a record loaded by `handleEdit` is
      submitted unchanged: each of the kind's fields that the record holds
      non-empty, with the record's text. */
  lemma EditedRecordBody(kind: Kind, record: Doc, key: string)
    ensures var body := Receive(Payload(FromRecord(kind, record), None)).body;
      (key in body <==> key in FieldNames(kind) && Present(ValueOf(record, key))) &&
      (key in body ==> body[key] == (if key == ImageKey then record.image else record.fields[key]))
  {
    DistinctFieldNames(kind);
    var form := FromRecord(kind, record);
    assert Keys(form) == FieldNames(kind);
    LookupProject(FieldNames(kind), name => ValueOf(record, name), key);
    PayloadReceived(form, None, key);
  }

  /** Saving an event or gallery item that was loaded for editing and not
      changed leaves the stored document as it was. */
  lemma UnchangedEditIsNoOp(kind: Kind, record: Doc)
    requires kind != TeamForm
    ensures var body := Receive(Payload(FromRecord(kind, record), None)).body;
      Merge(record, body, ImageOr(body, record.image)) == record
  {
    var body := Receive(Payload(FromRecord(kind, record), None)).body;
    forall key | key in body
      ensures key != ImageKey ==> key in record.fields && body[key] == record.fields[key]
      ensures key == ImageKey ==> body[key] == record.image
    {
      EditedRecordBody(kind, record, key);
    }
    EditedRecordBody(kind, record, ImageKey);
    KeepsAgreeing(record.fields, body - {ImageKey});
  }

  /** The same for a team member, under the team update's per-field merge. */
  lemma UnchangedMemberEditIsNoOp(record: Doc)
    ensures var body := Receive(Payload(FromRecord(TeamForm, record), None)).body;
      TeamRoute.MergeMember(record, body, ImageOr(body, record.image)) == record
  {
    var body := Receive(Payload(FromRecord(TeamForm, record), None)).body;
    forall key | key in body
      ensures key != ImageKey ==> key in record.fields && body[key] == record.fields[key]
      ensures key == ImageKey ==> body[key] == record.image
    {
      EditedRecordBody(TeamForm, record, key);
    }
    EditedRecordBody(TeamForm, record, ImageKey);
    TeamRoute.MergeMemberKeeps(record, body, ImageOr(body, record.image));
  }
}

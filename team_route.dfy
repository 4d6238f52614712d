/** The team routes (server/routes/team.js). They differ from the event routes in
    three ways: an update of an unknown id answers 404 before anything else; an
    update with a file deletes the old photo only when its URL mentions
    `cloudinary`, and reports a failed upload with its own message; and an update
    writes a fixed set of fields, each merged on its own, rather than the whole
    body. */
module TeamRoute {
  import opened Media
  import opened CloudStore

  const Folder := "real-estate-club/team"
  const ListQuery := Find("order", false)
  const NotFoundMessage := "Team member not found"
  const UploadFailedMessage := "Image upload failed. Please check Cloudinary configuration or use image URL instead."
  const DeletedMessage := "Team member deleted"
  const Marker := "cloudinary"

  /** The text fields an update copies from the body when they are non-empty. */
  const TextFields: set<string> := {"name", "role", "bio", "linkedin"}
  const OrderKey := "order"

  /** `s.includes(sub)`. */
  predicate Contains(s: string, sub: string)
    decreases |s|
  {
    sub <= s || (s != [] && Contains(s[1..], sub))
  }

  /** `sub` occurs in `s` starting at position `i`. */
  predicate OccursAt(s: string, sub: string, i: int) {
    0 <= i <= |s| - |sub| && s[i..i + |sub|] == sub
  }

  /** `Contains` finds exactly the strings in which `sub` occurs somewhere. */
  lemma {:induction false} ContainsAt(s: string, sub: string)
    ensures Contains(s, sub) <==> exists i :: OccursAt(s, sub, i)
    decreases |s|
  {
    if sub <= s {
      assert OccursAt(s, sub, 0);
    } else if s != [] {
      ContainsAt(s[1..], sub);
      if Contains(s[1..], sub) {
        var i :| OccursAt(s[1..], sub, i);
        assert s[i + 1..i + 1 + |sub|] == s[1..][i..i + |sub|];
        assert OccursAt(s, sub, i + 1);
      }
      if exists i :: OccursAt(s, sub, i) {
        var i :| OccursAt(s, sub, i);
        assert i != 0;
        assert s[1..][i - 1..i - 1 + |sub|] == s[i..i + |sub|];
        assert OccursAt(s[1..], sub, i - 1);
      }
    }
  }

  /** The photo an update with a file asks the delete helper to remove: a
      non-empty URL that mentions `cloudinary`. */
  function IsStoreHosted(url: string): (hosted: bool)
    ensures hosted <==> exists i :: OccursAt(url, Marker, i)
  {
    ContainsAt(url, Marker);
    url != "" && Contains(url, Marker)
  }

  /** The member after `findByIdAndUpdate` with `{name: body.name || existing.name,
      ..., order: body.order !== undefined ? body.order : existing.order, image}`:
      each text field takes the body's non-empty value, `order` takes the body's
      value whenever the body carries one (even ""), and nothing else in the
      body is written. */
  function MergeMember(existing: Doc, body: Body, url: string): (d: Doc)
    ensures d.image == url
    ensures forall k :: k in TextFields && k in body && body[k] != "" ==> k in d.fields && d.fields[k] == body[k]
    ensures forall k :: k in TextFields && (k !in body || body[k] == "") ==>
      (k in d.fields <==> k in existing.fields) && (k in d.fields ==> d.fields[k] == existing.fields[k])
    ensures OrderKey in body ==> OrderKey in d.fields && d.fields[OrderKey] == body[OrderKey]
    ensures OrderKey !in body ==>
      (OrderKey in d.fields <==> OrderKey in existing.fields) &&
      (OrderKey in d.fields ==> d.fields[OrderKey] == existing.fields[OrderKey])
    ensures forall k :: k !in TextFields && k != OrderKey ==>
      (k in d.fields <==> k in existing.fields) && (k in d.fields ==> d.fields[k] == existing.fields[k])
  {
    var texts := map k | k in TextFields && k in body && body[k] != "" :: body[k];
    var order := if OrderKey in body then map[OrderKey := body[OrderKey]] else map[];
    Doc(existing.fields + texts + order, url)
  }

  /** A body that only repeats the member's own fields leaves them as they
      were. */
  lemma MergeMemberKeeps(existing: Doc, body: Body, url: string)
    requires forall k :: k in body && k != ImageKey ==> k in existing.fields && body[k] == existing.fields[k]
    ensures MergeMember(existing, body, url).fields == existing.fields
  {
    var texts := map k | k in TextFields && k in body && body[k] != "" :: body[k];
    var order := if OrderKey in body then map[OrderKey := body[OrderKey]] else map[];
    KeepsAgreeing(existing.fields, texts);
    KeepsAgreeing(existing.fields, order);
  }

  /** `GET /team`: `[]` when the database is not connected or the query throws;
      otherwise the members as the query sorted by `order`, ascending, returns
      them. */
  function List(db: Db): (rows: seq<Doc>)
    ensures db.Disconnected? ==> rows == []
    ensures db.Connected? ==>
      rows == match db.run(Find("order", false)) case Found(r) => r case QueryFailed(_) => []
  {
    ListVia(db, ListQuery)
  }

  class Team {
    var docs: map<Id, Doc>
    const store: Store

    constructor(store: Store)
      ensures docs == map[] && this.store == store
    {
      docs := map[];
      this.store := store;
    }

    /** `POST /team`: the same precedence as for events (file, then the body's
        non-empty `image`, then ""), uploading into the team folder. */
    method Create(id: Id, body: Body, file: Option<File>, reply: ProviderReply) returns (res: Response)
      requires id !in docs
      modifies this, store
      ensures store.deleteCalls == old(store.deleteCalls) && store.destroyCalls == old(store.destroyCalls)
      ensures store.streams == old(store.streams) + (if file.Some? && IsConfigured(store.env) then [Folder] else [])
      ensures file.None? ==>
        docs == old(docs)[id := FromBody(body, ImageOr(body, ""))] && res == Response(201, DocJson(docs[id]))
      ensures file.Some? && UploadOutcome(store.env, reply).Ok? ==>
        docs == old(docs)[id := FromBody(body, UploadOutcome(store.env, reply).url)] && res == Response(201, DocJson(docs[id]))
      ensures file.Some? && UploadOutcome(store.env, reply).Err? ==>
        docs == old(docs) && res == Response(400, Message(UploadOutcome(store.env, reply).message))
    {
      var imageUrl := ImageOr(body, "");
      if file.Some? {
        var up := store.Upload(file.value, reply, Folder);
        if up.Err? {
          return Response(400, Message(up.message));
        }
        imageUrl := up.url;
      }
      var member := FromBody(body, imageUrl);
      docs := docs[id := member];
      res := Response(201, DocJson(member));
    }

    /** `PUT /team/:id`. An unknown id answers 404 with no remote call and no
        write. With a file, a stored photo whose URL mentions `cloudinary` is
        handed to the delete helper, then the file is uploaded; a failed upload
        answers 400 "Image upload failed…" carrying the error, and writes
        nothing. Without a file the photo becomes the body's non-empty `image`,
        else stays. */
    method Update(id: Id, body: Body, file: Option<File>, reply: ProviderReply) returns (res: Response)
      modifies this, store
      ensures id !in old(docs) ==>
        docs == old(docs) && res == Response(404, Message(NotFoundMessage)) &&
        store.streams == old(store.streams) && store.deleteCalls == old(store.deleteCalls) &&
        store.destroyCalls == old(store.destroyCalls)
      ensures id in old(docs) && file.None? ==>
        docs == old(docs)[id := MergeMember(old(docs)[id], body, ImageOr(body, old(docs)[id].image))] &&
        res == Response(200, DocJson(docs[id])) &&
        store.streams == old(store.streams) && store.deleteCalls == old(store.deleteCalls) &&
        store.destroyCalls == old(store.destroyCalls)
      ensures id in old(docs) && file.Some? ==>
        var previous := old(docs)[id].image;
        var up := UploadOutcome(store.env, reply);
        store.deleteCalls == old(store.deleteCalls) + (if IsStoreHosted(previous) then [previous] else []) &&
        store.destroyCalls == old(store.destroyCalls) +
          (if IsStoreHosted(previous) && IsConfigured(store.env) then [PublicId(previous)] else []) &&
        store.streams == old(store.streams) + (if IsConfigured(store.env) then [Folder] else []) &&
        (up.Ok? ==> docs == old(docs)[id := MergeMember(old(docs)[id], body, up.url)] && res == Response(200, DocJson(docs[id]))) &&
        (up.Err? ==> docs == old(docs) && res == Response(400, UploadFailure(UploadFailedMessage, up.message)))
    {
      if id !in docs {
        return Response(404, Message(NotFoundMessage));
      }
      var existing := docs[id];
      var imageUrl := existing.image;
      if file.Some? {
        if existing.image != "" && Contains(existing.image, Marker) {
          store.Delete(existing.image);
        }
        var up := store.Upload(file.value, reply, Folder);
        if up.Err? {
          return Response(400, UploadFailure(UploadFailedMessage, up.message));
        }
        imageUrl := up.url;
      } else if ImageKey in body && body[ImageKey] != "" {
        imageUrl := body[ImageKey];
      }
      var member := MergeMember(existing, body, imageUrl);
      docs := docs[id := member];
      res := Response(200, DocJson(member));
    }

    /** `DELETE /team/:id`: one delete request for any non-empty stored photo,
        with no `cloudinary` check, then the document is removed; the answer is
        'Team member deleted' whether or not the id existed. */
    method Delete(id: Id) returns (res: Response)
      modifies this, store
      ensures docs == old(docs) - {id}
      ensures res == Response(200, Message(DeletedMessage))
      ensures var had := id in old(docs) && old(docs)[id].image != "";
        store.deleteCalls == old(store.deleteCalls) + (if had then [old(docs)[id].image] else []) &&
        store.destroyCalls == old(store.destroyCalls) +
          (if had && IsConfigured(store.env) then [PublicId(old(docs)[id].image)] else [])
      ensures store.streams == old(store.streams)
    {
      if id in docs && docs[id].image != "" {
        store.Delete(docs[id].image);
      }
      docs := docs - {id};
      res := Response(200, Message(DeletedMessage));
    }
  }

  /** Every delivery URL on the provider's own domain is recognised as
      store-hosted, so an update with a file does ask to delete a photo that a
      previous upload stored under such a URL. */
  lemma DeliveryUrlIsStoreHosted(cloud: string, version: string, folder: string, stem: string, ext: string)
    ensures IsStoreHosted(DeliveryUrl(cloud, version, folder, stem, ext))
  {
    var rest := cloud + "/image/upload/" + version + "/" + folder + "/" + stem + "." + ext;
    assert DeliveryUrl(cloud, version, folder, stem, ext) == DeliveryHost + rest;
    OnDeliveryHost(rest);
  }

  /** Any URL on the provider's delivery host mentions the marker. */
  lemma OnDeliveryHost(rest: string)
    ensures IsStoreHosted(DeliveryHost + rest)
  {
    var url := DeliveryHost + rest;
    assert url[12..12 + |Marker|] == DeliveryHost[12..12 + |Marker|] == Marker;
    assert OccursAt(url, Marker, 12);
  }
}

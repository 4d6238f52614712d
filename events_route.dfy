/** The event routes (server/routes/events.js): list, create, update and delete,
    with the image decision of create and update and the remote deletes of update
    and delete. Authentication and the multipart parser have already run; the
    provider's reply to an upload is a parameter. */
module EventsRoute {
  import opened Media
  import opened CloudStore

  const Folder := "real-estate-club/events"
  const ListQuery := Find("date", true)
  const DeletedMessage := "Event deleted"

  /** `GET /events`: `[]` when the database is not connected or the query
      throws; otherwise the events as the query sorted by date, newest first,
      returns them. */
  function List(db: Db): (rows: seq<Doc>)
    ensures db.Disconnected? ==> rows == []
    ensures db.Connected? ==>
      rows == match db.run(Find("date", true)) case Found(r) => r case QueryFailed(_) => []
  {
    ListVia(db, ListQuery)
  }

  class Events {
    var docs: map<Id, Doc>
    const store: Store

    constructor(store: Store)
      ensures docs == map[] && this.store == store
    {
      docs := map[];
      this.store := store;
    }

    /** `POST /events`: the image is the uploaded file's URL when a file came,
        else the body's non-empty `image`, else "". The upload completes before
        the document is built; a failed upload answers 400 and saves nothing.
        `id` is the id the database assigns to the new document. */
    method Create(id: Id, body: Body, file: Option<File>, reply: ProviderReply) returns (res: Response)
      requires id !in docs
      modifies this, store
      ensures store.deleteCalls == old(store.deleteCalls) && store.destroyCalls == old(store.destroyCalls)
      ensures store.streams == old(store.streams) + (if file.Some? && IsConfigured(store.env) then [Folder] else [])
      ensures file.None? ==>
        docs == old(docs)[id := FromBody(body, ImageOr(body, ""))] && res == Response(201, DocJson(docs[id]))
      ensures file.Some? && UploadOutcome(store.env, reply).Ok? ==>
        docs == old(docs)[id := FromBody(body, UploadOutcome(store.env, reply).url)] && res == Response(201, DocJson(docs[id]))
      ensures file.Some? && UploadOutcome(store.env, reply).Err? ==>
        docs == old(docs) && res == Response(400, Message(UploadOutcome(store.env, reply).message))
    {
      var imageUrl := ImageOr(body, "");
      if file.Some? {
        var up := store.Upload(file.value, reply, Folder);
        if up.Err? {
          return Response(400, Message(up.message));
        }
        imageUrl := up.url;
      }
      var event := FromBody(body, imageUrl);
      docs := docs[id := event];
      res := Response(201, DocJson(event));
    }

    /** `PUT /events/:id`. Without a file the image becomes the body's non-empty
        `image`, else stays. With a file, a stored non-empty image is handed to
        the delete helper first (whatever its host), then the file is uploaded;
        if that fails the answer is 400 and the document is untouched, though
        the old image's delete has already been asked for. Body fields overwrite
        stored ones; absent fields keep their value. For an unknown id no remote
        call is made and nothing is written: reading the missing document's
        image throws (400), except when the body's non-empty `image` spares that
        read and no file came, where the update matches nothing and answers
        `null`. */
    method Update(id: Id, body: Body, file: Option<File>, reply: ProviderReply) returns (res: Response)
      modifies this, store
      ensures id !in old(docs) ==>
        docs == old(docs) &&
        store.streams == old(store.streams) && store.deleteCalls == old(store.deleteCalls) &&
        store.destroyCalls == old(store.destroyCalls) &&
        res == (if file.None? && ImageOr(body, "") != "" then Response(200, NullJson)
                else Response(400, Message(NullRecordError)))
      ensures id in old(docs) && file.None? ==>
        docs == old(docs)[id := Merge(old(docs)[id], body, ImageOr(body, old(docs)[id].image))] &&
        res == Response(200, DocJson(docs[id])) &&
        store.streams == old(store.streams) && store.deleteCalls == old(store.deleteCalls) &&
        store.destroyCalls == old(store.destroyCalls)
      ensures id in old(docs) && file.Some? ==>
        var previous := old(docs)[id].image;
        var up := UploadOutcome(store.env, reply);
        store.deleteCalls == old(store.deleteCalls) + (if previous != "" then [previous] else []) &&
        store.destroyCalls == old(store.destroyCalls) +
          (if previous != "" && IsConfigured(store.env) then [PublicId(previous)] else []) &&
        store.streams == old(store.streams) + (if IsConfigured(store.env) then [Folder] else []) &&
        (up.Ok? ==> docs == old(docs)[id := Merge(old(docs)[id], body, up.url)] && res == Response(200, DocJson(docs[id]))) &&
        (up.Err? ==> docs == old(docs) && res == Response(400, Message(up.message)))
    {
      if id !in docs {
        if ImageOr(body, "") == "" || file.Some? {
          return Response(400, Message(NullRecordError));
        }
        return Response(200, NullJson);
      }
      var existing := docs[id];
      var imageUrl := ImageOr(body, existing.image);
      if file.Some? {
        if existing.image != "" {
          store.Delete(existing.image);
        }
        var up := store.Upload(file.value, reply, Folder);
        if up.Err? {
          return Response(400, Message(up.message));
        }
        imageUrl := up.url;
      }
      var event := Merge(existing, body, imageUrl);
      docs := docs[id := event];
      res := Response(200, DocJson(event));
    }

    /** `DELETE /events/:id`: one delete request for the stored image when the
        event exists and has one, then the document is removed; the answer is
        'Event deleted' whether or not the id existed. */
    method Delete(id: Id) returns (res: Response)
      modifies this, store
      ensures docs == old(docs) - {id}
      ensures res == Response(200, Message(DeletedMessage))
      ensures var had := id in old(docs) && old(docs)[id].image != "";
        store.deleteCalls == old(store.deleteCalls) + (if had then [old(docs)[id].image] else []) &&
        store.destroyCalls == old(store.destroyCalls) +
          (if had && IsConfigured(store.env) then [PublicId(old(docs)[id].image)] else [])
      ensures store.streams == old(store.streams)
    {
      if id in docs && docs[id].image != "" {
        store.Delete(docs[id].image);
      }
      docs := docs - {id};
      res := Response(200, Message(DeletedMessage));
    }
  }
}

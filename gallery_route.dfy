/** The gallery routes (server/routes/gallery.js). They follow the event routes
    except that a new item must end up with an image: a create that has neither a
    file nor a non-empty body `image` answers 400 'Image is required'. Together
    with the update rule (file, else non-empty body `image`, else the stored
    image) this keeps every stored item's image non-empty. */
module GalleryRoute {
  import opened Media
  import opened CloudStore

  const Folder := "real-estate-club/gallery"
  const ListQuery := Find("order", false)
  const ImageRequiredMessage := "Image is required"
  const DeletedMessage := "Image deleted"

  /** `GET /gallery`: `[]` when the database is not connected or the query
      throws; otherwise the items as the query sorted by `order`, ascending,
      returns them. */
  function List(db: Db): (rows: seq<Doc>)
    ensures db.Disconnected? ==> rows == []
    ensures db.Connected? ==>
      rows == match db.run(Find("order", false)) case Found(r) => r case QueryFailed(_) => []
  {
    ListVia(db, ListQuery)
  }

  class Gallery {
    var docs: map<Id, Doc>
    const store: Store

    /** Every stored item has an image. */
    ghost predicate Valid()
      reads this
    {
      forall id :: id in docs ==> docs[id].image != ""
    }

    constructor(store: Store)
      ensures Valid() && docs == map[] && this.store == store
    {
      docs := map[];
      this.store := store;
    }

    /** `POST /gallery`: an uploaded file takes precedence over the body's
        `image`; a failed upload answers 400 with its error; with no file and no
        non-empty body `image` the answer is 400 'Image is required'. Nothing is
        saved on either error. */
    method Create(id: Id, body: Body, file: Option<File>, reply: ProviderReply) returns (res: Response)
      requires Valid() && id !in docs
      modifies this, store
      ensures Valid()
      ensures store.deleteCalls == old(store.deleteCalls) && store.destroyCalls == old(store.destroyCalls)
      ensures store.streams == old(store.streams) + (if file.Some? && IsConfigured(store.env) then [Folder] else [])
      ensures file.None? && ImageOr(body, "") == "" ==>
        docs == old(docs) && res == Response(400, Message(ImageRequiredMessage))
      ensures file.None? && ImageOr(body, "") != "" ==>
        docs == old(docs)[id := FromBody(body, ImageOr(body, ""))] && res == Response(201, DocJson(docs[id]))
      ensures file.Some? && UploadOutcome(store.env, reply).Ok? ==>
        docs == old(docs)[id := FromBody(body, UploadOutcome(store.env, reply).url)] && res == Response(201, DocJson(docs[id]))
      ensures file.Some? && UploadOutcome(store.env, reply).Err? ==>
        docs == old(docs) && res == Response(400, Message(UploadOutcome(store.env, reply).message))
    {
      var imageUrl := ImageOr(body, "");
      if file.Some? {
        var up := store.Upload(file.value, reply, Folder);
        if up.Err? {
          return Response(400, Message(up.message));
        }
        imageUrl := up.url;
      }
      if imageUrl == "" {
        return Response(400, Message(ImageRequiredMessage));
      }
      var item := FromBody(body, imageUrl);
      docs := docs[id := item];
      res := Response(201, DocJson(item));
    }

    /** `PUT /gallery/:id`: the event update's rules, uploading into the gallery
        folder. A stored image is handed to the delete helper before a new file
        is uploaded; an unknown id makes no remote call and writes nothing. */
    method Update(id: Id, body: Body, file: Option<File>, reply: ProviderReply) returns (res: Response)
      requires Valid()
      modifies this, store
      ensures Valid()
      ensures id !in old(docs) ==>
        docs == old(docs) &&
        store.streams == old(store.streams) && store.deleteCalls == old(store.deleteCalls) &&
        store.destroyCalls == old(store.destroyCalls) &&
        res == (if file.None? && ImageOr(body, "") != "" then Response(200, NullJson)
                else Response(400, Message(NullRecordError)))
      ensures id in old(docs) && file.None? ==>
        docs == old(docs)[id := Merge(old(docs)[id], body, ImageOr(body, old(docs)[id].image))] &&
        res == Response(200, DocJson(docs[id])) &&
        store.streams == old(store.streams) && store.deleteCalls == old(store.deleteCalls) &&
        store.destroyCalls == old(store.destroyCalls)
      ensures id in old(docs) && file.Some? ==>
        var previous := old(docs)[id].image;
        var up := UploadOutcome(store.env, reply);
        store.deleteCalls == old(store.deleteCalls) + [previous] &&
        store.destroyCalls == old(store.destroyCalls) + (if IsConfigured(store.env) then [PublicId(previous)] else []) &&
        store.streams == old(store.streams) + (if IsConfigured(store.env) then [Folder] else []) &&
        (up.Ok? ==> docs == old(docs)[id := Merge(old(docs)[id], body, up.url)] && res == Response(200, DocJson(docs[id]))) &&
        (up.Err? ==> docs == old(docs) && res == Response(400, Message(up.message)))
    {
      if id !in docs {
        if ImageOr(body, "") == "" || file.Some? {
          return Response(400, Message(NullRecordError));
        }
        return Response(200, NullJson);
      }
      var existing := docs[id];
      var imageUrl := ImageOr(body, existing.image);
      if file.Some? {
        if existing.image != "" {
          store.Delete(existing.image);
        }
        var up := store.Upload(file.value, reply, Folder);
        if up.Err? {
          return Response(400, Message(up.message));
        }
        imageUrl := up.url;
      }
      var item := Merge(existing, body, imageUrl);
      docs := docs[id := item];
      res := Response(200, DocJson(item));
    }

    /** `DELETE /gallery/:id`: one delete request for the stored image when the
        item exists, then the document is removed; the answer is 'Image deleted'
        whether or not the id existed. */
    method Delete(id: Id) returns (res: Response)
      requires Valid()
      modifies this, store
      ensures Valid()
      ensures docs == old(docs) - {id}
      ensures res == Response(200, Message(DeletedMessage))
      ensures store.deleteCalls == old(store.deleteCalls) + (if id in old(docs) then [old(docs)[id].image] else [])
      ensures store.destroyCalls == old(store.destroyCalls) +
        (if id in old(docs) && IsConfigured(store.env) then [PublicId(old(docs)[id].image)] else [])
      ensures store.streams == old(store.streams)
    {
      if id in docs && docs[id].image != "" {
        store.Delete(docs[id].image);
      }
      docs := docs - {id};
      res := Response(200, Message(DeletedMessage));
    }
  }
}

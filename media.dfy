/** Values shared by the three media-bearing routes (events, team members, gallery
    items) and by the admin editors that feed them: multipart request bodies,
    stored documents, responses and the database's answers to read queries. */
module Media {

  datatype Option<+T> = None | Some(value: T)

  /** A document id (a MongoDB ObjectId, as text). */
  type Id = string

  /** An image file chosen in the browser and handed to a route by the multipart
      parser; only its identity matters to the lifecycle. */
  datatype File = File(name: string, size: nat)

  /** The text fields of a multipart request (`req.body`): the parser delivers
      every value as text, and a key appears at most once. */
  type Body = map<string, string>

  /** A stored document of a media-bearing collection: every field other than
      `image`, and `image` itself. A missing and an empty `image` are both "";
      every route treats them alike (both are falsy). */
  datatype Doc = Doc(fields: map<string, string>, image: string)

  const ImageKey := "image"

  /** `req.body.image || fallback`: the body's image when it is present and
      non-empty, otherwise the fallback. */
  function ImageOr(body: Body, fallback: string): (url: string)
    ensures ImageKey in body && body[ImageKey] != "" ==> url == body[ImageKey]
    ensures ImageKey !in body || body[ImageKey] == "" ==> url == fallback
  {
    if ImageKey in body && body[ImageKey] != "" then body[ImageKey] else fallback
  }

  /** The document saved by `new Model({...req.body, image: url}).save()`. */
  function FromBody(body: Body, url: string): (d: Doc)
    ensures d.image == url
    ensures forall k :: k in d.fields <==> k in body && k != ImageKey
    ensures forall k :: k in d.fields ==> d.fields[k] == body[k]
  {
    Doc(body - {ImageKey}, url)
  }

  /** The document after `findByIdAndUpdate(id, {...req.body, image: url})`:
      every body field overwrites the stored one, fields the body does not carry
      keep their stored value, and the image becomes `url`. */
  function Merge(existing: Doc, body: Body, url: string): (d: Doc)
    ensures d.image == url
    ensures forall k :: k in d.fields <==> k in existing.fields || (k in body && k != ImageKey)
    ensures forall k :: k in d.fields && k in body && k != ImageKey ==> d.fields[k] == body[k]
    ensures forall k :: k in d.fields && (k !in body || k == ImageKey) ==> d.fields[k] == existing.fields[k]
  {
    Doc(existing.fields + (body - {ImageKey}), url)
  }

  /** Overriding a map with entries it already has changes nothing. */
  lemma KeepsAgreeing(m: map<string, string>, n: map<string, string>)
    requires forall k :: k in n ==> k in m && n[k] == m[k]
    ensures m + n == m
  {
  }

  /** The JSON payload of a response. */
  datatype Reply =
    | DocJson(doc: Doc)
    | NullJson
    | Message(text: string)
    | UploadFailure(message: string, error: string)

  datatype Response = Response(status: nat, reply: Reply)

  /** The message of the TypeError raised when a route reads `.image` of the
      `null` that `findById` returns for an unknown id. */
  const NullRecordError := "Cannot read properties of null (reading 'image')"

  /** A `find().sort({field: ±1})` query, and the database's answer to it. */
  datatype Query = Find(sortField: string, descending: bool)
  datatype QueryAnswer = Found(rows: seq<Doc>) | QueryFailed(error: string)

  /** The database as a list route sees it: not connected (`readyState !== 1`),
      or connected and answering queries. */
  datatype Db = Disconnected | Connected(run: Query -> QueryAnswer)

  /** The body of a list route: `[]` when the database is not connected or the
      query throws, otherwise the rows of the one query the route issues. */
  function ListVia(db: Db, q: Query): (rows: seq<Doc>)
    ensures db.Disconnected? ==> rows == []
    ensures db.Connected? && db.run(q).QueryFailed? ==> rows == []
    ensures db.Connected? && db.run(q).Found? ==> rows == db.run(q).rows
  {
    match db
    case Disconnected => []
    case Connected(run) =>
      match run(q)
      case Found(rows) => rows
      case QueryFailed(_) => []
  }
}

# Image-reference lifecycle of the Real Estate Club site, in Dafny

The site keeps events, team members and gallery items in MongoDB. Each record
carries an `image` URL. That URL is typed in by an admin or comes from uploading
a file to Cloudinary, the remote image store. This project models the part of
the site that keeps these references consistent:

- **The store helper** (`CloudStore`). It holds the configuration check (the API
  secret is ignored; placeholder values count as unconfigured). Upload fails at
  once when the store is not configured. Delete never fails its caller. The
  public id that delete asks the store to destroy is derived by `split`.
- **The three route files** (`EventsRoute`, `TeamRoute`, `GalleryRoute`). Each is
  a class whose document store is a `map<Id, Doc>`. It shares a `Store` object
  that logs, in order:
  - every upload stream it opens;
  - every URL handed to the delete helper;
  - every public id sent to destroy.

  Each create, update and delete states its response, its new store and its new
  logs. The provider's reply to an upload is a parameter.
- **The stats route** (`Stats`). A pure function of the connection state and
  four counts.
- **The admin editors** (`AdminForm`). One `Editor` class covers the three
  `*Manager.jsx` pages: the form, the id being edited and the chosen file, plus
  the handlers that change them. Its `forEach` payload loop is proved equal to
  the `Payload` function. `Receive` models the server's multipart parser.
- **End-to-end outcomes** (`Lifecycle`). These lemmas take an editor state that
  the handlers produce and follow it through the payload to the route's decision
  rule. Some outcomes they prove:
  - clearing the picture in the editor does not clear it on the server;
  - a chosen file always wins over a typed URL;
  - a blank team form sends `order` "0";
  - saving an unchanged edit leaves the record's fields and image as they were
    (the schema timestamps still move).

The model follows the code, including these behaviours a reader might not
expect:

- An update of an unknown event or gallery id answers 400. The exception is a
  request with no file and a non-empty body `image`: the `||` then never reads
  the missing record, `findByIdAndUpdate` matches nothing, and the answer is 200
  with `null`. In every case there is no remote call and no write. Only the team
  route answers 404.
- Event and gallery updates, and all three deletes, hand any non-empty image URL
  to the delete helper, store-hosted or not. Only the team update checks for
  `cloudinary` in the URL.
- Deleting an id that no longer exists answers with the usual "deleted" message,
  not with a not-found error. It makes no remote call.
- A delete request is made for the old image before the new file is uploaded. If
  that upload then fails, the record keeps pointing at the image whose deletion
  was already requested.

## Model

| member | source | states |
|---|---|---|
| `CloudStore.IsConfigured` | server/utils/uploadToCloudinary.js:5-10 | a configured store has a non-empty cloud name and a non-empty API key |
| `CloudStore.ConfigurationRules` | server/utils/uploadToCloudinary.js:5-10 | configured iff cloud name and API key are set, non-empty and not `your_cloud_name` / `your_api_key`; the secret never matters |
| `CloudStore.UploadOutcome` | server/utils/uploadToCloudinary.js:18-40 | unconfigured → the "Cloudinary is not configured…" error; otherwise the provider's `secure_url` on success, its error on failure |
| `CloudStore.Store.Upload` | server/utils/uploadToCloudinary.js:18-48 | the outcome above; a stream into the given folder (default `real-estate-club`) is opened iff the store is configured; no delete or destroy happens |
| `CloudStore.Store.Delete` | server/utils/uploadToCloudinary.js:56-72 | always completes with no outcome; logs the URL; one destroy of `PublicId(url)` iff configured, none otherwise |
| `CloudStore.Split` | server/utils/uploadToCloudinary.js:64-66 | `split` for a one-character separator always yields at least one part, so `[0]` and the last part exist |
| `CloudStore.SplitPartsFree` | server/utils/uploadToCloudinary.js:64-66 | no part of a split contains the separator |
| `CloudStore.SplitFirst` | server/utils/uploadToCloudinary.js:66 | the first part is a prefix of the string, and the whole string when it is the only part |
| `CloudStore.SplitLast` | server/utils/uploadToCloudinary.js:64-65 | the last part is a suffix of the string |
| `CloudStore.JoinSplit` | server/utils/uploadToCloudinary.js:64 | joining the parts of a split gives back the string |
| `CloudStore.SplitJoin` | server/utils/uploadToCloudinary.js:64 | splitting a join of separator-free parts gives back the parts |
| `CloudStore.SplitAround` | server/utils/uploadToCloudinary.js:64 | splitting `a + sep + b` splits `a` and `b` independently |
| `CloudStore.PublicId` | server/utils/uploadToCloudinary.js:63-66 | the id is `real-estate-club/` followed by slash-free, dot-free text taken from a suffix of the URL |
| `CloudStore.PublicIdIgnoresDirectories` | server/utils/uploadToCloudinary.js:64-66 | every directory before the last segment, sub-folders included, is ignored |
| `CloudStore.PublicIdOfFileName` | server/utils/uploadToCloudinary.js:65-66 | for `stem.ext` the id is the prefix plus `stem`: everything from the first dot is dropped |
| `CloudStore.PublicIdOfPlainName` | server/utils/uploadToCloudinary.js:64-66 | a last segment without a dot is taken whole: the id is the prefix plus that segment |
| `CloudStore.SameFileNameSameId` | server/utils/uploadToCloudinary.js:64-66 | URLs with the same file name in different folders map to the same id |
| `CloudStore.PublicIdDropsSubfolder` | server/utils/uploadToCloudinary.js:64-66 | for a delivery URL `…/image/upload/<version>/real-estate-club/<sub>/<stem>.<ext>` with `<sub>` one of `events`, `team`, `gallery`, the derived id is `real-estate-club/<stem>`, not the stored `real-estate-club/<sub>/<stem>` |
| `CloudStore.PublicIdIn` | server/utils/uploadToCloudinary.js:66 | corrected derivation: the id begins with the upload's folder and a slash |
| `CloudStore.PublicIdInRoundTrip` | server/utils/uploadToCloudinary.js:66 | with the upload's folder, the derived id of a delivery URL, version segment included, is exactly the stored image's id |
| `Media.ImageOr` | server/routes/events.js:49 | `body.image \|\| fallback`: the non-empty body image when there is one, else the fallback |
| `Media.FromBody` | server/routes/events.js:33-36 | a created record holds exactly the body's fields other than `image`, and the decided image |
| `Media.Merge` | server/routes/events.js:59-64 | an update overwrites the body's fields, keeps every field the body lacks, and sets the decided image |
| `EventsRoute.List` | server/routes/events.js:10-21 | `[]` when disconnected or when the query fails; otherwise the rows of the date-descending query |
| `EventsRoute.Events.Create` | server/routes/events.js:24-44 | image is the upload's URL, else the non-empty body image, else ""; a failed upload answers 400 and saves nothing; no delete |
| `EventsRoute.Events.Update` | server/routes/events.js:46-69 | unknown id: no remote call, no write, 400 (or 200 `null` when the body image spares the read and there is no file); no file: body image or the stored one; with a file: delete request for any non-empty old image, then upload; a failed upload answers 400 and leaves the record as it was |
| `EventsRoute.Events.Delete` | server/routes/events.js:71-82 | one delete request iff the event exists with a non-empty image; the record is removed; always 'Event deleted' |
| `TeamRoute.ContainsAt` | server/routes/team.js:62 | the `includes` test holds exactly when the marker occurs at some position |
| `TeamRoute.MergeMember` | server/routes/team.js:78-87 | name, role, bio, linkedin take the non-empty body value, else stay; `order` takes any body value; no other body field is written |
| `TeamRoute.MergeMemberKeeps` | server/routes/team.js:78-87 | a body that only repeats the member's own fields leaves them unchanged |
| `TeamRoute.List` | server/routes/team.js:10-22 | `[]` when disconnected or when the query fails; otherwise the rows of the order-ascending query |
| `TeamRoute.Team.Create` | server/routes/team.js:24-44 | same precedence as events, uploading into `real-estate-club/team`; a failed upload answers 400 and saves nothing |
| `TeamRoute.Team.Update` | server/routes/team.js:46-93 | unknown id: 404, no remote call, no write; with a file: delete request only for a non-empty old photo mentioning `cloudinary`, then upload; a failed upload answers 400 "Image upload failed…" with the error and writes nothing; no file: body image or the stored one |
| `TeamRoute.Team.Delete` | server/routes/team.js:95-106 | delete request for any non-empty photo, with no `cloudinary` check; the record is removed; always 'Team member deleted' |
| `TeamRoute.IsStoreHosted` | server/routes/team.js:62 | the old photo counts as store-hosted exactly when `cloudinary` occurs somewhere in its URL |
| `TeamRoute.OnDeliveryHost` | server/routes/team.js:62 | every URL starting with `https://res.cloudinary.com/` passes the `cloudinary` check |
| `TeamRoute.DeliveryUrlIsStoreHosted` | server/routes/team.js:62 | every delivery URL `https://res.cloudinary.com/<cloud>/image/upload/<version>/<folder>/<stem>.<ext>` passes the `cloudinary` check |
| `GalleryRoute.List` | server/routes/gallery.js:10-22 | `[]` when disconnected or when the query fails; otherwise the rows of the order-ascending query |
| `GalleryRoute.Gallery.Create` | server/routes/gallery.js:24-48 | the file wins over the body URL; no file and no non-empty body image → 400 'Image is required'; a failed upload → 400; nothing saved on either error; every stored item keeps a non-empty image |
| `GalleryRoute.Gallery.Update` | server/routes/gallery.js:50-73 | the event update's rules into `real-estate-club/gallery`; an unknown id makes no remote call and no write; every stored item keeps a non-empty image |
| `GalleryRoute.Gallery.Delete` | server/routes/gallery.js:75-86 | one delete request iff the item exists; the record is removed; always 'Image deleted' |
| `Stats.SiteStatsFor` | server/routes/stats.js:11-52 | disconnected or failed → {0, 500, 0, 0, 50, 5}; otherwise the three totals, approved members or 500 when zero; members never 0; partners 50, years 5 |
| `Stats.FallbacksAgree` | server/routes/stats.js:40-50 | a failed count gives exactly the disconnected answer; a connected answer equals it only when all counts are zero and approved members are 0 or 500 |
| `AdminForm.Defaults` | client/src/pages/admin/EventsManager.jsx:8 | a blank form holds exactly the kind's fields, in order, each with its blank value; its image URL is '' |
| `AdminForm.FromRecord` | client/src/pages/admin/EventsManager.jsx:90-100 | the edit form holds exactly the kind's fields, each with the record's value; its image URL is the record's image |
| `AdminForm.Fields` | client/src/pages/admin/EventsManager.jsx:49-57 | no more entries than the form has fields; every entry is text, non-empty, and not `image` when a file is chosen |
| `AdminForm.FieldsKeysDistinct` | client/src/pages/admin/EventsManager.jsx:49-57 | for a form with distinct keys, every entry's key is a key of the form and no two entries share a key |
| `AdminForm.PayloadKeysDistinct` | client/src/pages/admin/EventsManager.jsx:46-62 | for a form with distinct keys, as every editor form has, no two entries of the whole payload, the file included, share a key |
| `AdminForm.Payload` | client/src/pages/admin/EventsManager.jsx:46-62 | text entries as above, then the chosen file as the last and only file entry |
| `AdminForm.Target` | client/src/pages/admin/EventsManager.jsx:64-74 | `PUT` exactly when a non-empty id is being edited, to `<collection>/<id>`; otherwise `POST` to `<collection>`; the payload is carried unchanged |
| `AdminForm.Receive` | server/routes/events.js:46 | the route gets a file exactly when some entry attaches one under `image`; every body field comes from a text entry with that key and value, and every text entry's key is in the body |
| `AdminForm.PayloadSingleImageFile` | server/routes/events.js:46 | every payload an editor builds has at most one file entry, and that one under `image`, so `upload.single('image')` never refuses it |
| `AdminForm.NumberText` | client/src/pages/admin/TeamManager.jsx:8 | the text a number is sent as is never empty |
| `AdminForm.PresentArrivesNonEmpty` | client/src/pages/admin/EventsManager.jsx:54-55 | a value that passes the null/undefined/'' test reaches the server as non-empty text |
| `AdminForm.PayloadReceived` | client/src/pages/admin/EventsManager.jsx:49-62 | the route's body holds exactly the present fields, except `image` when a file is chosen, with their text; the route's file is the chosen file |
| `AdminForm.AtMostOneImageEntry` | client/src/pages/admin/EventsManager.jsx:49-62 | at most one `image` entry: the file if chosen, else the URL if present |
| `AdminForm.LookupReplace` | client/src/pages/admin/EventsManager.jsx:267 | `{...form, key: v}` keeps the keys, sets `key` to `v` and leaves every other field |
| `AdminForm.LookupProject` | client/src/pages/admin/EventsManager.jsx:90-100 | a form built from a list of names holds each named field's value and nothing else |
| `AdminForm.Editor.BuildPayload` | client/src/pages/admin/EventsManager.jsx:46-62 | the `forEach` loop and the file append build exactly `Payload(form, imageFile)` |
| `AdminForm.Editor.Submit` | client/src/pages/admin/EventsManager.jsx:64-85 | `PUT /<collection>/<id>` when editing, else `POST /<collection>`; accepted → blank form, nothing edited, no file; refused → state untouched |
| `AdminForm.Editor.Edit` | client/src/pages/admin/EventsManager.jsx:90-105 | the record's fields are loaded, its id is edited, no file is chosen |
| `AdminForm.Editor.ClearImage` | client/src/pages/admin/EventsManager.jsx:264-268 | the file is dropped and the image URL becomes '' |
| `AdminForm.Editor.TypeImageUrl` | client/src/pages/admin/EventsManager.jsx:294-299 | the URL is stored; a non-empty URL discards the chosen file |
| `AdminForm.Editor.PickFile` | client/src/pages/admin/EventsManager.jsx:30-40 | a chosen file replaces the current one; no file changes nothing |
| `AdminForm.Editor.Input` | client/src/pages/admin/TeamManager.jsx:193 | an input sets its own field to the typed text (an emptied `order` becomes '') |
| `AdminForm.Editor.Cancel` | client/src/pages/admin/EventsManager.jsx:123-128 | back to the blank form, nothing edited, no file |
| `AdminForm.Editor.constructor` | client/src/pages/admin/GalleryManager.jsx:8-11 | a new editor has the blank form of its kind, edits nothing, has no file |
| `Lifecycle.ClearedImageKeepsStoredImage` | client/src/pages/admin/EventsManager.jsx:264-268 | after the clear button no image is sent, and the update keeps the stored image |
| `Lifecycle.ClearedNewGalleryItemRejected` | client/src/pages/admin/GalleryManager.jsx:213-217 | on a new item, clearing leaves no file and no image, the case the gallery create refuses with 400 |
| `Lifecycle.ChosenFileWins` | client/src/pages/admin/TeamManager.jsx:49-62 | with a file chosen the route sees the file and no body `image` |
| `Lifecycle.TypedUrlReplacesImage` | client/src/pages/admin/GalleryManager.jsx:243-248 | after typing a non-empty URL the route stores exactly that URL |
| `Lifecycle.EmptiedEventFieldKept` | client/src/pages/admin/EventsManager.jsx:54 | an event field emptied in the editor is not sent, and the update keeps its stored value |
| `Lifecycle.BlankTeamFormSendsOrder` | client/src/pages/admin/TeamManager.jsx:8 | a blank team form sends `order` "0" |
| `Lifecycle.ClearedTeamOrderKept` | client/src/pages/admin/TeamManager.jsx:54 | an emptied `order` is not sent, and the team update keeps the stored order |
| `Lifecycle.EditedRecordBody` | client/src/pages/admin/GalleryManager.jsx:90-101 | an unchanged edit sends exactly the record's non-empty fields of the kind, with their text |
| `Lifecycle.UnchangedEditIsNoOp` | client/src/pages/admin/GalleryManager.jsx:90-101 | saving an unchanged event or gallery edit leaves the stored record as it was |
| `Lifecycle.UnchangedMemberEditIsNoOp` | client/src/pages/admin/TeamManager.jsx:90-103 | saving an unchanged team edit leaves the stored member as it was |

## Left out

- The Cloudinary SDK: `upload_stream`, `destroy`, the image transformations and
  the stream plumbing. An upload's reply is a parameter. Destroy's reply is
  swallowed by the helper, so it is not modelled at all. The provider's
  `secure_url` is assumed non-empty (`SecureUrl`).
- Express routing, the `auth`/`adminAuth` middleware and the multer
  configuration. Authentication is taken as passed. The multipart parser is
  `AdminForm.Receive`. Multer turns a repeated text field into an array; that
  case is not modelled because the editors never send a repeated field, as
  `AdminForm.PayloadKeysDistinct` shows.
- AdminForm.Receive: multer's refusal (`LIMIT_UNEXPECTED_FILE`) of a file under
  another field name, or of a second `image` file, is not modelled: `Receive`
  ignores such a file or keeps the last one. The editors never send either,
  as `AdminForm.PayloadSingleImageFile` shows.
- Mongoose schema validation and casting: required fields, the `status` enum,
  `Number` for `order`, `Date` for `date`, and the dropping of unknown keys.
  Stored values stay as text.
- Ids are taken to be well-formed ObjectIds. A malformed id makes `findById`
  throw a cast error, which answers 400 on an update (never 200 `null`) and 500
  on a delete. The "unknown id" outcomes above are for well-formed ids that no
  record has.
- Database failures in create, update and delete (the 400/500 paths of
  `save`, `findByIdAndUpdate` and `findByIdAndDelete`): every write succeeds.
  Ids of new documents are a parameter.
- EventsRoute.List: does not state that the rows are sorted, because MongoDB
  does the sort. The model records the query the route issues (sort field and
  direction) and returns its rows.
- TeamRoute.List: as above, sorted by `order` ascending.
- GalleryRoute.List: as above, sorted by `order` ascending.
- The `imagePreview` state, `FileReader`, toasts, the `loading` flag and the list
  refresh after a submit. The clear button only renders when a preview exists;
  the model lets the handler run in any state.
- `handleDelete` in the three editors. It is a confirm dialog followed by
  `DELETE /<collection>/<id>`, whose route is modelled.
- TeamRoute.DeliveryUrlIsStoreHosted: holds for URLs on the provider's delivery host only. The model takes `secure_url` as any non-empty string, and an account with a custom delivery domain would return URLs without `cloudinary` in them, whose old photos the team update would then never ask to delete.
- The `createdAt`/`updatedAt` timestamps that the event, team and gallery schemas keep (`{ timestamps: true }`). An update always moves `updatedAt`, so "leaves the record as it was" in the unchanged-edit lemmas is about the stored fields and image, not the timestamps.
- The `console.log` lines of the helper and the team route.
- Membership, contact, authentication, seeding and the presentational pages.

## Findings

| source | as written | input that shows it | evidently intended | confidence | as-written member | corrected member |
|---|---|---|---|---|---|---|
| server/utils/uploadToCloudinary.js:64-66 | the public id is `real-estate-club/` plus the file's stem, so the sub-folder the routes upload into is lost | an event image stored as `https://res.cloudinary.com/c/image/upload/v1700000000/real-estate-club/events/abc.jpg` leads to destroy(`real-estate-club/abc`), but the image's id is `real-estate-club/events/abc` | derive the id under the folder the image was uploaded into | medium, not executed; it relies on the store naming an image by its upload folder plus its generated name | `CloudStore.PublicIdDropsSubfolder` | `CloudStore.PublicIdIn` |

The routes in this model keep the derivation as written, because the model
follows the code. `CloudStore.PublicIdIn` takes the upload's folder, and
`CloudStore.PublicIdInRoundTrip` proves that it recovers the stored image's id.

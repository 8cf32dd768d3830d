/**
 * The product routes of server/app.js over an abstract document collection:
 * the collection is a map from product id to stored document, and each route
 * handler yields an HTTP status with its JSON body and the new collection.
 *
 * Each handler has a specification function (`CreateOutcome`, `PutOutcome`,
 * ...) and a method of `ProductStore` that performs the same steps on the
 * store's state the way the handler does, proved to agree with it.
 */
module ProductApi {
  import opened Wrappers
  import opened Js
  import opened Uploads

  /** A product's id, in the string form it has in URLs and JSON. */
  type Id = string

  /** A stored product document: its fields, without the `_id`, which is the map key. */
  type Record = Object

  /** The fields PUT replaces only when the request value is truthy. */
  const FallbackFields: set<string> := {"name", "description", "price"}

  /** The fields of the `Product` schema. */
  const SchemaFields: set<string> := {"name", "description", "price", "imagePath"}

  datatype Reply = Reply(status: nat, body: Object)

  /** What a request does: the reply and the collection afterwards. */
  datatype Outcome = Outcome(reply: Reply, docs: map<Id, Record>)

  function MessageBody(text: string): Object
  {
    map["message" := Str(text)]
  }

  function ErrorBody(text: string): Object
  {
    map["error" := Str(text)]
  }

  /** The JSON a stored document serialises to: its fields plus `_id`. */
  function AsJson(id: Id, r: Record): (j: Object)
    ensures j.Keys == r.Keys + {"_id"} && j["_id"] == Str(id)
    ensures forall k :: k in r && k != "_id" ==> j[k] == r[k]
  {
    r["_id" := Str(id)]
  }

  /** The reply of a successful PUT or PATCH: a message and the saved document. */
  function UpdatedBody(id: Id, r: Record): (b: Object)
    ensures b.Keys == {"message", "updatedProduct"}
    ensures b["updatedProduct"] == Obj(AsJson(id, r))
    ensures Prop(b["updatedProduct"], "_id") == Str(id)
  {
    map["message" := Str("Product updated successfully"), "updatedProduct" := Obj(AsJson(id, r))]
  }

  const ProductNotFound: Reply := Reply(404, MessageBody("Product not found"))

  // ---------------------------------------------------------------------------
  // POST /api/products

  /** The document `new Product({name, description, price, imagePath})` builds. */
  function NewRecord(body: Object, imagePath: string): (r: Record)
    ensures r.Keys == SchemaFields
    ensures forall f :: f in FallbackFields ==> r[f] == Get(body, f)
    ensures r["imagePath"] == Str(imagePath)
  {
    map f | f in SchemaFields :: if f == "imagePath" then Str(imagePath) else Get(body, f)
  }

  /**
   * Creating a product: without an uploaded file the request is refused with
   * 400 and nothing is stored; with one, exactly one document is added under
   * the fresh id, holding the body's name, description and price and the
   * stored filename, and the 201 reply carries only a message, not the id.
   */
  function CreateOutcome(docs: map<Id, Record>, file: Option<Upload>, body: Object, now: nat, newId: Id): (o: Outcome)
    requires newId !in docs
    ensures file.None? ==> o.reply.status == 400 && o.docs == docs
    ensures file.Some? ==> o.reply.status == 201 && o.reply.body.Keys == {"message"}
    ensures file.Some? ==> o.docs.Keys == docs.Keys + {newId} && |o.docs| == |docs| + 1
    ensures file.Some? ==> forall id :: id in docs ==> o.docs[id] == docs[id]
    ensures file.Some? ==>
      && o.docs[newId].Keys == SchemaFields
      && (forall f :: f in FallbackFields ==> o.docs[newId][f] == Get(body, f))
      && o.docs[newId]["imagePath"] == Str(StoredFilename(now, file.value.originalName))
  {
    match file
    case None => Outcome(Reply(400, ErrorBody("No image file provided")), docs)
    case Some(upload) =>
      var record := NewRecord(body, StoredFilename(now, upload.originalName));
      Outcome(Reply(201, MessageBody("Product uploaded successfully")), docs[newId := record])
  }

  // ---------------------------------------------------------------------------
  // PUT /api/products/:productId

  /**
   * The document a PUT saves: name, description and price take the request
   * value when it is truthy and keep the old value otherwise; imagePath is
   * replaced only by a truthy request value; every other field is kept.
   */
  function PutRecord(existing: Record, body: Object): (r: Record)
    ensures forall f :: f in FallbackFields ==>
      Get(r, f) == if Truthy(Get(body, f)) then Get(body, f) else Get(existing, f)
    ensures Get(r, "imagePath") ==
      if Truthy(Get(body, "imagePath")) then Get(body, "imagePath") else Get(existing, "imagePath")
    ensures forall k :: k !in SchemaFields ==> Get(r, k) == Get(existing, k)
    ensures existing.Keys <= r.Keys
  {
    var fallback := map f | f in FallbackFields :: Or(Get(body, f), Get(existing, f));
    var image := if Truthy(Get(body, "imagePath")) then map["imagePath" := Get(body, "imagePath")] else map[];
    existing + fallback + image
  }

  /** The four assignments of the PUT handler, done in turn, save `PutRecord`. */
  lemma PutSteps(existing: Record, body: Object, stepped: Record)
    requires stepped == (
      var a := existing["name" := Or(Get(body, "name"), Get(existing, "name"))];
      var b := a["description" := Or(Get(body, "description"), Get(a, "description"))];
      var c := b["price" := Or(Get(body, "price"), Get(b, "price"))];
      if Truthy(Get(body, "imagePath")) then c["imagePath" := Get(body, "imagePath")] else c)
    ensures stepped == PutRecord(existing, body)
  {
    var r := PutRecord(existing, body);
    assert stepped.Keys == r.Keys;
    forall k | k in r
      ensures stepped[k] == r[k]
    {
      assert Get(stepped, k) == Get(r, k);
    }
  }

  /** A falsy request value ("", 0, absent, null) never changes a field. */
  lemma PutFalsyKeepsField(existing: Record, body: Object, f: string)
    requires f in SchemaFields && !Truthy(Get(body, f))
    ensures Get(PutRecord(existing, body), f) == Get(existing, f)
  {
    assert f == "imagePath" || f in FallbackFields;
  }

  /** A PUT whose four schema values are all falsy leaves every field as it was. */
  lemma PutAllFalsyIsIdentity(existing: Record, body: Object)
    requires forall f :: f in SchemaFields ==> !Truthy(Get(body, f))
    ensures forall k :: Get(PutRecord(existing, body), k) == Get(existing, k)
  {
    forall k
      ensures Get(PutRecord(existing, body), k) == Get(existing, k)
    {
      if k in SchemaFields {
        PutFalsyKeepsField(existing, body, k);
      }
    }
  }

  /**
   * In this model, where values are not cast to the schema's types, a field
   * holding a truthy value keeps a truthy value through any PUT. Once cast,
   * a PUT of the string "0" would store price 0.
   */
  lemma PutNeverClearsField(existing: Record, body: Object, f: string)
    requires f in SchemaFields && Truthy(Get(existing, f))
    ensures Truthy(Get(PutRecord(existing, body), f))
  {
    assert f == "imagePath" || f in FallbackFields;
  }

  /** Sending the same PUT twice saves the same document as sending it once. */
  lemma PutIdempotent(existing: Record, body: Object)
    ensures PutRecord(PutRecord(existing, body), body) == PutRecord(existing, body)
  {
    var once := PutRecord(existing, body);
    var twice := PutRecord(once, body);
    assert twice.Keys == once.Keys;
    forall k | k in once
      ensures twice[k] == once[k]
    {
      assert Get(twice, k) == Get(once, k) by {
        if k in FallbackFields {
        } else if k == "imagePath" {
        }
      }
    }
  }

  /**
   * PUT: an unknown id gives 404 and changes nothing; a known one saves
   * `PutRecord` under the same id, leaves every other document alone and
   * replies with the saved document.
   */
  function PutOutcome(docs: map<Id, Record>, id: Id, body: Object): (o: Outcome)
    ensures id !in docs ==> o.reply.status == 404 && o.docs == docs
    ensures id in docs ==> o.reply.status == 200 && o.docs.Keys == docs.Keys
    ensures id in docs ==> o.docs[id] == PutRecord(docs[id], body)
    ensures id in docs ==> Get(o.reply.body, "updatedProduct") == Obj(AsJson(id, o.docs[id]))
    ensures forall other :: other in docs && other != id ==> o.docs[other] == docs[other]
  {
    if id !in docs then Outcome(ProductNotFound, docs)
    else
      var saved := PutRecord(docs[id], body);
      Outcome(Reply(200, UpdatedBody(id, saved)), docs[id := saved])
  }

  // ---------------------------------------------------------------------------
  // PATCH /api/products/:productId

  /** The document a PATCH saves: every body key overwritten, every other key kept. */
  function PatchRecord(existing: Record, body: Object): (r: Record)
    ensures r.Keys == existing.Keys + body.Keys
    ensures forall k :: k in body ==> r[k] == body[k]
    ensures forall k :: k in existing && k !in body ==> r[k] == existing[k]
  {
    existing + body
  }

  /** Applying the same PATCH twice saves the same document as applying it once. */
  lemma PatchIdempotent(existing: Record, body: Object)
    ensures PatchRecord(PatchRecord(existing, body), body) == PatchRecord(existing, body)
  {
  }

  /** PATCH: 404 and no change for an unknown id; otherwise `PatchRecord` under the same id. */
  function PatchOutcome(docs: map<Id, Record>, id: Id, body: Object): (o: Outcome)
    ensures id !in docs ==> o.reply.status == 404 && o.docs == docs
    ensures id in docs ==> o.reply.status == 200 && o.docs.Keys == docs.Keys
    ensures id in docs ==> o.docs[id] == PatchRecord(docs[id], body)
    ensures id in docs ==> Get(o.reply.body, "updatedProduct") == Obj(AsJson(id, o.docs[id]))
    ensures forall other :: other in docs && other != id ==> o.docs[other] == docs[other]
  {
    if id !in docs then Outcome(ProductNotFound, docs)
    else
      var saved := PatchRecord(docs[id], body);
      Outcome(Reply(200, UpdatedBody(id, saved)), docs[id := saved])
  }

  // ---------------------------------------------------------------------------
  // DELETE /api/products/:productId

  /** DELETE: 404 and no change for an unknown id; otherwise exactly that document goes. */
  function DeleteOutcome(docs: map<Id, Record>, id: Id): (o: Outcome)
    ensures id !in docs ==> o.reply.status == 404 && o.docs == docs
    ensures id in docs ==> o.reply.status == 200 && |o.docs| == |docs| - 1
    ensures o.docs.Keys == docs.Keys - {id}
    ensures forall other :: other in o.docs ==> o.docs[other] == docs[other]
  {
    if id !in docs then Outcome(ProductNotFound, docs)
    else Outcome(Reply(200, MessageBody("Product deleted successfully")), docs - {id})
  }

  // ---------------------------------------------------------------------------
  // GET /api/products/:productId/download

  datatype DownloadReply =
    | Missing(body: Object)
    | Attachment(disposition: string, contentType: string, fileName: string)
  {
    function Status(): nat
    {
      if Missing? then 404 else 200
    }
  }

  /** The header text the download route writes before the filename. */
  const DispositionPrefix: string := "attachment; filename="

  /** The `Content-Disposition` text the handler sets for a stored image. */
  function ContentDisposition(imagePath: JsValue): (h: string)
    ensures |h| == |DispositionPrefix| + |ToString(imagePath)|
    ensures h[..|DispositionPrefix|] == DispositionPrefix && h[|DispositionPrefix|..] == ToString(imagePath)
  {
    DispositionPrefix + ToString(imagePath)
  }

  /**
   * Download: 404 exactly when the product is missing or its imagePath is
   * falsy; otherwise an `image/jpeg` attachment whose disposition names the
   * stored imagePath.
   */
  function DownloadOutcome(docs: map<Id, Record>, id: Id): (r: DownloadReply)
    ensures r.Status() == 404 <==> id !in docs || !Truthy(Get(docs[id], "imagePath"))
    ensures r.Missing? ==> r.body == MessageBody("Product or file not found")
    ensures r.Attachment? ==>
      && r.disposition == ContentDisposition(docs[id]["imagePath"])
      && r.contentType == "image/jpeg"
      && r.fileName == ToString(docs[id]["imagePath"])
  {
    if id !in docs || !Truthy(Get(docs[id], "imagePath")) then
      Missing(MessageBody("Product or file not found"))
    else
      var imagePath := docs[id]["imagePath"];
      Attachment(ContentDisposition(imagePath), "image/jpeg", ToString(imagePath))
  }

  /** Once a product is deleted, downloading it answers 404. */
  lemma DownloadAfterDelete(docs: map<Id, Record>, id: Id)
    ensures DownloadOutcome(DeleteOutcome(docs, id).docs, id).Status() == 404
  {
  }

  // ---------------------------------------------------------------------------
  // The collection and the handlers that change it

  class ProductStore {
    /** The product collection: id to stored document. */
    var docs: map<Id, Record>

    constructor ()
      ensures docs == map[]
    {
      docs := map[];
    }

    /** GET /api/products: every stored document once, in no particular order. */
    method List() returns (items: seq<Object>)
      ensures |items| == |docs|
      ensures forall id :: id in docs ==> AsJson(id, docs[id]) in items
      ensures forall i :: 0 <= i < |items| ==> exists id :: id in docs && items[i] == AsJson(id, docs[id])
    {
      items := [];
      var pending := docs.Keys;
      while pending != {}
        invariant pending <= docs.Keys
        invariant |items| + |pending| == |docs|
        invariant forall id :: id in docs && id !in pending ==> AsJson(id, docs[id]) in items
        invariant forall i :: 0 <= i < |items| ==>
          exists id :: id in docs && id !in pending && items[i] == AsJson(id, docs[id])
        decreases pending
      {
        var id :| id in pending;
        items := items + [AsJson(id, docs[id])];
        pending := pending - {id};
      }
    }

    /** POST /api/products, after multer has produced `req.file` and `req.body`. */
    method Create(file: Option<Upload>, body: Object, now: nat, newId: Id) returns (reply: Reply)
      requires newId !in docs
      modifies this
      ensures Outcome(reply, docs) == CreateOutcome(old(docs), file, body, now, newId)
    {
      if file.None? {
        reply := Reply(400, ErrorBody("No image file provided"));
        return;
      }
      var record := NewRecord(body, StoredFilename(now, file.value.originalName));
      docs := docs[newId := record];
      reply := Reply(201, MessageBody("Product uploaded successfully"));
    }

    /** PUT /api/products/:productId: assigns the fetched document's fields one at a time, then saves it. */
    method Put(id: Id, body: Object) returns (reply: Reply)
      modifies this
      ensures Outcome(reply, docs) == PutOutcome(old(docs), id, body)
    {
      if id !in docs {
        reply := ProductNotFound;
        return;
      }
      var existing := docs[id];
      existing := existing["name" := Or(Get(body, "name"), Get(existing, "name"))];
      existing := existing["description" := Or(Get(body, "description"), Get(existing, "description"))];
      existing := existing["price" := Or(Get(body, "price"), Get(existing, "price"))];
      var imagePath := Get(body, "imagePath");
      if Truthy(imagePath) {
        existing := existing["imagePath" := imagePath];
      }
      PutSteps(docs[id], body, existing);
      docs := docs[id := existing];
      reply := Reply(200, UpdatedBody(id, existing));
    }

    /** PATCH /api/products/:productId: copies every body key onto the fetched document, then saves it. */
    method Patch(id: Id, body: Object) returns (reply: Reply)
      modifies this
      ensures Outcome(reply, docs) == PatchOutcome(old(docs), id, body)
    {
      if id !in docs {
        reply := ProductNotFound;
        return;
      }
      var existing := docs[id];
      var pending := body.Keys;
      while pending != {}
        invariant pending <= body.Keys
        invariant existing.Keys == docs[id].Keys + (body.Keys - pending)
        invariant forall k :: k in body && k !in pending ==> existing[k] == body[k]
        invariant forall k :: k in docs[id] && (k !in body || k in pending) ==> existing[k] == docs[id][k]
        decreases pending
      {
        var field :| field in pending;
        existing := existing[field := body[field]];
        pending := pending - {field};
      }
      assert existing == PatchRecord(docs[id], body);
      docs := docs[id := existing];
      reply := Reply(200, UpdatedBody(id, existing));
    }

    /** DELETE /api/products/:productId. */
    method Delete(id: Id) returns (reply: Reply)
      modifies this
      ensures Outcome(reply, docs) == DeleteOutcome(old(docs), id)
    {
      if id !in docs {
        reply := ProductNotFound;
        return;
      }
      docs := docs - {id};
      reply := Reply(200, MessageBody("Product deleted successfully"));
    }

    /** GET /api/products/:productId/download: reads the store, changes nothing. */
    method Download(id: Id) returns (r: DownloadReply)
      ensures r == DownloadOutcome(docs, id)
    {
      if id !in docs {
        return Missing(MessageBody("Product or file not found"));
      }
      var product := docs[id];
      var imagePath := Get(product, "imagePath");
      if !Truthy(imagePath) {
        return Missing(MessageBody("Product or file not found"));
      }
      r := Attachment(ContentDisposition(imagePath), "image/jpeg", ToString(imagePath));
    }
  }
}

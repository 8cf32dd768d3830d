/**
 * The state logic of the `ProductUploader` component
 * (client/src/components/ProductUploader.jsx): the form, the product list,
 * the edit mode and the id under edit, the list transforms applied after a
 * successful update or delete, and the download filename taken from the
 * `Content-Disposition` header. Network replies are parameters: `None`
 * stands for a request that threw, which the handlers catch and log.
 */
module Client {
  import opened Wrappers
  import opened Js
  import opened Text

  /** The form state the component starts with and resets to. */
  function EmptyForm(): (f: JsValue)
    ensures f.Obj? && f.fields.Keys == {"name", "description", "price", "image"}
    ensures Prop(f, "name") == Prop(f, "description") == Prop(f, "price") == Str("")
    ensures Prop(f, "image") == Null
    ensures forall k :: !Truthy(Prop(f, k))
  {
    Obj(map["name" := Str(""), "description" := Str(""), "price" := Str(""), "image" := Null])
  }

  /** `{...v}`: the own properties an object spreads; `undefined` spreads nothing. */
  function Spread(v: JsValue): Object
  {
    if v.Obj? then v.fields else map[]
  }

  /** `{...form, [key]: value}`: the named field takes the value, every other field is kept. */
  function WithField(form: JsValue, key: string, value: JsValue): (r: JsValue)
    ensures r.Obj?
    ensures Prop(r, key) == value
    ensures forall k :: k != key ==> Prop(r, k) == Prop(form, k)
  {
    Obj(Spread(form)[key := value])
  }

  /** The first index whose entry's `_id` is `id` (what `find` and `findIndex` look for). */
  function IndexOfId(list: seq<Object>, id: JsValue): (r: Option<nat>)
    ensures r.Some? ==> r.value < |list| && Get(list[r.value], "_id") == id
    ensures r.Some? ==> forall j :: 0 <= j < r.value ==> Get(list[j], "_id") != id
    ensures r.None? ==> forall j :: 0 <= j < |list| ==> Get(list[j], "_id") != id
  {
    if list == [] then None
    else if Get(list[0], "_id") == id then Some(0)
    else match IndexOfId(list[1..], id)
      case None => None
      case Some(k) => Some(k + 1)
  }

  /** `products.find(p => p._id === id)`: the first matching entry, if any. */
  function FindById(list: seq<Object>, id: JsValue): (r: Option<Object>)
    ensures r.None? <==> forall j :: 0 <= j < |list| ==> Get(list[j], "_id") != id
    ensures r.Some? ==> exists i :: (0 <= i < |list| && list[i] == r.value && Get(list[i], "_id") == id
      && forall j :: 0 <= j < i ==> Get(list[j], "_id") != id)
  {
    match IndexOfId(list, id)
    case None => None
    case Some(i) => Some(list[i])
  }

  /**
   * `products.map(p => p._id === id ? v : p)`: same length, every entry
   * with that id replaced by `v`, every other entry unchanged in place.
   */
  function ReplaceById(list: seq<Object>, id: JsValue, v: Object): (r: seq<Object>)
    ensures |r| == |list|
    ensures forall i :: 0 <= i < |list| && Get(list[i], "_id") == id ==> r[i] == v
    ensures forall i :: 0 <= i < |list| && Get(list[i], "_id") != id ==> r[i] == list[i]
  {
    if list == [] then []
    else [if Get(list[0], "_id") == id then v else list[0]] + ReplaceById(list[1..], id, v)
  }

  /** `a` is `b` with some entries left out, the rest in their original order. */
  ghost predicate Subsequence(a: seq<Object>, b: seq<Object>)
  {
    if a == [] then true
    else if b == [] then false
    else if a[0] == b[0] then Subsequence(a[1..], b[1..])
    else Subsequence(a, b[1..])
  }

  /** How many entries carry the id `id`. */
  function CountId(list: seq<Object>, id: JsValue): nat
  {
    if list == [] then 0 else (if Get(list[0], "_id") == id then 1 else 0) + CountId(list[1..], id)
  }

  /**
   * `products.filter(p => p._id !== id)`: no entry with that id remains,
   * exactly those entries are dropped, and the rest keep their relative order.
   */
  function RemoveById(list: seq<Object>, id: JsValue): (r: seq<Object>)
    ensures forall i :: 0 <= i < |r| ==> Get(r[i], "_id") != id
    ensures |r| + CountId(list, id) == |list|
    ensures Subsequence(r, list)
  {
    if list == [] then []
    else if Get(list[0], "_id") == id then RemoveById(list[1..], id)
    else [list[0]] + RemoveById(list[1..], id)
  }

  /** Every entry whose id differs from `id` is kept by the filter. */
  lemma {:induction false} RemoveByIdKeepsOthers(list: seq<Object>, id: JsValue, e: Object)
    requires e in list && Get(e, "_id") != id
    ensures e in RemoveById(list, id)
  {
    if list[0] != e {
      RemoveByIdKeepsOthers(list[1..], id, e);
    }
  }

  /** The filter leaves a list without that id unchanged. */
  lemma {:induction false} RemoveAbsentId(list: seq<Object>, id: JsValue)
    requires forall i :: 0 <= i < |list| ==> Get(list[i], "_id") != id
    ensures RemoveById(list, id) == list
  {
    if list != [] {
      RemoveAbsentId(list[1..], id);
    }
  }

  /** The header name that precedes the filename in `Content-Disposition`. */
  const FilenameKey: string := "filename="

  /**
   * The download filename of `handleDownload`: without a (non-empty)
   * header, "product_<id>.jpg"; otherwise the second piece of
   * `header.split('filename=')`, which is `undefined` when the key is absent.
   */
  function DownloadFileName(header: Option<string>, productId: JsValue): (r: JsValue)
    ensures r.Str? || r == Undefined
    ensures header.Some? && header.value != "" ==> (r.Str? <==> Contains(header.value, FilenameKey))
    ensures header.Some? && header.value != "" && r.Str? ==> !Contains(r.s, FilenameKey)
    ensures (header.None? || header.value == "") ==>
      (r.Str? && |r.s| >= 12 && r.s[..8] == "product_" && r.s[|r.s| - 4..] == ".jpg")
  {
    if header.Some? && header.value != "" then
      var pieces := Split(header.value, FilenameKey);
      if |pieces| >= 2 then Str(pieces[1]) else Undefined
    else Str("product_" + ToString(productId) + ".jpg")
  }

  /** Without a header the generated name is used; it always ends in ".jpg". */
  lemma DefaultDownloadFileName(productId: JsValue)
    ensures var r := DownloadFileName(None, productId);
      r.Str? && r.s == "product_" + ToString(productId) + ".jpg" && r.s[|r.s| - 4..] == ".jpg"
  {
  }

  /**
   * With a header, the filename is the text between the first "filename="
   * and the next "filename=" after it, or the end of the header.
   */
  lemma FileNameBetweenKeys(header: string, productId: JsValue, i: nat, j: nat)
    requires OccursAt(header, FilenameKey, i)
    requires forall k :: 0 <= k < i ==> !OccursAt(header, FilenameKey, k)
    requires i + |FilenameKey| <= j <= |header|
    requires j == |header| || OccursAt(header, FilenameKey, j)
    requires forall k :: i + |FilenameKey| <= k < j ==> !OccursAt(header, FilenameKey, k)
    ensures DownloadFileName(Some(header), productId) == Str(header[i + |FilenameKey|..j])
  {
    SecondPiece(header, FilenameKey, i, j);
  }

  /** With a non-empty header that lacks "filename=", the filename is `undefined`. */
  lemma FileNameWithoutKey(header: string, productId: JsValue)
    requires header != "" && !Contains(header, FilenameKey)
    ensures DownloadFileName(Some(header), productId) == Undefined
  {
    SplitWithoutSeparator(header, FilenameKey);
  }

  /** A request the component sends. */
  datatype Request =
    | PutProduct(id: JsValue, body: JsValue)
    | PostProduct(parts: seq<Part>)
    | DeleteProduct(id: JsValue)

  /** The fields a create submission appends to its `FormData`, in order. */
  const FormFields: seq<string> := ["name", "description", "price", "image"]

  /**
   * The `FormData` of a create submission: one part per form field, a file
   * part exactly where the field holds a `File`, and the field's string form
   * otherwise (an unset image travels as the text "null").
   */
  function FormParts(form: JsValue): (parts: seq<Part>)
    ensures |parts| == |FormFields|
    ensures forall i :: 0 <= i < |parts| ==> parts[i].name == FormFields[i]
    ensures forall i :: 0 <= i < |parts| ==> (parts[i].FileField? <==> Prop(form, FormFields[i]).File?)
    ensures forall i :: 0 <= i < |parts| && parts[i].TextField? ==>
      parts[i].value == ToString(Prop(form, FormFields[i]))
    ensures forall i :: 0 <= i < |parts| && parts[i].FileField? ==>
      parts[i].fileName == Prop(form, FormFields[i]).name
  {
    seq(|FormFields|, i requires 0 <= i < |FormFields| => AppendPart(FormFields[i], Prop(form, FormFields[i])))
  }

  class ProductUploader {
    var productData: JsValue
    var products: seq<Object>
    var isEditing: bool
    var editingProductId: JsValue

    constructor ()
      ensures productData == EmptyForm() && products == []
      ensures !isEditing && editingProductId == Null
    {
      productData := EmptyForm();
      products := [];
      isEditing := false;
      editingProductId := Null;
    }

    /** The mount effect: the fetched list replaces the state; a failed fetch changes nothing. */
    method FetchProducts(response: Option<seq<Object>>)
      modifies this
      ensures products == if response.Some? then response.value else old(products)
      ensures productData == old(productData) && isEditing == old(isEditing)
      ensures editingProductId == old(editingProductId)
    {
      if response.Some? {
        products := response.value;
      }
    }

    /** `handleInputChange`: only the input's named field takes the typed text. */
    method HandleInputChange(name: string, value: string)
      modifies this
      ensures productData == WithField(old(productData), name, Str(value))
      ensures Prop(productData, name) == Str(value)
      ensures forall k :: k != name ==> Prop(productData, k) == Prop(old(productData), k)
      ensures products == old(products) && isEditing == old(isEditing)
      ensures editingProductId == old(editingProductId)
    {
      productData := WithField(productData, name, Str(value));
    }

    /** `handleImageChange`: only `image` changes, to the first chosen file or `undefined`. */
    method HandleImageChange(files: seq<JsValue>)
      modifies this
      ensures productData == WithField(old(productData), "image", if |files| > 0 then files[0] else Undefined)
      ensures Prop(productData, "image") == if |files| > 0 then files[0] else Undefined
      ensures forall k :: k != "image" ==> Prop(productData, k) == Prop(old(productData), k)
      ensures products == old(products) && isEditing == old(isEditing)
      ensures editingProductId == old(editingProductId)
    {
      var chosen := if |files| > 0 then files[0] else Undefined;
      productData := WithField(productData, "image", chosen);
    }

    /**
     * `handleEdit`: loads the first list entry with that `_id` into the form
     * and enters edit mode for the id. The component binds it only to the
     * `_id` of a listed product, so the entry is always found.
     */
    method HandleEdit(productId: JsValue)
      requires FindById(products, productId).Some?
      modifies this
      ensures products == old(products)
      ensures isEditing && editingProductId == productId
      ensures productData == Obj(FindById(products, productId).value)
      ensures Prop(productData, "_id") == productId
    {
      var productToEdit := FindById(products, productId);
      productData := Obj(productToEdit.value);
      editingProductId := productId;
      isEditing := true;
    }

    /**
     * `handleUpdate`: sends the form as a PUT for the id under edit. On
     * success every entry with that id becomes the reply body, edit mode ends
     * and the form is reset; on failure nothing changes.
     */
    method HandleUpdate(response: Option<Object>) returns (sent: Request)
      modifies this
      ensures sent == PutProduct(old(editingProductId), old(productData))
      ensures response.None? ==>
        && products == old(products) && productData == old(productData)
        && isEditing == old(isEditing) && editingProductId == old(editingProductId)
      ensures response.Some? ==>
        && products == ReplaceById(old(products), old(editingProductId), response.value)
        && editingProductId == Null && !isEditing && productData == EmptyForm()
    {
      sent := PutProduct(editingProductId, productData);
      if response.Some? {
        var updatedProducts := ReplaceById(products, editingProductId, response.value);
        products := updatedProducts;
        editingProductId := Null;
        isEditing := false;
        productData := EmptyForm();
      }
    }

    /**
     * `handleDelete`: on success the entries with that id leave the list; on
     * failure (including a 404, which axios throws) nothing changes.
     */
    method HandleDelete(productId: JsValue, succeeded: bool) returns (sent: Request)
      modifies this
      ensures sent == DeleteProduct(productId)
      ensures products == if succeeded then RemoveById(old(products), productId) else old(products)
      ensures productData == old(productData) && isEditing == old(isEditing)
      ensures editingProductId == old(editingProductId)
    {
      sent := DeleteProduct(productId);
      if succeeded {
        products := RemoveById(products, productId);
      }
    }

    /**
     * `handleSubmit`: in edit mode it runs `handleUpdate` with the PUT reply;
     * otherwise it posts the form as multipart data and changes no state
     * (the list is not refreshed and the form is not reset).
     */
    method HandleSubmit(updateResponse: Option<Object>) returns (sent: Request)
      modifies this
      ensures old(isEditing) ==> sent == PutProduct(old(editingProductId), old(productData))
      ensures old(isEditing) && updateResponse.None? ==>
        && products == old(products) && productData == old(productData)
        && isEditing && editingProductId == old(editingProductId)
      ensures old(isEditing) && updateResponse.Some? ==>
        && products == ReplaceById(old(products), old(editingProductId), updateResponse.value)
        && editingProductId == Null && !isEditing && productData == EmptyForm()
      ensures !old(isEditing) ==> sent == PostProduct(FormParts(old(productData)))
      ensures !old(isEditing) ==>
        && products == old(products) && productData == old(productData)
        && !isEditing && editingProductId == old(editingProductId)
    {
      if isEditing {
        sent := HandleUpdate(updateResponse);
      } else {
        sent := PostProduct(FormParts(productData));
      }
    }
  }
}

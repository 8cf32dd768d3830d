/**
 * Properties that connect the client component to the server routes: the
 * download filename the client reads back from the header the server writes,
 * what a create submission from the form does on the server, and what the
 * client's list holds after it records a PUT reply.
 */
module EndToEnd {
  import opened Wrappers
  import opened Js
  import opened Decimal
  import opened Text
  import opened Uploads
  import opened ProductApi
  import opened Client

  /** Where the header's own "filename=" begins, inside `DispositionPrefix`. */
  const KeyStart: nat := |DispositionPrefix| - |FilenameKey|

  /** "filename=" cannot start at a character other than 'f'. */
  lemma NoKeyAt(s: string, k: nat)
    requires k < |s| && s[k] != 'f'
    ensures !OccursAt(s, FilenameKey, k)
  {
    if k + |FilenameKey| <= |s| {
      assert s[k..k + |FilenameKey|][0] == s[k];
    }
  }

  /** The header begins with its one "filename=", which ends the prefix. */
  lemma PrefixOccurrences(h: string)
    requires DispositionPrefix <= h
    ensures OccursAt(h, FilenameKey, KeyStart)
    ensures forall k :: 0 <= k < KeyStart ==> !OccursAt(h, FilenameKey, k)
  {
    assert h[KeyStart..|DispositionPrefix|] == FilenameKey;
    forall k | 0 <= k < KeyStart
      ensures !OccursAt(h, FilenameKey, k)
    {
      assert h[k] == DispositionPrefix[k] != 'f';
      NoKeyAt(h, k);
    }
  }

  /** Text appended after the prefix contributes exactly its own occurrences. */
  lemma TailOccurrences(p: string)
    ensures forall k :: |DispositionPrefix| <= k ==> (OccursAt(DispositionPrefix + p, FilenameKey, k) <==> OccursAt(p, FilenameKey, k - |DispositionPrefix|))
  {
    var h := DispositionPrefix + p;
    assert h[|DispositionPrefix|..] == p;
    ShiftOccurrences(h, FilenameKey, |DispositionPrefix|);
  }

  /**
   * Round trip: when the stored name does not itself contain "filename=",
   * the client reads back from the server's header exactly that name.
   */
  lemma HeaderRoundTrip(p: string, productId: JsValue)
    requires !Contains(p, FilenameKey)
    ensures DownloadFileName(Some(ContentDisposition(Str(p))), productId) == Str(p)
  {
    var h := ContentDisposition(Str(p));
    assert h == DispositionPrefix + p;
    PrefixOccurrences(h);
    TailOccurrences(p);
    assert forall k :: |DispositionPrefix| <= k < |h| ==> !OccursAt(h, FilenameKey, k) by {
      forall k | |DispositionPrefix| <= k < |h|
        ensures !OccursAt(h, FilenameKey, k)
      {
      }
    }
    FileNameBetweenKeys(h, productId, KeyStart, |h|);
    assert h[|DispositionPrefix|..] == p;
  }

  /** A header whose name has its first "filename=" at `m` is read back as the text before it. */
  lemma HeaderCutAtKey(p: string, productId: JsValue, m: nat)
    requires OccursAt(p, FilenameKey, m)
    requires forall k :: 0 <= k < m ==> !OccursAt(p, FilenameKey, k)
    ensures DownloadFileName(Some(ContentDisposition(Str(p))), productId) == Str(p[..m])
  {
    var h := ContentDisposition(Str(p));
    assert h == DispositionPrefix + p;
    PrefixOccurrences(h);
    TailOccurrences(p);
    assert OccursAt(h, FilenameKey, |DispositionPrefix| + m);
    FileNameBetweenKeys(h, productId, KeyStart, |DispositionPrefix| + m);
    assert h[|DispositionPrefix|..|DispositionPrefix| + m] == p[..m];
  }

  /**
   * The converse of `HeaderRoundTrip`: when the stored name contains
   * "filename=", the client reads back only the text before its first
   * occurrence, a proper prefix of the name.
   */
  lemma HeaderKeyBreaksRoundTrip(p: string, productId: JsValue)
    requires Contains(p, FilenameKey)
    ensures IndexOf(p, FilenameKey).Some?
    ensures var m := IndexOf(p, FilenameKey).value;
      DownloadFileName(Some(ContentDisposition(Str(p))), productId) == Str(p[..m])
    ensures DownloadFileName(Some(ContentDisposition(Str(p))), productId) != Str(p)
  {
    var m := IndexOf(p, FilenameKey).value;
    HeaderCutAtKey(p, productId, m);
    assert |p[..m]| < |p|;
  }

  /**
   * Download followed by the client's parsing: for a product whose imagePath
   * is a non-empty text without "filename=", the client saves the file under
   * the stored name.
   */
  lemma DownloadRoundTrip(docs: map<Id, Record>, id: Id, productId: JsValue, p: string)
    requires id in docs && Get(docs[id], "imagePath") == Str(p) && p != ""
    requires !Contains(p, FilenameKey)
    ensures DownloadOutcome(docs, id).Attachment?
    ensures DownloadFileName(Some(DownloadOutcome(docs, id).disposition), productId) == Str(p)
  {
    HeaderRoundTrip(p, productId);
  }

  /** A stored filename contains "filename=" only if its extension does. */
  lemma StoredFilenameKey(now: nat, originalName: string)
    requires !Contains(Extname(originalName), FilenameKey)
    ensures !Contains(StoredFilename(now, originalName), FilenameKey)
  {
    var d, e := Format(now), Extname(originalName);
    var s := d + e;
    assert s[|d|..] == e;
    ShiftOccurrences(s, FilenameKey, |d|);
    forall k | 0 <= k <= |s|
      ensures !OccursAt(s, FilenameKey, k)
    {
      if k < |d| {
        assert IsDigit(s[k]);
        NoKeyAt(s, k);
      } else {
        assert !OccursAt(e, FilenameKey, k - |d|);
      }
    }
  }

  /** Every file stored with an ordinary extension downloads under its stored name. */
  lemma StoredFilenameRoundTrip(now: nat, originalName: string, productId: JsValue)
    requires !Contains(Extname(originalName), FilenameKey)
    ensures var stored := StoredFilename(now, originalName);
      DownloadFileName(Some(ContentDisposition(Str(stored))), productId) == Str(stored)
  {
    StoredFilenameKey(now, originalName);
    HeaderRoundTrip(StoredFilename(now, originalName), productId);
  }

  /** Node gives the name "a.filename=" the extension ".filename=". */
  lemma ExtnameWithKey()
    ensures Extname("a.filename=") == "." + FilenameKey
  {
    assert TrimTrailingSlashes("a.filename=") == "a.filename=";
    assert LastIndex("a.filename=", '/') == None;
    assert LastIndex("a.filename=", '.') == Some(1);
  }

  /** In "<prefix><digits>.filename=" no key starts among the digits or the dot. */
  lemma DigitsDotOccurrences(d: string)
    requires AllDigits(d)
    ensures var h := DispositionPrefix + (d + "." + FilenameKey);
      && OccursAt(h, FilenameKey, |DispositionPrefix| + |d| + 1)
      && forall k :: |DispositionPrefix| <= k < |DispositionPrefix| + |d| + 1 ==> !OccursAt(h, FilenameKey, k)
  {
    var p := d + "." + FilenameKey;
    var h := DispositionPrefix + p;
    var j := |DispositionPrefix| + |d| + 1;
    assert h[|DispositionPrefix|..] == p;
    assert p[|d| + 1..] == FilenameKey;
    assert h[j..j + |FilenameKey|] == h[|DispositionPrefix|..][|d| + 1..];
    forall k | |DispositionPrefix| <= k < j
      ensures !OccursAt(h, FilenameKey, k)
    {
      assert h[k] == p[k - |DispositionPrefix|];
      assert IsDigit(h[k]) || h[k] == '.';
      NoKeyAt(h, k);
    }
  }

  /** A header naming "<digits>.filename=" is read back as "<digits>.". */
  lemma DigitsDotKeyParse(d: string, productId: JsValue)
    requires AllDigits(d)
    ensures DownloadFileName(Some(DispositionPrefix + (d + "." + FilenameKey)), productId) == Str(d + ".")
  {
    var h := DispositionPrefix + (d + "." + FilenameKey);
    PrefixOccurrences(h);
    DigitsDotOccurrences(d);
    FileNameBetweenKeys(h, productId, KeyStart, |DispositionPrefix| + |d| + 1);
    assert h[|DispositionPrefix|..|DispositionPrefix| + |d| + 1] == d + ".";
  }

  /**
   * The round trip is lost when the extension contains the key: a file
   * uploaded as "a.filename=" is stored as "<now>.filename=", and the client
   * cuts the name at the second "filename=", keeping "<now>.".
   */
  lemma KeyInExtensionBreaksRoundTrip(now: nat, productId: JsValue)
    ensures var stored := StoredFilename(now, "a.filename=");
      DownloadFileName(Some(ContentDisposition(Str(stored))), productId) == Str(Format(now) + ".")
      && Format(now) + "." != stored
  {
    ExtnameWithKey();
    var stored := StoredFilename(now, "a.filename=");
    assert stored == Format(now) + "." + FilenameKey;
    assert ContentDisposition(Str(stored)) == DispositionPrefix + stored;
    DigitsDotKeyParse(Format(now), productId);
  }

  /**
   * A create submission whose form holds no `File` as its image (the empty
   * form has `null`) reaches the server without a file: 400, nothing stored.
   */
  lemma SubmitWithoutImageIsRejected(form: JsValue, docs: map<Id, Record>, now: nat, newId: Id)
    requires !Prop(form, "image").File? && !Prop(form, "name").File?
    requires !Prop(form, "description").File? && !Prop(form, "price").File?
    requires newId !in docs
    ensures var received := ReceiveSingle(FormParts(form), "image");
      && received.Some? && received.value.file.None?
      && var o := CreateOutcome(docs, received.value.file, received.value.body, now, newId);
         o.reply.status == 400 && o.docs == docs
  {
    var parts := FormParts(form);
    assert forall i :: 0 <= i < |parts| ==> !parts[i].FileField? by {
      forall i | 0 <= i < |parts|
        ensures !parts[i].FileField?
      {
        assert FormFields[i] in {"name", "description", "price", "image"};
      }
    }
  }

  /**
   * A create submission with a chosen `File`: the server stores one new
   * product whose fields are the form's text and whose imagePath is the
   * stored filename of that file.
   */
  lemma SubmitWithImageCreates(form: JsValue, fileName: string, docs: map<Id, Record>, now: nat, newId: Id)
    requires Prop(form, "image") == File(fileName)
    requires !Prop(form, "name").File? && !Prop(form, "description").File? && !Prop(form, "price").File?
    requires newId !in docs
    ensures var received := ReceiveSingle(FormParts(form), "image");
      && received.Some? && received.value.file == Some(Upload(fileName))
      && var o := CreateOutcome(docs, received.value.file, received.value.body, now, newId);
         && o.reply.status == 201
         && o.docs[newId]["name"] == Str(ToString(Prop(form, "name")))
         && o.docs[newId]["description"] == Str(ToString(Prop(form, "description")))
         && o.docs[newId]["price"] == Str(ToString(Prop(form, "price")))
         && o.docs[newId]["imagePath"] == Str(StoredFilename(now, fileName))
  {
    var parts := FormParts(form);
    assert parts[..0] == [];
    assert parts[..1][..0] == parts[..0];
    assert parts[..2][..1] == parts[..1];
    assert parts[..3][..2] == parts[..2];
    assert parts[..4] == parts;
    assert parts[..4][..3] == parts[..3];
    var b1 := map["name" := Str(ToString(Prop(form, "name")))];
    assert ReceiveSingle(parts[..1], "image") == Some(Received(None, b1));
    var b2 := b1["description" := Str(ToString(Prop(form, "description")))];
    assert ReceiveSingle(parts[..2], "image") == Some(Received(None, b2));
    var b3 := b2["price" := Str(ToString(Prop(form, "price")))];
    assert ReceiveSingle(parts[..3], "image") == Some(Received(None, b3));
    assert ReceiveSingle(parts, "image") == Some(Received(Some(Upload(fileName)), b3));
  }

  /**
   * After a successful edit the client puts the PUT reply itself,
   * `{message, updatedProduct}`, in place of the entry; that object has no
   * `_id`, so the edited product can no longer be found by its id.
   */
  lemma EditedEntryLosesId(list: seq<Object>, editingId: JsValue, id: Id, saved: Record)
    requires editingId != Undefined
    ensures FindById(ReplaceById(list, editingId, UpdatedBody(id, saved)), editingId).None?
  {
    var r := ReplaceById(list, editingId, UpdatedBody(id, saved));
    forall i | 0 <= i < |r|
      ensures Get(r[i], "_id") != editingId
    {
      if Get(list[i], "_id") == editingId {
        assert "_id" !in UpdatedBody(id, saved);
      }
    }
  }
}

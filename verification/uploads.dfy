/**
 * How the server receives an uploaded image: multer's `upload.single('image')`
 * turns the multipart parts into `req.file` and `req.body`, and its disk
 * storage names the stored file `Date.now() + path.extname(originalname)`
 * (server/app.js:25-34).
 */
module Uploads {
  import opened Wrappers
  import opened Js
  import opened Decimal
  import opened Text

  /** What multer reports in `req.file` for the one accepted file: its client-side name. */
  datatype Upload = Upload(originalName: string)

  /** `req.file` and `req.body` after multer has read the request. */
  datatype Received = Received(file: Option<Upload>, body: Object)

  /** The path with its trailing `/` characters removed. */
  function TrimTrailingSlashes(p: string): (r: string)
    ensures r <= p
    ensures r == [] || r[|r| - 1] != '/'
  {
    if p != [] && p[|p| - 1] == '/' then TrimTrailingSlashes(p[..|p| - 1]) else p
  }

  /** The last index of `c` in `s`, if any. */
  function LastIndex(s: string, c: char): (r: Option<nat>)
    ensures r.Some? ==> r.value < |s| && s[r.value] == c
    ensures r.Some? ==> forall k :: r.value < k < |s| ==> s[k] != c
    ensures r.None? ==> c !in s
  {
    if s == [] then None
    else if s[|s| - 1] == c then Some(|s| - 1)
    else LastIndex(s[..|s| - 1], c)
  }

  /** The last path component, after trailing slashes are ignored. */
  function Basename(p: string): (r: string)
    ensures '/' !in r
  {
    var t := TrimTrailingSlashes(p);
    match LastIndex(t, '/')
    case None => t
    case Some(k) => t[k + 1..]
  }

  /**
   * Node's `path.extname` (POSIX): the last component's text from its last
   * `.` on, or "" when it has no `.`, when that `.` is its first character
   * (".bashrc"), or when it is exactly "..".
   */
  function Extname(p: string): (r: string)
    ensures r == "" || (r[0] == '.' && '/' !in r && '.' !in r[1..])
    ensures var b := Basename(p);
      r != "" <==> (b != ".." && exists i :: 0 < i < |b| && b[i] == '.')
  {
    var b := Basename(p);
    match LastIndex(b, '.')
    case None => ""
    case Some(d) => if d == 0 || b == ".." then "" else b[d..]
  }

  /** The extension is the tail of the file's last path component. */
  lemma ExtnameIsSuffix(p: string)
    ensures var b, e := Basename(p), Extname(p); |e| <= |b| && b[|b| - |e|..] == e
  {
  }

  /** Two of Node's documented cases: an ordinary extension, and a leading-dot name that has none. */
  lemma ExtnameExamples()
    ensures Extname("a.md") == ".md"
    ensures Extname(".md") == ""
  {
    assert TrimTrailingSlashes("a.md") == "a.md";
    assert LastIndex("a.md", '/') == None;
    assert LastIndex("a.md", '.') == Some(1);
    assert TrimTrailingSlashes(".md") == ".md";
    assert LastIndex(".md", '/') == None;
    assert LastIndex(".md", '.') == Some(0);
  }

  /** The disk name multer's storage gives an upload received at time `now` (milliseconds). */
  function StoredFilename(now: nat, originalName: string): (r: string)
    ensures |r| > |Extname(originalName)|
    ensures r[|r| - |Extname(originalName)|..] == Extname(originalName)
  {
    Format(now) + Extname(originalName)
  }

  /**
   * A stored filename splits back into its timestamp and the original
   * extension: the leading digits are the timestamp's decimal text, the rest
   * is the extension, which never starts with a digit.
   */
  lemma StoredFilenameParts(now: nat, originalName: string)
    ensures var r := StoredFilename(now, originalName);
      LeadingDigits(r) == Format(now) && Value(LeadingDigits(r)) == now
      && r[|LeadingDigits(r)|..] == Extname(originalName)
  {
    LeadingDigitsOfConcat(Format(now), Extname(originalName));
    ValueOfFormat(now);
  }

  /** Two uploads stored at different times never share a stored filename. */
  lemma StoredFilenamesDistinct(t1: nat, n1: string, t2: nat, n2: string)
    requires t1 != t2
    ensures StoredFilename(t1, n1) != StoredFilename(t2, n2)
  {
    StoredFilenameParts(t1, n1);
    StoredFilenameParts(t2, n2);
  }

  /**
   * `upload.single(field)`: text parts become `req.body` entries, the one
   * file part named `field` becomes `req.file`. A file part under any other
   * name, or a second file, makes multer fail the request (None).
   */
  function ReceiveSingle(parts: seq<Part>, field: string): (r: Option<Received>)
    ensures r.Some? <==> forall i :: 0 <= i < |parts| && parts[i].FileField? ==>
      parts[i].name == field && forall j :: 0 <= j < i ==> !parts[j].FileField?
    ensures r.Some? ==> (r.value.file.None? <==> forall i :: 0 <= i < |parts| ==> !parts[i].FileField?)
    ensures r.Some? ==> forall i :: 0 <= i < |parts| && parts[i].TextField? ==> parts[i].name in r.value.body
    decreases |parts|
  {
    if parts == [] then Some(Received(None, map[]))
    else
      var init := parts[..|parts| - 1];
      var last := parts[|parts| - 1];
      match ReceiveSingle(init, field)
      case None => None
      case Some(acc) =>
        match last
        case TextField(n, v) => Some(acc.(body := acc.body[n := Str(v)]))
        case FileField(n, f) =>
          if n != field || acc.file.Some? then None
          else Some(acc.(file := Some(Upload(f))))
  }

  /** The text-part names sent, in any order. */
  function TextNames(parts: seq<Part>): set<string>
  {
    set i | 0 <= i < |parts| && parts[i].TextField? :: parts[i].name
  }

  /** Part `i` is a text part and no later text part has its name. */
  predicate LastTextPart(parts: seq<Part>, i: int)
  {
    0 <= i < |parts| && parts[i].TextField?
    && forall j :: i < j < |parts| && parts[j].TextField? ==> parts[j].name != parts[i].name
  }

  /** An accepted request's `req.body` has exactly the text-part names as keys. */
  lemma {:induction false} ReceivedKeys(parts: seq<Part>, field: string)
    requires ReceiveSingle(parts, field).Some?
    ensures ReceiveSingle(parts, field).value.body.Keys == TextNames(parts)
    decreases |parts|
  {
    if parts != [] {
      var init := parts[..|parts| - 1];
      ReceivedKeys(init, field);
      var acc := ReceiveSingle(init, field).value;
      var v := ReceiveSingle(parts, field).value;
      var last := parts[|parts| - 1];
      var extra := if last.TextField? then {last.name} else {};
      assert v.body.Keys == acc.body.Keys + extra;
      forall x | x in TextNames(parts)
        ensures x in TextNames(init) + extra
      {
        var i :| 0 <= i < |parts| && parts[i].TextField? && parts[i].name == x;
        if i < |init| {
          assert init[i] == parts[i];
        }
      }
      forall x | x in TextNames(init) + extra
        ensures x in TextNames(parts)
      {
        if x in TextNames(init) {
          var i :| 0 <= i < |init| && init[i].TextField? && init[i].name == x;
          assert parts[i] == init[i];
        }
      }
    }
  }

  /** Each `req.body` key holds the text of the last text part with that name. */
  lemma {:induction false} ReceivedValues(parts: seq<Part>, field: string)
    requires ReceiveSingle(parts, field).Some?
    ensures forall i :: LastTextPart(parts, i) ==>
      parts[i].name in ReceiveSingle(parts, field).value.body
      && ReceiveSingle(parts, field).value.body[parts[i].name] == Str(parts[i].value)
    decreases |parts|
  {
    if parts != [] {
      var init := parts[..|parts| - 1];
      ReceivedValues(init, field);
      var acc := ReceiveSingle(init, field).value;
      var v := ReceiveSingle(parts, field).value;
      var last := parts[|parts| - 1];
      forall i | LastTextPart(parts, i)
        ensures parts[i].name in v.body && v.body[parts[i].name] == Str(parts[i].value)
      {
        if i < |init| {
          assert init[i] == parts[i];
          assert LastTextPart(init, i);
          assert last.FileField? || last.name != parts[i].name;
        }
      }
    }
  }

  /** An accepted `req.file` names the original file of a file part sent as `field`. */
  lemma {:induction false} ReceivedFile(parts: seq<Part>, field: string)
    requires ReceiveSingle(parts, field).Some?
    ensures var v := ReceiveSingle(parts, field).value;
      v.file.Some? ==> exists i :: 0 <= i < |parts| && parts[i] == FileField(field, v.file.value.originalName)
    decreases |parts|
  {
    if parts != [] {
      var init := parts[..|parts| - 1];
      ReceivedFile(init, field);
      var acc := ReceiveSingle(init, field).value;
      var v := ReceiveSingle(parts, field).value;
      if v.file.Some? {
        if acc.file.Some? {
          var i :| 0 <= i < |init| && init[i] == FileField(field, acc.file.value.originalName);
          assert parts[i] == init[i];
        } else {
          assert parts[|parts| - 1] == FileField(field, v.file.value.originalName);
        }
      }
    }
  }
}

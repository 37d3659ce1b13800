/** Uploaded documents of workers (`Document`) and of employers (`EmployerDocument`): the
    replace-by-type upload and the owner-only delete of backend/controllers/userController.js
    and backend/controllers/employerController.js, and the verified-document count behind the
    employer dashboard and the job-posting gate. */
module Documents {
  import opened Outcomes
  import opened Text

  /** A stored document; `owner` is its `userId` or `employerId`, and `status` is "" when
      the record has none. */
  datatype Document = Document(id: string, owner: string, url: string, kind: string, status: string)

  /** The answer to an upload: its message and the created document. */
  datatype Uploaded = Uploaded(message: string, document: Document)

  predicate OfType(d: Document, owner: string, kind: string) {
    d.owner == owner && d.kind == kind
  }

  /** `findOne({ userId, type })`: the index of the first document of this owner and type. */
  function FindOfType(docs: seq<Document>, owner: string, kind: string): (r: Option<nat>)
    ensures r.None? <==> forall i :: 0 <= i < |docs| ==> !OfType(docs[i], owner, kind)
    ensures r.Some? ==> r.value < |docs| && OfType(docs[r.value], owner, kind)
    ensures r.Some? ==> forall i :: 0 <= i < r.value ==> !OfType(docs[i], owner, kind)
  {
    if docs == [] then None
    else if OfType(docs[0], owner, kind) then Some(0)
    else match FindOfType(docs[1..], owner, kind)
      case None => None
      case Some(i) => Some(i + 1)
  }

  /** `findOne({ _id: id, userId })`: the index of the first document with this id and owner. */
  function FindOwned(docs: seq<Document>, id: string, owner: string): (r: Option<nat>)
    ensures r.None? <==> forall i :: 0 <= i < |docs| ==> docs[i].id != id || docs[i].owner != owner
    ensures r.Some? ==> r.value < |docs| && docs[r.value].id == id && docs[r.value].owner == owner
  {
    if docs == [] then None
    else if docs[0].id == id && docs[0].owner == owner then Some(0)
    else match FindOwned(docs[1..], id, owner)
      case None => None
      case Some(i) => Some(i + 1)
  }

  /** The collection after `findByIdAndDelete` of the document at `k`. */
  function RemoveAt(docs: seq<Document>, k: nat): seq<Document>
    requires k < |docs|
  {
    docs[..k] + docs[k + 1..]
  }

  /** Removing one document takes exactly that one out and keeps the order of the rest. */
  lemma RemoveAtSpec(docs: seq<Document>, k: nat)
    requires k < |docs|
    ensures |RemoveAt(docs, k)| == |docs| - 1
    ensures multiset(RemoveAt(docs, k)) + multiset{docs[k]} == multiset(docs)
    ensures forall i :: 0 <= i < k ==> RemoveAt(docs, k)[i] == docs[i]
    ensures forall i :: k <= i < |docs| - 1 ==> RemoveAt(docs, k)[i] == docs[i + 1]
  {
    assert docs == docs[..k] + [docs[k]] + docs[k + 1..];
  }

  /** The collection once an earlier document of this owner and type is deleted. */
  function WithoutType(docs: seq<Document>, owner: string, kind: string): seq<Document> {
    match FindOfType(docs, owner, kind)
    case None => docs
    case Some(k) => RemoveAt(docs, k)
  }

  /** At most one document per owner and type. */
  predicate OnePerType(docs: seq<Document>) {
    forall i, j :: 0 <= i < j < |docs| && docs[i].owner == docs[j].owner ==> docs[i].kind != docs[j].kind
  }

  /** An upload that finds a document of its owner and type removes just that one; all others
      stay, in order. */
  lemma WithoutTypeSpec(docs: seq<Document>, owner: string, kind: string)
    ensures |WithoutType(docs, owner, kind)| ==
      if FindOfType(docs, owner, kind).Some? then |docs| - 1 else |docs|
    ensures forall d :: d in docs && !OfType(d, owner, kind) ==> d in WithoutType(docs, owner, kind)
    ensures OnePerType(docs) ==> forall d :: d in WithoutType(docs, owner, kind) ==> !OfType(d, owner, kind)
    ensures forall d :: d in WithoutType(docs, owner, kind) ==> d in docs
  {
    match FindOfType(docs, owner, kind)
    case None =>
    case Some(k) =>
      RemoveAtSpec(docs, k);
      var r := RemoveAt(docs, k);
      forall d | d in docs && !OfType(d, owner, kind) ensures d in r {
        assert d != docs[k];
        assert multiset(docs)[d] > 0;
      }
      forall d | d in r ensures d in docs && (OnePerType(docs) ==> !OfType(d, owner, kind)) {
        assert multiset(r)[d] > 0;
        var i :| 0 <= i < |r| && r[i] == d;
        var j := if i < k then i else i + 1;
        assert r[i] == docs[j] && j != k;
      }
  }

  /** The collection after a successful upload. */
  function AfterUpload(docs: seq<Document>, d: Document): seq<Document> {
    WithoutType(docs, d.owner, d.kind) + [d]
  }

  /** Uploads keep at most one document per owner and type, and the uploaded one is then the
      only document of its owner and type. */
  lemma UploadKeepsOnePerType(docs: seq<Document>, d: Document)
    requires OnePerType(docs)
    ensures OnePerType(AfterUpload(docs, d))
    ensures forall e :: e in AfterUpload(docs, d) && OfType(e, d.owner, d.kind) ==> e == d
  {
    WithoutTypeSpec(docs, d.owner, d.kind);
    var w := WithoutType(docs, d.owner, d.kind);
    var r := w + [d];
    forall i, j | 0 <= i < j < |r| && r[i].owner == r[j].owner ensures r[i].kind != r[j].kind {
      assert r[i] in w;
      if j < |w| {
        OrderKept(docs, d.owner, d.kind, i, j);
      }
    }
  }

  /** Two positions of the pruned collection come from two distinct positions of the original. */
  lemma OrderKept(docs: seq<Document>, owner: string, kind: string, i: nat, j: nat)
    requires i < j < |WithoutType(docs, owner, kind)|
    requires OnePerType(docs)
    ensures WithoutType(docs, owner, kind)[i].owner == WithoutType(docs, owner, kind)[j].owner ==>
      WithoutType(docs, owner, kind)[i].kind != WithoutType(docs, owner, kind)[j].kind
  {
    match FindOfType(docs, owner, kind)
    case None =>
    case Some(k) =>
      RemoveAtSpec(docs, k);
      var i', j' := if i < k then i else i + 1, if j < k then j else j + 1;
      assert WithoutType(docs, owner, kind)[i] == docs[i'];
      assert WithoutType(docs, owner, kind)[j] == docs[j'];
  }

  /** `(d.status || '').toString().toLowerCase() === 'verified'`. */
  predicate IsVerified(d: Document) {
    Lower(d.status) == "verified"
  }

  /** `find({ employerId })`: the documents of one owner, in collection order. */
  function OwnedBy(docs: seq<Document>, owner: string): (r: seq<Document>)
    ensures forall d :: d in r <==> d in docs && d.owner == owner
    ensures |r| <= |docs|
  {
    if docs == [] then []
    else (if docs[0].owner == owner then [docs[0]] else []) + OwnedBy(docs[1..], owner)
  }

  /** The dashboard's `documentsVerified`: how many documents are verified. It never exceeds
      the number uploaded, and reaches it exactly when all are verified. */
  function VerifiedCount(docs: seq<Document>): (n: nat)
    ensures n <= |docs|
    ensures n == |docs| <==> forall d :: d in docs ==> IsVerified(d)
  {
    if docs == [] then 0
    else (if IsVerified(docs[0]) then 1 else 0) + VerifiedCount(docs[1..])
  }

  /** The createJob gate: at least one document, and none pending, rejected or unlabelled. */
  predicate CanPostJobs(docs: seq<Document>) {
    docs != [] && forall d :: d in docs ==> IsVerified(d)
  }

  /** The gate opens exactly when the dashboard shows every uploaded document verified and
      at least one uploaded. */
  lemma GateMatchesDashboard(docs: seq<Document>)
    ensures CanPostJobs(docs) <==> 0 < VerifiedCount(docs) == |docs|
  {
  }

  /** A pending document is not verified. */
  lemma PendingNotVerified(d: Document)
    requires d.status == "pending"
    ensures !IsVerified(d)
  {
    assert |Lower(d.status)| == 7;
  }

  /** Right after an upload, its owner's gate is closed until an administrator verifies the
      new document. */
  lemma UploadClosesGate(docs: seq<Document>, d: Document)
    requires d.status == "pending"
    ensures !CanPostJobs(OwnedBy(AfterUpload(docs, d), d.owner))
  {
    PendingNotVerified(d);
    assert d in AfterUpload(docs, d);
  }

  /** A document collection that uploads replace into and owners delete from. */
  class DocumentStore {
    var docs: seq<Document>

    constructor (initial: seq<Document>)
      ensures docs == initial
    {
      docs := initial;
    }

    /** Upload or replace: 400 on a missing URL or type; otherwise the owner's document of
        that type, if any, is deleted and the new one inserted as pending. */
    method Upload(owner: string, fileUrl: string, kind: string, newId: string)
      returns (r: Outcome<Uploaded>)
      modifies this
      ensures fileUrl == "" || kind == "" ==> r == Fail(BadRequest) && docs == old(docs)
      ensures fileUrl != "" && kind != "" ==>
        r.Ok? && r.value.document == Document(newId, owner, fileUrl, kind, "pending")
      ensures r.Ok? ==> docs == AfterUpload(old(docs), r.value.document)
      ensures r.Ok? ==> (r.value.message == "Document replaced" <==>
                          exists d :: d in old(docs) && OfType(d, owner, kind))
      ensures r.Ok? ==> (r.value.message == "Document uploaded" <==>
                          forall d :: d in old(docs) ==> !OfType(d, owner, kind))
      ensures OnePerType(old(docs)) ==> OnePerType(docs)
    {
      if fileUrl == "" || kind == "" {
        return Fail(BadRequest);
      }
      ghost var before := docs;
      var existing := FindOfType(docs, owner, kind);
      if existing.Some? {
        docs := docs[..existing.value] + docs[existing.value + 1..];
        assert before[existing.value] in before;
      }
      var doc := Document(newId, owner, fileUrl, kind, "pending");
      docs := docs + [doc];
      r := Ok(Uploaded(if existing.Some? then "Document replaced" else "Document uploaded", doc));
      if OnePerType(before) {
        UploadKeepsOnePerType(before, doc);
      }
    }

    /** Delete: 404 and nothing removed unless the requester owns a document with that id. */
    method Delete(id: string, requester: string) returns (r: Outcome<string>)
      modifies this
      ensures r.Fail? <==> forall d :: d in old(docs) ==> d.id != id || d.owner != requester
      ensures r.Fail? ==> r.status == NotFound && docs == old(docs)
      ensures r.Ok? ==> r.value == "Document deleted"
      ensures docs == AfterDelete(old(docs), id, requester)
    {
      var found := FindOwned(docs, id, requester);
      if found.None? {
        return Fail(NotFound);
      }
      docs := RemoveAt(docs, found.value);
      r := Ok("Document deleted");
    }
  }

  lemma {:induction false} OwnedByAppend(a: seq<Document>, b: seq<Document>, owner: string)
    ensures OwnedBy(a + b, owner) == OwnedBy(a, owner) + OwnedBy(b, owner)
  {
    if a == [] {
      assert a + b == b;
    } else {
      var c := a + b;
      assert c[0] == a[0] && c[1..] == a[1..] + b;
      OwnedByAppend(a[1..], b, owner);
    }
  }

  /** Removing another owner's document leaves this owner's documents as they were. */
  lemma OwnedByRemove(docs: seq<Document>, k: nat, owner: string)
    requires k < |docs| && docs[k].owner != owner
    ensures OwnedBy(RemoveAt(docs, k), owner) == OwnedBy(docs, owner)
  {
    assert docs == docs[..k] + ([docs[k]] + docs[k + 1..]);
    OwnedByAppend(docs[..k], [docs[k]] + docs[k + 1..], owner);
    OwnedByAppend([docs[k]], docs[k + 1..], owner);
    OwnedByAppend(docs[..k], docs[k + 1..], owner);
  }

  /** An upload leaves every other owner's documents exactly as they were. */
  lemma UploadKeepsOtherOwners(docs: seq<Document>, d: Document, owner: string)
    requires owner != d.owner
    ensures OwnedBy(AfterUpload(docs, d), owner) == OwnedBy(docs, owner)
  {
    OwnedByAppend(WithoutType(docs, d.owner, d.kind), [d], owner);
    match FindOfType(docs, d.owner, d.kind)
    case None =>
    case Some(k) => OwnedByRemove(docs, k, owner);
  }

  /** The collection after a delete request. */
  function AfterDelete(docs: seq<Document>, id: string, requester: string): seq<Document> {
    match FindOwned(docs, id, requester)
    case None => docs
    case Some(k) => RemoveAt(docs, k)
  }

  /** A delete request never touches another owner's documents. */
  lemma DeleteKeepsOtherOwners(docs: seq<Document>, id: string, requester: string, owner: string)
    requires owner != requester
    ensures OwnedBy(AfterDelete(docs, id, requester), owner) == OwnedBy(docs, owner)
  {
    match FindOwned(docs, id, requester)
    case None =>
    case Some(k) => OwnedByRemove(docs, k, owner);
  }
}

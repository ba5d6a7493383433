/** The CVE store (crud/cve.py): the `cves` collection and the five operations on it. */
module CveCrud {
  import opened Wrappers
  import opened Lookup
  import opened Http
  import opened CveSchemas

  /** A document of the `cves` collection: the CVE fields, and the `id` key that
      `update_cve` filters on. `create_cve` stores `model_dump()` of a `CVECreation`,
      which has no `id` key. */
  datatype CveDocument = CveDocument(id: Option<string>, fields: Cve)

  /** The `cve_id` of every document, in collection order. */
  function CveIds(docs: seq<CveDocument>): (r: seq<string>)
    ensures |r| == |docs|
    ensures forall i :: 0 <= i < |docs| ==> r[i] == docs[i].fields.cveId
  {
    seq(|docs|, i requires 0 <= i < |docs| => docs[i].fields.cveId)
  }

  /** The `id` key of every document, in collection order. */
  function Ids(docs: seq<CveDocument>): (r: seq<Option<string>>)
    ensures |r| == |docs|
    ensures forall i :: 0 <= i < |docs| ==> r[i] == docs[i].id
  {
    seq(|docs|, i requires 0 <= i < |docs| => docs[i].id)
  }

  ghost predicate HasCveId(docs: seq<CveDocument>, cveId: string) {
    exists i :: 0 <= i < |docs| && docs[i].fields.cveId == cveId
  }

  /** Document `i` is the one a filter `{"cve_id": cveId}` selects. */
  ghost predicate IsFirstWithCveId(docs: seq<CveDocument>, cveId: string, i: int) {
    && 0 <= i < |docs|
    && docs[i].fields.cveId == cveId
    && forall j :: 0 <= j < i ==> docs[j].fields.cveId != cveId
  }

  /** Document `i` is the one a filter `{"id": id}` selects. */
  ghost predicate IsFirstWithId(docs: seq<CveDocument>, id: string, i: int) {
    && 0 <= i < |docs|
    && docs[i].id == Some(id)
    && forall j :: 0 <= j < i ==> docs[j].id != Some(id)
  }

  /** No two documents share a `cve_id`. */
  ghost predicate UniqueCveIds(docs: seq<CveDocument>) {
    forall i, j :: 0 <= i < j < |docs| ==> docs[i].fields.cveId != docs[j].fields.cveId
  }

  /** No document has an `id` key, as when every document came from `create_cve`. */
  ghost predicate NoIdKeys(docs: seq<CveDocument>) {
    forall i :: 0 <= i < |docs| ==> docs[i].id.None?
  }

  /** A value in a `$set` document. */
  datatype FieldValue = TextValue(text: string) | SeverityValue(severity: Severity) | DateValue(date: DateTime)

  /** Line 19: `cve_update.model_dump()` without the keys whose value is `None`. */
  function UpdateData(u: CveUpdate): (r: map<string, FieldValue>)
    ensures r.Keys <= {"cve_id", "description", "severity", "published_date"}
    ensures "cve_id" in r <==> u.cveId.Some?
    ensures "description" in r <==> u.description.Some?
    ensures "severity" in r <==> u.severity.Some?
    ensures "published_date" in r <==> u.publishedDate.Some?
    ensures u.cveId.Some? ==> r["cve_id"] == TextValue(u.cveId.value)
    ensures u.description.Some? ==> r["description"] == TextValue(u.description.value)
    ensures u.severity.Some? ==> r["severity"] == SeverityValue(u.severity.value)
    ensures u.publishedDate.Some? ==> r["published_date"] == DateValue(u.publishedDate.value)
  {
    var dumped: map<string, Option<FieldValue>> := map[
      "cve_id" := (if u.cveId.Some? then Some(TextValue(u.cveId.value)) else None),
      "description" := (if u.description.Some? then Some(TextValue(u.description.value)) else None),
      "severity" := (if u.severity.Some? then Some(SeverityValue(u.severity.value)) else None),
      "published_date" := (if u.publishedDate.Some? then Some(DateValue(u.publishedDate.value)) else None)];
    map k | k in dumped && dumped[k].Some? :: dumped[k].value
  }

  /** MongoDB's `$set`: each field named in `data` takes the value given there. */
  function SetFields(c: Cve, data: map<string, FieldValue>): Cve {
    Cve(
      if "cve_id" in data && data["cve_id"].TextValue? then data["cve_id"].text else c.cveId,
      if "description" in data && data["description"].TextValue? then data["description"].text else c.description,
      if "severity" in data && data["severity"].SeverityValue? then data["severity"].severity else c.severity,
      if "published_date" in data && data["published_date"].DateValue? then data["published_date"].date else c.publishedDate)
  }

  /** The update overwrites exactly the fields given as non-`None` and keeps the rest. */
  lemma UpdateKeepsUnsetFields(c: Cve, u: CveUpdate)
    ensures SetFields(c, UpdateData(u)) ==
      Cve(u.cveId.GetOr(c.cveId), u.description.GetOr(c.description),
          u.severity.GetOr(c.severity), u.publishedDate.GetOr(c.publishedDate))
  {
  }

  /** BSON integers are signed 64-bit: `skip` and the limit sent to the server must
      stay below this magnitude. */
  const BsonIntBound: int := 0x8000_0000_0000_0000

  /** pymongo's `limit`: 0 means no limit, and a negative limit counts as its
      absolute value (one batch). */
  function PageCap(limit: int): Option<nat> {
    if limit == 0 then None else if limit < 0 then Some(-limit) else Some(limit)
  }

  /** `find().skip(skip).limit(limit)` listed: the documents from position `skip` on,
      as many as the limit allows. */
  function Page(docs: seq<CveDocument>, skip: nat, limit: int): (r: seq<CveDocument>)
    ensures skip >= |docs| ==> r == []
    ensures forall i :: 0 <= i < |r| ==> skip + i < |docs| && r[i] == docs[skip + i]
    ensures PageCap(limit).None? && skip <= |docs| ==> |r| == |docs| - skip
    ensures PageCap(limit).Some? && skip <= |docs| ==>
      |r| == if |docs| - skip < PageCap(limit).value then |docs| - skip else PageCap(limit).value
  {
    if skip >= |docs| then []
    else
      match PageCap(limit)
      case None => docs[skip..]
      case Some(n) => if skip + n <= |docs| then docs[skip..skip + n] else docs[skip..]
  }

  /** Two consecutive pages together are the page of their combined size. */
  lemma PagesConcatenate(docs: seq<CveDocument>, skip: nat, n: nat, m: nat)
    requires n > 0 && m > 0
    ensures Page(docs, skip, n) + Page(docs, skip + n, m) == Page(docs, skip, n + m)
  {
  }

  /** What `find_one_and_delete({"cve_id": cveId})` leaves: the collection without
      its first document with that `cve_id`. */
  function RemoveFirst(docs: seq<CveDocument>, cveId: string): (r: seq<CveDocument>)
    ensures !HasCveId(docs, cveId) ==> r == docs
    ensures HasCveId(docs, cveId) ==>
      exists i :: IsFirstWithCveId(docs, cveId, i) && r == docs[..i] + docs[i + 1..]
  {
    match FirstIndex(CveIds(docs), cveId)
    case None => docs
    case Some(i) =>
      assert IsFirstWithCveId(docs, cveId, i);
      docs[..i] + docs[i + 1..]
  }

  /** What `find_one_and_update({"id": id}, {"$set": ...})` leaves: the first
      document whose `id` key equals `id` updated, every other document as it was. */
  function UpdateFirst(docs: seq<CveDocument>, id: string, u: CveUpdate): (r: seq<CveDocument>)
    ensures |r| == |docs|
    ensures forall i :: 0 <= i < |docs| && !IsFirstWithId(docs, id, i) ==> r[i] == docs[i]
    ensures forall i :: IsFirstWithId(docs, id, i) ==>
      r[i] == CveDocument(docs[i].id, SetFields(docs[i].fields, UpdateData(u)))
  {
    match FirstIndex(Ids(docs), Some(id))
    case None => docs
    case Some(i) =>
      assert IsFirstWithId(docs, id, i);
      docs[i := CveDocument(docs[i].id, SetFields(docs[i].fields, UpdateData(u)))]
  }

  /** The update filters on `id`, so it never touches a collection whose documents
      all came from `create_cve`. */
  lemma UpdateMissesCreatedDocuments(docs: seq<CveDocument>, id: string, u: CveUpdate)
    requires NoIdKeys(docs)
    ensures FirstIndex(Ids(docs), Some(id)).None?
    ensures UpdateFirst(docs, id, u) == docs
  {
  }

  /** Deleting keeps `cve_id`s unique, and with unique `cve_id`s the deleted id is
      gone afterwards. */
  lemma {:induction false} RemoveFirstUnique(docs: seq<CveDocument>, cveId: string)
    requires UniqueCveIds(docs)
    ensures UniqueCveIds(RemoveFirst(docs, cveId))
    ensures !HasCveId(RemoveFirst(docs, cveId), cveId)
  {
    var r := RemoveFirst(docs, cveId);
    if HasCveId(docs, cveId) {
      var i :| IsFirstWithCveId(docs, cveId, i) && r == docs[..i] + docs[i + 1..];
      assert |r| == |docs| - 1;
      forall k | 0 <= k < |r|
        ensures r[k] == docs[if k < i then k else k + 1]
      {
        if k < i {
          assert r[k] == docs[..i][k];
        } else {
          assert r[k] == docs[i + 1..][k - i];
        }
      }
      forall a, b | 0 <= a < b < |r|
        ensures r[a].fields.cveId != r[b].fields.cveId
      {
        var a', b' := if a < i then a else a + 1, if b < i then b else b + 1;
        assert r[a] == docs[a'] && r[b] == docs[b'];
      }
      forall k | 0 <= k < |r|
        ensures r[k].fields.cveId != cveId
      {
        var k' := if k < i then k else k + 1;
        assert r[k] == docs[k'];
      }
    }
  }

  /** Appending a document whose `cve_id` is new keeps `cve_id`s unique, and the new
      document is the one a lookup of its `cve_id` finds. */
  lemma AppendFreshUnique(docs: seq<CveDocument>, doc: CveDocument)
    requires UniqueCveIds(docs) && !HasCveId(docs, doc.fields.cveId)
    ensures UniqueCveIds(docs + [doc])
    ensures IsFirstWithCveId(docs + [doc], doc.fields.cveId, |docs|)
  {
  }

  /** The in-memory stand-in for the `cves` collection of the database. */
  class CveCollection {
    var docs: seq<CveDocument>

    constructor ()
      ensures docs == []
    {
      docs := [];
    }

    /** `get_cve_by_cve_id`: the first document with that `cve_id`, if any. */
    method GetCveByCveId(cveId: string) returns (r: Option<CveDocument>)
      ensures r.None? <==> !HasCveId(docs, cveId)
      ensures r.Some? ==> exists i :: IsFirstWithCveId(docs, cveId, i) && r.value == docs[i]
    {
      var found := FirstIndex(CveIds(docs), cveId);
      if found.Some? {
        assert IsFirstWithCveId(docs, cveId, found.value);
        r := Some(docs[found.value]);
      } else {
        r := None;
      }
    }

    /** `get_cves`: one page of the collection. pymongo refuses a negative `skip`
        with a `ValueError`; a `skip` or a limit magnitude that does not fit in a
        signed 64-bit BSON integer fails with an `OverflowError` when the query is
        encoded. */
    method GetCves(skip: int, limit: int) returns (r: Result<seq<CveDocument>, Failure>)
      ensures r == Err(UncaughtValueError) <==> skip < 0
      ensures r == Err(UncaughtOverflowError) <==>
        0 <= skip && (skip >= BsonIntBound || limit >= BsonIntBound || -limit >= BsonIntBound)
      ensures r.Ok? <==> 0 <= skip < BsonIntBound && -BsonIntBound < limit < BsonIntBound
      ensures r.Ok? ==> r.value == Page(docs, skip, limit)
    {
      if skip < 0 {
        return Err(UncaughtValueError);
      }
      var sentLimit := if limit < 0 then -limit else limit;
      if skip >= BsonIntBound || sentLimit >= BsonIntBound {
        return Err(UncaughtOverflowError);
      }
      r := Ok(Page(docs, skip, limit));
    }

    /** `create_cve`: the record is inserted after all others, with no check for an
        existing `cve_id`, and the stored document is returned. */
    method CreateCve(cve: CveCreation) returns (r: CveDocument)
      modifies this
      ensures r == CveDocument(None, cve)
      ensures docs == old(docs) + [r]
    {
      r := CveDocument(None, cve);
      docs := docs + [r];
    }

    /** `update_cve`: the first document whose `id` key equals the argument gets the
        non-`None` fields of the update and is returned as it is afterwards; with no
        such document nothing changes and `None` is returned. */
    method UpdateCve(cveId: string, u: CveUpdate) returns (r: Option<CveDocument>)
      modifies this
      ensures docs == UpdateFirst(old(docs), cveId, u)
      ensures r.None? <==> (forall i :: 0 <= i < |old(docs)| ==> old(docs)[i].id != Some(cveId))
      ensures r.Some? ==> exists i :: IsFirstWithId(old(docs), cveId, i) && r.value == docs[i]
    {
      var found := FirstIndex(Ids(docs), Some(cveId));
      docs := UpdateFirst(docs, cveId, u);
      if found.Some? {
        assert IsFirstWithId(old(docs), cveId, found.value);
        r := Some(docs[found.value]);
      } else {
        r := None;
      }
    }

    /** `delete_cve`: the first document with that `cve_id` is removed and returned;
        with no such document nothing changes and `None` is returned. */
    method DeleteCve(cveId: string) returns (r: Option<CveDocument>)
      modifies this
      ensures docs == RemoveFirst(old(docs), cveId)
      ensures r.None? <==> !HasCveId(old(docs), cveId)
      ensures r.Some? ==> exists i :: IsFirstWithCveId(old(docs), cveId, i) && r.value == old(docs)[i]
    {
      var found := FirstIndex(CveIds(docs), cveId);
      if found.Some? {
        assert IsFirstWithCveId(docs, cveId, found.value);
        r := Some(docs[found.value]);
      } else {
        r := None;
      }
      docs := RemoveFirst(docs, cveId);
    }
  }
}

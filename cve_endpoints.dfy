/** The `/cves` router (routers/cves/endpoint.py): each handler calls the store and
    turns a missing document into a 404 or an existing `cve_id` into a 400. The
    `response_model=CVEInDB` of every route keeps only the CVE fields. */
module CveEndpoints {
  import opened Wrappers
  import opened Http
  import opened CveSchemas
  import opened CveCrud

  /** The defaults of the `skip` and `limit` query parameters. */
  const DefaultSkip: int := 0
  const DefaultLimit: int := 100

  const CveNotFound: Failure := HttpException(404, "CVE not found", NoChallenge)
  const CveExists: Failure := HttpException(400, "CVE with this ID already exists", NoChallenge)
  const NothingUpdated: Failure := HttpException(404, "CVE not found or no changes made", NoChallenge)

  /** The store as the routes can keep it: `cve_id`s pairwise distinct and no `id`
      key, which holds while every document is written by `create_cve_endpoint`. */
  ghost predicate Consistent(docs: seq<CveDocument>) {
    UniqueCveIds(docs) && NoIdKeys(docs)
  }

  /** The CVE fields of each document, in order. */
  function Bodies(docs: seq<CveDocument>): (r: seq<CveInDB>)
    ensures |r| == |docs|
    ensures forall i :: 0 <= i < |docs| ==> r[i] == docs[i].fields
  {
    seq(|docs|, i requires 0 <= i < |docs| => docs[i].fields)
  }

  /** `read_cves`: one page, starting at `skip` (default 0) and holding at most
      `limit` (default 100) records. */
  method ReadCves(store: CveCollection, skip: Option<int>, limit: Option<int>)
    returns (r: Result<seq<CveInDB>, Failure>)
    ensures r == Err(UncaughtValueError) <==> skip.GetOr(DefaultSkip) < 0
    ensures r == Err(UncaughtOverflowError) <==>
      var s, l := skip.GetOr(DefaultSkip), limit.GetOr(DefaultLimit);
      0 <= s && (s >= BsonIntBound || l >= BsonIntBound || -l >= BsonIntBound)
    ensures r.Ok? <==>
      var s, l := skip.GetOr(DefaultSkip), limit.GetOr(DefaultLimit);
      0 <= s < BsonIntBound && -BsonIntBound < l < BsonIntBound
    ensures r.Err? ==> StatusCode(r.error) == 500
    ensures r.Ok? ==> r.value == Bodies(Page(store.docs, skip.GetOr(DefaultSkip), limit.GetOr(DefaultLimit)))
    ensures skip.None? && limit.None? ==>
      && r.Ok?
      && |r.value| == (if |store.docs| < 100 then |store.docs| else 100)
      && forall i :: 0 <= i < |r.value| ==> r.value[i] == store.docs[i].fields
  {
    var page := store.GetCves(skip.GetOr(DefaultSkip), limit.GetOr(DefaultLimit));
    match page
    case Err(e) => r := Err(e);
    case Ok(docs) => r := Ok(Bodies(docs));
  }

  /** `read_cve`: the first record with that `cve_id`, or a 404. */
  method ReadCve(store: CveCollection, cveId: string) returns (r: Result<CveInDB, Failure>)
    ensures r.Err? <==> !HasCveId(store.docs, cveId)
    ensures r.Err? ==> r.error == CveNotFound
    ensures r.Ok? ==> exists i :: IsFirstWithCveId(store.docs, cveId, i) && r.value == store.docs[i].fields
  {
    var cve := store.GetCveByCveId(cveId);
    if cve.None? {
      return Err(CveNotFound);
    }
    r := Ok(cve.value.fields);
  }

  /** `create_cve_endpoint`: a 400 and no change when the `cve_id` is taken;
      otherwise the record is stored and returned. Either way a consistent store
      stays consistent. */
  method CreateCveEndpoint(store: CveCollection, cve: CveCreation) returns (r: Result<CveInDB, Failure>)
    modifies store
    ensures old(HasCveId(store.docs, cve.cveId)) ==> r == Err(CveExists) && store.docs == old(store.docs)
    ensures !old(HasCveId(store.docs, cve.cveId)) ==>
      r == Ok(cve) && store.docs == old(store.docs) + [CveDocument(None, cve)]
    ensures Consistent(old(store.docs)) ==> Consistent(store.docs)
  {
    var existing := store.GetCveByCveId(cve.cveId);
    if existing.Some? {
      return Err(CveExists);
    }
    var created := store.CreateCve(cve);
    r := Ok(created.fields);
  }

  /** `update_cve_endpoint`: a 404 whenever the store's update finds no document; on
      a consistent store that is every call, and nothing changes. */
  method UpdateCveEndpoint(store: CveCollection, cveId: string, u: CveUpdate) returns (r: Result<CveInDB, Failure>)
    modifies store
    ensures store.docs == UpdateFirst(old(store.docs), cveId, u)
    ensures r.Err? <==> (forall i :: 0 <= i < |old(store.docs)| ==> old(store.docs)[i].id != Some(cveId))
    ensures r.Err? ==> r.error == NothingUpdated
    ensures r.Ok? ==> exists i :: IsFirstWithId(old(store.docs), cveId, i) && r.value == store.docs[i].fields
    ensures NoIdKeys(old(store.docs)) ==> r == Err(NothingUpdated) && store.docs == old(store.docs)
  {
    var updated := store.UpdateCve(cveId, u);
    if updated.None? {
      return Err(NothingUpdated);
    }
    r := Ok(updated.value.fields);
  }

  /** `delete_cve_endpoint`: the first record with that `cve_id` is removed and
      returned, or a 404 and no change. A consistent store stays consistent and no
      longer holds the id. */
  method DeleteCveEndpoint(store: CveCollection, cveId: string) returns (r: Result<CveInDB, Failure>)
    modifies store
    ensures store.docs == RemoveFirst(old(store.docs), cveId)
    ensures r.Err? <==> !old(HasCveId(store.docs, cveId))
    ensures r.Err? ==> r.error == CveNotFound && store.docs == old(store.docs)
    ensures r.Ok? ==> exists i :: IsFirstWithCveId(old(store.docs), cveId, i) && r.value == old(store.docs)[i].fields
    ensures Consistent(old(store.docs)) ==> Consistent(store.docs) && !HasCveId(store.docs, cveId)
  {
    ghost var before := store.docs;
    var deleted := store.DeleteCve(cveId);
    if UniqueCveIds(before) {
      RemoveFirstUnique(before, cveId);
    }
    if deleted.None? {
      return Err(CveNotFound);
    }
    r := Ok(deleted.value.fields);
  }

  /** A client of the routes on a consistent store: a record created under a fresh
      `cve_id` can be read back, and once deleted it reads as a 404. */
  method CreateReadDelete(store: CveCollection, cve: CveCreation)
    returns (created: Result<CveInDB, Failure>, read: Result<CveInDB, Failure>, readAfterDelete: Result<CveInDB, Failure>)
    requires Consistent(store.docs)
    modifies store
    ensures !old(HasCveId(store.docs, cve.cveId)) ==> created == Ok(cve) && read == Ok(cve)
    ensures read.Ok? && read.value.cveId == cve.cveId
    ensures readAfterDelete == Err(CveNotFound)
    ensures Consistent(store.docs)
  {
    ghost var before := store.docs;
    created := CreateCveEndpoint(store, cve);
    if !HasCveId(before, cve.cveId) {
      AppendFreshUnique(before, CveDocument(None, cve));
    }
    read := ReadCve(store, cve.cveId);
    var _ := DeleteCveEndpoint(store, cve.cveId);
    readAfterDelete := ReadCve(store, cve.cveId);
  }
}

/** The pydantic models of the CVE API (schemas/cve.py). */
module CveSchemas {
  import opened Wrappers

  datatype Severity = Critical | High | Moderate | Low

  /** `published_date`, as seconds since the epoch; parsing it is not modelled. */
  type DateTime = int

  /** The fields of `CVEBase`; `CVECreation` and `CVEInDB` declare exactly these. */
  datatype Cve = Cve(cveId: string, description: string, severity: Severity, publishedDate: DateTime)

  type CveCreation = Cve
  type CveInDB = Cve

  /** `CVEUpdate`: every field optional, `None` by default. */
  datatype CveUpdate = CveUpdate(
    cveId: Option<string>,
    description: Option<string>,
    severity: Option<Severity>,
    publishedDate: Option<DateTime>)
}

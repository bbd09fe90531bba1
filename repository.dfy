/**
 * One repository record of the catalog, as the browse page reads it:
 * `repo.agency.acronym`, `repo.languages`, `repo.permissions.usageType`,
 * `repo.permissions.licenses[k].name`, and the fields the sort comparators
 * look at (the name, a data-quality score, a search score and the
 * last-modified date, all as integers).
 */
module Repository {

  datatype Agency = Agency(acronym: string)

  datatype License = License(name: string)

  datatype Permissions = Permissions(usageType: string, licenses: seq<License>)

  datatype Repo = Repo(
    name: string,
    agency: Agency,
    languages: seq<string>,
    permissions: Permissions,
    score: int,
    searchScore: int,
    lastModified: int
  )

  /** The names of a repository's licenses, in order. */
  function LicenseNames(r: Repo): (names: seq<string>)
    ensures |names| == |r.permissions.licenses|
    ensures forall k :: 0 <= k < |names| ==> names[k] == r.permissions.licenses[k].name
  {
    seq(|r.permissions.licenses|, k requires 0 <= k < |r.permissions.licenses| => r.permissions.licenses[k].name)
  }
}

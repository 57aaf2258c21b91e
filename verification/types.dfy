/** Value types shared by the search-state model: an optional value (the
    source's `T | null` and `undefined`) and the repository record returned
    by the search API. */
module Types {

  /** `None` stands for JavaScript's `null` or `undefined`. */
  datatype Option<+T> = None | Some(value: T)

  /** The `license` sub-object of a repository. */
  datatype License = License(name: string)

  /** One search result. The model never looks inside it: results are
      stored and replaced as a whole. */
  datatype Repo = Repo(
    id: int,
    name: string,
    fullName: string,
    language: string,
    forksCount: int,
    stargazersCount: int,
    updatedAt: string,
    description: string,
    license: Option<License>
  )
}

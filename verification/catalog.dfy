/** The records the API delivers, with every field optional as the gallery
    code treats it. */
module Catalog {
  import opened Values

  /** One entry of a movie's `casts` array. */
  datatype CastMember = CastMember(name: Option<string>, profilePath: Option<string>)

  /** One entry of the API's `data` array. `casts` is `None` when the field
      is missing or is not an array. */
  datatype Movie = Movie(
    id: Option<int>,
    title: Option<string>,
    posterPath: Option<string>,
    overview: Option<string>,
    casts: Option<seq<CastMember>>
  )
}

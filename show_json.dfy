/** The show record returned by the GraphQL query, with every field optional: a field the
    response leaves out is `None`, so each "absent gives a default" is an explicit branch. */
module ShowJson {
  import opened Wrappers

  datatype Image = Image(url: Option<string>, url1X1: Option<string>)

  datatype Audio = Audio(url: Option<string>, downloadUrl: Option<string>, size: Option<int>, mimeType: Option<string>)

  datatype Episode = Episode(
    title: Option<string>,
    summary: Option<string>,
    synopsis: Option<string>,
    sharingUrl: Option<string>,
    publicationStartDateAndTime: Option<string>,
    url: Option<string>,
    episodeNumber: Option<int>,
    duration: Option<int>,
    image: Option<Image>,
    isPublished: Option<bool>,
    audios: Option<seq<Audio>>)

  datatype Items = Items(nodes: Option<seq<Episode>>)

  datatype Show = Show(
    title: Option<string>,
    path: Option<string>,
    synopsis: Option<string>,
    sharingUrl: Option<string>,
    image: Option<Image>,
    items: Option<Items>)

  /** `image.get("url1X1", "")` on an optional image (absent image reads as `{}`). */
  function Url1X1(image: Option<Image>): string {
    match image
    case None => ""
    case Some(img) => img.url1X1.GetOr("")
  }

  /** `show.get("items", {}).get("nodes", [])`. */
  function Nodes(show: Show): seq<Episode> {
    match show.items
    case None => []
    case Some(items) => items.nodes.GetOr([])
  }

  /** Python truthiness of an optional string: present and non-empty. */
  predicate Truthy(s: Option<string>) {
    s.Some? && s.value != ""
  }
}

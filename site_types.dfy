/** The records the site's components exchange, as declared in
    src/lib/types.ts and src/lib/news/types.ts. Optional TypeScript fields
    (`x?: T`, `T | null`) become `Option<T>`; `number` fields that only ever
    hold whole numbers (levels, years, h-indices) become `int`. */
module SiteTypes {
  import opened JsCore

  datatype SocialNetwork = LinkedIn | Facebook

  datatype SocialLink = SocialLink(network: SocialNetwork, url: string)

  /** One person of the team org chart. `reportsTo` names the `id` of the
      person's manager, if any. */
  datatype TeamMember = TeamMember(
    id: string,
    name: string,
    imagePath: string,
    reportsTo: Option<string>,
    level: int,
    position: string,
    hIndex: Option<int>,
    labId: Option<string>,
    socialLinks: Option<seq<SocialLink>>)

  /** The team, as a list of levels, each a list of members. */
  type TeamData = seq<seq<TeamMember>>

  datatype PublicationType = International | National | Patent

  datatype Author = Author(name: string, id: Option<string>, labId: Option<string>)

  datatype Publication = Publication(
    title: string,
    authors: seq<Author>,
    publicationType: PublicationType,
    year: int,
    biographicalDatabase: string,
    link: Option<string>)

  /** An item of the in-place carousel: an image or a video given by a
      YouTube address and/or a direct file address. */
  datatype CarouselContent =
    | ImageContent(src: string, alt: Option<string>)
    | VideoContent(videoUrl: Option<string>, directVideoUrl: Option<string>, title: Option<string>)

  /** One entry of news.json. The date is the entry's timestamp; its text
      form and parsing are not part of this model. */
  datatype NewsEntry = NewsEntry(
    slug: string,
    title: string,
    date: int,
    contentMdxPath: string,
    imagePath: Option<string>)

  /** The front matter fields the news page reads. */
  datatype NewsMetadata = NewsMetadata(
    title: string,
    description: Option<string>,
    date: string,
    image: Option<string>,
    thumbnail: Option<string>,
    excerpt: Option<string>,
    tags: Option<seq<string>>)
}

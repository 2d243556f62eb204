/** The post records the panel receives. */
module Posts {

  /**
   * A post as the panel reads it from `post.data`. Tags are a list that may
   * repeat and may be empty; `pubDate` is the publication instant in
   * milliseconds since 1970-01-01T00:00:00Z.
   */
  datatype Post = Post(slug: string, title: string, description: string, tags: seq<string>, pubDate: int)
}

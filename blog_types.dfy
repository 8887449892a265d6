/**
 * The front end's post record (`BlogPost`) and the two shapes derived from
 * it: a record without its id (what the editor produces and `createPost`
 * takes) and a partial record (what `updatePost` spreads over a post).
 */
module BlogTypes {
  import opened Wrappers

  /** One post as the front end stores and shows it. */
  datatype BlogPost = BlogPost(
    id: string,
    title: string,
    excerpt: string,
    content: string,
    author: string,
    date: string,
    coverImage: string,
    tags: seq<string>,
    readTime: int)

  /** A post without its id: `Omit<BlogPost, 'id'>`. */
  datatype PostData = PostData(
    title: string,
    excerpt: string,
    content: string,
    author: string,
    date: string,
    coverImage: string,
    tags: seq<string>,
    readTime: int)

  /** `Partial<BlogPost>`: a field that is `None` is a key the object does not have. */
  datatype PostPatch = PostPatch(
    id: Option<string>,
    title: Option<string>,
    excerpt: Option<string>,
    content: Option<string>,
    author: Option<string>,
    date: Option<string>,
    coverImage: Option<string>,
    tags: Option<seq<string>>,
    readTime: Option<int>)

  /** `{ ...data, id }`. */
  function WithId(data: PostData, id: string): (p: BlogPost)
    ensures p.id == id && DataOf(p) == data
  {
    BlogPost(id, data.title, data.excerpt, data.content, data.author, data.date,
             data.coverImage, data.tags, data.readTime)
  }

  /** Every field of a post but its id. */
  function DataOf(p: BlogPost): PostData {
    PostData(p.title, p.excerpt, p.content, p.author, p.date, p.coverImage, p.tags, p.readTime)
  }

  /** A full payload used as a patch: every key present except `id`. */
  function AsPatch(data: PostData): PostPatch {
    PostPatch(None, Some(data.title), Some(data.excerpt), Some(data.content), Some(data.author),
              Some(data.date), Some(data.coverImage), Some(data.tags), Some(data.readTime))
  }

  /** The patch with no keys at all. */
  const EmptyPatch: PostPatch := PostPatch(None, None, None, None, None, None, None, None, None)

  /** `{ ...post, ...patch }`: every key the patch has wins, every other field is the post's. */
  function Merge(post: BlogPost, patch: PostPatch): (r: BlogPost)
    ensures patch.id.None? ==> r.id == post.id
  {
    BlogPost(
      patch.id.GetOr(post.id),
      patch.title.GetOr(post.title),
      patch.excerpt.GetOr(post.excerpt),
      patch.content.GetOr(post.content),
      patch.author.GetOr(post.author),
      patch.date.GetOr(post.date),
      patch.coverImage.GetOr(post.coverImage),
      patch.tags.GetOr(post.tags),
      patch.readTime.GetOr(post.readTime))
  }

  /** Spreading a full payload over a post replaces every field but the id. */
  lemma MergeFullPayload(post: BlogPost, data: PostData)
    ensures Merge(post, AsPatch(data)) == WithId(data, post.id)
  {
  }

  /** Spreading an empty object changes nothing. */
  lemma MergeEmpty(post: BlogPost)
    ensures Merge(post, EmptyPatch) == post
  {
  }

  /** Spreading the same patch a second time changes nothing more. */
  lemma MergeIdempotent(post: BlogPost, patch: PostPatch)
    ensures Merge(Merge(post, patch), patch) == Merge(post, patch)
  {
  }
}

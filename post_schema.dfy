/**
 * The request and response shapes of the post API and the field constraints
 * the request bodies are validated against. Lengths count code points, as
 * Python's `len` does.
 */
module PostSchema {
  import opened Wrappers

  const DefaultAuthor: string := "匿名"
  const DefaultReadTime: int := 5
  const MaxTitleLength: nat := 200
  const MaxAuthorLength: nat := 100
  const MinReadTime: int := 1
  const MaxReadTime: int := 120

  /** The fields every post body carries; `PostCreate` is this shape as it is. */
  datatype PostBase = PostBase(
    title: string,
    excerpt: Option<string>,
    content: string,
    author: string,
    coverImage: Option<string>,
    tags: seq<string>,
    readTime: int)

  type PostCreate = PostBase

  predicate ValidTitle(title: string) { 1 <= |title| <= MaxTitleLength }
  predicate ValidContent(content: string) { |content| >= 1 }
  predicate ValidAuthor(author: string) { |author| <= MaxAuthorLength }
  predicate ValidReadTime(readTime: int) { MinReadTime <= readTime <= MaxReadTime }

  /**
   * The field constraints of `PostBase`; whitespace counts like any other
   * character. They are the constraints `PostUpdate` puts on the same fields,
   * so a post is valid exactly when the update that sets all of it is.
   */
  predicate ValidBase(b: PostBase)
    ensures ValidBase(b) ==> b.title != [] && b.content != []
    ensures ValidBase(b) <==> ValidUpdate(SetAll(b))
  {
    ValidTitle(b.title) && ValidContent(b.content) && ValidAuthor(b.author) && ValidReadTime(b.readTime)
  }

  /**
   * A body that gives only the two required fields: no excerpt, the
   * anonymous author, no cover image, no tags, a read time of 5. It is valid
   * exactly when the two given fields are.
   */
  function WithDefaults(title: string, content: string): (b: PostBase)
    ensures b.title == title && b.content == content
    ensures b.excerpt == None && b.coverImage == None && b.tags == []
    ensures b.author == DefaultAuthor && b.readTime == DefaultReadTime
    ensures ValidBase(b) <==> ValidTitle(title) && ValidContent(content)
  {
    PostBase(title, None, content, DefaultAuthor, None, [], DefaultReadTime)
  }

  /**
   * One field of an update body: absent from the body, present as `null`, or
   * present with a value. Pydantic keeps the first two apart, and
   * `exclude_unset` drops only the first.
   */
  datatype Field<+T> = Unset | Null | Value(v: T)

  /** `PostUpdate`: every field optional, defaulting to absent. */
  datatype PostUpdate = PostUpdate(
    title: Field<string>,
    excerpt: Field<string>,
    content: Field<string>,
    author: Field<string>,
    coverImage: Field<string>,
    tags: Field<seq<string>>,
    readTime: Field<int>)

  const EmptyUpdate: PostUpdate := PostUpdate(Unset, Unset, Unset, Unset, Unset, Unset, Unset)

  /** A field given a value obeys the `PostBase` constraint on it; absent and `null` pass. */
  predicate ValidUpdate(u: PostUpdate)
    ensures !u.title.Value? && !u.content.Value? && !u.author.Value? && !u.readTime.Value? ==> ValidUpdate(u)
    ensures ValidUpdate(u) && u.title.Value? ==> 1 <= |u.title.v| <= MaxTitleLength
    ensures ValidUpdate(u) && u.content.Value? ==> u.content.v != []
    ensures ValidUpdate(u) && u.author.Value? ==> |u.author.v| <= MaxAuthorLength
    ensures ValidUpdate(u) && u.readTime.Value? ==> MinReadTime <= u.readTime.v <= MaxReadTime
  {
    && (u.title.Value? ==> ValidTitle(u.title.v))
    && (u.content.Value? ==> ValidContent(u.content.v))
    && (u.author.Value? ==> ValidAuthor(u.author.v))
    && (u.readTime.Value? ==> ValidReadTime(u.readTime.v))
  }

  /** `PostResponse`: the base fields plus the id and the two timestamps (seconds). */
  datatype PostResponse = PostResponse(id: string, base: PostBase, createdAt: int, updatedAt: int)

  /** The update that gives every field of `b`: `null` where `b` has no value. */
  function SetAll(b: PostBase): (u: PostUpdate)
    ensures SentCount(u) == 7
  {
    PostUpdate(Value(b.title), AsField(b.excerpt), Value(b.content), Value(b.author),
               AsField(b.coverImage), Value(b.tags), Value(b.readTime))
  }

  function AsField<T>(o: Option<T>): Field<T> {
    if o.Some? then Value(o.value) else Null
  }

  /** One for a field the client sent, zero for an absent one. */
  function Sent<T>(f: Field<T>): nat {
    if f.Unset? then 0 else 1
  }

  /** How many fields of an update the client sent. */
  function SentCount(u: PostUpdate): nat {
    Sent(u.title) + Sent(u.excerpt) + Sent(u.content) + Sent(u.author)
    + Sent(u.coverImage) + Sent(u.tags) + Sent(u.readTime)
  }
}

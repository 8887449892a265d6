/**
 * The data-access layer of the back end: the `posts` table as a map from id
 * to row, and the repository whose methods create, list, look up, update and
 * delete rows. Ids and timestamps are parameters.
 */
module PostRepo {
  import opened Wrappers
  import opened Strings
  import opened JsonTags
  import PostSchema

  /** One row of the `posts` table; `tags` holds the JSON text of the tag list. */
  datatype Post = Post(
    id: string,
    title: string,
    excerpt: Option<string>,
    content: string,
    author: string,
    coverImage: Option<string>,
    tags: Option<string>,
    readTime: int,
    createdAt: int,
    updatedAt: int)

  /** Characters of content taken into a derived excerpt. */
  const ExcerptLength: nat := 100
  const Ellipsis: string := "..."

  /** Stored tags the service can read: none, empty, or a JSON list of strings. */
  predicate Readable(tags: Option<string>) {
    tags.None? || tags.value == "" || DecodeTags(tags.value).Some?
  }

  /** Every row is stored under its own id, and its tags are readable. */
  predicate TableValid(table: map<string, Post>) {
    forall k :: k in table ==> table[k].id == k && Readable(table[k].tags)
  }

  /** Python's `x or y` on an optional string: `None` and `""` are falsy. */
  function OrElse(x: Option<string>, y: string): string {
    if x.Some? && x.value != "" then x.value else y
  }

  /**
   * The row `create` builds. `None` for `author`, `tags` or `readTime` is an
   * argument the caller left out, which takes the parameter's default.
   */
  function NewRow(id: string, title: string, content: string, excerpt: Option<string>,
                  author: Option<string>, coverImage: Option<string>, tags: Option<seq<string>>,
                  readTime: Option<int>, now: int): (p: Post)
    ensures p.id == id && p.title == title && p.content == content && p.coverImage == coverImage
    ensures p.excerpt.Some? && p.tags.Some?
    ensures DecodeTags(p.tags.value) == Some(tags.GetOr([]))
    ensures p.createdAt == now && p.updatedAt == now
  {
    DecodeEncode(tags.GetOr([]));
    Post(id, title,
         Some(OrElse(excerpt, Prefix(content, ExcerptLength) + Ellipsis)),
         content,
         author.GetOr(PostSchema.DefaultAuthor),
         coverImage,
         Some(EncodeTags(tags.GetOr([]))),
         readTime.GetOr(PostSchema.DefaultReadTime),
         now, now)
  }

  /**
   * What `create` stores besides the given fields: a falsy excerpt becomes the
   * first 100 characters of the content and an ellipsis; omitted arguments
   * become the anonymous author, no tags and a read time of 5.
   */
  lemma NewRowDefaults(id: string, title: string, content: string, excerpt: Option<string>,
                       coverImage: Option<string>, now: int)
    ensures var p := NewRow(id, title, content, excerpt, None, coverImage, None, None, now);
      && (excerpt == None || excerpt == Some("") ==>
            p.excerpt == Some(Prefix(content, ExcerptLength) + Ellipsis))
      && (excerpt.Some? && excerpt.value != "" ==> p.excerpt == excerpt)
      && p.author == "匿名" && p.readTime == 5
      && DecodeTags(p.tags.value) == Some([])
  {
  }

  /**
   * One keyword argument of `update`. A key that names a column the service
   * can set carries that column's value or `None`; any other key is `Unknown`.
   */
  datatype Kwarg =
    | Title(title: Option<string>)
    | Excerpt(excerpt: Option<string>)
    | Content(content: Option<string>)
    | Author(author: Option<string>)
    | CoverImage(coverImage: Option<string>)
    | Tags(tags: Option<seq<string>>)
    | ReadTime(readTime: Option<int>)
    | Unknown(name: string)

  /** The column names of a row. */
  predicate IsAttribute(name: string) {
    name in {"id", "title", "excerpt", "content", "author", "cover_image", "tags",
             "read_time", "created_at", "updated_at"}
  }

  /** An `Unknown` key really is unknown. */
  predicate WellFormed(kwargs: seq<Kwarg>) {
    forall i :: 0 <= i < |kwargs| ==> kwargs[i].Unknown? ==> !IsAttribute(kwargs[i].name)
  }

  /**
   * One step of the `setattr` loop: a `None` value and an unknown key are
   * skipped; a tag list is stored as its JSON text.
   */
  function SetAttr(p: Post, kw: Kwarg): (r: Post)
    ensures r.id == p.id && r.createdAt == p.createdAt && r.updatedAt == p.updatedAt
  {
    match kw
    case Title(v) => if v.Some? then p.(title := v.value) else p
    case Excerpt(v) => if v.Some? then p.(excerpt := v) else p
    case Content(v) => if v.Some? then p.(content := v.value) else p
    case Author(v) => if v.Some? then p.(author := v.value) else p
    case CoverImage(v) => if v.Some? then p.(coverImage := v) else p
    case Tags(v) => if v.Some? then p.(tags := Some(EncodeTags(v.value))) else p
    case ReadTime(v) => if v.Some? then p.(readTime := v.value) else p
    case Unknown(_) => p
  }

  /** The row after the loop has run over `kwargs` in order. */
  function ApplyAll(p: Post, kwargs: seq<Kwarg>): (r: Post)
    ensures r.id == p.id && r.createdAt == p.createdAt && r.updatedAt == p.updatedAt
  {
    if kwargs == [] then p else SetAttr(ApplyAll(p, kwargs[..|kwargs| - 1]), kwargs[|kwargs| - 1])
  }

  /** A skipped argument leaves the row as it is; a tag list is stored as text that reads back to it. */
  lemma SetAttrEffect(p: Post, kw: Kwarg)
    ensures Skipped(kw) ==> SetAttr(p, kw) == p
    ensures kw.Tags? && kw.tags.Some? ==>
      var q := SetAttr(p, kw); q.tags.Some? && DecodeTags(q.tags.value) == Some(kw.tags.value)
  {
    if kw.Tags? && kw.tags.Some? {
      DecodeEncode(kw.tags.value);
    }
  }

  /** An update never moves a row to another id or timestamp, and its tags stay readable. */
  lemma {:induction false} ApplyKeeps(p: Post, kwargs: seq<Kwarg>)
    requires Readable(p.tags)
    ensures var q := ApplyAll(p, kwargs);
      q.id == p.id && q.createdAt == p.createdAt && q.updatedAt == p.updatedAt && Readable(q.tags)
  {
    if kwargs != [] {
      ApplyKeeps(p, kwargs[..|kwargs| - 1]);
      var last := kwargs[|kwargs| - 1];
      if last.Tags? && last.tags.Some? {
        DecodeEncode(last.tags.value);
      }
    }
  }

  /** Arguments that are all `None` or unknown change nothing. */
  lemma {:induction false} ApplySkipped(p: Post, kwargs: seq<Kwarg>)
    requires forall i :: 0 <= i < |kwargs| ==> Skipped(kwargs[i])
    ensures ApplyAll(p, kwargs) == p
  {
    if kwargs != [] {
      ApplySkipped(p, kwargs[..|kwargs| - 1]);
    }
  }

  /** A keyword argument whose value is `None`. */
  predicate Skipped(kw: Kwarg) {
    match kw
    case Title(v) => v.None?
    case Excerpt(v) => v.None?
    case Content(v) => v.None?
    case Author(v) => v.None?
    case CoverImage(v) => v.None?
    case Tags(v) => v.None?
    case ReadTime(v) => v.None?
    case Unknown(_) => true
  }

  /** Newest first: `ORDER BY created_at DESC`. */
  predicate NewestFirst(rows: seq<Post>) {
    forall i, j :: 0 <= i < j < |rows| ==> rows[i].createdAt >= rows[j].createdAt
  }

  /** `rows` lists every row of the table once, as it is stored. */
  predicate Lists(table: map<string, Post>, rows: seq<Post>) {
    && (forall i :: 0 <= i < |rows| ==> rows[i].id in table && table[rows[i].id] == rows[i])
    && (forall i, j :: 0 <= i < j < |rows| ==> rows[i].id != rows[j].id)
    && (forall id :: id in table ==> exists i :: 0 <= i < |rows| && rows[i].id == id)
  }

  /** The first position whose row is not newer than `createdAt`. */
  function InsertPosition(rows: seq<Post>, createdAt: int): (n: nat)
    ensures n <= |rows|
    ensures forall i :: 0 <= i < n ==> rows[i].createdAt > createdAt
    ensures n < |rows| ==> rows[n].createdAt <= createdAt
  {
    if rows == [] || rows[0].createdAt <= createdAt then 0
    else 1 + InsertPosition(rows[1..], createdAt)
  }

  /** `p` placed into a newest-first list where its timestamp belongs. */
  function InsertNewestFirst(rows: seq<Post>, p: Post): (r: seq<Post>)
    requires NewestFirst(rows)
    ensures NewestFirst(r)
    ensures |r| == |rows| + 1
    ensures exists n :: 0 <= n <= |rows| && r == rows[..n] + [p] + rows[n..]
  {
    var n := InsertPosition(rows, p.createdAt);
    var r := rows[..n] + [p] + rows[n..];
    assert forall i :: 0 <= i < |r| ==> r[i] == if i < n then rows[i] else if i == n then p else rows[i - 1];
    r
  }

  lemma InsertLists(table: map<string, Post>, rest: map<string, Post>, rows: seq<Post>, k: string)
    requires k in table && table[k].id == k && rest == table - {k}
    requires Lists(rest, rows) && NewestFirst(rows)
    ensures Lists(table, InsertNewestFirst(rows, table[k]))
  {
    var p := table[k];
    var r := InsertNewestFirst(rows, p);
    var n :| 0 <= n <= |rows| && r == rows[..n] + [p] + rows[n..];
    InsertedAt(table, rest, rows, k, n);
  }

  lemma InsertedAt(table: map<string, Post>, rest: map<string, Post>, rows: seq<Post>, k: string, n: nat)
    requires k in table && table[k].id == k && rest == table - {k}
    requires Lists(rest, rows) && n <= |rows|
    ensures Lists(table, rows[..n] + [table[k]] + rows[n..])
  {
    InsertedRows(table, rest, rows, k, n);
    InsertedDistinct(table, rest, rows, k, n);
    InsertedComplete(table, rest, rows, k, n);
  }

  lemma InsertedRows(table: map<string, Post>, rest: map<string, Post>, rows: seq<Post>, k: string, n: nat)
    requires k in table && table[k].id == k && rest == table - {k}
    requires Lists(rest, rows) && n <= |rows|
    ensures var r := rows[..n] + [table[k]] + rows[n..];
      forall i :: 0 <= i < |r| ==> r[i].id in table && table[r[i].id] == r[i]
  {
    var r := rows[..n] + [table[k]] + rows[n..];
    forall i | 0 <= i < |r| ensures r[i].id in table && table[r[i].id] == r[i] {
      if i < n {
        assert r[i] == rows[i];
      } else if i > n {
        assert r[i] == rows[i - 1];
      }
    }
  }

  lemma InsertedDistinct(table: map<string, Post>, rest: map<string, Post>, rows: seq<Post>, k: string, n: nat)
    requires k in table && table[k].id == k && rest == table - {k}
    requires Lists(rest, rows) && n <= |rows|
    ensures var r := rows[..n] + [table[k]] + rows[n..];
      forall i, j :: 0 <= i < j < |r| ==> r[i].id != r[j].id
  {
    var r := rows[..n] + [table[k]] + rows[n..];
    forall i, j | 0 <= i < j < |r| ensures r[i].id != r[j].id {
      var i' := if i < n then i else i - 1;
      var j' := if j < n then j else j - 1;
      if i == n {
        assert r[j] == rows[j'];
      } else if j == n {
        assert r[i] == rows[i'];
      } else {
        assert r[i] == rows[i'] && r[j] == rows[j'];
      }
    }
  }

  lemma InsertedComplete(table: map<string, Post>, rest: map<string, Post>, rows: seq<Post>, k: string, n: nat)
    requires k in table && table[k].id == k && rest == table - {k}
    requires Lists(rest, rows) && n <= |rows|
    ensures var r := rows[..n] + [table[k]] + rows[n..];
      forall id :: id in table ==> exists i :: 0 <= i < |r| && r[i].id == id
  {
    var r := rows[..n] + [table[k]] + rows[n..];
    forall id | id in table ensures exists i :: 0 <= i < |r| && r[i].id == id {
      if id == k {
        assert r[n].id == id;
      } else {
        assert id in rest;
        var j :| 0 <= j < |rows| && rows[j].id == id;
        if j < n {
          assert r[j] == rows[j];
        } else {
          assert r[j + 1] == rows[j];
        }
      }
    }
  }

  /** Some newest-first listing of every table always exists, ties in any order. */
  lemma {:induction false} ListingExists(table: map<string, Post>)
    requires forall k :: k in table ==> table[k].id == k
    ensures exists rows :: Lists(table, rows) && NewestFirst(rows)
    decreases |table|
  {
    if table == map[] {
      assert Lists(table, []) && NewestFirst([]);
    } else {
      var k :| k in table;
      var rest := table - {k};
      assert rest.Keys == table.Keys - {k};
      ListingExists(rest);
      var rows :| Lists(rest, rows) && NewestFirst(rows);
      InsertLists(table, rest, rows, k);
    }
  }

  /** The repository over the `posts` table. */
  class PostRepository {
    var table: map<string, Post>

    ghost predicate Valid()
      reads this
    {
      TableValid(table)
    }

    constructor (table: map<string, Post>)
      requires TableValid(table)
      ensures Valid() && this.table == table
    {
      this.table := table;
    }

    /** `create`: exactly one new row, under the new id, and that row is returned. */
    method Create(title: string, content: string, excerpt: Option<string>, author: Option<string>,
                  coverImage: Option<string>, tags: Option<seq<string>>, readTime: Option<int>,
                  newId: string, now: int) returns (post: Post)
      requires Valid() && newId !in table
      modifies this
      ensures Valid()
      ensures post == NewRow(newId, title, content, excerpt, author, coverImage, tags, readTime, now)
      ensures table == old(table)[newId := post]
    {
      post := NewRow(newId, title, content, excerpt, author, coverImage, tags, readTime, now);
      table := table[newId := post];
    }

    /** `get_all`: every row once, newest first; rows created at the same time come in any order. */
    method GetAll() returns (rows: seq<Post>)
      requires Valid()
      ensures Lists(table, rows) && NewestFirst(rows)
    {
      ListingExists(table);
      rows :| Lists(table, rows) && NewestFirst(rows);
    }

    /** `get_by_id`: the row stored under the id, if any. */
    method GetById(id: string) returns (r: Option<Post>)
      requires Valid()
      ensures r.Some? <==> id in table
      ensures r.Some? ==> r.value == table[id] && r.value.id == id
    {
      r := if id in table then Some(table[id]) else None;
    }

    /**
     * `update`: `None` and no change for a missing id; otherwise the loop over
     * the arguments rewrites that one row, which is returned.
     */
    method Update(id: string, kwargs: seq<Kwarg>) returns (r: Option<Post>)
      requires Valid() && WellFormed(kwargs)
      modifies this
      ensures Valid()
      ensures r.None? <==> id !in old(table)
      ensures r.None? ==> table == old(table)
      ensures r.Some? ==> r.value == ApplyAll(old(table)[id], kwargs) && table == old(table)[id := r.value]
    {
      var found := GetById(id);
      if found.None? {
        return None;
      }
      var post := found.value;
      for i := 0 to |kwargs|
        invariant post == ApplyAll(found.value, kwargs[..i])
      {
        assert kwargs[..i + 1][..i] == kwargs[..i];
        post := SetAttr(post, kwargs[i]);
      }
      assert kwargs[..|kwargs|] == kwargs;
      ApplyKeeps(found.value, kwargs);
      table := table[id := post];
      r := Some(post);
    }

    /** `delete`: `false` and no change for a missing id; otherwise that one row goes. */
    method Delete(id: string) returns (deleted: bool)
      requires Valid()
      modifies this
      ensures Valid()
      ensures deleted <==> id in old(table)
      ensures table == old(table) - {id} && id !in table
    {
      var found := GetById(id);
      if found.None? {
        return false;
      }
      table := table - {id};
      deleted := true;
    }
  }
}

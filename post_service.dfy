/**
 * The business layer: turns stored rows into response records (decoding the
 * tag text) and forwards requests to the repository.
 */
module PostServiceLayer {
  import opened Wrappers
  import opened JsonTags
  import opened PostSchema
  import opened PostRepo

  /** The tag list of a stored row: none or empty text is no tags, anything else is decoded. */
  function StoredTags(tags: Option<string>): (r: seq<string>)
    requires Readable(tags)
    ensures tags.None? || tags.value == "" ==> r == []
    ensures tags.Some? && tags.value != "" ==> DecodeTags(tags.value) == Some(r)
  {
    if tags.None? || tags.value == "" then [] else DecodeTags(tags.value).value
  }

  /**
   * `_to_response`: the row's fields as a response; a missing excerpt reads
   * as the empty string.
   */
  function ToResponse(row: Post): (r: PostResponse)
    requires Readable(row.tags)
    ensures r.id == row.id && r.createdAt == row.createdAt && r.updatedAt == row.updatedAt
    ensures r.base.title == row.title && r.base.content == row.content && r.base.author == row.author
    ensures r.base.coverImage == row.coverImage && r.base.readTime == row.readTime
    ensures row.excerpt.Some? ==> r.base.excerpt == row.excerpt
    ensures row.excerpt.None? ==> r.base.excerpt == Some("")
    ensures r.base.tags == StoredTags(row.tags)
  {
    PostResponse(
      row.id,
      PostBase(row.title, Some(OrElse(row.excerpt, "")), row.content, row.author, row.coverImage,
               StoredTags(row.tags), row.readTime),
      row.createdAt,
      row.updatedAt)
  }

  /** Tags the repository stored come back as the list it was given. */
  lemma TagsRoundTrip(tags: seq<string>)
    ensures Readable(Some(EncodeTags(tags)))
    ensures StoredTags(Some(EncodeTags(tags))) == tags
  {
    DecodeEncode(tags);
  }

  /**
   * The row a create request becomes: every field of the request is passed,
   * so no column default applies; a falsy excerpt is still derived from the
   * content, and the tags are stored as JSON text that decodes back.
   */
  function CreatedRow(data: PostCreate, newId: string, now: int): (r: Post)
    ensures r.id == newId && r.title == data.title && r.content == data.content
    ensures r.author == data.author && r.coverImage == data.coverImage && r.readTime == data.readTime
    ensures r.tags.Some? && DecodeTags(r.tags.value) == Some(data.tags)
    ensures data.excerpt.Some? && data.excerpt.value != "" ==> r.excerpt == data.excerpt
    ensures data.excerpt == None || data.excerpt == Some("") ==>
      r.excerpt == Some(Strings.Prefix(data.content, ExcerptLength) + Ellipsis)
    ensures r.createdAt == now && r.updatedAt == now
  {
    NewRow(newId, data.title, data.content, data.excerpt, Some(data.author), data.coverImage,
           Some(data.tags), Some(data.readTime), now)
  }

  /**
   * The response to a create request gives back every field of the request
   * unchanged except the excerpt, which is the request's when it is non-empty
   * and derived from the content otherwise.
   */
  lemma CreateEchoes(data: PostCreate, newId: string, now: int)
    ensures Readable(CreatedRow(data, newId, now).tags)
    ensures var r := ToResponse(CreatedRow(data, newId, now));
      && r.id == newId && r.createdAt == now
      && r.base.(excerpt := data.excerpt) == data
      && (data.excerpt.Some? && data.excerpt.value != "" ==> r.base.excerpt == data.excerpt)
      && (data.excerpt == None || data.excerpt == Some("") ==>
            r.base.excerpt == Some(Strings.Prefix(data.content, ExcerptLength) + Ellipsis))
  {
    var row := CreatedRow(data, newId, now);
    TagsRoundTrip(data.tags);
    assert StoredTags(row.tags) == data.tags;
  }

  /** The value `model_dump` gives a field that is present: its value, or `None` for `null`. */
  function Dumped<T>(f: Field<T>): Option<T> {
    if f.Value? then Some(f.v) else None
  }

  /** `[k]` for a present field, `[]` for an absent one. */
  function Present<T>(f: Field<T>, k: Kwarg): seq<Kwarg> {
    if f.Unset? then [] else [k]
  }

  /**
   * `model_dump(exclude_unset=True)`: the fields the client sent, `null` ones
   * included, in declaration order.
   */
  function UpdateData(u: PostUpdate): (r: seq<Kwarg>)
    ensures WellFormed(r)
    ensures forall i :: 0 <= i < |r| ==> !r[i].Unknown?
  {
    UpdateDataKnown(u);
    Present(u.title, Title(Dumped(u.title)))
    + Present(u.excerpt, Excerpt(Dumped(u.excerpt)))
    + Present(u.content, Content(Dumped(u.content)))
    + Present(u.author, Author(Dumped(u.author)))
    + Present(u.coverImage, CoverImage(Dumped(u.coverImage)))
    + Present(u.tags, Tags(Dumped(u.tags)))
    + Present(u.readTime, ReadTime(Dumped(u.readTime)))
  }

  /** Every key the dump gives is a column name. */
  lemma UpdateDataKnown(u: PostUpdate)
    ensures var r :=
      Present(u.title, Title(Dumped(u.title)))
      + Present(u.excerpt, Excerpt(Dumped(u.excerpt)))
      + Present(u.content, Content(Dumped(u.content)))
      + Present(u.author, Author(Dumped(u.author)))
      + Present(u.coverImage, CoverImage(Dumped(u.coverImage)))
      + Present(u.tags, Tags(Dumped(u.tags)))
      + Present(u.readTime, ReadTime(Dumped(u.readTime)));
      forall i :: 0 <= i < |r| ==> !r[i].Unknown?
  {
    var r1 := Present(u.title, Title(Dumped(u.title)));
    var r2 := r1 + Present(u.excerpt, Excerpt(Dumped(u.excerpt)));
    var r3 := r2 + Present(u.content, Content(Dumped(u.content)));
    var r4 := r3 + Present(u.author, Author(Dumped(u.author)));
    var r5 := r4 + Present(u.coverImage, CoverImage(Dumped(u.coverImage)));
    var r6 := r5 + Present(u.tags, Tags(Dumped(u.tags)));
    PresentAppend(r1, u.excerpt, Excerpt(Dumped(u.excerpt)));
    PresentAppend(r2, u.content, Content(Dumped(u.content)));
    PresentAppend(r3, u.author, Author(Dumped(u.author)));
    PresentAppend(r4, u.coverImage, CoverImage(Dumped(u.coverImage)));
    PresentAppend(r5, u.tags, Tags(Dumped(u.tags)));
    PresentAppend(r6, u.readTime, ReadTime(Dumped(u.readTime)));
  }

  /** The dump holds one argument per field the client sent, that field's own. */
  lemma UpdateDataSent(u: PostUpdate)
    ensures var r := UpdateData(u);
      && |r| == SentCount(u)
      && (!u.title.Unset? ==> Title(Dumped(u.title)) in r)
      && (!u.excerpt.Unset? ==> Excerpt(Dumped(u.excerpt)) in r)
      && (!u.content.Unset? ==> Content(Dumped(u.content)) in r)
      && (!u.author.Unset? ==> Author(Dumped(u.author)) in r)
      && (!u.coverImage.Unset? ==> CoverImage(Dumped(u.coverImage)) in r)
      && (!u.tags.Unset? ==> Tags(Dumped(u.tags)) in r)
      && (!u.readTime.Unset? ==> ReadTime(Dumped(u.readTime)) in r)
  {
    var r1 := Present(u.title, Title(Dumped(u.title)));
    var r2 := r1 + Present(u.excerpt, Excerpt(Dumped(u.excerpt)));
    var r3 := r2 + Present(u.content, Content(Dumped(u.content)));
    var r4 := r3 + Present(u.author, Author(Dumped(u.author)));
    var r5 := r4 + Present(u.coverImage, CoverImage(Dumped(u.coverImage)));
    var r6 := r5 + Present(u.tags, Tags(Dumped(u.tags)));
    PresentAppend(r1, u.excerpt, Excerpt(Dumped(u.excerpt)));
    PresentAppend(r2, u.content, Content(Dumped(u.content)));
    PresentAppend(r3, u.author, Author(Dumped(u.author)));
    PresentAppend(r4, u.coverImage, CoverImage(Dumped(u.coverImage)));
    PresentAppend(r5, u.tags, Tags(Dumped(u.tags)));
    PresentAppend(r6, u.readTime, ReadTime(Dumped(u.readTime)));
    assert |r1| == Sent(u.title);
    assert UpdateData(u) == r6 + Present(u.readTime, ReadTime(Dumped(u.readTime)));
  }

  /** Appending an optional argument keeps what was there and adds the argument when it was sent. */
  lemma PresentAppend<T>(front: seq<Kwarg>, f: Field<T>, k: Kwarg)
    ensures var r := front + Present(f, k);
      && (forall x :: x in front ==> x in r)
      && (!f.Unset? ==> k in r)
      && |r| == |front| + Sent(f)
      && (!k.Unknown? && (forall i :: 0 <= i < |front| ==> !front[i].Unknown?) ==>
            forall i :: 0 <= i < |r| ==> !r[i].Unknown?)
  {
    var r := front + Present(f, k);
    if !f.Unset? {
      assert r[|front|] == k;
    }
  }

  /** Running the loop over a prefix and then one more optional argument. */
  lemma ApplyPresent<T>(p: Post, front: seq<Kwarg>, f: Field<T>, k: Kwarg)
    ensures ApplyAll(p, front + Present(f, k)) ==
      if f.Unset? then ApplyAll(p, front) else SetAttr(ApplyAll(p, front), k)
  {
    if f.Unset? {
      assert front + [] == front;
    } else {
      assert (front + [k])[..|front|] == front;
    }
  }

  /** A field given a value replaces the stored one; an absent or `null` field keeps it. */
  function Chosen<T>(f: Field<T>, stored: T): T {
    if f.Value? then f.v else stored
  }

  /** A field given a value replaces the stored optional one. */
  function ChosenSome<T>(f: Field<T>, stored: Option<T>): Option<T> {
    if f.Value? then Some(f.v) else stored
  }

  /** The row with every field the client gave a value replaced, tags as their JSON text. */
  function Overlay(p: Post, u: PostUpdate): Post {
    p.(title := Chosen(u.title, p.title),
       excerpt := ChosenSome(u.excerpt, p.excerpt),
       content := Chosen(u.content, p.content),
       author := Chosen(u.author, p.author),
       coverImage := ChosenSome(u.coverImage, p.coverImage),
       tags := if u.tags.Value? then Some(EncodeTags(u.tags.v)) else p.tags,
       readTime := Chosen(u.readTime, p.readTime))
  }

  /** The first four fields of the dump: title, excerpt, content and author. */
  function FrontData(u: PostUpdate): seq<Kwarg> {
    Present(u.title, Title(Dumped(u.title)))
    + Present(u.excerpt, Excerpt(Dumped(u.excerpt)))
    + Present(u.content, Content(Dumped(u.content)))
    + Present(u.author, Author(Dumped(u.author)))
  }

  /** The `setattr` loop over the first four dumped fields overlays those given a value. */
  lemma ApplyFront(p: Post, u: PostUpdate)
    ensures ApplyAll(p, FrontData(u)) == p.(title := Chosen(u.title, p.title),
      excerpt := ChosenSome(u.excerpt, p.excerpt), content := Chosen(u.content, p.content),
      author := Chosen(u.author, p.author))
  {
    var k1 := Present(u.title, Title(Dumped(u.title)));
    var k2 := k1 + Present(u.excerpt, Excerpt(Dumped(u.excerpt)));
    var k3 := k2 + Present(u.content, Content(Dumped(u.content)));
    var p1 := p.(title := Chosen(u.title, p.title));
    var p2 := p1.(excerpt := ChosenSome(u.excerpt, p.excerpt));
    var p3 := p2.(content := Chosen(u.content, p.content));
    assert ApplyAll(p, k1) == p1 by {
      ApplyPresent(p, [], u.title, Title(Dumped(u.title)));
      assert [] + k1 == k1;
    }
    assert ApplyAll(p, k2) == p2 by {
      ApplyPresent(p, k1, u.excerpt, Excerpt(Dumped(u.excerpt)));
    }
    assert ApplyAll(p, k3) == p3 by {
      ApplyPresent(p, k2, u.content, Content(Dumped(u.content)));
    }
    ApplyPresent(p, k3, u.author, Author(Dumped(u.author)));
  }

  /** The `setattr` loop over the dumped update overlays exactly the fields given a value. */
  lemma ApplyUpdate(p: Post, u: PostUpdate)
    ensures ApplyAll(p, UpdateData(u)) == Overlay(p, u)
  {
    var k4 := FrontData(u);
    var k5 := k4 + Present(u.coverImage, CoverImage(Dumped(u.coverImage)));
    var k6 := k5 + Present(u.tags, Tags(Dumped(u.tags)));
    var k7 := k6 + Present(u.readTime, ReadTime(Dumped(u.readTime)));
    var p4 := p.(title := Chosen(u.title, p.title), excerpt := ChosenSome(u.excerpt, p.excerpt),
      content := Chosen(u.content, p.content), author := Chosen(u.author, p.author));
    var p5 := p4.(coverImage := ChosenSome(u.coverImage, p.coverImage));
    var p6 := p5.(tags := if u.tags.Value? then Some(EncodeTags(u.tags.v)) else p.tags);
    ApplyFront(p, u);
    assert ApplyAll(p, k5) == p5 by {
      ApplyPresent(p, k4, u.coverImage, CoverImage(Dumped(u.coverImage)));
    }
    assert ApplyAll(p, k6) == p6 by {
      ApplyPresent(p, k5, u.tags, Tags(Dumped(u.tags)));
    }
    ApplyPresent(p, k6, u.readTime, ReadTime(Dumped(u.readTime)));
    assert k7 == UpdateData(u);
  }

  /**
   * An update changes exactly the fields the client gave a value: each of
   * them reads back as sent, and every other field, the id and the
   * timestamps read as before.
   */
  lemma UpdateResponse(p: Post, u: PostUpdate)
    requires Readable(p.tags)
    ensures Readable(ApplyAll(p, UpdateData(u)).tags)
    ensures var before := ToResponse(p);
      var after := ToResponse(ApplyAll(p, UpdateData(u)));
      && after.id == before.id && after.createdAt == before.createdAt && after.updatedAt == before.updatedAt
      && after.base.title == Chosen(u.title, before.base.title)
      && after.base.excerpt == ChosenSome(u.excerpt, before.base.excerpt)
      && after.base.content == Chosen(u.content, before.base.content)
      && after.base.author == Chosen(u.author, before.base.author)
      && after.base.coverImage == ChosenSome(u.coverImage, before.base.coverImage)
      && after.base.tags == Chosen(u.tags, before.base.tags)
      && after.base.readTime == Chosen(u.readTime, before.base.readTime)
  {
    ApplyUpdate(p, u);
    if u.tags.Value? {
      TagsRoundTrip(u.tags.v);
    }
  }

  /** One response per row, in the rows' order. */
  function Responses(rows: seq<Post>): (rs: seq<PostResponse>)
    requires forall i :: 0 <= i < |rows| ==> Readable(rows[i].tags)
    ensures |rs| == |rows| && forall i :: 0 <= i < |rs| ==> rs[i] == ToResponse(rows[i])
  {
    seq(|rows|, i requires 0 <= i < |rows| && Readable(rows[i].tags) => ToResponse(rows[i]))
  }

  /** Every stored row of a valid table is readable, so a listing of it can be answered. */
  lemma ListedReadable(table: map<string, Post>, rows: seq<Post>)
    requires TableValid(table) && Lists(table, rows)
    ensures forall i :: 0 <= i < |rows| ==> Readable(rows[i].tags)
  {
    forall i | 0 <= i < |rows| ensures Readable(rows[i].tags) {
      assert table[rows[i].id] == rows[i];
    }
  }

  /**
   * The answers for a newest-first listing of a valid table: each is the
   * response of the stored row with its id, no id twice, newest first, and
   * every stored post among them.
   */
  lemma ResponsesList(table: map<string, Post>, rows: seq<Post>)
    requires TableValid(table) && Lists(table, rows) && NewestFirst(rows)
    ensures forall i :: 0 <= i < |rows| ==> Readable(rows[i].tags)
    ensures var rs := Responses(rows);
      && (forall i :: 0 <= i < |rs| ==> rs[i].id in table && rs[i] == ToResponse(table[rs[i].id]))
      && (forall i, j :: 0 <= i < j < |rs| ==> rs[i].id != rs[j].id && rs[i].createdAt >= rs[j].createdAt)
      && (forall id :: id in table ==> exists i :: 0 <= i < |rs| && rs[i].id == id)
  {
    ListedReadable(table, rows);
    var rs := Responses(rows);
    forall id | id in table ensures exists i :: 0 <= i < |rs| && rs[i].id == id {
      var i :| 0 <= i < |rows| && rows[i].id == id;
      assert rs[i].id == id;
    }
  }

  /** The post service over one repository. */
  class PostService {
    const repo: PostRepository

    constructor (repo: PostRepository)
      ensures this.repo == repo
    {
      this.repo := repo;
    }

    /** `create_post`: every request field goes to the repository as it is. */
    method CreatePost(data: PostCreate, newId: string, now: int) returns (r: PostResponse)
      requires repo.Valid() && newId !in repo.table
      modifies repo
      ensures repo.Valid()
      ensures repo.table == old(repo.table)[newId := CreatedRow(data, newId, now)]
      ensures r == ToResponse(CreatedRow(data, newId, now))
    {
      var post := repo.Create(data.title, data.content, data.excerpt, Some(data.author),
                              data.coverImage, Some(data.tags), Some(data.readTime), newId, now);
      r := ToResponse(post);
    }

    /** `get_all_posts`: one response per row, in the repository's order. */
    method GetAllPosts() returns (rs: seq<PostResponse>)
      requires repo.Valid()
      ensures forall i :: 0 <= i < |rs| ==> rs[i].id in repo.table && rs[i] == ToResponse(repo.table[rs[i].id])
      ensures forall i, j :: 0 <= i < j < |rs| ==> rs[i].id != rs[j].id && rs[i].createdAt >= rs[j].createdAt
      ensures forall id :: id in repo.table ==> exists i :: 0 <= i < |rs| && rs[i].id == id
    {
      var rows := repo.GetAll();
      ResponsesList(repo.table, rows);
      rs := Responses(rows);
    }

    /** `get_post`: `None` exactly when the repository has no such row. */
    method GetPost(id: string) returns (r: Option<PostResponse>)
      requires repo.Valid()
      ensures r.None? <==> id !in repo.table
      ensures r.Some? ==> r.value == ToResponse(repo.table[id])
    {
      var post := repo.GetById(id);
      if post.None? {
        return None;
      }
      r := Some(ToResponse(post.value));
    }

    /** `update_post`: only the fields the client sent reach the repository. */
    method UpdatePost(id: string, data: PostUpdate) returns (r: Option<PostResponse>)
      requires repo.Valid()
      modifies repo
      ensures repo.Valid()
      ensures r.None? <==> id !in old(repo.table)
      ensures r.None? ==> repo.table == old(repo.table)
      ensures r.Some? ==> repo.table == old(repo.table)[id := ApplyAll(old(repo.table)[id], UpdateData(data))]
      ensures r.Some? ==> r.value == ToResponse(repo.table[id])
    {
      var post := repo.Update(id, UpdateData(data));
      if post.None? {
        return None;
      }
      assert repo.table[id] == post.value;
      r := Some(ToResponse(post.value));
    }

    /** `delete_post`: the repository's answer, unchanged. */
    method DeletePost(id: string) returns (deleted: bool)
      requires repo.Valid()
      modifies repo
      ensures repo.Valid()
      ensures deleted <==> id in old(repo.table)
      ensures repo.table == old(repo.table) - {id}
    {
      deleted := repo.Delete(id);
    }
  }
}

/**
 * The front end's post store: the ordered post list, the loading flag and
 * the one storage slot (key `blog_posts`) that mirrors the list. The list
 * computations of `createPost`, `updatePost`, `deletePost` and `getPostById`
 * are functions; the store is a class whose methods reassign its fields.
 */
module UsePosts {
  import opened Wrappers
  import opened BlogTypes
  import SampleData

  /** The name of the storage slot. */
  const StorageKey: string := "blog_posts"

  /**
   * What reading the storage slot gives: nothing (or an empty string, which
   * the load treats the same way), text that does not parse, or a parsed list.
   */
  datatype Storage = Absent | Corrupt | Stored(list: seq<BlogPost>)

  /** No two posts share an id. */
  predicate UniqueIds(posts: seq<BlogPost>) {
    forall i, j :: 0 <= i < j < |posts| ==> posts[i].id != posts[j].id
  }

  predicate HasId(posts: seq<BlogPost>, id: string) {
    exists i :: 0 <= i < |posts| && posts[i].id == id
  }

  /** No post before index `k` has the id. */
  predicate NoneBefore(posts: seq<BlogPost>, id: string, k: int)
    requires 0 <= k <= |posts|
  {
    forall j :: 0 <= j < k ==> posts[j].id != id
  }

  /** `posts.find(post => post.id === id)`: the first post with the id, if any. */
  function FindById(posts: seq<BlogPost>, id: string): (r: Option<BlogPost>)
    ensures r.None? <==> !HasId(posts, id)
    ensures r.Some? ==> r.value.id == id
    ensures r.Some? ==> exists k :: 0 <= k < |posts| && posts[k] == r.value && NoneBefore(posts, id, k)
  {
    if posts == [] then None
    else if posts[0].id == id then
      assert NoneBefore(posts, id, 0);
      Some(posts[0])
    else
      var r := FindById(posts[1..], id);
      assert HasId(posts[1..], id) <==> HasId(posts, id) by {
        if HasId(posts, id) {
          var i :| 0 <= i < |posts| && posts[i].id == id;
          assert posts[1..][i - 1].id == id;
        }
      }
      assert r.Some? ==> exists k :: 0 <= k < |posts| && posts[k] == r.value && NoneBefore(posts, id, k) by {
        if r.Some? {
          var k :| 0 <= k < |posts[1..]| && posts[1..][k] == r.value && NoneBefore(posts[1..], id, k);
          assert posts[k + 1] == r.value;
          assert NoneBefore(posts, id, k + 1);
        }
      }
      r
  }

  /** `[newPost, ...posts]`. */
  function Prepended(posts: seq<BlogPost>, newPost: BlogPost): (r: seq<BlogPost>)
    ensures |r| == |posts| + 1 && r[0] == newPost && r[1..] == posts
  {
    [newPost] + posts
  }

  /** `posts.map(post => post.id === id ? { ...post, ...patch } : post)`. */
  function UpdatedList(posts: seq<BlogPost>, id: string, patch: PostPatch): (r: seq<BlogPost>)
    ensures |r| == |posts|
    ensures forall i :: 0 <= i < |posts| && posts[i].id != id ==> r[i] == posts[i]
    ensures forall i :: 0 <= i < |posts| && posts[i].id == id ==> r[i] == Merge(posts[i], patch)
  {
    seq(|posts|, i requires 0 <= i < |posts| => if posts[i].id == id then Merge(posts[i], patch) else posts[i])
  }

  /** `posts.filter(post => post.id !== id)`. */
  function Without(posts: seq<BlogPost>, id: string): (r: seq<BlogPost>)
    ensures |r| <= |posts|
    ensures forall p :: p in r <==> p in posts && p.id != id
  {
    if posts == [] then []
    else (if posts[0].id == id then [] else [posts[0]]) + Without(posts[1..], id)
  }

  /** Updating an id no post has leaves the list as it was. */
  lemma UpdateAbsent(posts: seq<BlogPost>, id: string, patch: PostPatch)
    requires !HasId(posts, id)
    ensures UpdatedList(posts, id, patch) == posts
  {
  }

  /** With no `id` key in the patch, every position keeps its id, so a list with unique ids keeps them. */
  lemma UpdateKeepsIds(posts: seq<BlogPost>, id: string, patch: PostPatch)
    requires patch.id.None?
    ensures forall i :: 0 <= i < |posts| ==> UpdatedList(posts, id, patch)[i].id == posts[i].id
    ensures UniqueIds(posts) ==> UniqueIds(UpdatedList(posts, id, patch))
  {
  }

  /** Looking a post up after updating it gives the merged record. */
  lemma UpdateThenFind(posts: seq<BlogPost>, id: string, patch: PostPatch)
    requires patch.id.None?
    requires FindById(posts, id).Some?
    ensures FindById(UpdatedList(posts, id, patch), id) == Some(Merge(FindById(posts, id).value, patch))
  {
    var r := UpdatedList(posts, id, patch);
    var k :| 0 <= k < |posts| && posts[k] == FindById(posts, id).value && NoneBefore(posts, id, k);
    FindFirst(r, id, k);
  }

  /** The post at index `k` is found when it has the id and none before it does. */
  lemma {:induction false} FindFirst(posts: seq<BlogPost>, id: string, k: nat)
    requires k < |posts| && posts[k].id == id && NoneBefore(posts, id, k)
    ensures FindById(posts, id) == Some(posts[k])
  {
    if k > 0 {
      FindFirst(posts[1..], id, k - 1);
    }
  }

  /** Applying the same update twice is applying it once, unless the patch moves the record to another id. */
  lemma UpdateTwice(posts: seq<BlogPost>, id: string, patch: PostPatch)
    requires patch.id.None? || patch.id == Some(id)
    ensures UpdatedList(UpdatedList(posts, id, patch), id, patch) == UpdatedList(posts, id, patch)
  {
    var once := UpdatedList(posts, id, patch);
    forall i | 0 <= i < |posts|
      ensures UpdatedList(once, id, patch)[i] == once[i]
    {
      if posts[i].id == id {
        MergeIdempotent(posts[i], patch);
      }
    }
  }

  /** The new post is found under its id at the front of the list. */
  lemma CreateThenFind(posts: seq<BlogPost>, data: PostData, newId: string)
    ensures FindById(Prepended(posts, WithId(data, newId)), newId) == Some(WithId(data, newId))
  {
  }

  /** A fresh id keeps the ids unique. */
  lemma CreateKeepsUnique(posts: seq<BlogPost>, data: PostData, newId: string)
    requires UniqueIds(posts) && !HasId(posts, newId)
    ensures UniqueIds(Prepended(posts, WithId(data, newId)))
  {
    var r := Prepended(posts, WithId(data, newId));
    forall i, j | 0 <= i < j < |r| ensures r[i].id != r[j].id {
      if i == 0 {
        assert r[j] == posts[j - 1];
      } else {
        assert r[i] == posts[i - 1] && r[j] == posts[j - 1];
      }
    }
  }

  /** Filtering keeps order: it distributes over concatenation. */
  lemma {:induction false} WithoutConcat(a: seq<BlogPost>, b: seq<BlogPost>, id: string)
    ensures Without(a + b, id) == Without(a, id) + Without(b, id)
  {
    if a == [] {
      assert a + b == b;
    } else {
      assert (a + b)[1..] == a[1..] + b;
      WithoutConcat(a[1..], b, id);
    }
  }

  /** Deleting an id no post has leaves the list as it was. */
  lemma {:induction false} WithoutAbsent(posts: seq<BlogPost>, id: string)
    requires !HasId(posts, id)
    ensures Without(posts, id) == posts
  {
    if posts != [] {
      forall i | 0 <= i < |posts| - 1 ensures posts[1..][i].id != id {
        assert posts[1..][i] == posts[i + 1];
      }
      WithoutAbsent(posts[1..], id);
      assert [posts[0]] + posts[1..] == posts;
    }
  }

  /** Deleting the same id twice is deleting it once. */
  lemma WithoutTwice(posts: seq<BlogPost>, id: string)
    ensures Without(Without(posts, id), id) == Without(posts, id)
  {
    var once := Without(posts, id);
    forall i | 0 <= i < |once| ensures once[i].id != id {
      assert once[i] in once;
    }
    WithoutAbsent(once, id);
  }

  /** In a list with unique ids, deleting a present id removes exactly one post. */
  lemma {:induction false} WithoutUnique(posts: seq<BlogPost>, id: string)
    requires UniqueIds(posts) && HasId(posts, id)
    ensures |Without(posts, id)| == |posts| - 1
  {
    var rest := posts[1..];
    assert UniqueIds(rest) by {
      forall i, j | 0 <= i < j < |rest| ensures rest[i].id != rest[j].id {
        assert rest[i] == posts[i + 1] && rest[j] == posts[j + 1];
      }
    }
    if posts[0].id == id {
      forall i | 0 <= i < |rest| ensures rest[i].id != id {
        assert rest[i] == posts[i + 1];
      }
      WithoutAbsent(rest, id);
    } else {
      assert HasId(rest, id) by {
        var i :| 0 <= i < |posts| && posts[i].id == id;
        assert rest[i - 1].id == id;
      }
      WithoutUnique(rest, id);
    }
  }

  /** The post store of the `usePosts` hook. */
  class PostStore {
    var posts: seq<BlogPost>
    var isLoading: bool
    /** The contents of the `blog_posts` storage slot. */
    var storage: Storage

    /** Once loading is over, the slot always holds exactly the list. */
    ghost predicate Valid()
      reads this
    {
      !isLoading ==> storage == Stored(posts)
    }

    /** The hook's first render: no posts yet, still loading, the slot as the browser has it. */
    constructor (stored: Storage)
      ensures Valid()
      ensures posts == [] && isLoading && storage == stored
    {
      posts := [];
      isLoading := true;
      storage := stored;
    }

    /**
     * The mount effect: a parsed list is taken as it is; a missing or
     * unparseable value is replaced by the sample posts, which are also
     * written back. Loading ends either way.
     */
    method Load()
      modifies this
      ensures Valid()
      ensures !isLoading
      ensures old(storage).Stored? ==> posts == old(storage).list && storage == old(storage)
      ensures !old(storage).Stored? ==> posts == SampleData.BlogPosts && storage == Stored(SampleData.BlogPosts)
    {
      match storage {
        case Stored(list) =>
          posts := list;
        case Corrupt =>
          posts := SampleData.BlogPosts;
          storage := Stored(SampleData.BlogPosts);
        case Absent =>
          posts := SampleData.BlogPosts;
          storage := Stored(SampleData.BlogPosts);
      }
      isLoading := false;
    }

    /** `savePosts`: write the whole list to the slot, then make it the current list. */
    method SavePosts(newPosts: seq<BlogPost>)
      modifies this
      ensures Valid()
      ensures posts == newPosts && storage == Stored(newPosts) && isLoading == old(isLoading)
    {
      storage := Stored(newPosts);
      posts := newPosts;
    }

    /** `createPost`: the payload under a new id goes to the front; the new post is returned. */
    method CreatePost(data: PostData, newId: string) returns (newPost: BlogPost)
      modifies this
      ensures Valid() && isLoading == old(isLoading)
      ensures newPost == WithId(data, newId)
      ensures posts == Prepended(old(posts), newPost) && storage == Stored(posts)
    {
      newPost := WithId(data, newId);
      SavePosts(Prepended(posts, newPost));
    }

    /** `updatePost`: the patch is spread over every post with the id. */
    method UpdatePost(id: string, patch: PostPatch)
      modifies this
      ensures Valid() && isLoading == old(isLoading)
      ensures posts == UpdatedList(old(posts), id, patch) && storage == Stored(posts)
    {
      SavePosts(UpdatedList(posts, id, patch));
    }

    /** `deletePost`: every post with the id is dropped. */
    method DeletePost(id: string)
      modifies this
      ensures Valid() && isLoading == old(isLoading)
      ensures posts == Without(old(posts), id) && storage == Stored(posts)
    {
      SavePosts(Without(posts, id));
    }

    /** `getPostById`: a lookup that changes nothing. */
    method GetPostById(id: string) returns (r: Option<BlogPost>)
      ensures r.None? <==> !HasId(posts, id)
      ensures r.Some? ==> r.value.id == id
      ensures r.Some? ==> exists k :: 0 <= k < |posts| && posts[k] == r.value && NoneBefore(posts, id, k)
    {
      r := FindById(posts, id);
    }
  }
}

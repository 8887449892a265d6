/**
 * The application shell: which view is showing, which post is selected, the
 * navigation handlers that move between them, and what the main area renders
 * for a given state.
 */
module BlogApp {
  import opened Wrappers
  import opened BlogTypes
  import opened UsePosts

  datatype View = Home | Detail | Admin | Editor

  /** What the main area shows. `Blank` is the detail view with nothing selected. */
  datatype Screen =
    | Loading
    | HomeList(posts: seq<BlogPost>)
    | DetailOf(post: BlogPost)
    | AdminList(posts: seq<BlogPost>)
    | EditorFor(editing: Option<BlogPost>)
    | Blank

  /**
   * The main area for a state: only the loading placeholder while loading;
   * otherwise the section whose condition holds for the current view.
   */
  function Render(isLoading: bool, view: View, selected: Option<BlogPost>, posts: seq<BlogPost>): (s: Screen)
    ensures isLoading ==> s == Loading
    ensures s.Loading? <==> isLoading
    ensures !isLoading && view == Home ==> s == HomeList(posts)
    ensures !isLoading && view == Admin ==> s == AdminList(posts)
    ensures s.DetailOf? <==> !isLoading && view == Detail && selected.Some?
    ensures s.DetailOf? ==> Some(s.post) == selected
    ensures s.EditorFor? <==> !isLoading && view == Editor
    ensures s.EditorFor? ==> s.editing == selected
    ensures s.Blank? <==> !isLoading && view == Detail && selected.None?
  {
    if isLoading then Loading
    else
      match view
      case Home => HomeList(posts)
      case Detail => if selected.Some? then DetailOf(selected.value) else Blank
      case Admin => AdminList(posts)
      case Editor => EditorFor(selected)
  }

  /** The pairs of view and selection the handlers can reach. */
  predicate Consistent(view: View, selected: Option<BlogPost>) {
    && (view == Detail ==> selected.Some?)
    && (view == Home || view == Admin ==> selected.None?)
  }

  /** In every reachable state that is not loading, the main area shows something. */
  lemma ConsistentNeverBlank(isLoading: bool, view: View, selected: Option<BlogPost>, posts: seq<BlogPost>)
    requires Consistent(view, selected)
    ensures !Render(isLoading, view, selected, posts).Blank?
  {
  }

  /** Saving an edit replaces every field but the id of the post that was selected. */
  lemma SaveReplacesSelected(posts: seq<BlogPost>, selected: BlogPost, data: PostData)
    requires FindById(posts, selected.id).Some?
    ensures FindById(UpdatedList(posts, selected.id, AsPatch(data)), selected.id) == Some(WithId(data, selected.id))
  {
    var found := FindById(posts, selected.id).value;
    UpdateThenFind(posts, selected.id, AsPatch(data));
    MergeFullPayload(found, data);
  }

  /** Saving a new post puts it first, and it can be found under its new id. */
  lemma SaveCreatesFirst(posts: seq<BlogPost>, data: PostData, newId: string)
    ensures var r := Prepended(posts, WithId(data, newId));
      r[0] == WithId(data, newId) && FindById(r, newId) == Some(WithId(data, newId))
  {
    CreateThenFind(posts, data, newId);
  }

  /** The `App` component: two state fields over the post store. */
  class App {
    const store: PostStore
    var currentView: View
    var selectedPost: Option<BlogPost>

    ghost predicate Valid()
      reads this, store
    {
      store.Valid() && Consistent(currentView, selectedPost)
    }

    /** What the main area shows now. */
    function CurrentScreen(): Screen
      reads this, store
    {
      Render(store.isLoading, currentView, selectedPost, store.posts)
    }

    /** The first render: the home view, nothing selected. */
    constructor (store: PostStore)
      requires store.Valid()
      ensures Valid()
      ensures this.store == store && currentView == Home && selectedPost == None
    {
      this.store := store;
      currentView := Home;
      selectedPost := None;
    }

    /** `goHome`, from any state. */
    method GoHome()
      requires store.Valid()
      modifies this
      ensures Valid()
      ensures currentView == Home && selectedPost == None
    {
      currentView := Home;
      selectedPost := None;
    }

    /** `goAdmin`, from any state. */
    method GoAdmin()
      requires store.Valid()
      modifies this
      ensures Valid()
      ensures currentView == Admin && selectedPost == None
    {
      currentView := Admin;
      selectedPost := None;
    }

    /** `viewPost`: the detail view of the given post. */
    method ViewPost(post: BlogPost)
      requires store.Valid()
      modifies this
      ensures Valid()
      ensures currentView == Detail && selectedPost == Some(post)
    {
      selectedPost := Some(post);
      currentView := Detail;
    }

    /** `editPost`: the editor, prefilled from the given post. */
    method EditPost(post: BlogPost)
      requires store.Valid()
      modifies this
      ensures Valid()
      ensures currentView == Editor && selectedPost == Some(post)
    {
      selectedPost := Some(post);
      currentView := Editor;
    }

    /** `createNewPost`: the editor with nothing selected. */
    method CreateNewPost()
      requires store.Valid()
      modifies this
      ensures Valid()
      ensures currentView == Editor && selectedPost == None
    {
      selectedPost := None;
      currentView := Editor;
    }

    /**
     * `handleSavePost`: with a post selected the payload is spread over it by
     * id, otherwise it becomes a new post under `newId`; the admin view
     * follows either way.
     */
    method HandleSavePost(data: PostData, newId: string)
      requires store.Valid()
      modifies this, store
      ensures Valid()
      ensures currentView == Admin && selectedPost == None
      ensures store.isLoading == old(store.isLoading)
      ensures old(selectedPost).Some? ==>
        store.posts == UpdatedList(old(store.posts), old(selectedPost).value.id, AsPatch(data))
      ensures old(selectedPost).None? ==>
        store.posts == Prepended(old(store.posts), WithId(data, newId))
    {
      match selectedPost {
        case Some(post) =>
          store.UpdatePost(post.id, AsPatch(data));
        case None =>
          var created := store.CreatePost(data, newId);
      }
      GoAdmin();
    }

    /** `handleDeletePost`: the store drops the id; view and selection stay as they are. */
    method HandleDeletePost(id: string)
      requires Valid()
      modifies store
      ensures Valid()
      ensures currentView == old(currentView) && selectedPost == old(selectedPost)
      ensures store.posts == Without(old(store.posts), id) && store.isLoading == old(store.isLoading)
    {
      store.DeletePost(id);
    }
  }
}

/**
 * The HTTP layer under `/api/posts`: what each route answers (status and
 * body) given the service, and the image routes over an upload directory
 * held as a map from stored file names to their bytes.
 */
module PostsApi {
  import opened Wrappers
  import opened Strings
  import opened PostSchema
  import opened PostRepo
  import opened PostServiceLayer

  /**
   * An answer: a success status with a body, an `HTTPException` with its
   * status and detail, or the request-validation error the framework sends
   * when a body breaks the schema.
   */
  datatype Reply<T> = Ok(status: int, body: T) | Error(status: int, detail: string) | Invalid

  const StatusOk: int := 200
  const StatusCreated: int := 201
  const StatusNoContent: int := 204
  const StatusBadRequest: int := 400
  const StatusNotFound: int := 404
  const StatusUnprocessable: int := 422

  const PostMissing: string := "文章不存在"
  const ImageMissing: string := "图片不存在"
  const NotAnImage: string := "只能上传图片文件"

  /** The status line of an answer. */
  function Status<T>(r: Reply<T>): int {
    if r.Invalid? then StatusUnprocessable else r.status
  }

  // ---------------------------------------------------------------------------
  // Post routes.

  /** `GET /api/posts`: every post, newest first. */
  method GetPosts(service: PostService) returns (r: Reply<seq<PostResponse>>)
    requires service.repo.Valid()
    ensures r.Ok? && r.status == StatusOk
    ensures forall i :: 0 <= i < |r.body| ==>
      r.body[i].id in service.repo.table && r.body[i] == ToResponse(service.repo.table[r.body[i].id])
    ensures forall i, j :: 0 <= i < j < |r.body| ==>
      r.body[i].id != r.body[j].id && r.body[i].createdAt >= r.body[j].createdAt
    ensures forall id :: id in service.repo.table ==> exists i :: 0 <= i < |r.body| && r.body[i].id == id
  {
    var posts := service.GetAllPosts();
    r := Ok(StatusOk, posts);
  }

  /** `GET /api/posts/{post_id}`: the post, or 404 when there is none. */
  method GetPost(service: PostService, postId: string) returns (r: Reply<PostResponse>)
    requires service.repo.Valid()
    ensures r.Error? <==> postId !in service.repo.table
    ensures r.Error? ==> r.status == StatusNotFound && r.detail == PostMissing
    ensures r.Ok? ==> r.status == StatusOk && r.body == ToResponse(service.repo.table[postId])
    ensures !r.Invalid?
  {
    var post := service.GetPost(postId);
    if post.None? {
      return Error(StatusNotFound, PostMissing);
    }
    r := Ok(StatusOk, post.value);
  }

  /** `POST /api/posts`: a body that breaks the schema is refused; otherwise 201 and the new post. */
  method CreatePost(service: PostService, data: PostCreate, newId: string, now: int)
    returns (r: Reply<PostResponse>)
    requires service.repo.Valid() && newId !in service.repo.table
    modifies service.repo
    ensures service.repo.Valid()
    ensures r.Invalid? <==> !ValidBase(data)
    ensures r.Invalid? ==> service.repo.table == old(service.repo.table)
    ensures r.Ok? ==> r.status == StatusCreated && r.body == ToResponse(CreatedRow(data, newId, now))
    ensures r.Ok? ==> service.repo.table == old(service.repo.table)[newId := CreatedRow(data, newId, now)]
    ensures !r.Error?
  {
    if !ValidBase(data) {
      return Invalid;
    }
    var post := service.CreatePost(data, newId, now);
    r := Ok(StatusCreated, post);
  }

  /** `PUT /api/posts/{post_id}`: schema errors first, then 404 for a missing post, else the updated post. */
  method UpdatePost(service: PostService, postId: string, data: PostUpdate) returns (r: Reply<PostResponse>)
    requires service.repo.Valid()
    modifies service.repo
    ensures service.repo.Valid()
    ensures r.Invalid? <==> !ValidUpdate(data)
    ensures r.Error? <==> ValidUpdate(data) && postId !in old(service.repo.table)
    ensures r.Error? ==> r.status == StatusNotFound && r.detail == PostMissing
    ensures !r.Ok? ==> service.repo.table == old(service.repo.table)
    ensures r.Ok? ==> postId in old(service.repo.table)
    ensures r.Ok? ==> (service.repo.table
      == old(service.repo.table)[postId := ApplyAll(old(service.repo.table)[postId], UpdateData(data))])
    ensures r.Ok? ==> r.status == StatusOk && r.body == ToResponse(service.repo.table[postId])
  {
    if !ValidUpdate(data) {
      return Invalid;
    }
    var post := service.UpdatePost(postId, data);
    if post.None? {
      return Error(StatusNotFound, PostMissing);
    }
    r := Ok(StatusOk, post.value);
  }

  /** `DELETE /api/posts/{post_id}`: 204 when a post went, 404 when there was none. */
  method DeletePost(service: PostService, postId: string) returns (r: Reply<()>)
    requires service.repo.Valid()
    modifies service.repo
    ensures service.repo.Valid()
    ensures r.Ok? <==> postId in old(service.repo.table)
    ensures r.Ok? ==> r.status == StatusNoContent
    ensures r.Error? <==> postId !in old(service.repo.table)
    ensures r.Error? ==> r.status == StatusNotFound && r.detail == PostMissing
    ensures service.repo.table == old(service.repo.table) - {postId}
  {
    var deleted := service.DeletePost(postId);
    if !deleted {
      return Error(StatusNotFound, PostMissing);
    }
    r := Ok(StatusNoContent, ());
  }

  /** Deleting the same post twice: the second answer is 404. */
  method DeleteTwice(service: PostService, postId: string) returns (first: Reply<()>, second: Reply<()>)
    requires service.repo.Valid()
    modifies service.repo
    ensures Status(second) == StatusNotFound
    ensures Status(first) == (if postId in old(service.repo.table) then StatusNoContent else StatusNotFound)
  {
    first := DeletePost(service, postId);
    second := DeletePost(service, postId);
  }

  // ---------------------------------------------------------------------------
  // Image routes.

  const ImageTypePrefix: string := "image/"
  const DefaultExtension: string := "png"
  const ImagesPath: string := "/api/posts/images/"

  /** The extension of an uploaded file name: the text after its last dot, `png` without a dot. */
  function Extension(filename: string): (ext: string)
    ensures '.' !in ext
  {
    if '.' in filename then
      var pieces := Split(filename, '.');
      pieces[|pieces| - 1]
    else DefaultExtension
  }

  /** The stored file name: the generated name, a dot, the extension. */
  function SavedName(generatedName: string, filename: string): (name: string)
    ensures |name| == |generatedName| + 1 + |Extension(filename)|
    ensures name[..|generatedName|] == generatedName && name[|generatedName|] == '.'
    ensures name[|generatedName| + 1..] == Extension(filename)
  {
    var name := generatedName + ['.'] + Extension(filename);
    assert name[..|generatedName|] == generatedName && name[|generatedName| + 1..] == Extension(filename);
    name
  }

  /** The URL the upload route answers with for a stored file name. */
  function ImageUrl(name: string): (url: string)
    ensures StartsWith(url, ImagesPath) && url[|ImagesPath|..] == name
  {
    var url := ImagesPath + name;
    assert url[..|ImagesPath|] == ImagesPath && url[|ImagesPath|..] == name;
    url
  }

  /** The upload directory: stored file names and their bytes. */
  class ImageStore {
    var files: map<string, seq<bv8>>

    constructor (files: map<string, seq<bv8>>)
      ensures this.files == files
    {
      this.files := files;
    }

    /**
     * `POST /api/posts/upload-image`: 400 unless the declared type is an
     * image; otherwise the bytes are stored under a fresh name and the answer
     * is that file's URL.
     */
    method UploadImage(contentType: string, filename: string, content: seq<bv8>, generatedName: string)
      returns (r: Reply<string>)
      modifies this
      ensures r.Error? <==> !StartsWith(contentType, ImageTypePrefix)
      ensures r.Error? ==> r.status == StatusBadRequest && r.detail == NotAnImage && files == old(files)
      ensures r.Ok? ==> r.status == StatusOk && r.body == ImageUrl(SavedName(generatedName, filename))
      ensures r.Ok? ==> files == old(files)[SavedName(generatedName, filename) := content]
      ensures !r.Invalid?
    {
      if !StartsWith(contentType, ImageTypePrefix) {
        return Error(StatusBadRequest, NotAnImage);
      }
      var name := SavedName(generatedName, filename);
      files := files[name := content];
      r := Ok(StatusOk, ImageUrl(name));
    }

    /** `GET /api/posts/images/{filename}`: the stored bytes, or 404 when there is no such file. */
    method GetImage(filename: string) returns (r: Reply<seq<bv8>>)
      ensures r.Error? <==> filename !in files
      ensures r.Error? ==> r.status == StatusNotFound && r.detail == ImageMissing
      ensures r.Ok? ==> r.status == StatusOk && r.body == files[filename]
      ensures !r.Invalid?
    {
      if filename !in files {
        return Error(StatusNotFound, ImageMissing);
      }
      r := Ok(StatusOk, files[filename]);
    }

    /** Fetching the name an accepted upload's URL ends in gives back the uploaded bytes. */
    method UploadThenFetch(contentType: string, filename: string, content: seq<bv8>, generatedName: string)
      returns (up: Reply<string>, down: Reply<seq<bv8>>)
      requires StartsWith(contentType, ImageTypePrefix)
      modifies this
      ensures up.Ok? && down == Ok(StatusOk, content)
    {
      up := UploadImage(contentType, filename, content, generatedName);
      down := GetImage(up.body[|ImagesPath|..]);
    }
  }

  /** Joining with a separator: the last piece follows everything before it and one separator. */
  lemma {:induction false} JoinLast(parts: seq<string>, sep: string)
    requires |parts| >= 2
    ensures Join(parts, sep) == Join(parts[..|parts| - 1], sep) + sep + parts[|parts| - 1]
  {
    if |parts| > 2 {
      JoinLast(parts[1..], sep);
      assert parts[1..][..|parts| - 2] == parts[..|parts| - 1][1..];
    } else {
      assert parts[..1] == [parts[0]];
    }
  }

  /**
   * A file name with a dot is the text before its last dot, the dot, and the
   * extension; one without a dot gets `png`.
   */
  lemma ExtensionSplits(filename: string)
    ensures '.' in filename ==> exists stem :: filename == stem + ['.'] + Extension(filename)
    ensures '.' !in filename ==> Extension(filename) == DefaultExtension
  {
    if '.' in filename {
      var pieces := Split(filename, '.');
      JoinSplit(filename, '.');
      if |pieces| == 1 {
        assert false;
      }
      JoinLast(pieces, ['.']);
    }
  }

  /** The stored name keeps the extension of the upload. */
  lemma SavedNameExtension(generatedName: string, filename: string)
    requires '.' !in generatedName
    ensures Extension(SavedName(generatedName, filename)) == Extension(filename)
  {
    var ext := Extension(filename);
    var saved := SavedName(generatedName, filename);
    assert '.' in saved by {
      assert saved[|generatedName|] == '.';
    }
    SplitAfter(generatedName, ext, '.');
    SplitNoSep(ext, '.');
  }
}

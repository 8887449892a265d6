# my-blog post handling, modelled in Dafny

my-blog is a small blog with two halves:

- A React front end keeps its posts in browser storage. It has:
  - a post store hook (`usePosts`);
  - an editor form that turns what the user typed into a post (`PostEditor`);
  - a top-level component that switches between the home list, a post's page, the admin list and the editor (`App`).
- A FastAPI back end serves the same posts from a database. It has:
  - a repository over the `posts` table;
  - a service that turns rows into response records;
  - the request/response schema;
  - the `/api/posts` routes, including image upload and download.

This project models both halves:

- **Values** become datatypes and functions: posts, patches, the editor's form, the schema, rows, update arguments and the JSON text of a tag list.
- **State changed in place** becomes classes with `modifies` clauses:
  - the store's list, loading flag and storage slot;
  - the editor's form;
  - the app's view and selection;
  - the repository's table;
  - the upload directory.

Each class method is proved against specification functions, and the properties the code relies on are proved as lemmas. The main ones are:

- the tag list round-trips through the editor's text field and through the database's JSON column;
- an edited post saved unchanged gives back its own data;
- an update request changes exactly the fields the client sent;
- the listing is complete, duplicate-free and newest first;
- every route gives the right status on every path.

Files:

| file | module | what it holds |
|---|---|---|
| wrappers.dfy | Wrappers | `Option` |
| strings.dfy | Strings | JavaScript `trim` whitespace, trimming, `split`/`join` on one character, prefixes |
| json_tags.dfy | JsonTags | `json.dumps(..., ensure_ascii=False)` of a tag list and its `json.loads` reading |
| blog_types.dfy | BlogTypes | `BlogPost`, `Omit<BlogPost,'id'>`, `Partial<BlogPost>` and object spread |
| sample_data.dfy | SampleData | the seed posts (bodies shortened) |
| use_posts.dfy | UsePosts | the `usePosts` hook: list functions and the `PostStore` class |
| post_editor.dfy | PostEditor | form defaults, prefill, `parseInt`, tag parsing, submit, the `EditorForm` class |
| app.dfy | BlogApp | which screen renders, and the `App` class's navigation and save/delete handlers |
| post_schema.dfy | PostSchema | `PostBase`, `PostCreate`, `PostUpdate`, `PostResponse` and their field constraints |
| post_repo.dfy | PostRepo | the `posts` row, `create`'s defaults, the `setattr` loop, ordering, the `PostRepository` class |
| post_service.dfy | PostServiceLayer | `_to_response`, `model_dump(exclude_unset=True)`, the `PostService` class |
| api_posts.dfy | PostsApi | the route handlers' statuses and bodies, the upload extension rule, the upload directory |

Inputs that the code takes from the environment are parameters of the model:

- ids: `generateId()` and `uuid.uuid4()`;
- the clock: `Date.now()`, `datetime.utcnow` and today's date in the editor;
- what browser storage holds at start-up;
- the upload's declared content type and file name.

## Model

| member | source | states |
|---|---|---|
| Strings.TrimStart | src/components/PostEditor.tsx:65 | the result is a suffix of the input, everything dropped is whitespace, and it starts with a non-space |
| Strings.TrimEnd | src/components/PostEditor.tsx:65 | the result is a prefix of the input, everything dropped is whitespace, and it ends with a non-space |
| Strings.Trim | src/components/PostEditor.tsx:71-76 | `trim()`: the result starts and ends with a non-space, is no longer than the input, and is empty exactly when the input is all whitespace |
| Strings.TrimCuts | src/components/PostEditor.tsx:71-76 | the input is whitespace, its trimmed form, and whitespace: trimming removes nothing else |
| Strings.TrimParts | src/components/PostEditor.tsx:65 | trimming the front and then the back leaves a trimmed string, empty exactly for blank input |
| Strings.TrimSurrounded | src/components/PostEditor.tsx:77 | trimming a word padded with whitespace gives the word |
| Strings.TrimAroundWord | src/components/PostEditor.tsx:77 | trimming a trimmed word with whitespace around it gives the word |
| Strings.TrimStartDrops | src/components/PostEditor.tsx:77 | leading whitespace is dropped by `TrimStart` |
| Strings.TrimEndDrops | src/components/PostEditor.tsx:77 | trailing whitespace is dropped by `TrimEnd` |
| Strings.TrimTrimmed | src/components/PostEditor.tsx:71-76 | trimming an already trimmed string changes nothing |
| Strings.Split | src/components/PostEditor.tsx:77 | `split(sep)` returns at least one piece, and no piece contains the separator |
| Strings.JoinSplit | src/components/PostEditor.tsx:39 | joining the pieces of a split with the separator gives back the input |
| Strings.Join | src/components/PostEditor.tsx:39 | the joined text starts with the first piece, and a character in neither the pieces nor the separator is not in it |
| Strings.SplitNoSep | backend/api/posts.py:88 | a string without the separator is one piece |
| Strings.SplitAfter | backend/api/posts.py:88-89 | a separator after a separator-free prefix ends the first piece |
| Strings.SplitCons | src/components/PostEditor.tsx:77 | a non-separator character in front joins the first piece |
| Strings.Prefix | src/components/PostEditor.tsx:72 | `slice(0, n)` / `s[:n]`: the first `min(n, len)` characters, a prefix of the input |
| JsonTags.EscapeChar | backend/repository/post_repo.py:33 | a plain character (not `"`, not `\`, not a control character) is written as it is, any other as an escape led by a backslash, and no written character is a control character |
| JsonTags.Escape | backend/repository/post_repo.py:33 | the escaped body of a string literal is at least as long as the text |
| JsonTags.EscapePlain | backend/repository/post_repo.py:33 | text of plain characters is written unchanged |
| JsonTags.EscapePrintable | backend/repository/post_repo.py:33 | no raw control character is left in escaped text, so the strict decoder accepts it |
| JsonTags.Quote | backend/repository/post_repo.py:33 | a string literal starts and ends with a quote and holds at least the text's length between them |
| JsonTags.JoinQuoted | backend/repository/post_repo.py:33 | the quoted items of a non-empty list start with a quote |
| JsonTags.EncodeTags | backend/repository/post_repo.py:33 | the stored tag text is bracketed |
| JsonTags.Unescape | backend/service/post_service.py:26 | an escape reads at least one and at most all remaining characters |
| JsonTags.ParseChars | backend/service/post_service.py:26 | reading a string literal's body consumes at least its closing quote |
| JsonTags.ParseCharsSuffix | backend/service/post_service.py:26 | what follows a string literal is the end of the text it was read from |
| JsonTags.UnescapeOf | backend/service/post_service.py:26 | the escape written for a non-plain character reads back to it and is consumed whole |
| JsonTags.DecodeItemsShape | backend/service/post_service.py:26 | a list body that decodes holds at least one item, starts with a quote and ends with `]` |
| JsonTags.DecodeTags | backend/service/post_service.py:26 | text that decodes is bracketed, and it decodes to the empty list exactly when it is `[]` |
| JsonTags.HexEscapeReads | backend/service/post_service.py:26 | a `\u00xx` escape written for a control character reads back as that character |
| JsonTags.ParseEscapeChar | backend/service/post_service.py:26 | each escaped character reads back as itself, whatever follows |
| JsonTags.ParseEscaped | backend/service/post_service.py:26 | an escaped string and its closing quote read back as the string |
| JsonTags.DecodeFirstItem | backend/service/post_service.py:26 | a quoted item followed by more text decodes to that item and the rest |
| JsonTags.DecodeJoined | backend/service/post_service.py:26 | the items of a non-empty list, then `]`, decode to the list |
| JsonTags.DecodeEncode | backend/service/post_service.py:26 | `json.loads(json.dumps(tags))` gives back `tags` for every list of strings |
| BlogTypes.WithId | src/hooks/usePosts.ts:53-56 | `{...data, id}` has the given id and carries every field of `data` |
| BlogTypes.Merge | src/hooks/usePosts.ts:69 | `{...post, ...patch}` keeps the post's id when the patch has none |
| BlogTypes.MergeFullPayload | src/App.tsx:81 | spreading a full id-less payload over a post replaces every field but the id |
| BlogTypes.MergeEmpty | src/hooks/usePosts.ts:69 | spreading an empty patch changes nothing |
| BlogTypes.MergeIdempotent | src/hooks/usePosts.ts:69 | spreading the same patch twice is the same as once |
| UsePosts.FindById | src/hooks/usePosts.ts:87-89 | `find` is absent exactly when no post has the id, and otherwise returns the first post with it |
| UsePosts.Prepended | src/hooks/usePosts.ts:57 | `[newPost, ...posts]` is one longer, with the new post first and the old list after it |
| UsePosts.UpdatedList | src/hooks/usePosts.ts:68-70 | the map keeps the length, leaves other ids alone and merges the patch into the matching posts |
| UsePosts.Without | src/hooks/usePosts.ts:79 | the filter keeps exactly the posts with another id |
| UsePosts.UpdateAbsent | src/hooks/usePosts.ts:68-70 | updating an id no post has changes nothing |
| UsePosts.UpdateKeepsIds | src/hooks/usePosts.ts:68-70 | a patch without an id keeps every id, so unique ids stay unique |
| UsePosts.UpdateThenFind | src/hooks/usePosts.ts:67-72 | after an update, looking up the id gives the merged post |
| UsePosts.FindFirst | src/hooks/usePosts.ts:88 | `find` returns the first post with the id |
| UsePosts.UpdateTwice | src/hooks/usePosts.ts:67-72 | applying the same update twice equals applying it once |
| UsePosts.CreateThenFind | src/hooks/usePosts.ts:52-60 | a created post is found under its new id |
| UsePosts.CreateKeepsUnique | src/hooks/usePosts.ts:52-60 | creating under a fresh id keeps ids unique |
| UsePosts.WithoutConcat | src/hooks/usePosts.ts:79 | the filter distributes over concatenation |
| UsePosts.WithoutAbsent | src/hooks/usePosts.ts:78-81 | deleting an id no post has changes nothing |
| UsePosts.WithoutTwice | src/hooks/usePosts.ts:78-81 | deleting twice equals deleting once |
| UsePosts.WithoutUnique | src/hooks/usePosts.ts:78-81 | with unique ids, deleting a present id removes exactly one post |
| UsePosts.PostStore.constructor | src/hooks/usePosts.ts:20-21 | the store starts empty and loading |
| UsePosts.PostStore.Load | src/hooks/usePosts.ts:24-40 | a parsed stored list is taken as it is; otherwise the sample posts are used and written back; loading ends and the slot mirrors the list |
| UsePosts.PostStore.SavePosts | src/hooks/usePosts.ts:43-46 | the list and the storage slot both become the new list |
| UsePosts.PostStore.CreatePost | src/hooks/usePosts.ts:52-60 | returns the post with the new id and puts it in front of the list; the slot mirrors the list |
| UsePosts.PostStore.UpdatePost | src/hooks/usePosts.ts:67-72 | the list becomes `UpdatedList` of the old one; the slot mirrors it |
| UsePosts.PostStore.DeletePost | src/hooks/usePosts.ts:78-81 | the list becomes `Without` of the old one; the slot mirrors it |
| UsePosts.PostStore.GetPostById | src/hooks/usePosts.ts:87-89 | absent exactly when no post has the id; otherwise the first post of the list with that id |
| PostEditor.AnonymousTrimmed | src/components/PostEditor.tsx:74 | the anonymous author name is non-empty and has no surrounding whitespace |
| PostEditor.TrimAndDrop | src/components/PostEditor.tsx:77 | `map(trim).filter(Boolean)` keeps only non-empty trimmed pieces and never adds any |
| PostEditor.TrimAndDropConcat | src/components/PostEditor.tsx:77 | the pieces of a concatenation are trimmed and filtered each in turn: the result is the two results concatenated |
| PostEditor.TrimAndDropOne | src/components/PostEditor.tsx:77 | one piece gives its trimmed text, or nothing when that text is empty |
| PostEditor.ConsTags | src/components/PostEditor.tsx:77 | a non-empty trimmed tag in front of clean tags gives clean tags |
| PostEditor.ParseTags | src/components/PostEditor.tsx:77 | the parsed tags are non-empty, trimmed and free of commas |
| PostEditor.ParseTagsExample | src/components/PostEditor.tsx:77 | `"a, b, ,c"` gives `["a", "b", "c"]`: the blank piece is dropped and the others trimmed, in order |
| PostEditor.SplitFour | src/components/PostEditor.tsx:77 | four comma-free pieces joined by commas split back into them |
| PostEditor.DropThirdPiece | src/components/PostEditor.tsx:77 | when the third run of pieces trims to nothing, the tags are the other runs' tags in order |
| PostEditor.TrimKeepsOut | src/components/PostEditor.tsx:77 | trimming adds no character |
| PostEditor.TrimAndDropKeepsOut | src/components/PostEditor.tsx:77 | trimming and dropping pieces adds no character |
| PostEditor.TrimAndDropTo | src/components/PostEditor.tsx:77 | pieces that trim to the non-empty tags give exactly those tags |
| PostEditor.SpaceLed | src/components/PostEditor.tsx:39 | the pieces of a `", "`-joined list: the first tag, then each later tag after one space |
| PostEditor.SplitJoined | src/components/PostEditor.tsx:39 | splitting the `", "`-joined tags on `,` gives those pieces |
| PostEditor.TagsRoundTrip | src/components/PostEditor.tsx:39 | parsing the tag field prefilled from clean tags gives back the tags |
| PostEditor.NoTags | src/components/PostEditor.tsx:25 | an empty tag field gives no tags |
| PostEditor.DigitValue | src/components/PostEditor.tsx:54 | a digit's value is below the radix |
| PostEditor.DigitRun | src/components/PostEditor.tsx:54 | the longest digit prefix that `parseInt` reads is followed by a non-digit or the end |
| PostEditor.ParseMagnitude | src/components/PostEditor.tsx:54 | an unsigned decimal or `0x` hexadecimal magnitude is missing exactly when no digit of its radix follows the prefix; otherwise it is the value of the longest run of such digits, so never negative |
| PostEditor.ParseInt | src/components/PostEditor.tsx:54 | `parseInt`: `NaN` exactly when no digit of the radix follows leading whitespace, sign and `0x` prefix; otherwise the magnitude after the whitespace and sign, negated after a minus sign |
| PostEditor.DigitRunStops | src/components/PostEditor.tsx:54 | the digit run of digits followed by a non-digit is exactly those digits |
| PostEditor.DecimalPrefix | src/components/PostEditor.tsx:54 | decimal digits followed by a non-digit read as the digits' value |
| PostEditor.HexPrefix | src/components/PostEditor.tsx:54 | `0x` and hexadecimal digits followed by a non-digit read as the digits' value |
| PostEditor.ParseIntDecimal | src/components/PostEditor.tsx:54 | blanks, decimal digits, then a non-digit: `parseInt` gives the digits' value |
| PostEditor.ParseLedByDigit | src/components/PostEditor.tsx:54 | text whose trimmed form starts with a digit parses to that form's magnitude |
| PostEditor.ParseFromTrimmed | src/components/PostEditor.tsx:54 | `parseInt` reads the text its leading blanks leave: the sign, then the magnitude |
| PostEditor.ParseIntHex | src/components/PostEditor.tsx:54 | `0x`, hexadecimal digits, then a non-digit: `parseInt` gives the digits' value |
| PostEditor.ParseIntStopsAtLetter | src/components/PostEditor.tsx:54 | `"12abc"` reads as 12 |
| PostEditor.ParseIntStopsAtPoint | src/components/PostEditor.tsx:54 | `"1.5"` reads as 1 |
| PostEditor.ParseIntLeadingZero | src/components/PostEditor.tsx:54 | `"05"` reads as 5, in decimal |
| PostEditor.ParseIntLeadingBlank | src/components/PostEditor.tsx:54 | `" 7"` reads as 7 |
| PostEditor.ParseIntHexText | src/components/PostEditor.tsx:54 | `"0x1A"` reads as 26 |
| PostEditor.BlankIsNaN | src/components/PostEditor.tsx:54 | blank text is `NaN` |
| PostEditor.ReadTimeValue | src/components/PostEditor.tsx:54 | `parseInt(value) \|\| 0`: `NaN` reads as 0, and a number reads as itself |
| PostEditor.Decimal | src/components/PostEditor.tsx:138 | the text a number input shows: a minus sign exactly for negative numbers, then decimal digits with no leading zero except for 0 itself |
| PostEditor.Digits | src/components/PostEditor.tsx:54 | a number's decimal digits: at least one, and no leading zero |
| PostEditor.DigitsValueOf | src/components/PostEditor.tsx:54 | the digits of `n` read back as `n` |
| PostEditor.DigitRunAll | src/components/PostEditor.tsx:54 | a string of digits is read completely |
| PostEditor.ParseDecimal | src/components/PostEditor.tsx:54 | `parseInt` of any integer's decimal form gives the integer |
| PostEditor.ParseUnsigned | src/components/PostEditor.tsx:54 | digits with no sign read as their magnitude |
| PostEditor.ParseNegative | src/components/PostEditor.tsx:54 | a minus sign before digits negates their magnitude |
| PostEditor.MagnitudeOfDigits | src/components/PostEditor.tsx:54 | decimal digits without a leading zero read as their value |
| PostEditor.ReadTimeRoundTrip | src/components/PostEditor.tsx:54 | `parseInt(value) \|\| 0` on a number's decimal form gives the number |
| PostEditor.MinutesFor | src/components/PostEditor.tsx:78 | `Math.ceil(length / 500)`: the fewest minutes whose 500 characters each cover the length |
| PostEditor.HandleSubmit | src/components/PostEditor.tsx:61-82 | refuses exactly a blank title or content; otherwise title, content and author are non-empty and trimmed, excerpt and cover image are non-empty, tags are clean, the date is kept, and the read time is non-zero |
| PostEditor.SubmitDerivations | src/components/PostEditor.tsx:71-78 | each field's derivation: trimmed title and content; the trimmed excerpt, or for a blank one the first 100 content characters plus `...`; the trimmed author, or `匿名` for a blank one; the trimmed cover image, or the default picture for a blank one; a zero read time becomes `MinutesFor` of the content length (the ceiling of length over 500, at least 1) and a non-zero one is kept; tags are parsed from the field |
| PostEditor.PrefillSubmitRoundTrip | src/components/PostEditor.tsx:30-43 | opening a post in the editor and submitting without changes gives the post's own data |
| PostEditor.InitialForm | src/components/PostEditor.tsx:18-27 | the new-post form is dated today with a read time of 5 and empty title, content and tags, and submitting it as it is is refused |
| PostEditor.PrefillForm | src/components/PostEditor.tsx:30-43 | every field is copied from the post, and the joined tags parse back to the post's tags when those can live in the tags input |
| PostEditor.BlankTitleRejected | src/components/PostEditor.tsx:65-68 | an empty title is refused even with content |
| PostEditor.EditorForm.constructor | src/components/PostEditor.tsx:18-27 | the form starts empty, with today's date and a read time of 5 |
| PostEditor.EditorForm.Prefill | src/components/PostEditor.tsx:30-43 | with a post the form is filled from it, with tags joined by `", "`; without one it is unchanged |
| PostEditor.EditorForm.HandleChange | src/components/PostEditor.tsx:48-56 | exactly the named field changes; read time takes `parseInt(value) \|\| 0` |
| PostEditor.EditorForm.Submit | src/components/PostEditor.tsx:61-82 | refuses exactly a blank title or content, and otherwise submits the form's derived post data |
| BlogApp.Render | src/App.tsx:97-160 | the loading screen shows exactly while loading; otherwise the home view lists the posts, the admin view lists them for management; a post page appears exactly for the detail view with a selection; the editor appears exactly for the editor view, editing the selection; the page is blank exactly for the detail view without a selection |
| BlogApp.ConsistentNeverBlank | src/App.tsx:140 | the states the handlers reach never render a blank page |
| BlogApp.SaveReplacesSelected | src/App.tsx:79-81 | saving in edit mode makes the selected id hold exactly the submitted data |
| BlogApp.SaveCreatesFirst | src/App.tsx:83-84 | saving in create mode puts the new post first, findable under its id |
| BlogApp.App.constructor | src/App.tsx:26-28 | the app starts on the home view with nothing selected |
| BlogApp.App.GoHome | src/App.tsx:33-37 | home view, nothing selected |
| BlogApp.App.GoAdmin | src/App.tsx:42-46 | admin view, nothing selected |
| BlogApp.App.ViewPost | src/App.tsx:51-55 | detail view of the given post |
| BlogApp.App.EditPost | src/App.tsx:60-64 | editor view on the given post |
| BlogApp.App.CreateNewPost | src/App.tsx:69-73 | editor view with nothing selected |
| BlogApp.App.HandleSavePost | src/App.tsx:78-87 | with a selection the payload is merged into that id, otherwise a new post is put first; the admin view follows |
| BlogApp.App.HandleDeletePost | src/App.tsx:92-94 | the store drops the id; view and selection stay |
| PostSchema.WithDefaults | backend/schema/post.py:11-19 | a body with only title and content gets no excerpt, author `匿名`, no cover image, no tags and a read time of 5, and is valid exactly when title and content are |
| PostSchema.ValidBase | backend/schema/post.py:11-19 | a valid post has a non-empty title and content; a post is valid exactly when the update setting all of its fields is, as both classes put the same constraints on the same fields |
| PostSchema.ValidUpdate | backend/schema/post.py:27-35 | absent and `null` fields always pass; a field given a value obeys its `PostBase` bound: title 1 to 200 characters, non-empty content, author at most 100, read time 1 to 120 |
| PostSchema.SetAll | backend/schema/post.py:27-35 | the update that gives every field sends all seven |
| PostRepo.NewRow | backend/repository/post_repo.py:20-35 | the row carries the given id, title, content and cover image; it always has an excerpt and tag text; the tag text decodes to the given tags or `[]`; both timestamps are the creation time |
| PostRepo.NewRowDefaults | backend/repository/post_repo.py:20-33 | a falsy excerpt becomes the first 100 content characters plus `...`; a given one is kept; omitted arguments become `匿名`, a read time of 5 and no tags |
| PostRepo.ApplyKeeps | backend/repository/post_repo.py:58-63 | the `setattr` loop never changes the id or timestamps, and the tags stay readable |
| PostRepo.ApplySkipped | backend/repository/post_repo.py:61-63 | arguments that are all `None` or unknown change nothing |
| PostRepo.SetAttr | backend/repository/post_repo.py:61-63 | one `setattr` step never changes the id or timestamps |
| PostRepo.SetAttrEffect | backend/repository/post_repo.py:58-63 | a `None` or unknown argument leaves the row as it is; a tag list is stored as text that decodes back to it |
| PostRepo.ApplyAll | backend/repository/post_repo.py:58-63 | the whole loop never changes the id or timestamps |
| PostRepo.InsertPosition | backend/repository/post_repo.py:43 | the insertion point has only strictly newer rows before it |
| PostRepo.InsertNewestFirst | backend/repository/post_repo.py:43 | inserting at that point keeps the rows newest first and adds exactly the row |
| PostRepo.InsertLists | backend/repository/post_repo.py:43 | inserting a row into a listing of the rest of the table lists the whole table |
| PostRepo.InsertedAt | backend/repository/post_repo.py:43 | the same, for any insertion point |
| PostRepo.InsertedRows | backend/repository/post_repo.py:43 | each listed row is the table's row under its id |
| PostRepo.InsertedDistinct | backend/repository/post_repo.py:43 | no id is listed twice |
| PostRepo.InsertedComplete | backend/repository/post_repo.py:43 | every id of the table is listed |
| PostRepo.ListingExists | backend/repository/post_repo.py:41-43 | every table has a complete, duplicate-free, newest-first listing |
| PostRepo.PostRepository.constructor | backend/repository/post_repo.py:17-18 | the repository starts over the given valid table |
| PostRepo.PostRepository.Create | backend/repository/post_repo.py:20-39 | stores `NewRow` under the new id and returns it |
| PostRepo.PostRepository.GetAll | backend/repository/post_repo.py:41-43 | returns every row once, as stored, newest first |
| PostRepo.PostRepository.GetById | backend/repository/post_repo.py:45-47 | absent exactly when the id has no row; otherwise that row |
| PostRepo.PostRepository.Update | backend/repository/post_repo.py:49-67 | a missing id gives `None` and no change; otherwise the row becomes the loop's result and is returned |
| PostRepo.PostRepository.Delete | backend/repository/post_repo.py:69-76 | true exactly when the id had a row; the row is gone afterwards |
| PostServiceLayer.StoredTags | backend/service/post_service.py:26 | none or empty tag text reads as no tags; non-empty text reads as the list its JSON decodes to |
| PostServiceLayer.ToResponse | backend/service/post_service.py:21-38 | id, timestamps, title, content, author, cover image and read time are copied; a stored excerpt is kept and a missing one reads as `""`; the tags are `StoredTags` of the tag text |
| PostServiceLayer.TagsRoundTrip | backend/service/post_service.py:26 | tags the repository encoded read back as the same list |
| PostServiceLayer.CreatedRow | backend/service/post_service.py:40-51 | the row carries the new id and every request field; a non-empty excerpt is kept and a falsy one derived from the content; the tag text decodes to the request's tags; both timestamps are the creation time |
| PostServiceLayer.CreateEchoes | backend/service/post_service.py:40-51 | the create response echoes every request field except the excerpt, which is the request's when non-empty and derived from the content otherwise |
| PostServiceLayer.UpdateData | backend/service/post_service.py:67 | `model_dump(exclude_unset=True)` gives only column names, never an unknown key |
| PostServiceLayer.UpdateDataKnown | backend/service/post_service.py:67 | no dumped key is an unknown name |
| PostServiceLayer.UpdateDataSent | backend/service/post_service.py:67 | the dump holds one argument per field the client sent (a `null` one included), and each sent field's own argument is among them |
| PostServiceLayer.PresentAppend | backend/service/post_service.py:67 | appending an optional argument keeps what was there, adds it exactly when the field was sent, and adds no unknown key |
| PostServiceLayer.ApplyPresent | backend/repository/post_repo.py:61-63 | one more present argument is one more `setattr` step; an absent one is none |
| PostServiceLayer.ApplyFront | backend/service/post_service.py:65-71 | the loop over the first four dumped fields sets title, excerpt, content and author exactly when sent with a value |
| PostServiceLayer.ApplyUpdate | backend/service/post_service.py:65-71 | the loop over the dumped update sets exactly the fields sent with a value; absent and `null` fields keep the stored value |
| PostServiceLayer.UpdateResponse | backend/service/post_service.py:65-71 | in the update response, each field sent with a value reads back as sent, and every other field, the id and the timestamps read as before |
| PostServiceLayer.Responses | backend/service/post_service.py:56 | one response per row, in order |
| PostServiceLayer.ListedReadable | backend/service/post_service.py:53-56 | every row of a valid table's listing has readable tags |
| PostServiceLayer.ResponsesList | backend/service/post_service.py:53-56 | the listing's responses are the stored rows' responses, once each, newest first, all of them |
| PostServiceLayer.PostService.constructor | backend/service/post_service.py:18-19 | the service works over the given repository |
| PostServiceLayer.PostService.CreatePost | backend/service/post_service.py:40-51 | stores the request's row under the new id and answers with its response |
| PostServiceLayer.PostService.GetAllPosts | backend/service/post_service.py:53-56 | every stored post's response, once each, newest first |
| PostServiceLayer.PostService.GetPost | backend/service/post_service.py:58-63 | absent exactly when the id has no row; otherwise that row's response |
| PostServiceLayer.PostService.UpdatePost | backend/service/post_service.py:65-71 | a missing id gives `None` and no change; otherwise the row becomes the dumped update applied to it, and the response is the new row's |
| PostServiceLayer.PostService.DeletePost | backend/service/post_service.py:73-75 | true exactly when the id had a row; the row is gone afterwards |
| PostsApi.GetPosts | backend/api/posts.py:25-30 | 200 with every stored post exactly once (ids distinct), each as its stored row reads, newest first |
| PostsApi.GetPost | backend/api/posts.py:33-41 | 404 `文章不存在` exactly when the id has no row; otherwise 200 with its response |
| PostsApi.CreatePost | backend/api/posts.py:44-49 | 422 exactly for a body that breaks the schema, with nothing stored; otherwise 201 with the new post's response, stored under the new id |
| PostsApi.UpdatePost | backend/api/posts.py:52-60 | 422 for a body that breaks the schema; otherwise 404 `文章不存在` exactly when the id has no row; no change unless 200, which answers with the updated row |
| PostsApi.DeletePost | backend/api/posts.py:63-69 | 204 exactly when the id had a row, 404 `文章不存在` otherwise; the row is gone either way |
| PostsApi.DeleteTwice | backend/api/posts.py:63-69 | deleting the same post a second time answers 404 |
| PostsApi.Extension | backend/api/posts.py:88 | the extension contains no dot |
| PostsApi.ImageUrl | backend/api/posts.py:97 | the URL is `/api/posts/images/` followed by the stored name |
| PostsApi.JoinLast | backend/api/posts.py:88 | a joined list is its front, the separator and its last piece |
| PostsApi.ExtensionSplits | backend/api/posts.py:88 | a name with a dot is a stem, a dot and the extension; a name without one gets `png` |
| PostsApi.SavedNameExtension | backend/api/posts.py:88-89 | the stored name keeps the uploaded name's extension |
| PostsApi.SavedName | backend/api/posts.py:88-89 | the stored name is the generated name, a dot, and the upload's extension |
| PostsApi.ImageStore.constructor | backend/api/posts.py:73-74 | the directory starts with the given files |
| PostsApi.ImageStore.UploadImage | backend/api/posts.py:77-97 | 400 `只能上传图片文件` with nothing stored exactly when the type does not start with `image/`; otherwise the bytes are stored under the generated name, a dot and the extension, and the answer is that file's URL |
| PostsApi.ImageStore.GetImage | backend/api/posts.py:100-108 | 404 `图片不存在` exactly when no such file is stored; otherwise 200 with its bytes |
| PostsApi.ImageStore.UploadThenFetch | backend/api/posts.py:77-108 | fetching the name an accepted upload's URL ends in gives back the uploaded bytes |

## Left out

- Lengths count code points. JavaScript `length` and `slice` count UTF-16 units, so the excerpt cut and the read-time estimate differ from the browser for text outside the Basic Multilingual Plane.
- PostEditor.ParseInt reads decimal and `0x` hexadecimal integers without bound. It does not model the precision loss of `parseInt` past 2^53 or the float value `Math.ceil` works on.
- BlogTypes.Merge: a `Partial<BlogPost>` key present with the value `undefined` is not modelled. The model treats every given key as a value, and the app only ever passes full payloads.
- UsePosts.PostStore.Load: a stored JSON value that parses but is not a post list, and a `setItem` quota error, are not modelled. Storage holds nothing, unparseable text or a list.
- JsonTags.DecodeTags reads the layout `json.dumps` writes, with every string escape. It does not read other whitespace layouts or surrogate-pair `\u` escapes. The database column is only ever written by the encoder.
- PostRepo.PostRepository.Update requires that no keyword argument is an unknown column name or `id`, `created_at` or `updated_at`. The service never passes those, and a `setattr` of a wrongly typed value is not modelled.
- The database's `onupdate` refresh of `updated_at` is not modelled. Updates keep both timestamps, as the repository code itself does.
- The database session, commits, the server's own column defaults and database errors are not modelled. The table is a map and its ids and timestamps are parameters.
- PostServiceLayer.ToResponse requires readable tag text. A row whose tag text does not parse would make `json.loads` raise; the repository invariant rules such rows out.
- Validation of the response model against stored data is not modelled.
- PostsApi.ImageStore.UploadImage: file I/O errors, path handling inside `os.path.join` (names with `/` or `..`), a missing content type and FastAPI's 422 for a missing file part are not modelled. The upload directory is a map from names to bytes.
- `window.scrollTo`, `alert`, `confirm`, CSS and the markup are not modelled. Only which screen renders is.
- The front end's HTTP client in `src/api/posts.ts` is not part of this model. The front end modelled here uses browser storage.
- SampleData.BlogPosts keeps the seed posts' fields but not their full Markdown bodies.

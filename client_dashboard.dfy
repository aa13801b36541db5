/**
 * The browser client's state: the module-level variables `currentUser`,
 * `allPosts` and `editingPostId`, which view is on screen, the two modals,
 * the counters and the error banner, and the handlers that change them.
 * Every answer from the identity service or the backend is a parameter of
 * the handler that awaits it; the requests a handler would send are returned.
 */
module ClientDashboard {
  import opened Wrappers
  import opened Text
  import opened ClientPosts

  // ---------------------------------------------------------------------
  // Requests and responses

  /** The HTTP methods of the client's mutations. */
  datatype Verb = POST | PUT | DELETE

  /** A file chosen in the form's file input; only its name matters here. */
  datatype FileRef = FileRef(filename: string)

  /** One entry of the multipart `FormData`, in the order it is appended. */
  datatype Field = TextField(name: string, value: string) | FileField(name: string, file: FileRef)

  /** A request to the backend; the configured base URL is left off the path. */
  datatype Request = Request(verb: Verb, path: string, fields: seq<Field>)

  /** The four values read from the post form. */
  datatype PostData = PostData(postId: string, platform: string, country: string, status: string)

  /** What `fetch` of the post list settles to. */
  datatype FetchResponse =
    | Fetched(posts: seq<Post>)      // an ok response and its JSON array
    | HttpFailure(status: int)       // a response that is not ok
    | FetchFailed(message: string)   // a rejected promise

  /** What `fetch` of a create, update or delete settles to. */
  datatype MutationResponse =
    | Accepted                        // an ok response
    | Rejected(error: Option<string>) // not ok; the `error` member of its JSON body
    | SendFailed(message: string)     // a rejected promise

  datatype User = User(email: string)

  /** What `auth.getSession()` gives at start-up. */
  datatype SessionLookup = HasSession(user: User) | NoSession | LookupFailed

  /** What `auth.signInWithPassword` gives. */
  datatype SignIn = SignedIn(user: User) | SignInFailed(message: string)

  datatype View = LoginView | DashboardView

  /** JavaScript truthiness of `editingPostId`: `null` and `0` are falsy. */
  predicate Truthy(id: Option<int>): (t: bool)
    ensures !t <==> id == None || id == Some(0)
  {
    id.Some? && id.value != 0
  }

  const PostsPath: string := "/api/posts"

  /** `/api/posts/${id}`. */
  function PostPath(id: int): (p: string)
    ensures |p| > |PostsPath| + 1 && p[..|PostsPath| + 1] == PostsPath + "/"
    ensures '-' in p <==> id < 0
  {
    PostsPath + "/" + IntToString(id)
  }

  /** The last path segment of `/api/posts/${id}` is the id, as the backend's route reads it. */
  lemma PostPathNamesId(id: int)
    ensures AfterLast(PostPath(id), '/') == IntToString(id)
    ensures PostPath(id)[..|PostsPath| + 1] == PostsPath + "/"
  {
    var s := IntToString(id);
    assert '/' !in s;
    assert PostPath(id) == PostsPath + ['/'] + s;
    AfterLastOfJoin(PostsPath, '/', s);
  }

  /** The text fields in `Object.keys(postData)` order. */
  function DataFields(data: PostData): (fs: seq<Field>)
    ensures |fs| == 4 && forall i :: 0 <= i < 4 ==> fs[i].TextField?
  {
    [TextField("post_id", data.postId), TextField("platform", data.platform),
     TextField("country", data.country), TextField("status", data.status)]
  }

  /** The `id` entry, appended only when `editingPostId` is truthy. */
  function IdField(editing: Option<int>): (fs: seq<Field>)
    ensures |fs| == if Truthy(editing) then 1 else 0
  {
    if Truthy(editing) then [TextField("id", IntToString(editing.value))] else []
  }

  /** The `image` entry, appended only when a file is selected. */
  function ImageField(image: Option<FileRef>): (fs: seq<Field>)
    ensures |fs| == if image.Some? then 1 else 0
  {
    if image.Some? then [FileField("image", image.value)] else []
  }

  /**
   * The `FormData` `handlePostSubmit` builds: the `id` first when
   * `editingPostId` is truthy, then the four text fields in order, then the
   * image when one is selected.
   */
  function FormFields(editing: Option<int>, data: PostData, image: Option<FileRef>): (fields: seq<Field>)
    ensures |fields| == (if Truthy(editing) then 1 else 0) + 4 + (if image.Some? then 1 else 0)
  {
    IdField(editing) + DataFields(data) + ImageField(image)
  }

  /** Where each entry of the `FormData` sits. */
  lemma FormFieldsLayout(editing: Option<int>, data: PostData, image: Option<FileRef>)
    ensures var fields := FormFields(editing, data, image);
            var k := if Truthy(editing) then 1 else 0;
            && k + 4 <= |fields| && fields[k..k + 4] == DataFields(data)
            && (Truthy(editing) ==> fields[0] == TextField("id", IntToString(editing.value)))
            && (image.Some? ==> fields[|fields| - 1] == FileField("image", image.value))
  {
    var ids, ds, ims := IdField(editing), DataFields(data), ImageField(image);
    assert FormFields(editing, data, image)[|ids|..|ids| + 4] == ds;
  }

  /** The `FormData` has an `id` entry exactly when `editingPostId` is truthy. */
  lemma FormFieldsIdIff(editing: Option<int>, data: PostData, image: Option<FileRef>)
    ensures var fields := FormFields(editing, data, image);
            (exists i :: 0 <= i < |fields| && fields[i].name == "id") <==> Truthy(editing)
  {
    var ids, ds, ims := IdField(editing), DataFields(data), ImageField(image);
    var fields := FormFields(editing, data, image);
    if Truthy(editing) {
      assert fields[0].name == "id";
    } else {
      forall i | 0 <= i < |fields| ensures fields[i].name != "id" {
        if i < 4 {
          assert fields[i] == ds[i];
        } else {
          assert fields[i] == ims[i - 4];
        }
      }
    }
  }

  /** The `FormData` has a file entry exactly when an image is selected. */
  lemma FormFieldsImageIff(editing: Option<int>, data: PostData, image: Option<FileRef>)
    ensures var fields := FormFields(editing, data, image);
            (exists i :: 0 <= i < |fields| && fields[i].FileField?) <==> image.Some?
  {
    var ids, ds, ims := IdField(editing), DataFields(data), ImageField(image);
    var fields := FormFields(editing, data, image);
    if image.Some? {
      assert fields[|fields| - 1].FileField?;
    } else {
      forall i | 0 <= i < |fields| ensures fields[i].TextField? {
        if i < |ids| {
          assert fields[i] == ids[i];
        } else {
          assert fields[i] == ds[i - |ids|];
        }
      }
    }
  }

  /**
   * The request `handlePostSubmit` sends: an update of the post being edited
   * when `editingPostId` is truthy, a create otherwise.
   */
  function SubmitRequest(editing: Option<int>, data: PostData, image: Option<FileRef>): (r: Request)
    ensures r.verb == PUT <==> Truthy(editing)
    ensures r.verb == POST <==> !Truthy(editing)
    ensures Truthy(editing) ==> r.path == PostPath(editing.value)
    ensures !Truthy(editing) ==> r.path == PostsPath
    ensures r.fields == FormFields(editing, data, image)
  {
    var fields := FormFields(editing, data, image);
    if Truthy(editing) then Request(PUT, PostPath(editing.value), fields)
    else Request(POST, PostsPath, fields)
  }

  /** The request `confirmDelete` sends: none unless `editingPostId` is truthy. */
  function DeleteRequest(editing: Option<int>): (r: Option<Request>)
    ensures r.Some? <==> Truthy(editing)
    ensures r.Some? ==> r.value.verb == DELETE && r.value.path == PostPath(editing.value)
                        && r.value.fields == []
  {
    if Truthy(editing) then Some(Request(DELETE, PostPath(editing.value), [])) else None
  }

  /** The message of the `Error` thrown for a failed mutation. */
  function FailureMessage(r: MutationResponse, fallback: string): (m: string)
    requires !r.Accepted?
    ensures r.Rejected? ==> m == fallback || (r.error.Some? && m == r.error.value)
    ensures r.Rejected? && fallback != "" ==> m != ""
    ensures r.SendFailed? ==> m == r.message
  {
    match r
    case Rejected(e) => if e.Some? && e.value != "" then e.value else fallback
    case SendFailed(m) => m
  }

  /** The alert shown when saving fails. */
  function SaveAlert(r: MutationResponse): (a: string)
    requires !r.Accepted?
    ensures |a| >= 21 && a[..21] == "Failed to save post: "
  {
    "Failed to save post: " + FailureMessage(r, "Failed to save post")
  }

  /** The alert shown when deleting fails. */
  function DeleteAlert(r: MutationResponse): (a: string)
    requires !r.Accepted?
    ensures |a| >= 23 && a[..23] == "Failed to delete post: "
  {
    "Failed to delete post: " + FailureMessage(r, "Failed to delete post")
  }

  /**
   * After its prefix, the save alert gives the backend's `error` when the
   * answer carried a non-empty one, and "Failed to save post" otherwise.
   */
  lemma SaveAlertReason(e: Option<string>)
    ensures e.Some? && e.value != "" ==> SaveAlert(Rejected(e))[21..] == e.value
    ensures e.None? || e.value == "" ==> SaveAlert(Rejected(e))[21..] == "Failed to save post"
  {
    var prefix := "Failed to save post: ";
    assert |prefix| == 21;
    var reason := FailureMessage(Rejected(e), "Failed to save post");
    assert (prefix + reason)[21..] == reason;
  }

  /** The same for the delete alert, whose fallback is "Failed to delete post". */
  lemma DeleteAlertReason(e: Option<string>)
    ensures e.Some? && e.value != "" ==> DeleteAlert(Rejected(e))[23..] == e.value
    ensures e.None? || e.value == "" ==> DeleteAlert(Rejected(e))[23..] == "Failed to delete post"
  {
    var prefix := "Failed to delete post: ";
    assert |prefix| == 23;
    var reason := FailureMessage(Rejected(e), "Failed to delete post");
    assert (prefix + reason)[23..] == reason;
  }

  /** The banner shown when loading fails. */
  function LoadErrorText(r: FetchResponse): (t: string)
    requires !r.Fetched?
    ensures |t| >= 22 && t[..22] == "Failed to load posts: "
    ensures r.HttpFailure? ==> t[22..] == "HTTP error! status: " + IntToString(r.status)
    ensures r.FetchFailed? ==> t[22..] == r.message
  {
    "Failed to load posts: "
      + match r
        case HttpFailure(status) => "HTTP error! status: " + IntToString(status)
        case FetchFailed(m) => m
  }

  /** The cached posts, the counters on screen and the error banner (none: the table shows). */
  datatype Cache = Cache(posts: seq<Post>, stats: Stats, loadError: Option<string>)

  /** The cache after `loadPosts` settles with `response`. */
  function Reload(response: FetchResponse, before: Cache): (after: Cache)
    ensures response.Fetched? ==> after.posts == response.posts && after.loadError == None
                                  && after.stats.total == |response.posts|
    ensures !response.Fetched? ==> after.posts == before.posts && after.stats == before.stats
                                   && after.loadError.Some?
  {
    match response
    case Fetched(posts) => Cache(posts, CountStats(posts), None)
    case _ => Cache(before.posts, before.stats, Some(LoadErrorText(response)))
  }

  /** A successful load leaves nothing of the previous cache behind. */
  lemma ReloadReplacesWholesale(posts: seq<Post>, before1: Cache, before2: Cache)
    ensures Reload(Fetched(posts), before1) == Reload(Fetched(posts), before2)
    ensures Reload(Fetched(posts), before1).stats == CountStats(posts)
  {
  }

  /** The form values shown when a cached post is edited. */
  function FormOf(p: Post): (f: PostData)
    ensures DataFields(f) == [TextField("post_id", p.postId), TextField("platform", p.platform),
                              TextField("country", p.country), TextField("status", p.status)]
  {
    PostData(p.postId, p.platform, p.country, p.status)
  }

  // ---------------------------------------------------------------------
  // The client state

  class Dashboard {
    var currentUser: Option<User>
    var allPosts: seq<Post>
    var editingPostId: Option<int>
    var view: View
    var loginError: Option<string>
    var loadError: Option<string>
    var stats: Stats
    var postModalOpen: bool
    var deleteModalOpen: bool
    var form: PostData
    /** The form's values after `postForm.reset()`, as the page's markup defines them. */
    const blankForm: PostData

    /** The dashboard is only ever on screen for a signed-in user. */
    ghost predicate Valid()
      reads this
    {
      view == DashboardView ==> currentUser.Some?
    }

    ghost function Session(): (Option<User>, View, Option<string>)
      reads this
    {
      (currentUser, view, loginError)
    }

    ghost function Modals(): (Option<int>, bool, bool, PostData)
      reads this
    {
      (editingPostId, postModalOpen, deleteModalOpen, form)
    }

    ghost function CacheState(): Cache
      reads this
    {
      Cache(allPosts, stats, loadError)
    }

    /** The state when the script is loaded: nobody signed in, nothing cached. */
    constructor (blankForm: PostData)
      ensures Valid()
      ensures currentUser == None && allPosts == [] && editingPostId == None
      ensures view == LoginView && !postModalOpen && !deleteModalOpen
      ensures this.blankForm == blankForm && form == blankForm
      ensures stats == Stats(0, 0, 0, 0) && loadError == None && loginError == None
    {
      currentUser, allPosts, editingPostId := None, [], None;
      view, loginError, loadError := LoginView, None, None;
      stats := Stats(0, 0, 0, 0);
      postModalOpen, deleteModalOpen := false, false;
      this.blankForm := blankForm;
      form := blankForm;
    }

    /** `showLogin`: the login view, with its error hidden. */
    method ShowLogin()
      modifies this
      ensures view == LoginView && loginError == None && currentUser == old(currentUser)
      ensures Modals() == old(Modals()) && CacheState() == old(CacheState())
    {
      view := LoginView;
      loginError := None;
    }

    /**
     * `loadPosts`: on an ok response the cache is replaced by the fetched
     * array and the counters are recomputed from it; otherwise the cache and
     * the counters stay and the banner shows the error.
     */
    method LoadPosts(response: FetchResponse)
      requires Valid()
      modifies this
      ensures Valid()
      ensures CacheState() == Reload(response, old(CacheState()))
      ensures response.Fetched? ==> allPosts == response.posts && stats == CountStats(response.posts)
      ensures !response.Fetched? ==> allPosts == old(allPosts) && loadError == Some(LoadErrorText(response))
      ensures Session() == old(Session()) && Modals() == old(Modals())
    {
      loadError := None;
      match response {
        case Fetched(posts) =>
          allPosts := posts;
          stats := UpdateStats(posts);
        case _ =>
          loadError := Some(LoadErrorText(response));
      }
    }

    /** `checkAuthState`: a session opens the dashboard and loads the posts; otherwise the login view. */
    method CheckAuthState(lookup: SessionLookup, reload: FetchResponse)
      requires Valid()
      modifies this
      ensures Valid()
      ensures lookup.HasSession? ==> currentUser == Some(lookup.user) && view == DashboardView
                                     && loginError == old(loginError)
                                     && CacheState() == Reload(reload, old(CacheState()))
      ensures !lookup.HasSession? ==> view == LoginView && loginError == None
                                      && currentUser == old(currentUser)
                                      && CacheState() == old(CacheState())
      ensures Modals() == old(Modals())
    {
      if lookup.HasSession? {
        currentUser := Some(lookup.user);
        view := DashboardView;
        LoadPosts(reload);
      } else {
        ShowLogin();
      }
    }

    /** `handleLogin`: a failed sign-in only shows its message on the login form. */
    method HandleLogin(result: SignIn, reload: FetchResponse)
      requires Valid()
      modifies this
      ensures Valid()
      ensures result.SignedIn? ==> currentUser == Some(result.user) && view == DashboardView
                                   && loginError == None
                                   && CacheState() == Reload(reload, old(CacheState()))
      ensures result.SignInFailed? ==> loginError == Some(result.message)
                                       && currentUser == old(currentUser) && view == old(view)
                                       && CacheState() == old(CacheState())
      ensures Modals() == old(Modals())
    {
      loginError := None;
      match result {
        case SignedIn(user) =>
          currentUser := Some(user);
          view := DashboardView;
          LoadPosts(reload);
        case SignInFailed(message) =>
          loginError := Some(message);
      }
    }

    /**
     * `handleLogout`: once signed out, nobody is signed in and the cached
     * posts are dropped; if signing out fails, nothing changes.
     */
    method HandleLogout(signedOut: bool)
      requires Valid()
      modifies this
      ensures Valid()
      ensures signedOut ==> currentUser == None && allPosts == [] && view == LoginView
                            && loginError == None
                            && stats == old(stats) && loadError == old(loadError)
      ensures !signedOut ==> Session() == old(Session()) && CacheState() == old(CacheState())
      ensures Modals() == old(Modals())
    {
      if signedOut {
        currentUser := None;
        allPosts := [];
        ShowLogin();
      }
    }

    /**
     * `openPostModal`: remembers which post is edited; a truthy id fills the
     * form from the cached post with that id when there is one, a falsy id
     * resets the form for a new post.
     */
    method OpenPostModal(postId: Option<int>)
      requires Valid()
      modifies this
      ensures Valid()
      ensures editingPostId == postId && postModalOpen && deleteModalOpen == old(deleteModalOpen)
      ensures Truthy(postId) ==> form == match FindPost(allPosts, postId.value)
                                        case Some(p) => FormOf(p)
                                        case None => old(form)
      ensures !Truthy(postId) ==> form == blankForm
      ensures Session() == old(Session()) && CacheState() == old(CacheState())
    {
      editingPostId := postId;
      if Truthy(postId) {
        var post := FindPost(allPosts, postId.value);
        if post.Some? {
          form := FormOf(post.value);
        }
      } else {
        form := blankForm;
      }
      postModalOpen := true;
    }

    /** `closePostModal`: the modal closes, no post is being edited, the form is reset. */
    method ClosePostModal()
      requires Valid()
      modifies this
      ensures Valid()
      ensures !postModalOpen && editingPostId == None && form == blankForm
      ensures deleteModalOpen == old(deleteModalOpen)
      ensures Session() == old(Session()) && CacheState() == old(CacheState())
    {
      postModalOpen := false;
      editingPostId := None;
      form := blankForm;
    }

    /**
     * `handlePostSubmit`: sends the create or update request; once it is
     * accepted the modal closes and the posts are reloaded, otherwise the
     * alert reports the reason and the modal stays as it was.
     */
    method HandlePostSubmit(data: PostData, image: Option<FileRef>,
                            response: MutationResponse, reload: FetchResponse)
      returns (request: Request, alert: Option<string>)
      requires Valid()
      modifies this
      ensures Valid()
      ensures request == SubmitRequest(old(editingPostId), data, image)
      ensures response.Accepted? ==> alert == None && !postModalOpen && editingPostId == None
                                     && form == blankForm && deleteModalOpen == old(deleteModalOpen)
                                     && CacheState() == Reload(reload, old(CacheState()))
      ensures !response.Accepted? ==> alert == Some(SaveAlert(response))
                                      && Modals() == old(Modals())
                                      && CacheState() == old(CacheState())
      ensures Session() == old(Session())
    {
      request := SubmitRequest(editingPostId, data, image);
      if response.Accepted? {
        alert := None;
        ClosePostModal();
        LoadPosts(reload);
      } else {
        alert := Some(SaveAlert(response));
      }
    }

    /** `openDeleteModal`: asks for confirmation; nothing is sent yet. */
    method OpenDeleteModal(postId: int)
      requires Valid()
      modifies this
      ensures Valid()
      ensures editingPostId == Some(postId) && deleteModalOpen
      ensures postModalOpen == old(postModalOpen) && form == old(form)
      ensures Session() == old(Session()) && CacheState() == old(CacheState())
    {
      editingPostId := Some(postId);
      deleteModalOpen := true;
    }

    /** `closeDeleteModal`: the modal closes and no post is targeted any more. */
    method CloseDeleteModal()
      requires Valid()
      modifies this
      ensures Valid()
      ensures !deleteModalOpen && editingPostId == None
      ensures postModalOpen == old(postModalOpen) && form == old(form)
      ensures Session() == old(Session()) && CacheState() == old(CacheState())
    {
      deleteModalOpen := false;
      editingPostId := None;
    }

    /**
     * `confirmDelete`: with no truthy target nothing is sent and nothing
     * changes; otherwise the delete is sent, and once it is accepted the modal
     * closes and the posts are reloaded, while a refusal only raises the alert.
     */
    method ConfirmDelete(response: MutationResponse, reload: FetchResponse)
      returns (request: Option<Request>, alert: Option<string>)
      requires Valid()
      modifies this
      ensures Valid()
      ensures request == DeleteRequest(old(editingPostId))
      ensures !Truthy(old(editingPostId)) ==>
                alert == None && Modals() == old(Modals()) && CacheState() == old(CacheState())
      ensures Truthy(old(editingPostId)) && response.Accepted? ==>
                alert == None && !deleteModalOpen && editingPostId == None
                && postModalOpen == old(postModalOpen) && form == old(form)
                && CacheState() == Reload(reload, old(CacheState()))
      ensures Truthy(old(editingPostId)) && !response.Accepted? ==>
                alert == Some(DeleteAlert(response)) && Modals() == old(Modals())
                && CacheState() == old(CacheState())
      ensures Session() == old(Session())
    {
      request := DeleteRequest(editingPostId);
      if !Truthy(editingPostId) {
        alert := None;
        return;
      }
      if response.Accepted? {
        alert := None;
        CloseDeleteModal();
        LoadPosts(reload);
      } else {
        alert := Some(DeleteAlert(response));
      }
    }
  }

  /**
   * From any state, opening and then cancelling the confirmation modal means
   * a later confirmation sends nothing and leaves the cache as it was.
   */
  method CancelledDeleteSendsNothing(d: Dashboard, postId: int, response: MutationResponse, reload: FetchResponse)
    returns (request: Option<Request>)
    requires d.Valid()
    modifies d
    ensures request == None
    ensures d.allPosts == old(d.allPosts) && d.editingPostId == None
  {
    d.OpenDeleteModal(postId);
    d.CloseDeleteModal();
    var alert;
    request, alert := d.ConfirmDelete(response, reload);
  }

  /**
   * From any state, a post whose id is 0 is saved as a new post: 0 is falsy,
   * so the form is submitted as a create.
   */
  method EditingPostZeroCreates(d: Dashboard, data: PostData, image: Option<FileRef>,
                                response: MutationResponse, reload: FetchResponse)
    returns (request: Request)
    requires d.Valid()
    modifies d
    ensures request.verb == POST && request.path == PostsPath
    ensures forall i :: 0 <= i < |request.fields| ==> request.fields[i].name != "id"
  {
    d.OpenPostModal(Some(0));
    var alert;
    request, alert := d.HandlePostSubmit(data, image, response, reload);
  }
}

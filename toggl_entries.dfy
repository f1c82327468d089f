/** Fetching finished entries page by page from the Toggl Reports API, and turning the
    running entry into an enriched record with names taken from the workspace caches. */
module TogglEntries {
  import opened Wrappers
  import opened Lookup
  import opened TogglTypes

  // ---------------------------------------------------------------------------
  // Reports API pagination
  // ---------------------------------------------------------------------------

  /** The server's answer to one page request: a 2xx body with `data` and `total_count`,
      or a non-ok status. */
  datatype PageResponse =
    | PageOk(data: seq<TogglReportsEntry>, totalCount: int)
    | PageFailed(status: int)

  /** The error thrown when a page request is answered with a non-ok status. */
  datatype FetchError = ReportsFetchFailed(status: int)

  /** The entries a response contributes to the accumulated list. */
  function DataOf(p: PageResponse): seq<TogglReportsEntry> {
    if p.PageOk? then p.data else []
  }

  /** The entries accumulated after the responses to pages 1..n, in page order. */
  function Accumulated(pages: seq<PageResponse>, n: nat): seq<TogglReportsEntry>
    requires n <= |pages|
  {
    if n == 0 then [] else Accumulated(pages, n - 1) + DataOf(pages[n - 1])
  }

  /** After the response `pages[j]` (to page j + 1) the loop requests another page:
      the response was ok and the accumulated count is still below its total. */
  predicate Continues(pages: seq<PageResponse>, j: nat) {
    j < |pages| && pages[j].PageOk? && |Accumulated(pages, j + 1)| < pages[j].totalCount
  }

  /** The loop ends with the response `pages[k]`: every earlier one led to another request,
      this one does not. */
  predicate StopsAt(pages: seq<PageResponse>, k: nat) {
    k < |pages| && (forall j: nat :: j < k ==> Continues(pages, j)) && !Continues(pages, k)
  }

  /** The stopping page is unique, so the ensures of GetEntries determine its result. */
  lemma StopsAtUnique(pages: seq<PageResponse>, k1: nat, k2: nat)
    requires StopsAt(pages, k1) && StopsAt(pages, k2)
    ensures k1 == k2
  {
  }

  /** Requests pages 1, 2, ... (answered by pages[0], pages[1], ...), appending each page's
      data, until the accumulated count reaches the total reported by the latest page.
      A non-ok response is an error and no partial list is returned. `requested` is the list
      of page numbers sent. The source does not ensure termination; the precondition says
      the server's answers do reach a stopping page. */
  method GetEntries(pages: seq<PageResponse>)
    returns (r: Result<seq<TogglReportsEntry>, FetchError>, requested: seq<nat>)
    requires exists k: nat :: StopsAt(pages, k)
    ensures |requested| >= 1
    ensures forall j :: 0 <= j < |requested| ==> requested[j] == j + 1
    ensures StopsAt(pages, |requested| - 1)
    ensures pages[|requested| - 1].PageFailed? ==>
              r == Failure(ReportsFetchFailed(pages[|requested| - 1].status))
    ensures pages[|requested| - 1].PageOk? ==>
              r == Success(Accumulated(pages, |requested|)) &&
              |r.value| >= pages[|requested| - 1].totalCount
  {
    ghost var k: nat :| StopsAt(pages, k);
    var allEntries: seq<TogglReportsEntry> := [];
    var page: nat := 1;
    requested := [];
    while true
      invariant 1 <= page <= k + 1
      invariant |requested| == page - 1
      invariant forall j :: 0 <= j < |requested| ==> requested[j] == j + 1
      invariant allEntries == Accumulated(pages, page - 1)
      invariant forall j: nat :: j < page - 1 ==> Continues(pages, j)
      decreases k + 1 - page
    {
      requested := requested + [page];
      var res := pages[page - 1];
      if res.PageFailed? {
        r := Failure(ReportsFetchFailed(res.status));
        return;
      }
      allEntries := allEntries + res.data;
      if |allEntries| >= res.totalCount {
        r := Success(allEntries);
        return;
      }
      page := page + 1;
    }
  }

  /** When every response is ok and non-empty, each page adds at least one entry. */
  lemma {:induction false} AccumulatedGrows(pages: seq<PageResponse>, n: nat)
    requires n <= |pages|
    requires forall j :: 0 <= j < |pages| ==> pages[j].PageOk? && |pages[j].data| > 0
    ensures |Accumulated(pages, n)| >= n
  {
    if n > 0 {
      AccumulatedGrows(pages, n - 1);
    }
  }

  /** A sufficient condition for termination: no page reports a total larger than the number
      of entries the server serves over all its pages (a server answering 50 + 12 entries
      with total 62 on both pages, say). */
  lemma ServedTotalStops(pages: seq<PageResponse>)
    requires |pages| > 0
    requires forall j :: 0 <= j < |pages| ==> pages[j].PageOk? ==> pages[j].totalCount <= |Accumulated(pages, |pages|)|
    ensures exists k: nat :: StopsAt(pages, k)
  {
    var k: nat := 0;
    while k < |pages| - 1 && Continues(pages, k)
      invariant k < |pages|
      invariant forall j: nat :: j < k ==> Continues(pages, j)
    {
      k := k + 1;
    }
    assert StopsAt(pages, k);
  }

  /** Another one: every response is ok with at least one entry, and no reported total
      exceeds the number of pages the server can answer. */
  lemma NonEmptyPagesStop(pages: seq<PageResponse>)
    requires |pages| > 0
    requires forall j :: 0 <= j < |pages| ==>
               pages[j].PageOk? && |pages[j].data| > 0 && pages[j].totalCount <= |pages|
    ensures exists k: nat :: StopsAt(pages, k)
  {
    AccumulatedGrows(pages, |pages|);
    ServedTotalStops(pages);
  }

  // ---------------------------------------------------------------------------
  // Running entry and its enrichment from the workspace caches
  // ---------------------------------------------------------------------------

  /** Cached workspace records; a name is None when the record has none. */
  datatype CachedUser = CachedUser(id: int, fullname: Option<string>)
  datatype CachedProject = CachedProject(id: int, name: Option<string>, clientId: Option<int>)
  datatype CachedClient = CachedClient(id: int, name: Option<string>)

  /** The three lists the workspace fetch fills in, read-only during enrichment. */
  datatype WorkspaceCache = WorkspaceCache(
    users: seq<CachedUser>,
    projects: seq<CachedProject>,
    clients: seq<CachedClient>)

  /** JavaScript truthiness of a nullable numeric id: null and 0 are falsy. */
  predicate IsTruthyId(x: Option<int>) {
    x.Some? && x.value != 0
  }

  /** The name of the first cached user whose id is `uid`; null when `uid` is falsy,
      no user has that id, or that user has no name. */
  function UserName(users: seq<CachedUser>, uid: Option<int>): (r: Option<string>)
    ensures !IsTruthyId(uid) ==> r.None?
    ensures IsTruthyId(uid) && (forall i :: 0 <= i < |users| ==> users[i].id != uid.value) ==> r.None?
    ensures IsTruthyId(uid) ==>
              forall i :: 0 <= i < |users| && users[i].id == uid.value &&
                          (forall j :: 0 <= j < i ==> users[j].id != uid.value) ==>
                r == users[i].fullname
  {
    if !IsTruthyId(uid) then None
    else
      match FindFirst(users, (u: CachedUser) => u.id == uid.value)
      case None => None
      case Some(i) => users[i].fullname
  }

  /** The first cached project whose id is `pid`, when `pid` is truthy. */
  function ProjectOf(projects: seq<CachedProject>, pid: Option<int>): (r: Option<CachedProject>)
    ensures !IsTruthyId(pid) ==> r.None?
    ensures IsTruthyId(pid) && (forall i :: 0 <= i < |projects| ==> projects[i].id != pid.value) ==> r.None?
    ensures IsTruthyId(pid) ==>
              forall i :: 0 <= i < |projects| && projects[i].id == pid.value &&
                          (forall j :: 0 <= j < i ==> projects[j].id != pid.value) ==>
                r == Some(projects[i])
  {
    if !IsTruthyId(pid) then None
    else
      match FindFirst(projects, (p: CachedProject) => p.id == pid.value)
      case None => None
      case Some(i) => Some(projects[i])
  }

  /** The name of the project `pid` refers to; null when there is no such project. */
  function ProjectName(projects: seq<CachedProject>, pid: Option<int>): (r: Option<string>)
    ensures ProjectOf(projects, pid).None? ==> r.None?
    ensures ProjectOf(projects, pid).Some? ==> r == ProjectOf(projects, pid).value.name
  {
    match ProjectOf(projects, pid)
    case None => None
    case Some(p) => p.name
  }

  /** The name of the client reached through the found project's `client_id`; null when
      there is no project, its client id is falsy, or no cached client has that id. */
  function ClientName(clients: seq<CachedClient>, project: Option<CachedProject>): (r: Option<string>)
    ensures project.None? ==> r.None?
    ensures project.Some? && !IsTruthyId(project.value.clientId) ==> r.None?
    ensures (&& project.Some? && IsTruthyId(project.value.clientId)
             && forall i :: 0 <= i < |clients| ==> clients[i].id != project.value.clientId.value) ==> r.None?
    ensures project.Some? && IsTruthyId(project.value.clientId) ==>
              forall i :: 0 <= i < |clients| && clients[i].id == project.value.clientId.value &&
                          (forall j :: 0 <= j < i ==> clients[j].id != project.value.clientId.value) ==>
                r == clients[i].name
  {
    match project
    case None => None
    case Some(p) =>
      if !IsTruthyId(p.clientId) then None
      else
        match FindFirst(clients, (c: CachedClient) => c.id == p.clientId.value)
        case None => None
        case Some(i) => clients[i].name
  }

  /** The body of the current-entry endpoint when an entry is running; `start` is the
      parsed start instant in milliseconds. */
  datatype RunningEntry = RunningEntry(
    id: int,
    pid: Option<int>,
    tid: Option<int>,
    uid: Option<int>,
    description: Option<string>,
    start: int)

  /** What the current-entry request produced: a non-ok status, an ok response whose JSON
      body is null or an entry, or a thrown error (network failure or a body that is not JSON). */
  datatype CurrentResponse =
    | CurrentNotOk(status: int)
    | CurrentOk(body: Option<RunningEntry>)
    | CurrentThrew

  /** The enriched running entry; `end` is the moment of the fetch and `dur` is in milliseconds. */
  datatype CurrentEntry = CurrentEntry(
    id: int,
    pid: Option<int>,
    tid: Option<int>,
    start: int,
    end: int,
    dur: int,
    user: Option<string>,
    project: Option<string>,
    description: string,
    client: Option<string>)

  /** The running entry enriched with names, given the response, the clock reading `now`
      (milliseconds) and the caches. Never fails: every failure becomes null. */
  function GetCurrentEntry(res: CurrentResponse, now: int, cache: WorkspaceCache): (r: Option<CurrentEntry>)
    ensures r.Some? <==> res.CurrentOk? && res.body.Some?
    ensures r.Some? ==>
              var d := res.body.value;
              && r.value.id == d.id && r.value.pid == d.pid && r.value.tid == d.tid
              && r.value.start == d.start && r.value.end == now
              && r.value.start + r.value.dur == r.value.end
              && r.value.description == (if d.description.Some? then d.description.value else "")
              && r.value.user == UserName(cache.users, d.uid)
              && r.value.project == ProjectName(cache.projects, d.pid)
              && r.value.client == ClientName(cache.clients, ProjectOf(cache.projects, d.pid))
  {
    match res
    case CurrentNotOk(_) => None
    case CurrentThrew => None
    case CurrentOk(body) =>
      match body
      case None => None
      case Some(d) =>
        Some(CurrentEntry(
          d.id, d.pid, d.tid, d.start, now, now - d.start,
          UserName(cache.users, d.uid),
          ProjectName(cache.projects, d.pid),
          d.description.GetOr(""),
          ClientName(cache.clients, ProjectOf(cache.projects, d.pid))))
  }
}

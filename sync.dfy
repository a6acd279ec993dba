/**
 * internal/cli/sync.go: the planning half of a sync. It reads the bookmark
 * pages, turns every artwork not yet downloaded into download tasks (one per
 * page, plus the artist's avatar), and keeps the set of downloaded artwork
 * IDs. Every HTTP response, every file-system outcome and the saved record
 * of downloaded IDs are inputs; the download manager that runs the tasks is
 * not part of this model, only the tasks handed to it and the callbacks it
 * runs when a task completes.
 */
module SyncPlan {
  import opened Text
  import opened Model
  import opened Collections
  import opened Gallery
  import opened Picture
  import opened Arith

  /** Bookmarks per page request. */
  const LimitPerPage := 48

  /** Go's `/` on integers: the quotient truncated toward zero. */
  function GoDiv(a: int, b: int): (q: int)
    requires b >= 1
    ensures a >= 0 ==> q == a / b
    ensures a < 0 ==> q == -((-a) / b)
  {
    if a >= 0 then a / b else -((-a) / b)
  }

  /**
   * `(total + 48 - 1) / 48`: the least number of pages of 48 that hold a
   * positive total; no page for a total of zero, and none either for the
   * negative totals a malformed response could carry.
   */
  function TotalPages(total: int): (n: int)
    ensures total > 0 ==> n >= 1 && (n - 1) * LimitPerPage < total <= n * LimitPerPage
    ensures total <= 0 ==> n <= 0
  {
    var a := total + LimitPerPage - 1;
    var n := GoDiv(a, LimitPerPage);
    assert a == (a / LimitPerPage) * LimitPerPage + a % LimitPerPage;
    assert (n - 1) * LimitPerPage == n * LimitPerPage - LimitPerPage;
    n
  }

  /** The number of bookmark pages requested: the loop runs while i < totalPages. */
  function PagesRequested(total: int): nat {
    if TotalPages(total) > 0 then TotalPages(total) else 0
  }

  /** Page i starts at offset i*48, so the requested offsets cover [0, total) without gap or overlap. */
  lemma OffsetsCoverTotal(total: int, x: int)
    requires 0 <= x < total
    ensures 0 <= x / LimitPerPage < PagesRequested(total)
    ensures (x / LimitPerPage) * LimitPerPage <= x < (x / LimitPerPage + 1) * LimitPerPage
  {
    var n := TotalPages(total);
    var q := x / LimitPerPage;
    assert x == q * LimitPerPage + x % LimitPerPage;
    assert (q + 1) * LimitPerPage == q * LimitPerPage + LimitPerPage;
    MulCancel(q, n, LimitPerPage);
  }

  // ---------------------------------------------------------------------
  // Bookmark pages
  // ---------------------------------------------------------------------

  /** One entry of `body.works`: the artwork, its artist and the artist's small avatar. */
  datatype Work = Work(artworkId: int, artistId: int, profileImageUrl: string)

  /** The larger avatar: every "_50." replaced by "_170.". */
  function AvatarUrl(profileImageUrl: string): string {
    ReplaceAll(profileImageUrl, "_50.", "_170.")
  }

  /** A URL without "_50." is kept as it is. */
  lemma AvatarUrlKeepsOthers(url: string)
    requires forall i: nat :: !OccursAt(url, "_50.", i)
    ensures AvatarUrl(url) == url
  {
    ReplaceAllAbsent(url, "_50.", "_170.");
  }

  /** The first "_50." becomes "_170."; the rest of the URL is rewritten the same way. */
  lemma AvatarUrlResized(a: string, b: string)
    requires forall i: nat :: i < |a| ==> !OccursAt(a + "_50." + b, "_50.", i)
    ensures AvatarUrl(a + "_50." + b) == a + "_170." + AvatarUrl(b)
  {
    ReplaceAllFirst(a, "_50.", "_170.", b);
  }

  lemma AvatarUrlExample()
    ensures AvatarUrl("a_50.jpg") == "a_170.jpg"
  {
    var s := "a_50.jpg";
    assert s[..4] == "a_50" && s[..4] != "_50.";
    assert s[1..] == "_50.jpg" && s[1..][..4] == "_50.";
    assert s[1..][4..] == "jpg";
    assert ReplaceAll("jpg", "_50.", "_170.") == "jpg";
  }

  /** The artwork IDs of a page, in page order. */
  function WorkIds(works: seq<Work>): (ids: seq<int>)
    ensures |ids| == |works| && forall j :: 0 <= j < |works| ==> ids[j] == works[j].artworkId
  {
    if works == [] then [] else WorkIds(works[..|works| - 1]) + [works[|works| - 1].artworkId]
  }

  /** artworkList after the given page responses: the IDs of every page that came back, in order. */
  function Listed(pages: seq<Option<seq<Work>>>): seq<int> {
    if pages == [] then []
    else
      var last := pages[|pages| - 1];
      Listed(pages[..|pages| - 1]) + (if last.Some? then WorkIds(last.value) else [])
  }

  /** artistPFP after the entries of one page: each entry sets its artist's avatar. */
  function Avatars(pfp: map<int, string>, works: seq<Work>): map<int, string> {
    if works == [] then pfp
    else
      var last := works[|works| - 1];
      Avatars(pfp, works[..|works| - 1])[last.artistId := AvatarUrl(last.profileImageUrl)]
  }

  /** artistPFP after the given page responses. */
  function AvatarsOf(pages: seq<Option<seq<Work>>>): map<int, string> {
    if pages == [] then map[]
    else
      var last := pages[|pages| - 1];
      var before := AvatarsOf(pages[..|pages| - 1]);
      if last.Some? then Avatars(before, last.value) else before
  }

  /** The list of a run of pages is the lists of its parts, one after the other. */
  lemma {:induction false} ListedConcat(a: seq<Option<seq<Work>>>, b: seq<Option<seq<Work>>>)
    ensures Listed(a + b) == Listed(a) + Listed(b)
    decreases |b|
  {
    if b != [] {
      assert (a + b)[..|a + b| - 1] == a + b[..|b| - 1];
      ListedConcat(a, b[..|b| - 1]);
    } else {
      assert a + b == a;
    }
  }

  /** A page whose request failed adds nothing: the list skips it. */
  lemma FailedPageSkipped(pages: seq<Option<seq<Work>>>, i: nat)
    requires i < |pages| && pages[i].None?
    ensures Listed(pages) == Listed(pages[..i]) + Listed(pages[i + 1..])
  {
    calc {
      Listed(pages);
    == { SplitAround(pages, i); }
      Listed(pages[..i] + ([pages[i]] + pages[i + 1..]));
    == { ListedConcat(pages[..i], [pages[i]] + pages[i + 1..]); }
      Listed(pages[..i]) + Listed([pages[i]] + pages[i + 1..]);
    == { ListedConcat([pages[i]], pages[i + 1..]); FailedPageEmpty(pages[i]); }
      Listed(pages[..i]) + ([] + Listed(pages[i + 1..]));
    == { assert [] + Listed(pages[i + 1..]) == Listed(pages[i + 1..]); }
      Listed(pages[..i]) + Listed(pages[i + 1..]);
    }
  }

  lemma SplitAround<T>(s: seq<T>, i: nat)
    requires i < |s|
    ensures s == s[..i] + ([s[i]] + s[i + 1..])
  {
    assert s[i..] == [s[i]] + s[i + 1..];
    assert s == s[..i] + s[i..];
  }

  lemma FailedPageEmpty(page: Option<seq<Work>>)
    requires page.None?
    ensures Listed([page]) == []
  {
    assert [page][..0] == [];
  }

  /** Every entry of every page that came back is listed. */
  lemma {:induction false} EveryWorkListed(pages: seq<Option<seq<Work>>>, i: nat, j: nat)
    requires i < |pages| && pages[i].Some? && j < |pages[i].value|
    ensures pages[i].value[j].artworkId in Listed(pages)
  {
    if i < |pages| - 1 {
      EveryWorkListed(pages[..|pages| - 1], i, j);
    } else {
      assert WorkIds(pages[i].value)[j] == pages[i].value[j].artworkId;
    }
  }

  /** An artist's avatar comes from the last entry for that artist: a later entry overwrites an earlier one. */
  lemma {:induction false} LastAvatarWins(pfp: map<int, string>, works: seq<Work>, j: nat)
    requires j < |works|
    requires forall k :: j < k < |works| ==> works[k].artistId != works[j].artistId
    ensures works[j].artistId in Avatars(pfp, works)
    ensures Avatars(pfp, works)[works[j].artistId] == AvatarUrl(works[j].profileImageUrl)
  {
    if j < |works| - 1 {
      LastAvatarWins(pfp, works[..|works| - 1], j);
    }
  }

  /** An artist has an avatar exactly when it had one before or one of the entries names it. */
  lemma {:induction false} AvatarsKeys(pfp: map<int, string>, works: seq<Work>, a: int)
    ensures a in Avatars(pfp, works) <==> a in pfp || exists k :: 0 <= k < |works| && works[k].artistId == a
  {
    if works != [] {
      var init := works[..|works| - 1];
      AvatarsKeys(pfp, init, a);
      if exists k :: 0 <= k < |init| && init[k].artistId == a {
        var k :| 0 <= k < |init| && init[k].artistId == a;
        assert works[k].artistId == a;
      }
      if exists k :: 0 <= k < |works| && works[k].artistId == a {
        var k :| 0 <= k < |works| && works[k].artistId == a;
        if k < |init| {
          assert init[k].artistId == a;
        }
      }
    }
  }

  /** The ForEach over one page: the IDs appended and the avatars set, entry by entry. */
  method AddWorks(list: seq<int>, pfp: map<int, string>, works: seq<Work>) returns (list': seq<int>, pfp': map<int, string>)
    ensures list' == list + WorkIds(works)
    ensures pfp' == Avatars(pfp, works)
  {
    list', pfp' := list, pfp;
    var j := 0;
    while j < |works|
      invariant 0 <= j <= |works|
      invariant list' == list + WorkIds(works[..j])
      invariant pfp' == Avatars(pfp, works[..j])
    {
      assert works[..j + 1][..j] == works[..j];
      list' := list' + [works[j].artworkId];
      pfp' := pfp'[works[j].artistId := AvatarUrl(works[j].profileImageUrl)];
      j := j + 1;
    }
    assert works[..j] == works;
  }

  /**
   * The bookmark loop: page i is requested at offset i*48 for every page
   * of TotalPages(total); `pages[i]` is what that request returned (None
   * when it failed, which skips the page).
   */
  method CollectBookmarks(total: int, pages: seq<Option<seq<Work>>>)
    returns (offsets: seq<int>, artworkList: seq<int>, artistPfp: map<int, string>)
    requires |pages| == PagesRequested(total)
    ensures |offsets| == PagesRequested(total)
    ensures forall i :: 0 <= i < |offsets| ==> offsets[i] == i * LimitPerPage
    ensures artworkList == Listed(pages)
    ensures artistPfp == AvatarsOf(pages)
  {
    offsets, artworkList, artistPfp := [], [], map[];
    var totalPages := TotalPages(total);
    var i := 0;
    while i < totalPages
      invariant 0 <= i <= |pages|
      invariant |offsets| == i && forall k :: 0 <= k < i ==> offsets[k] == k * LimitPerPage
      invariant artworkList == Listed(pages[..i])
      invariant artistPfp == AvatarsOf(pages[..i])
    {
      assert pages[..i + 1][..i] == pages[..i];
      offsets := offsets + [i * LimitPerPage];
      if pages[i].Some? {
        artworkList, artistPfp := AddWorks(artworkList, artistPfp, pages[i].value);
      }
      i := i + 1;
    }
    assert pages[..i] == pages;
  }

  // ---------------------------------------------------------------------
  // Download tasks of one artwork
  // ---------------------------------------------------------------------

  /** What is handed to the download manager: the task ID, the URL, the directory and the file name. */
  datatype Task = Task(id: string, url: string, savePath: string, fileName: string)

  /** The last three characters of the original URL, taken as the file extension. */
  function UrlExt(url: string): (ext: string)
    requires |url| >= 3
    ensures |ext| == 3 && HasSuffix(url, ext)
  {
    url[|url| - 3..]
  }

  /** "p<i>.<ext>". */
  function PageFileName(i: nat, ext: string): string {
    "p" + NatString(i) + "." + ext
  }

  /** The original URL with every "_p0." replaced by "_p<i>.". */
  function PageUrl(url: string, i: nat): string {
    ReplaceAll(url, "_p0.", "_p" + NatString(i) + ".")
  }

  /** "<artworkID>_<fileName>". */
  function PageTaskId(artworkId: int, fileName: string): string {
    IntString(artworkId) + "_" + fileName
  }

  /** "<artistID>(pfp)". */
  function AvatarTaskId(artistId: int): string {
    IntString(artistId) + "(pfp)"
  }

  /** The task of page i of an artwork whose original URL is `url`. */
  function PageTask(artworkId: int, url: string, artworkPath: string, i: nat): Task
    requires |url| >= 3
  {
    var name := PageFileName(i, UrlExt(url));
    Task(PageTaskId(artworkId, name), PageUrl(url, i), artworkPath, name)
  }

  /**
   * The page loop of one artwork. Taking the extension panics when the URL
   * is shorter than three characters and there is a page to take it for:
   * None stands for that panic, which ends the program.
   */
  method PlanPages(artworkId: int, url: string, artworkPath: string, pageCount: nat) returns (tasks: Option<seq<Task>>)
    ensures tasks.None? <==> pageCount > 0 && |url| < 3
    ensures tasks.Some? ==> |tasks.value| == pageCount
    ensures tasks.Some? ==> forall i :: 0 <= i < pageCount ==> tasks.value[i] == PageTask(artworkId, url, artworkPath, i)
  {
    var planned: seq<Task> := [];
    var i := 0;
    while i < pageCount
      invariant 0 <= i <= pageCount
      invariant i > 0 ==> |url| >= 3
      invariant |planned| == i && forall k :: 0 <= k < i ==> planned[k] == PageTask(artworkId, url, artworkPath, k)
    {
      if |url| < 3 {
        return None;
      }
      var fileExtension := url[|url| - 3..];
      var fileName := "p" + NatString(i) + "." + fileExtension;
      var newUrl := ReplaceAll(url, "_p0.", "_p" + NatString(i) + ".");
      planned := planned + [Task(IntString(artworkId) + "_" + fileName, newUrl, artworkPath, fileName)];
      i := i + 1;
    }
    tasks := Some(planned);
  }

  /** Page 0 is downloaded from the original URL itself. */
  lemma PageZeroUrl(url: string)
    ensures PageUrl(url, 0) == url
  {
    assert NatString(0) == "0";
    assert "_p" + NatString(0) + "." == "_p0.";
    ReplaceAllSelf(url, "_p0.");
  }

  lemma PageUrlExample()
    ensures PageUrl("x_p0.png", 3) == "x_p3.png"
  {
    var s := "x_p0.png";
    assert NatString(3) == "3";
    assert s[..4] == "x_p0" && s[..4] != "_p0.";
    assert s[1..] == "_p0.png" && s[1..][..4] == "_p0.";
    assert s[1..][4..] == "png";
    assert ReplaceAll("png", "_p0.", "_p3.") == "png";
  }

  /** The file of page i is named with the prefix the artwork page looks for. */
  lemma PageFileNamePrefix(i: nat, ext: string)
    ensures PageFileName(i, ext) == PagePrefix(i) + ext
    ensures HasPrefix(PageFileName(i, ext), PagePrefix(i))
  {
    assert (PagePrefix(i) + ext)[..|PagePrefix(i)|] == PagePrefix(i);
  }

  /** Different pages get different file names. */
  lemma PageFileNamesDistinct(i: nat, j: nat, ext: string, ext': string)
    requires PageFileName(i, ext) == PageFileName(j, ext')
    ensures i == j && ext == ext'
  {
    PageFileNamePrefix(i, ext);
    PageFileNamePrefix(j, ext');
    PagePrefixUnique(PageFileName(i, ext), i, j);
    assert PagePrefix(i) + ext == PagePrefix(i) + ext';
    assert ext == (PagePrefix(i) + ext)[|PagePrefix(i)|..];
  }

  /**
   * The files of an artwork's page tasks, in page order, are exactly what
   * the artwork page picks: the search for page i finds page i's file.
   */
  lemma ArtworkPageFindsEveryPage(names: seq<string>, ext: string, i: nat)
    requires forall j :: 0 <= j < |names| ==> names[j] == PageFileName(j, ext)
    requires i < |names|
    ensures FirstWithPrefix(names, PagePrefix(i)) == Some(names[i])
  {
    forall j | 0 <= j < i
      ensures !HasPrefix(names[j], PagePrefix(i))
    {
      if HasPrefix(names[j], PagePrefix(i)) {
        PageFileNamePrefix(j, ext);
        PagePrefixUnique(names[j], i, j);
      }
    }
    PageFileNamePrefix(i, ext);
    FirstMatch(names, PagePrefix(i), i);
  }

  // ---------------------------------------------------------------------
  // Task IDs are never shared
  // ---------------------------------------------------------------------

  /** The characters strconv.Itoa writes: digits and the minus sign. */
  predicate Numeric(c: char) {
    IsDigit(c) || c == '-'
  }

  /** The length of the leading run of Numeric characters. */
  function Lead(u: string): (n: nat)
    ensures n <= |u|
  {
    if u == [] || !Numeric(u[0]) then 0 else 1 + Lead(u[1..])
  }

  /** What follows the number at the head of a task ID. */
  function AfterNumber(u: string): string {
    u[Lead(u)..]
  }

  lemma IntStringNumeric(a: int)
    ensures forall k :: 0 <= k < |IntString(a)| ==> Numeric(IntString(a)[k])
    ensures |IntString(a)| >= 1
  {
    if a < 0 {
      var x := IntString(a);
      assert forall k :: 1 <= k < |x| ==> x[k] == NatString(-a)[k - 1];
    }
  }

  /** A number followed by a non-numeric character: the run stops exactly there. */
  lemma {:induction false} LeadOf(x: string, rest: string)
    requires forall k :: 0 <= k < |x| ==> Numeric(x[k])
    requires rest != [] && !Numeric(rest[0])
    ensures Lead(x + rest) == |x|
  {
    if x != [] {
      assert (x + rest)[1..] == x[1..] + rest;
      LeadOf(x[1..], rest);
    } else {
      assert x + rest == rest;
    }
  }

  /** Itoa loses nothing: its text determines the number. */
  lemma IntStringInjective(a: int, b: int)
    requires IntString(a) == IntString(b)
    ensures a == b
  {
    assert a < 0 <==> IntString(a)[0] == '-';
    assert b < 0 <==> IntString(b)[0] == '-';
    if a < 0 {
      assert NatString(-a) == IntString(a)[1..] == IntString(b)[1..] == NatString(-b);
      NatStringInjective(-a, -b);
    } else {
      NatStringInjective(a, b);
    }
  }

  /** The ID splits at its first non-numeric character into the number and the rest. */
  lemma SplitId(a: int, rest: string)
    requires rest != [] && !Numeric(rest[0])
    ensures Lead(IntString(a) + rest) == |IntString(a)|
    ensures (IntString(a) + rest)[..Lead(IntString(a) + rest)] == IntString(a)
    ensures AfterNumber(IntString(a) + rest) == rest
  {
    IntStringNumeric(a);
    LeadOf(IntString(a), rest);
  }

  /** A number followed by a non-digit splits back into the number and the rest. */
  lemma SplitIds(a: int, r: string, b: int, r': string)
    requires r != [] && !Numeric(r[0]) && r' != [] && !Numeric(r'[0])
    requires IntString(a) + r == IntString(b) + r'
    ensures a == b && r == r'
  {
    SplitId(a, r);
    SplitId(b, r');
    IntStringInjective(a, b);
  }

  /** Two page tasks share an ID only when they are the same page of the same artwork. */
  lemma PageTaskIdsDistinct(a: int, i: nat, ext: string, b: int, j: nat, ext': string)
    requires PageTaskId(a, PageFileName(i, ext)) == PageTaskId(b, PageFileName(j, ext'))
    ensures a == b && i == j && ext == ext'
  {
    var name, name' := PageFileName(i, ext), PageFileName(j, ext');
    TaskIdParts(a, name);
    TaskIdParts(b, name');
    SplitIds(a, "_" + name, b, "_" + name');
    PageFileNamesDistinct(i, j, ext, ext');
  }

  lemma TaskIdParts(a: int, name: string)
    ensures PageTaskId(a, name) == IntString(a) + ("_" + name)
    ensures ("_" + name)[0] == '_' && ("_" + name)[1..] == name
  {
  }

  /** An avatar task never has the ID of a page task. */
  lemma AvatarIdNotPageId(a: int, b: int, fileName: string)
    ensures AvatarTaskId(a) != PageTaskId(b, fileName)
  {
    assert AvatarTaskId(a) == IntString(a) + "(pfp)";
    assert PageTaskId(b, fileName) == IntString(b) + ("_" + fileName);
    SplitId(a, "(pfp)");
    SplitId(b, "_" + fileName);
    assert AfterNumber(AvatarTaskId(a))[0] != AfterNumber(PageTaskId(b, fileName))[0];
  }

  // ---------------------------------------------------------------------
  // The downloaded set and the artwork loop
  // ---------------------------------------------------------------------

  /**
   * downloadedMap as read from downloaded.json: the listed IDs, or nothing
   * when the file is missing or does not unmarshal (`record` is None).
   */
  method LoadDownloaded(record: Option<seq<int>>) returns (downloaded: set<int>)
    ensures record.None? ==> downloaded == {}
    ensures record.Some? ==> forall x :: x in downloaded <==> x in record.value
  {
    downloaded := {};
    if record.Some? {
      var loadedIDs := record.value;
      var k := 0;
      while k < |loadedIDs|
        invariant 0 <= k <= |loadedIDs|
        invariant forall x :: x in downloaded <==> x in loadedIDs[..k]
      {
        assert loadedIDs[..k + 1] == loadedIDs[..k] + [loadedIDs[k]];
        downloaded := downloaded + {loadedIDs[k]};
        k := k + 1;
      }
      assert loadedIDs[..k] == loadedIDs;
    }
  }

  /** The response to `/ajax/illust/<id>`: a failed request, an API error, or the fields the loop uses. */
  datatype IllustResponse = RequestFailed | ApiError | Illust(url: string, artistId: int, pageCount: nat)

  /** What happens to one artwork of the list: its response and whether creating its folder fails. */
  datatype Attempt = Attempt(response: IllustResponse, mkdirFails: bool)

  /**
   * The state of the artwork loop: downloadedMap's keys, the artworks marked
   * in this run (in order), the tasks submitted, and whether the program
   * panicked.
   */
  datatype Plan = Plan(downloaded: set<int>, marked: seq<int>, tasks: seq<Task>, panicked: bool)

  function ArtistPath(base: string, artistId: int): string {
    PathJoin(base, IntString(artistId))
  }

  function ArtworkPath(base: string, artistId: int, artworkId: int): string {
    PathJoin(ArtistPath(base, artistId), IntString(artworkId))
  }

  /** The avatar task: only for an artist whose avatar URL is non-empty (a missing entry reads as ""). */
  function AvatarTasks(base: string, pfp: map<int, string>, artistId: int): seq<Task> {
    if artistId in pfp && pfp[artistId] != "" then
      [Task(AvatarTaskId(artistId), pfp[artistId], ArtistPath(base, artistId), "folder.jpg")]
    else []
  }

  /**
   * One turn of the artwork loop: skipped when already downloaded; left
   * unmarked when the request, the API or the folder creation fails; a
   * panic for a URL too short to take an extension from; otherwise the page
   * tasks, the avatar task, and the mark.
   */
  function Step(base: string, pfp: map<int, string>, p: Plan, id: int, a: Attempt): Plan {
    if p.panicked || id in p.downloaded then p
    else
      match a.response
      case Illust(url, artistId, n) =>
        if a.mkdirFails then p
        else if n > 0 && |url| < 3 then p.(panicked := true)
        else
          var pages := seq(n, i requires 0 <= i < n => PageTask(id, url, ArtworkPath(base, artistId, id), i));
          Plan(p.downloaded + {id}, p.marked + [id], p.tasks + pages + AvatarTasks(base, pfp, artistId), false)
      case _ => p
  }

  /** The loop state after the first |list| artworks. */
  function Run(base: string, pfp: map<int, string>, d0: set<int>, list: seq<int>, attempts: seq<Attempt>): Plan
    requires |attempts| == |list|
  {
    if list == [] then Plan(d0, [], [], false)
    else
      var n := |list| - 1;
      Step(base, pfp, Run(base, pfp, d0, list[..n], attempts[..n]), list[n], attempts[n])
  }

  predicate Distinct(s: seq<int>) {
    forall i, j :: 0 <= i < j < |s| ==> s[i] != s[j]
  }

  /**
   * The record is kept: the downloaded set is the loaded one plus the
   * artworks marked in this run, and no artwork is marked twice or marked
   * when it was already downloaded.
   */
  lemma {:induction false} RunKeepsRecord(base: string, pfp: map<int, string>, d0: set<int>, list: seq<int>, attempts: seq<Attempt>)
    requires |attempts| == |list|
    ensures var p := Run(base, pfp, d0, list, attempts);
      Distinct(p.marked) && (forall x :: x in p.marked ==> x !in d0) &&
      p.downloaded == d0 + set x | x in p.marked
  {
    if list != [] {
      var n := |list| - 1;
      RunKeepsRecord(base, pfp, d0, list[..n], attempts[..n]);
    }
  }

  /**
   * An artwork is marked only after a turn in which its request and the API
   * succeeded, its folder was created and its tasks were submitted: one that
   * failed at every turn is never marked.
   */
  lemma {:induction false} MarkedWereFetched(base: string, pfp: map<int, string>, d0: set<int>, list: seq<int>, attempts: seq<Attempt>, x: int)
    requires |attempts| == |list|
    requires x in Run(base, pfp, d0, list, attempts).marked
    ensures exists k :: 0 <= k < |list| && list[k] == x && attempts[k].response.Illust? && !attempts[k].mkdirFails
  {
    var n := |list| - 1;
    var before := Run(base, pfp, d0, list[..n], attempts[..n]);
    if x in before.marked {
      MarkedWereFetched(base, pfp, d0, list[..n], attempts[..n], x);
      var k :| 0 <= k < n && list[..n][k] == x && attempts[..n][k].response.Illust? && !attempts[..n][k].mkdirFails;
      assert list[k] == x && attempts[k] == attempts[..n][k];
    } else {
      assert list[n] == x && attempts[n].response.Illust? && !attempts[n].mkdirFails;
    }
  }

  /** After a panic nothing more happens. */
  lemma {:induction false} PanicStops(base: string, pfp: map<int, string>, d0: set<int>, list: seq<int>, attempts: seq<Attempt>, k: nat)
    requires |attempts| == |list| && k <= |list|
    requires Run(base, pfp, d0, list[..k], attempts[..k]).panicked
    ensures Run(base, pfp, d0, list, attempts) == Run(base, pfp, d0, list[..k], attempts[..k])
  {
    if k < |list| {
      var n := |list| - 1;
      assert list[..n][..k] == list[..k] && attempts[..n][..k] == attempts[..k];
      PanicStops(base, pfp, d0, list[..n], attempts[..n], k);
    } else {
      assert list[..k] == list && attempts[..k] == attempts;
    }
  }

  /** A turn either leaves the record alone or marks the artwork. */
  lemma StepMarks(base: string, pfp: map<int, string>, p: Plan, id: int, a: Attempt)
    ensures var p' := Step(base, pfp, p, id, a);
      (p'.marked == p.marked && p'.downloaded == p.downloaded) ||
      (p'.marked == p.marked + [id] && p'.downloaded == p.downloaded + {id})
  {
  }

  /** The loop body for one artwork: the request outcome, the folder, the page loop, the avatar. */
  method ProcessArtwork(base: string, pfp: map<int, string>, p: Plan, id: int, a: Attempt) returns (p': Plan)
    requires !p.panicked
    ensures p' == Step(base, pfp, p, id, a)
  {
    p' := p;
    if id in p.downloaded {
      return;
    }
    if !a.response.Illust? {
      return;
    }
    var url, artistId := a.response.url, a.response.artistId;
    var artworkPath := PathJoin(PathJoin(base, IntString(artistId)), IntString(id));
    if a.mkdirFails {
      return;
    }
    var pages := PlanPages(id, url, artworkPath, a.response.pageCount);
    if pages.None? {
      p' := p.(panicked := true);
      return;
    }
    assert artworkPath == ArtworkPath(base, artistId, id);
    PagesPlanned(id, url, artworkPath, a.response.pageCount, pages.value);
    var tasks := p.tasks + pages.value;
    var artistPfpUrl := if artistId in pfp then pfp[artistId] else "";
    if artistPfpUrl != "" {
      tasks := tasks + [Task(AvatarTaskId(artistId), artistPfpUrl, PathJoin(base, IntString(artistId)), "folder.jpg")];
    } else {
      assert AvatarTasks(base, pfp, artistId) == [] && tasks + [] == tasks;
    }
    p' := Plan(p.downloaded + {id}, p.marked + [id], tasks, false);
  }

  lemma PagesPlanned(id: int, url: string, artworkPath: string, n: nat, pages: seq<Task>)
    requires n == 0 || |url| >= 3
    requires |pages| == n && forall i :: 0 <= i < n ==> pages[i] == PageTask(id, url, artworkPath, i)
    ensures pages == seq(n, i requires 0 <= i < n => PageTask(id, url, artworkPath, i))
  {
  }

  /**
   * The artwork loop. After each marked artwork the whole downloaded set is
   * written back (`persisted`, the last list written: None while nothing was
   * marked). The loop ends early on a panic.
   */
  method ProcessArtworks(base: string, pfp: map<int, string>, d0: set<int>, list: seq<int>, attempts: seq<Attempt>)
    returns (plan: Plan, persisted: Option<seq<int>>)
    requires |attempts| == |list|
    ensures plan == Run(base, pfp, d0, list, attempts)
    ensures persisted.None? <==> plan.marked == []
    ensures persisted.Some? ==>
      |persisted.value| == |plan.downloaded| && forall x :: x in persisted.value <==> x in plan.downloaded
  {
    plan := Plan(d0, [], [], false);
    persisted := None;
    var k := 0;
    while k < |list|
      invariant 0 <= k <= |list|
      invariant plan == Run(base, pfp, d0, list[..k], attempts[..k])
      invariant persisted.None? <==> plan.marked == []
      invariant persisted.Some? ==>
        |persisted.value| == |plan.downloaded| && forall x :: x in persisted.value <==> x in plan.downloaded
    {
      if plan.panicked {
        PanicStops(base, pfp, d0, list, attempts, k);
        return;
      }
      assert list[..k + 1][..k] == list[..k] && attempts[..k + 1][..k] == attempts[..k];
      assert Run(base, pfp, d0, list[..k + 1], attempts[..k + 1]) == Step(base, pfp, plan, list[k], attempts[k]);
      StepMarks(base, pfp, plan, list[k], attempts[k]);
      var before := |plan.marked|;
      plan := ProcessArtwork(base, pfp, plan, list[k], attempts[k]);
      if |plan.marked| != before {
        var idsToWrite := CollectKeys(plan.downloaded);
        persisted := Some(idsToWrite);
      }
      k := k + 1;
    }
    assert list[..k] == list && attempts[..k] == attempts;
  }

  // ---------------------------------------------------------------------
  // Completion callbacks
  // ---------------------------------------------------------------------

  /**
   * What a completion callback leaves behind: the program exiting, or the
   * files on disk and whether a failure was logged.
   */
  datatype Completion = Fatal | Completed(files: set<string>, logged: bool)

  /** The files after ModifyPictureExtension: a rename moves the file. */
  function AfterRename(files: set<string>, path: string, r: Outcome): set<string> {
    if r.Renamed? then files - {path} + {r.to} else files
  }

  /**
   * The callback of a page task as written. A failed download is fatal; an
   * extension fix that fails is logged and ends the callback; for page 0
   * the file is then copied to "folder.<ext>" from the path it was saved
   * under, and a failed copy (a missing source, or `copyFails`) is logged.
   */
  function PageCompleted(files: set<string>, artworkPath: string, i: nat, fileName: string, ext: string,
                         success: bool, probe: Probe, renameFails: bool, copyFails: bool): (c: Completion)
    ensures c == Fatal <==> !success
    ensures success && i == 0 && copyFails ==> c.Completed? && c.logged
  {
    if !success then Fatal
    else
      var full := PathJoin(artworkPath, fileName);
      var r := ModifyPictureExtension(full, probe, renameFails);
      if !(r.Kept? || r.Renamed?) then Completed(files, true)
      else
        var files' := AfterRename(files, full, r);
        if i != 0 then Completed(files', false)
        else
          var folder := PathJoin(artworkPath, "folder." + ext);
          if full in files' && !copyFails then Completed(files' + {folder}, false) else Completed(files', true)
  }

  /**
   * A first page saved as "p0.jpg" whose contents are PNG is renamed to
   * "p0.png"; the copy then reads the old name, fails, and no folder image
   * is made.
   */
  lemma RenamedFirstPageGetsNoFolderImage()
    ensures PageCompleted({"d/p0.jpg"}, "d", 0, "p0.jpg", "jpg", true, Format("png"), false, false)
         == Completed({"d/p0.png"}, true)
  {
    var path := "d/p0.jpg";
    assert PathJoin("d", "p0.jpg") == path;
    JpgHoldingPngIsRenamed();
    assert AfterRename({path}, path, Renamed("d/p0.png")) == {"d/p0.png"};
    assert path !in {"d/p0.png"};
  }

  /** "d/p0.jpg" whose contents decode as PNG is renamed to "d/p0.png". */
  lemma JpgHoldingPngIsRenamed()
    ensures ModifyPictureExtension("d/p0.jpg", Format("png"), false) == Renamed("d/p0.png")
  {
    JpgIsNotPng();
    FirstPagePaths();
    RenameSwapsExtension("d/p0", ".jpg", "png", false);
  }

  lemma FirstPagePaths()
    ensures "d/p0" + ".jpg" == "d/p0.jpg" && "d/p0" + ".png" == "d/p0.png"
  {
  }

  lemma JpgIsNotPng()
    ensures IsLower(".jpg") && forall k :: 1 <= k < 4 ==> ".jpg"[k] != '.' && ".jpg"[k] != '/'
    ensures ".jpg" != TargetExt("png") && TargetExt("png") == ".png"
  {
    assert ".jpg"[1] != ".png"[1];
  }

  /** The page callback with the copy made from wherever the extension fix left the file. */
  function PageCompletedFixed(files: set<string>, artworkPath: string, i: nat, fileName: string, ext: string,
                              success: bool, probe: Probe, renameFails: bool, copyFails: bool): (c: Completion)
    ensures c == Fatal <==> !success
    ensures success && i == 0 && copyFails ==> c.Completed? && c.logged
  {
    if !success then Fatal
    else
      var full := PathJoin(artworkPath, fileName);
      var r := ModifyPictureExtension(full, probe, renameFails);
      if !(r.Kept? || r.Renamed?) then Completed(files, true)
      else
        var files' := AfterRename(files, full, r);
        if i != 0 then Completed(files', false)
        else
          var source := if r.Renamed? then r.to else full;
          var folder := PathJoin(artworkPath, "folder." + ext);
          if source in files' && !copyFails then Completed(files' + {folder}, false) else Completed(files', true)
  }

  /**
   * Once the first page is downloaded and its extension fixed (renamed or
   * already right) and the copy itself does not fail, the folder image
   * exists and nothing is logged.
   */
  lemma FirstPageGetsFolderImage(files: set<string>, artworkPath: string, fileName: string, ext: string,
                                 probe: Probe, renameFails: bool, copyFails: bool)
    requires !copyFails
    requires PathJoin(artworkPath, fileName) in files
    requires var r := ModifyPictureExtension(PathJoin(artworkPath, fileName), probe, renameFails);
      r.Kept? || r.Renamed?
    ensures var c := PageCompletedFixed(files, artworkPath, 0, fileName, ext, true, probe, renameFails, copyFails);
      c.Completed? && !c.logged && PathJoin(artworkPath, "folder." + ext) in c.files
  {
  }

  /**
   * The callback of an avatar task: a failed download is only logged, never
   * fatal; otherwise the extension of "folder.jpg" is fixed.
   */
  function AvatarCompleted(files: set<string>, artistPath: string, success: bool, probe: Probe, renameFails: bool): (c: Completion)
    ensures c.Completed?
    ensures !success ==> c == Completed(files, true)
  {
    if !success then Completed(files, true)
    else
      var full := PathJoin(artistPath, "folder.jpg");
      var r := ModifyPictureExtension(full, probe, renameFails);
      if r.Kept? || r.Renamed? then Completed(AfterRename(files, full, r), false) else Completed(files, true)
  }
}

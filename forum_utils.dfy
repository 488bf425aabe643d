/**
 * forum/utils.py: the page window under a list, the paginated views' page
 * choice, the users a post mentions, and the author-only guard.
 *
 * Page choice follows Django's Paginator: `num_pages` is the item count
 * divided by the page size, rounded up, and never below 1; a page number
 * below 1 or above `num_pages` raises EmptyPage; a value that is not an
 * integer (including a missing `page` parameter) raises PageNotAnInteger.
 */
module ForumUtils {
  import opened Wrappers
  import opened Mentions
  import opened AuthModels
  import opened ForumModels

  const NUM_PER_PAGE := 20
  /** The window radius every view passes to `get_pagination`. */
  const WINDOW_RADIUS := 2

  function Min(a: int, b: int): int
  {
    if a <= b then a else b
  }

  /** `range(lo, hi)`. */
  function Range(lo: int, hi: int): (r: seq<int>)
    ensures |r| == if lo < hi then hi - lo else 0
    ensures forall k :: 0 <= k < |r| ==> r[k] == lo + k
    decreases hi - lo
  {
    if hi <= lo then [] else [lo] + Range(lo + 1, hi)
  }

  /**
   * `get_pagination`: the page numbers shown around `current`, `count` on
   * each side when there is room, shifted to stay inside `1..numPages`.
   */
  function GetPagination(current: int, numPages: int, count: int): (pages: seq<int>)
    ensures forall k :: 0 <= k < |pages| ==> 1 <= pages[k] <= numPages
    ensures forall k :: 0 < k < |pages| ==> pages[k] == pages[k - 1] + 1
    ensures count >= 0 && numPages >= 0 ==> |pages| == Min(2 * count + 1, numPages)
    ensures count >= 0 && 1 <= current <= numPages ==> current in pages
  {
    var show := 2 * count + 1;
    if show >= numPages then
      RangeWindow(1, numPages + 1, current, numPages, count);
      Range(1, numPages + 1)
    else if current - count < 1 then
      RangeWindow(1, show + 1, current, numPages, count);
      Range(1, show + 1)
    else if current + count > numPages then
      RangeWindow(numPages + 1 - show, numPages + 1, current, numPages, count);
      Range(numPages + 1 - show, numPages + 1)
    else
      RangeWindow(current - count, current + count + 1, current, numPages, count);
      Range(current - count, current + count + 1)
  }

  /** A range inside `1..numPages` of the right length around `current` is a valid window. */
  lemma RangeWindow(lo: int, hi: int, current: int, numPages: int, count: int)
    requires 1 <= lo && hi <= numPages + 1
    requires count >= 0 && numPages >= 0 ==> (if lo < hi then hi - lo else 0) == Min(2 * count + 1, numPages)
    requires count >= 0 && 1 <= current <= numPages ==> lo <= current < hi
    ensures var pages := Range(lo, hi);
      && (forall k :: 0 <= k < |pages| ==> 1 <= pages[k] <= numPages)
      && (forall k :: 0 < k < |pages| ==> pages[k] == pages[k - 1] + 1)
      && (count >= 0 && numPages >= 0 ==> |pages| == Min(2 * count + 1, numPages))
      && (count >= 0 && 1 <= current <= numPages ==> current in pages)
  {
    if count >= 0 && 1 <= current <= numPages {
      RangeHas(lo, hi, current);
    }
  }

  lemma RangeHas(lo: int, hi: int, x: int)
    requires lo <= x < hi
    ensures x in Range(lo, hi)
  {
    assert Range(lo, hi)[x - lo] == x;
  }

  /** The branches, in the order they are tested: all pages, left-clamped, right-clamped, centred. */
  lemma PaginationBranches(current: int, numPages: int, count: int)
    ensures 2 * count + 1 >= numPages ==> GetPagination(current, numPages, count) == Range(1, numPages + 1)
    ensures 2 * count + 1 < numPages && current - count < 1 ==>
      GetPagination(current, numPages, count) == Range(1, 2 * count + 2)
    ensures 2 * count + 1 < numPages && current - count >= 1 && current + count > numPages ==>
      GetPagination(current, numPages, count) == Range(numPages - 2 * count, numPages + 1)
    ensures 2 * count + 1 < numPages && current - count >= 1 && current + count <= numPages ==>
      GetPagination(current, numPages, count) == Range(current - count, current + count + 1)
  {
  }

  /** Away from both ends, the window is exactly `current-count .. current+count`. */
  lemma CentredWindow(current: int, numPages: int, count: int)
    requires count >= 0 && 2 * count + 1 < numPages
    requires 1 <= current - count && current + count <= numPages
    ensures var pages := GetPagination(current, numPages, count);
      |pages| == 2 * count + 1 && forall k :: 0 <= k < |pages| ==> pages[k] == current - count + k
  {
  }

  lemma PaginationExamples()
    ensures GetPagination(5, 5, 2) == [1, 2, 3, 4, 5]
    ensures GetPagination(1, 100, 2) == [1, 2, 3, 4, 5]
    ensures GetPagination(100, 100, 2) == [96, 97, 98, 99, 100]
    ensures GetPagination(50, 100, 2) == [48, 49, 50, 51, 52]
  {
    assert Range(1, 6) == [1, 2, 3, 4, 5];
    assert Range(96, 101) == [96, 97, 98, 99, 100];
    assert Range(48, 53) == [48, 49, 50, 51, 52];
  }

  /** `Paginator.num_pages` with `allow_empty_first_page`. */
  function NumPages(count: nat, perPage: nat): (n: nat)
    requires perPage >= 1
    ensures n >= 1
    ensures (n - 1) * perPage < (if count == 0 then 1 else count) <= n * perPage
  {
    var hits := if count == 0 then 1 else count;
    (hits + perPage - 1) / perPage
  }

  /** The `page` query parameter, once Django has tried to read it as an integer. */
  datatype PageRequest = NotAnInteger | Number(n: int)

  /** Where a view sends a request whose page is not an integer. */
  datatype NonIntegerPolicy = FirstPage | LastPage

  /**
   * The page a view shows: the requested one when it exists; the last one
   * on EmptyPage; on PageNotAnInteger, the one the view's policy names.
   */
  function ChoosePage(req: PageRequest, numPages: nat, policy: NonIntegerPolicy): (n: nat)
    requires numPages >= 1
    ensures 1 <= n <= numPages
    ensures req.Number? && 1 <= req.n <= numPages ==> n == req.n
    ensures req.Number? && !(1 <= req.n <= numPages) ==> n == numPages
    ensures req.NotAnInteger? ==> n == if policy == FirstPage then 1 else numPages
  {
    match req
    case NotAnInteger => if policy == FirstPage then 1 else numPages
    case Number(k) => if 1 <= k <= numPages then k else numPages
  }

  /** `Paginator.page(n).object_list`: the n-th run of `perPage` items. */
  function PageItems<T>(items: seq<T>, n: nat, perPage: nat): (page: seq<T>)
    requires perPage >= 1 && 1 <= n <= NumPages(|items|, perPage)
    ensures |page| <= perPage && (n - 1) * perPage + |page| <= |items|
    ensures n < NumPages(|items|, perPage) ==> |page| == perPage
    ensures n == NumPages(|items|, perPage) ==> (n - 1) * perPage + |page| == |items|
    ensures forall k :: 0 <= k < |page| ==> page[k] == items[(n - 1) * perPage + k]
  {
    PageBounds(|items|, perPage, n);
    items[(n - 1) * perPage..Min(n * perPage, |items|)]
  }

  /** Every existing page starts inside the list, and every page but the last is full. */
  lemma PageBounds(count: nat, perPage: nat, n: nat)
    requires perPage >= 1 && 1 <= n <= NumPages(count, perPage)
    ensures (n - 1) * perPage <= count
    ensures count > 0 ==> (n - 1) * perPage < count
    ensures n < NumPages(count, perPage) ==> n * perPage <= count
  {
    var m := NumPages(count, perPage);
    MulMono(n - 1, m - 1, perPage);
    if n < m {
      MulMono(n, m - 1, perPage);
    }
  }

  lemma MulMono(a: int, b: int, c: nat)
    requires a <= b
    ensures a * c <= b * c
  {
  }

  /** What a paginated view puts in its context: the page, its number and the page window. */
  datatype Page<T> = Page(items: seq<T>, number: nat, numPages: nat, pageList: seq<int>)

  /**
   * A paginated list: at least one page, enough pages for the items and no
   * more; the page shown is the requested one when it exists, the last one
   * for a number out of range, and the policy's one for a non-integer; it
   * holds the consecutive run of items that starts at its first index, full
   * unless it is the last page; and its number is in the window of links.
   */
  function Paginate<T>(items: seq<T>, req: PageRequest, perPage: nat, policy: NonIntegerPolicy): (p: Page<T>)
    requires perPage >= 1
    ensures p.numPages >= 1 && (p.numPages - 1) * perPage < (if |items| == 0 then 1 else |items|) <= p.numPages * perPage
    ensures 1 <= p.number <= p.numPages
    ensures req.Number? && 1 <= req.n <= p.numPages ==> p.number == req.n
    ensures req.Number? && !(1 <= req.n <= p.numPages) ==> p.number == p.numPages
    ensures req.NotAnInteger? ==> p.number == if policy == FirstPage then 1 else p.numPages
    ensures 0 <= (p.number - 1) * perPage && |p.items| <= perPage && (p.number - 1) * perPage + |p.items| <= |items|
    ensures p.number < p.numPages ==> |p.items| == perPage
    ensures p.number == p.numPages ==> (p.number - 1) * perPage + |p.items| == |items|
    ensures forall k :: 0 <= k < |p.items| ==> p.items[k] == items[(p.number - 1) * perPage + k]
    ensures p.number in p.pageList && |p.pageList| == Min(2 * WINDOW_RADIUS + 1, p.numPages)
    ensures p.numPages == NumPages(|items|, perPage) && p.items == PageItems(items, p.number, perPage)
    ensures p.pageList == GetPagination(p.number, p.numPages, WINDOW_RADIUS)
  {
    var numPages := NumPages(|items|, perPage);
    var n := ChoosePage(req, numPages, policy);
    var p := Page(PageItems(items, n, perPage), n, numPages, GetPagination(n, numPages, WINDOW_RADIUS));
    PageFacts(items, req, perPage, policy, p);
    p
  }

  /** What a page assembled from its parts satisfies. */
  lemma PageFacts<T>(items: seq<T>, req: PageRequest, perPage: nat, policy: NonIntegerPolicy, p: Page<T>)
    requires perPage >= 1
    requires p.numPages == NumPages(|items|, perPage) && p.number == ChoosePage(req, p.numPages, policy)
    requires p.items == PageItems(items, p.number, perPage)
    requires p.pageList == GetPagination(p.number, p.numPages, WINDOW_RADIUS)
    ensures p.numPages >= 1 && (p.numPages - 1) * perPage < (if |items| == 0 then 1 else |items|) <= p.numPages * perPage
    ensures 1 <= p.number <= p.numPages
    ensures req.Number? && 1 <= req.n <= p.numPages ==> p.number == req.n
    ensures req.Number? && !(1 <= req.n <= p.numPages) ==> p.number == p.numPages
    ensures req.NotAnInteger? ==> p.number == if policy == FirstPage then 1 else p.numPages
    ensures 0 <= (p.number - 1) * perPage && |p.items| <= perPage && (p.number - 1) * perPage + |p.items| <= |items|
    ensures p.number < p.numPages ==> |p.items| == perPage
    ensures p.number == p.numPages ==> (p.number - 1) * perPage + |p.items| == |items|
    ensures forall k :: 0 <= k < |p.items| ==> p.items[k] == items[(p.number - 1) * perPage + k]
    ensures p.number in p.pageList && |p.pageList| == Min(2 * WINDOW_RADIUS + 1, p.numPages)
  {
    MulMono(0, p.number - 1, perPage);
  }

  /** Every item is on exactly the page its index puts it on. */
  lemma ItemOnItsPage<T>(items: seq<T>, perPage: nat, i: nat)
    requires perPage >= 1 && i < |items|
    ensures 1 <= i / perPage + 1 <= NumPages(|items|, perPage)
    ensures var page := PageItems(items, i / perPage + 1, perPage);
      i % perPage < |page| && page[i % perPage] == items[i]
  {
    var n := i / perPage + 1;
    var m := NumPages(|items|, perPage);
    assert i == (n - 1) * perPage + i % perPage;
    if n > m {
      MulMono(m, n - 1, perPage);
    }
    assert (n - 1) * perPage + i % perPage < Min(n * perPage, |items|);
  }

  /** The last page ends with the last item. */
  lemma LastPageEndsWithLast<T>(items: seq<T>, perPage: nat)
    requires |items| >= 1 && perPage >= 1
    ensures var page := PageItems(items, NumPages(|items|, perPage), perPage);
      |page| >= 1 && page[|page| - 1] == items[|items| - 1]
  {
    var n := NumPages(|items|, perPage);
    var page := PageItems(items, n, perPage);
    var start := (n - 1) * perPage;
    assert start + |page| == |items| && start < |items|;
    assert page[|page| - 1] == items[start + |page| - 1];
  }

  /**
   * `topic_pagination`: 20 topics a page; a non-integer page is the first
   * one, a page number below 1 or past the end (EmptyPage) the last; radius 2.
   */
  function TopicPagination<T>(req: PageRequest, topics: seq<T>): (p: Page<T>)
    ensures p.numPages == NumPages(|topics|, NUM_PER_PAGE) && |p.items| <= NUM_PER_PAGE
    ensures 1 <= p.number <= p.numPages
    ensures p.items == PageItems(topics, p.number, NUM_PER_PAGE)
    ensures forall k :: 0 <= k < |p.items| ==> p.items[k] == topics[(p.number - 1) * NUM_PER_PAGE + k]
    ensures req.NotAnInteger? ==> p.number == 1
    ensures req.Number? && req.n > p.numPages ==> p.number == p.numPages
    ensures req.Number? && req.n < 1 ==> p.number == p.numPages
    ensures req.Number? && 1 <= req.n <= p.numPages ==> p.number == req.n
    ensures p.pageList == GetPagination(p.number, p.numPages, WINDOW_RADIUS)
  {
    Paginate(topics, req, NUM_PER_PAGE, FirstPage)
  }

  /** Requesting page 9999 of ten pages shows page ten; a page of "abc" shows page one. */
  lemma TopicPaginationExamples<T>(topics: seq<T>)
    requires |topics| == 200
    ensures TopicPagination(Number(9999), topics).number == 10
    ensures TopicPagination(Number(9999), topics).items == topics[180..]
    ensures TopicPagination(NotAnInteger, topics).items == topics[..20]
  {
    assert NumPages(200, 20) == 10;
  }

  /** The names a post mentions: `set(re.findall(MENTION_REGEX, markdown))`. */
  ghost function NameSet(markdown: string): set<string>
  {
    set k | 0 <= k < |FindAll(markdown)| :: FindAll(markdown)[k]
  }

  /**
   * `get_metioned_user`: the mentioned names minus the sender's own; None
   * when nothing is left, otherwise the existing users among them.
   */
  function MentionedUsers(sender: string, markdown: string, users: set<string>): (r: Option<set<string>>)
    ensures r.Some? <==> exists n :: n in FindAll(markdown) && n != sender
    ensures r.Some? ==> forall u :: u in r.value <==> u in users && u != sender && u in FindAll(markdown)
  {
    var mentioned := Others(FindAll(markdown), sender);
    NothingLeft(FindAll(markdown), sender);
    if mentioned == {} then None
    else
      var r := Some(set u | u in users && u in mentioned);
      assert !(forall n :: n in FindAll(markdown) ==> n == sender);
      assert exists n :: n in FindAll(markdown) && n != sender;
      r
  }

  /** `set(names) - set([sender])`. */
  function Others(names: seq<string>, sender: string): (r: set<string>)
    ensures forall n :: n in r <==> n in names && n != sender
  {
    (set n | n in names) - {sender}
  }

  /** The difference is empty exactly when every element is the one taken away. */
  lemma NothingLeft(names: seq<string>, sender: string)
    ensures Others(names, sender) == {} <==> forall n :: n in names ==> n == sender
  {
    if Others(names, sender) != {} {
      var n :| n in Others(names, sender);
    }
  }

  /** A user is notified exactly when some `@` in the post is followed by their whole name, and they did not write it. */
  lemma MentionedExactly(sender: string, markdown: string, users: set<string>, u: string)
    requires MentionedUsers(sender, markdown, users).Some?
    ensures u in MentionedUsers(sender, markdown, users).value <==>
      u in users && u != sender && exists i :: MentionAt(markdown, i) && NameAt(markdown, i) == u
  {
    FindAllExactly(markdown, u);
  }

  /** A post whose only mentions are of the sender notifies nobody. */
  lemma SelfMentionNotifiesNobody(sender: string, users: set<string>)
    requires IsName(sender)
    ensures MentionedUsers(sender, "@" + sender, users).None?
  {
    var s := "@" + sender;
    assert MentionAt(s, 0);
    assert WordEnd(s, 1) == |s| by {
      WordEndRun(s, 1);
    }
    assert NameAt(s, 0) == sender;
    forall n | n in FindAll(s) ensures n == sender {
      var i := FindAllSound(s, n);
      assert i == 0;
    }
  }

  /** A run of word characters that reaches the end is consumed to the end. */
  lemma {:induction false} WordEndRun(s: string, j: nat)
    requires j <= |s|
    requires forall m :: j <= m < |s| ==> IsWordChar(s[m])
    ensures WordEnd(s, j) == |s|
    decreases |s| - j
  {
    if j < |s| {
      WordEndRun(s, j + 1);
    }
  }

  /** What `author_required` lets through. */
  datatype Access = NotFound | Forbidden | Allowed

  /** `author_required`: 404 without the topic, 403 unless the requester wrote it. */
  function AuthorRequired(topic: Topic?, user: Profile): (a: Access)
    ensures a == NotFound <==> topic == null
    ensures a == Allowed <==> topic != null && topic.author == user
  {
    if topic == null then NotFound
    else if topic.author == user then Allowed
    else Forbidden
  }
}

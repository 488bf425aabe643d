# niuforum core, modelled in Dafny

niuforum is a Django forum. Its core is in these parts:

- Sections hold nodes, nodes hold topics, and topics hold replies.
- Users have a profile with a reputation, a reputation ledger (`ReputationStat`) and notifications.
- Posting needs enough reputation.
- A topic's author earns reputation once, in each of two cases:
  - the topic reaches ten replies;
  - the topic reaches ten likers.
- A user earns reputation once, on first filling in an avatar and a display name.
- Lists are paginated with a window of page links.
- Markdown rendering turns `@name` into a profile link for existing users.
- Those users are also notified.
- A template filter shows times as "5 minutes ago" or "2 hours from now".
- A small script reads the CSRF cookie and inserts `@user` into the reply editor.

The modules follow the source files:

| module | file |
|---|---|
| `Strings` | string helpers: `split`, `strip`, `jQuery.trim` |
| `Mentions` | the `@(\w+)` pattern and `re.findall` |
| `Settings` | the settings the core reads |
| `ForumUtils` | `forum/utils.py` |
| `Markdown` | `forum/mismd.py` |
| `AuthModels` | `niuauth/models.py` |
| `AuthUtils` | `niuauth/utils.py` |
| `AuthViews` | `niuauth/views.py` |
| `ForumModels` | `forum/models.py` |
| `ForumViews` | `forum/views.py` |
| `TimeAgo` | `forum/templatetags/timeago.py` |
| `NiuTool` | `static/js/niutool.js` |

### Stored rows

- Each class instance stands for a stored database row.
- Each view method stands for one request. Its postcondition is what is stored after the request.
- A commit inside `transaction.atomic` that raises stores nothing.
- A view without `transaction.atomic` keeps the writes it made before the raise.
- A field that is assigned but never saved keeps its stored value.
- A missing row (`DoesNotExist`, a 404) is a `null` argument.

### Parameters and error paths

These are parameters of the model:

- the settings: reward amounts, thresholds and setting keys;
- the highlighter, `mistune.escape` and the base text transform;
- `reverse`, `render_markdown` and the 60-character abstract;
- the clock, `get_random_string`, `decodeURIComponent` and `timeuntil`;
- the set of existing usernames.

These library exceptions are explicit outcomes:

- a `KeyError` on an unknown reward type or capability;
- the highlighter failing;
- `decodeURIComponent` raising `URIError`;
- a sign-up from an unknown provider.

## Model

| member | source | states |
|---|---|---|
| ForumUtils.Range | forum/utils.py:49-55 | Python's `range(lo, hi)`: consecutive integers from `lo`, of length `hi - lo`, or empty |
| ForumUtils.GetPagination | forum/utils.py:44-57 | every page lies in `1..num_pages`; the pages are consecutive; the length is `min(2*count+1, num_pages)`; a `current` within range is among them |
| ForumUtils.PaginationBranches | forum/utils.py:47-55 | the four branches in source order: show all; left-clamped `1..2c+1`; right-clamped to end at `num_pages`; centred |
| ForumUtils.CentredWindow | forum/utils.py:54-55 | in the centred branch the window is exactly `current-count..current+count` |
| ForumUtils.PaginationExamples | forum/utils.py:44-57 | windows of radius 2 for 5 or 100 pages, at the first, middle and last page |
| ForumUtils.NumPages | forum/utils.py:60 | Django's page count: at least 1; the smallest `n` with `max(count,1) <= n*per_page` |
| ForumUtils.ChoosePage | forum/utils.py:61-66 | an in-range number is kept; an out-of-range number gives the last page; a non-integer gives the first or the last page by policy |
| ForumUtils.PageItems | forum/utils.py:62 | page `n` is the `n`-th run of `per_page` items; it is full except the last page, which ends at the last item |
| ForumUtils.PageBounds | forum/utils.py:62 | a page's first index is within the list, and every page before the last is full |
| ForumUtils.Paginate | forum/utils.py:60-68 | at least one page and just enough for the items; the page shown is between 1 and the page count; it is the requested page when that exists, the last page for a number out of range, and the policy's page for a non-integer; it holds at most `perPage` items, namely the consecutive run from index `(number - 1) * perPage`, full unless it is the last page, and the last page ends at the end of the list; its number is in the window of links, which has `min(5, numPages)` entries |
| ForumUtils.ItemOnItsPage | forum/utils.py:62 | item `i` is shown on page `i / per_page + 1`, at offset `i % per_page` |
| ForumUtils.LastPageEndsWithLast | forum/utils.py:62-66 | the last page is non-empty and ends with the last item |
| ForumUtils.TopicPagination | forum/utils.py:59-70 | twenty a page; the page holds the consecutive run of topics from index `(number - 1) * 20`; a non-integer page gives page 1; a page below 1 or past the end (EmptyPage) gives the last page; an in-range page is kept; radius 2 (NUM_PER_PAGE, forum/utils.py:15) |
| ForumUtils.TopicPaginationExamples | forum/utils.py:59-70 | with 200 topics: page 9999 is page 10 with the last twenty; a non-integer page shows the first twenty |
| ForumUtils.MentionedUsers | forum/utils.py:84-90 | None iff no name other than the sender's is mentioned; otherwise exactly the existing users, other than the sender, that `findall` returns |
| ForumUtils.Others | forum/utils.py:85 | the set difference `set(names) - {sender}` |
| ForumUtils.NothingLeft | forum/utils.py:85-87 | the difference is empty iff every name is the sender's |
| ForumUtils.MentionedExactly | forum/utils.py:85-88 | a user is notified iff they exist, are not the sender, and follow an `@` in the text |
| ForumUtils.SelfMentionNotifiesNobody | forum/utils.py:85-90 | a post whose only mention is its author gives None |
| ForumUtils.WordEndRun | forum/utils.py:11 | a word run reaching the end of the text ends at the end |
| ForumUtils.AuthorRequired | forum/utils.py:72-82 | NotFound iff there is no topic; Allowed iff the topic exists and the user is its author; otherwise Forbidden |
| Mentions.WordEnd | forum/utils.py:11 | the greedy `\w+` stops at the first non-word character or at the end |
| Mentions.FirstMentionFrom | forum/mismd.py:56 | `search` from a position: the leftmost match start, with no match before it; None iff there is no match |
| Mentions.FirstMention | forum/mismd.py:56 | `search` on the whole text: the leftmost match, with no match before it; None iff there is no match |
| Mentions.NameAt | forum/mismd.py:62 | the captured group is a non-empty run of word characters |
| Mentions.Tokens | forum/mismd.py:53-65 | the text split at successive matches; joining the tokens back gives the text |
| Mentions.TokensShape | forum/mismd.py:56-63 | the tokens alternate text and name, starting and ending with text; no text token holds a match; every name is a word run |
| Mentions.PrefixHasNoMention | forum/mismd.py:61 | the text before the first match holds no match of its own |
| Mentions.TokenNames | forum/mismd.py:53-65 | on the same string, the renderer's scan yields exactly the names `re.findall` returns, in the same order |
| Mentions.FindAllSound | forum/utils.py:85 | every name `findall` returns is the word run after some `@` of the text |
| Mentions.FindAllComplete | forum/utils.py:85 | every `@` followed by a word character yields its name, whatever precedes it |
| Mentions.CompleteInRest | forum/utils.py:85 | a match after the first one is found by the search resumed after the first one |
| Mentions.FindAllExactly | forum/utils.py:85 | a name is found iff some `@` in the text is followed by exactly that word run |
| Mentions.ChineseNameIsMentioned | forum/utils.py:85 | `\w` is the Unicode word class: `@张三 你好` mentions `张三` |
| Markdown.BlockCode | forum/mismd.py:9-26 | no language gives the stripped text, escaped, in `<pre><code>`; highlighter output is wrapped in `highlight-wrapper` iff `linenos`; a failing highlighter gives the escaped, unstripped text under `class="lang"` |
| Markdown.PlainBlockIgnoresOuterSpace | forum/mismd.py:10-12 | a block without a language renders the same as its stripped text |
| Markdown.OptionGet | forum/mismd.py:31-32 | `dict.get`: a value iff the key is present, and then the stored value |
| Markdown.RendererBlockCode | forum/mismd.py:28-33 | the mixin passes the renderer's `inlinestyles` and `linenos` options, or None when absent, to `block_code`: with no language the stripped text is escaped in a plain block; when the highlighter fails the escaped text goes in a block with the language class; a successful highlight is returned as is unless `linenos` is present and true, when it is wrapped |
| Markdown.ForumRendererNeverWraps | forum/mismd.py:20-22 | the forum's renderer (`linenos=False`) returns highlighter output unwrapped, or the fallback (the renderer is built at forum/mismd.py:67) |
| Markdown.UserLink | forum/mismd.py:36-46 | a known user gets `<a class='user niu-link' href='URL'>@name</a>`; an unknown user gets the literal `@name` |
| Markdown.NoMentionIsBaseText | forum/mismd.py:56-59 | text with no match renders as the base transform of all of it |
| Markdown.FirstMatchSplits | forum/mismd.py:61-63 | output is base(prefix) + user_link(name) + the rendering of the rest after the match, which is at least two characters long |
| Markdown.TokensStep | forum/mismd.py:61-63 | the first match splits the token list into prefix, name and the tokens of the rest |
| Markdown.RenderStep | forum/mismd.py:61-63 | rendering a token list renders its head tokens and then the rest, in order |
| Markdown.NiuText | forum/mismd.py:53-65 | the loop's output is the token-wise rendering of the text; it terminates because the rest shrinks |
| Markdown.UnknownMentionsStayLiteral | forum/mismd.py:46-62 | with no known users and the identity base, each token renders as its own source text |
| Markdown.IdentityRenderIsText | forum/mismd.py:46-65 | with no known users and the identity base, the text comes back unchanged |
| AuthUtils.UserReward | niuauth/utils.py:4-10 | a known type adds its amount; one ledger entry is appended holding type, amount, the new total, topic and node; an unknown type changes nothing |
| AuthUtils.LedgerSums | niuauth/utils.py:6-10 | along a consistent ledger, the amounts add up to the change in reputation |
| AuthUtils.LedgerExtends | niuauth/utils.py:6-10 | appending an entry whose total is the reputation plus its amount keeps the ledger consistent |
| AuthUtils.RewardKeepsLedger | niuauth/utils.py:4-10 | `user_reward` keeps the ledger consistent with the reputation |
| AuthUtils.RewardTwice | niuauth/utils.py:4-10 | two calls add the amount twice and append two ledger entries, with balances `old + amount` and `old + 2 * amount` and no topic or node: no idempotence guard |
| AuthUtils.PaidAtMostOnce | forum/views.py:319-322 | a flag-guarded reward pays at most once; it pays exactly once iff the flag was unset and some check found the condition (the same guard is at forum/views.py:393-396 and niuauth/views.py:118-121) |
| AuthUtils.NeverAgain | forum/views.py:319 | once the flag is set, no later check pays (also niuauth/views.py:118) |
| AuthUtils.CountReached | forum/views.py:318-319 | the conditions successive commits see: the count after commit `k` reaches the threshold |
| AuthUtils.ReplyRewardOnce | forum/views.py:318-322 | over any run of reply commits the author is paid exactly once if unrewarded and the count reaches ten, never otherwise |
| AuthUtils.UnsavedPaysEveryTime | forum/views.py:393-396 | with the flag never stored, the reward pays once per check that finds the condition |
| AuthUtils.UnsavedFlagPaysTwice | forum/views.py:393-396 | two due checks pay twice without the stored flag, and once with it |
| AuthModels.Avatar.constructor | niuauth/models.py:8-13 | a new avatar holds its stored file name and is not deleted |
| AuthModels.NewNotification | niuauth/models.py:60-65 | a new notification is neither read nor deleted |
| AuthModels.PrependKeepsNewestFirst | niuauth/models.py:67-68 | adding the newest notification at the front keeps the list date-descending |
| AuthModels.Profile.constructor | niuauth/models.py:15-31 | a new profile has reputation 0, no avatar, and `profile_init_reward` and `has_notification` false |
| AuthModels.Profile.HasAvatar | niuauth/models.py:39-43 | true iff an avatar is set |
| AuthModels.Profile.CanCreateTopic | niuauth/models.py:45-46 | true iff the reputation reaches the USER_CREATE_TOPIC threshold; no result when it is not configured |
| AuthModels.Profile.CanCreateTool | niuauth/models.py:48-49 | true iff the reputation reaches the USER_CREATE_TOOL threshold; no result when it is not configured |
| AuthModels.AllowsMonotone | niuauth/models.py:45-49 | more reputation never loses a capability |
| AuthModels.User.constructor | niuauth/models.py:16 | a new user has no profile yet |
| AuthModels.FirstMissing | niuauth/models.py:75-80 | the first key, in evaluation order, that the provider data lacks: where `extra_data[...]` raises; none iff all are present |
| AuthModels.SetInitialUserProfile | niuauth/models.py:70-91 | GitHub copies name, location, company, html_url, blog and bio; Google copies the name and leaves the other five None; no social account gives a profile with all six None; every new profile has no avatar, no notifications, an empty ledger, zero reputation, an empty email and no gitlab; a missing key or an unknown provider stores nothing |
| AuthModels.CheckProfile | niuauth/models.py:93-99 | a login creates a profile only for a user without one, with every field at its default (no oauth, names, avatar, notifications or ledger; zero reputation) |
| AuthModels.CheckProfileTwice | niuauth/models.py:93-99 | a second login leaves the profile the first one left |
| AuthViews.Extension | niuauth/views.py:140 | `name.split('.')[-1]`: the dot-free tail after the last dot, or the whole name when there is no dot |
| AuthViews.StoredNameKeepsExtension | niuauth/views.py:140-141 | renaming to `new_name.ext` keeps the extension |
| AuthViews.SaveAvatar | niuauth/views.py:138-151 | a fresh avatar named `new_name.ext`; the previous avatar, if any, is marked deleted; the profile points at the new one |
| AuthViews.ApplyForm | niuauth/views.py:123-130 | the eight profile fields hold the submitted values |
| AuthViews.PostSettingsProfile | niuauth/views.py:99-136 | an invalid form changes nothing, not even the old avatar's deleted flag; a valid one stores the eight fields and any new avatar, and without an upload leaves the old avatar's deleted flag alone; it pays the init reward iff unpaid with both avatar and display name, then sets the flag; an unconfigured reward stores the new avatar row and the old one's deletion, but no profile field, flag, reputation or ledger entry |
| AuthViews.PostTwice | niuauth/views.py:118-121 | over two posts the init reward is paid at most once |
| AuthViews.ListPage | niuauth/views.py:27-36 | ten a page; a non-integer page gives the first page; an out-of-range page gives the last page; radius 2 (the same policy at niuauth/views.py:57-66 and 164-173) |
| AuthViews.ViewNotifications | niuauth/views.py:159-182 | shows the list page and clears `has_notification` |
| AuthViews.ClearNotifications | niuauth/views.py:188-191 | deletes all of the user's notifications |
| ForumModels.NewSection | forum/models.py:4-7 | a new section has order 1 |
| ForumModels.Node.constructor | forum/models.py:16-28 | a new node has no watchers |
| ForumModels.Node.Str | forum/models.py:33-34 | the section's name, a slash, then the node's name (the section part is `Section.__str__`, forum/models.py:13-14) |
| ForumModels.Node.AdminImage | forum/models.py:36-40 | an `<img>` tag for `icon_s` when set, None otherwise |
| ForumModels.Topic.constructor | forum/models.py:44-62 | a new topic:<br>viewed, reply count and likers empty or 0;<br>rank 10;<br>reply and like rewards, admin star and deleted all false;<br>editable |
| ForumModels.TopicOrderIsTotal | forum/models.py:65 | `-rank, -date_created` is a total order |
| ForumModels.RankDominates | forum/models.py:65 | a higher rank lists first, whatever the dates |
| ForumModels.AppendKeepsOldestFirst | forum/models.py:75 | appending a reply no older than the rest keeps replies date-ascending |
| ForumModels.NodeOrderFollowsSections | forum/models.py:11-31 | node order is total and follows the sections' `-order` first |
| ForumViews.JsonReturn.constructor | forum/views.py:30-33 | a new result has code 0, an empty message and an empty `ret` |
| ForumViews.JsonReturn.Success | forum/views.py:35-40 | code 0 with the message |
| ForumViews.JsonReturn.Redirect | forum/views.py:42-48 | code 1 with the URL as message |
| ForumViews.JsonReturn.Error | forum/views.py:50-56 | the given code and message |
| ForumViews.JsonReturn.SetValue | forum/views.py:58-59 | the key now holds the value; every other key is unchanged |
| ForumViews.JsonReturn.GetData | forum/views.py:61-67 | exactly the keys `code`, `msg` and `ret`, holding the fields |
| ForumViews.Toggle | forum/views.py:386-391 | the user is in the result iff not removing; other members are unchanged (the watch toggle at forum/views.py:355-360 is the same) |
| ForumViews.ToggleBack | forum/views.py:386-391 | adding then removing leaves the set without the user; adding is idempotent (likewise the watchers at forum/views.py:355-360) |
| ForumViews.WatchNode | forum/views.py:345-370 | `'true'` removes the watcher and anything else adds it; `watching` is the inverse of the flag and the user's new membership; a missing node gives the "dose not exist" error |
| ForumViews.ToggleLike | forum/views.py:386-396 | toggles the like; the reward is due only on an add with at least ten likers and the flag unset; it pays the author if configured |
| ForumViews.LikeResponse | forum/views.py:398-405 | success with `topicid` and `ilike`, or the "unknown error" error |
| ForumViews.LikeTopic | forum/views.py:376-408 | the like toggle; the response is code success, message "ok" and the topic id with the new like state, or the catch-all error with no data; with the flag stored, the like reward is paid once, with its ledger entry naming the topic, and the flag is set; otherwise reputation and ledger are unchanged |
| ForumViews.LikeTopicAsWritten | forum/views.py:376-408 | as written: the same toggle, response, payment and ledger entry, but the stored flag stays unchanged |
| ForumViews.TwoLikesAsWritten | forum/views.py:393-396 | as written, two new likers past ten pay the author twice |
| ForumViews.TwoLikes | forum/views.py:393-396 | with the flag stored, two new likers past ten pay the author once |
| ForumViews.Notify | forum/views.py:324-334 | each mentioned user gets a fresh notification at the front and `has_notification` set |
| ForumViews.CommitReply | forum/views.py:316-339 | reply count plus one; the reward is paid on the first commit reaching ten while unrewarded, then flagged; mentioned users are notified; the reply and `last_replied` are stored; an unconfigured reward stores nothing |
| ForumViews.CommitTwoReplies | forum/views.py:318-322 | the commits through the tenth and past it pay once |
| ForumViews.MentionedProfiles | forum/utils.py:84-90 | exactly the profiles of the existing users, other than the author, whom the markdown mentions (used at forum/views.py:187 and 311) |
| ForumViews.TopicRank | forum/views.py:181-184 | 0 in a trash node, 10 otherwise (the same rule on update, forum/views.py:250-253) |
| ForumViews.TrashListedLast | forum/views.py:181-184 | a topic in a trash node lists after every other topic (under the ordering at forum/models.py:65) |
| ForumViews.CreateTopic | forum/views.py:167-209 | without the capability nothing is created; a valid form creates a topic ranked by its node with the defaults (no views, replies, likers or last reply; not starred, not deleted, editable; no rewards paid); exactly the mentioned users are notified |
| ForumViews.UpdateTopic | forum/views.py:233-258 | only the author may edit; a valid form replaces node, title, markdown, content and abstract, and re-ranks by node; otherwise nothing changes (the author check is forum/utils.py:72-82) |
| ForumViews.ViewTopic | forum/views.py:265-296 | a missing topic gives 404; otherwise `viewed` goes up by one and ten replies show a page; a non-integer or out-of-range page gives the last page; `ilike` iff the viewer likes the topic |
| ForumViews.DefaultTopicPageShowsNewest | forum/views.py:276-283 | without a page number the topic page shows the newest reply |
| TimeAgo.ToDelta | forum/templatetags/timeago.py:20 | `timedelta` normalisation: seconds in `0..86399` and microseconds in `0..999999`, reconstructing the difference exactly (also line 50) |
| TimeAgo.DeltaDays | forum/templatetags/timeago.py:21 | for a non-negative difference, days is 0 iff the difference is under a day |
| TimeAgo.BucketOf | forum/templatetags/timeago.py:21-48 | exactly one bucket, chosen in the order: days, zero, seconds, minutes, hours;<br>minutes `seconds // 60` in 1..59;<br>hours `seconds // 3600` in 1..23 |
| TimeAgo.Classify | forum/templatetags/timeago.py:15-50 | a non-date stays unchanged; past iff before now, bucketed by `now - value`; otherwise future, bucketed by `value - now` |
| TimeAgo.PastDaysPositive | forum/templatetags/timeago.py:19-26 | a past days bucket counts at least one day |
| TimeAgo.WithinADayIsNotDays | forum/templatetags/timeago.py:21-51 | a difference under a day is never the days bucket, in either direction |
| TimeAgo.Decimal | forum/templatetags/timeago.py:26 | a non-empty string of decimal digits |
| TimeAgo.DecimalRoundTrip | forum/templatetags/timeago.py:26 | reading the digits back gives the count |
| TimeAgo.Counted | forum/templatetags/timeago.py:22-26 | `ungettext`: the singular message iff the count is 1, the count and plural message otherwise |
| TimeAgo.NaturalTime | forum/templatetags/timeago.py:10-76 | a non-date is returned unchanged; a zero difference gives "now"; future days defer to `timeuntil` with " from now" |
| TimeAgo.SameInstantIsNow | forum/templatetags/timeago.py:19-56 | `value == now` takes the future branch and gives "now" |
| TimeAgo.WholeSeconds | forum/templatetags/timeago.py:20 | a whole number of seconds under a day normalises to that many seconds |
| TimeAgo.PastText | forum/templatetags/timeago.py:21-48 | each past bucket gives its English message: days, seconds, minutes and hours ago, singular for a count of one |
| TimeAgo.FutureText | forum/templatetags/timeago.py:57-76 | each future bucket under a day gives its English message: seconds, minutes and hours from now, singular for a count of one |
| TimeAgo.MinuteAgoExample | forum/templatetags/timeago.py:35-41 | 90 seconds ago reads "a minute ago" |
| TimeAgo.SecondsAgoExample | forum/templatetags/timeago.py:29-34 | 5 seconds ago reads "5 seconds ago" |
| TimeAgo.HoursFromNowExample | forum/templatetags/timeago.py:70-76 | 7300 seconds ahead reads "2 hours from now" |
| Strings.IndexOf | static/js/niutool.js:4 | for a separator that occurs, its first position, with no earlier occurrence: the search `split(';')` makes for each piece |
| Strings.Split | static/js/niutool.js:4 | separator-free pieces that join back to the text, one more than the separators (as `split` also does at niuauth/views.py:140) |
| Strings.JoinInjective | static/js/niutool.js:4 | separator-free pieces with the same join are equal |
| Strings.SplitUnique | static/js/niutool.js:4 | any separator-free pieces that join to the text are its split |
| Strings.LastPiece | niuauth/views.py:140 | `split(sep)[-1]`: the separator-free tail after the last separator, or all of it |
| Strings.JoinLast | niuauth/views.py:140 | the last piece of a join is the text after its last separator |
| Strings.TrimStart | forum/mismd.py:11 | drops exactly the leading spaces (and `jQuery.trim` at static/js/niutool.js:6) |
| Strings.TrimEnd | forum/mismd.py:11 | drops exactly the trailing spaces (and `jQuery.trim` at static/js/niutool.js:6) |
| Strings.Trim | forum/mismd.py:11 | the middle slice with only spaces cut from both ends, neither end a space (and `jQuery.trim` at static/js/niutool.js:6) |
| Strings.TrimIdempotent | forum/mismd.py:11 | trimming twice is trimming once (and `jQuery.trim` at static/js/niutool.js:6) |
| NiuTool.HasKeyIsPrefix | static/js/niutool.js:8 | `substring(0, len+1) == name + '='` holds iff the piece starts with `name=` |
| NiuTool.Trimmed | static/js/niutool.js:4-6 | each piece trimmed with `jQuery.trim` |
| NiuTool.FirstKeyFrom | static/js/niutool.js:5-11 | the first piece from a position that starts with `name=`; none iff there is none |
| NiuTool.GetCookie | static/js/niutool.js:1-15 | the loop returns what `CookieValue` specifies: the first match decoded, or null |
| NiuTool.FirstKeyIs | static/js/niutool.js:5-11 | a matching piece with no match before it is the one chosen |
| NiuTool.NoCookiesIsNull | static/js/niutool.js:2-14 | a missing or empty cookie string gives null |
| NiuTool.FoundIffFirstKey | static/js/niutool.js:5-14 | a value is found iff some piece is the first match |
| NiuTool.FoundIffSomePieceMatches | static/js/niutool.js:5-14 | a value is found iff some trimmed piece starts with `name=` |
| NiuTool.LongerNameSkipped | static/js/niutool.js:8 | a longer name beginning with the wanted one, such as `csrftokenX`, never matches |
| NiuTool.ExactNameRead | static/js/niutool.js:8-9 | a piece `name=value` matches, and `value` is what is decoded |
| NiuTool.ReplyShape | static/js/niutool.js:122-127 | the editor text is kept and followed by `@user `, after a newline when the text is not empty |
| NiuTool.ReplyMentionsUser | static/js/niutool.js:122-127 | the inserted text mentions the user: the name is among those `findall` returns, as `findall` at forum/utils.py:85 reads it |

## Left out

- Image thumbnails with PIL (`_thumbnail`, `create_thumbnail`) are left out: they are pixel work in a foreign library. An avatar is modelled by its stored raw file name only.
- The mistune grammar, pygments and `mistune.escape` are parameters, because they are library code. So is the base renderer's `text`.
- `reverse`, `render_markdown` and `Truncator(strip_tags(...)).chars(60)` are parameters, because they are library calls.
- Translation is left out. Messages are the English message ids.
- `timeuntil`, `timezone.now()`, `datetime.now()` and `get_random_string` are parameters.
- TimeAgo.NaturalTime: a plain `datetime.date` value is not modelled; in the source comparing it with a datetime raises. Times are integer microseconds, so there is no time zone awareness.
- Django's `Paginator` is modelled only by its page count and page slice (`NumPages`, `PageItems`), not its internals.
- The ORM, `save()` calls and the database collation are modelled only through the stored-row reading above.
- Markdown.UserLink: the link's URL is built from the mention text, while `reverse(..., u.username)` uses the fetched row's username. Under a case-insensitive database collation the two can differ in case; usernames are modelled as matching exactly.
- Concurrent requests and lost-update races on counters and reputation are left out. Each request is one sequential step.
- `ReplyTopicView.post`'s form check and the topic lookup around `_commit_changes` are left out; the model starts at the commit.
- `ForumIndexView` and `NodeView` listings are left out, beyond the pagination they share: they are ORM queries.
- `JsonReturn.__str__` (JSON serialisation) and `AjaxResponseMixin` are left out, because they are serialisation.
- The `following` relation, `last_modified` timestamps and email addresses from allauth are left out; no core logic reads them.
- `avatar_l`, `avatar_m` and `avatar_s` are left out, because they are thumbnail copies.
- Rendered notification templates (`render_to_string`) are left out. The notification detail is a parameter.
- Forms, URL routing, the admin site and the `initforum` command are left out, because they are declarative or one-off code.
- `watchNode`, `likeTopic`, `renderMarkdown` and `addEditorAction` in niutool.js are left out, because they are DOM and AJAX handlers. For `replySomeone` only the text built is modelled, not the editor focus.
- `lang` of None and `""` are the same empty language, because `not lang` treats them alike.
- Strings.IsJsSpace: JavaScript's white space and line terminators as current engines define them. U+180E, which older engines also trimmed, is not included.
- Strings.IsPythonSpace: the whitespace of Python 3's `str.strip` for current Unicode tables. U+180E, which older Unicode tables count as a space, is not included.
- Mentions.IsWordChar: on a Python 3 `str`, `\w` is `_` plus every character for which `str.isalnum()` holds, in every script. The model lists ASCII letters and digits, Latin-1 letters and digits, the Greek and Cyrillic base letters, kana, the CJK unified ideographs (base block and extension A), Hangul syllables and full-width letters and digits. A name in another script, or with combining marks, ends earlier in the model than in the source.
- Mentions.TokenNames: the links and the notifications can still differ at the mistune level. `findall` runs on the raw markdown, while `NiuRenderer.text` sees only inline text tokens. For example, `@alice` inside a code span notifies alice but shows no link. The mistune grammar is a parameter, so the model compares the two scans on the same string only.

## Findings

| source | as written | input that shows it | evidently intended | confidence | as-written member | corrected member |
|---|---|---|---|---|---|---|
| forum/views.py:393-396 | `topic.like_reward = True` is assigned but the topic is never saved, so the stored flag stays false | a topic with 10 likers and `like_reward` false; two more users like it in two requests; the author is paid `REP_TOPIC_LIKE` twice (every later like pays again) | the like reward is paid once, as the reply reward is (forum/views.py:319-322 saves the topic at 339) | not executed | ForumViews.LikeTopicAsWritten, ForumViews.TwoLikesAsWritten, AuthUtils.UnsavedPaysEveryTime, AuthUtils.UnsavedFlagPaysTwice | ForumViews.LikeTopic, ForumViews.TwoLikes, AuthUtils.PaidAtMostOnce |

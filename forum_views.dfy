/**
 * forum/views.py: the JSON result object of the AJAX views, the like and
 * watch toggles, reply commits with their once-only reward, topic creation
 * and update with the rank rule, and the topic page.
 *
 * Each object here stands for its stored row and each view method for one
 * request: what a method's contract states is what is stored afterwards.
 * A commit inside `transaction.atomic` that raises stores nothing; a view
 * without one keeps the writes made before the raise. A missing row (the
 * `DoesNotExist` or 404 path) is a null argument.
 */
module ForumViews {
  import opened Wrappers
  import opened Settings
  import opened Mentions
  import opened AuthModels
  import opened AuthUtils
  import opened ForumModels
  import opened ForumUtils

  const J_SUCCESS := 0
  const J_REDIRECT := 1
  const J_ERROR := 2

  datatype JsonValue = JInt(i: int) | JString(s: string) | JBool(b: bool) | JObject(fields: map<string, JsonValue>)

  class JsonReturn {
    var code: int
    var msg: string
    var ret: map<string, JsonValue>

    constructor ()
      ensures code == J_SUCCESS && msg == "" && ret == map[]
    {
      code := J_SUCCESS;
      msg := "";
      ret := map[];
    }

    /** `JsonReturn.success(msg)`. */
    constructor Success(msg: string)
      ensures code == J_SUCCESS && this.msg == msg && ret == map[]
    {
      code := J_SUCCESS;
      this.msg := msg;
      ret := map[];
    }

    /** `JsonReturn.redirect(url)`: the URL travels in `msg`. */
    constructor Redirect(url: string)
      ensures code == J_REDIRECT && msg == url && ret == map[]
    {
      code := J_REDIRECT;
      msg := url;
      ret := map[];
    }

    /** `JsonReturn.error(code, msg)`: any code the caller gives. */
    constructor Error(code: int, msg: string)
      ensures this.code == code && this.msg == msg && ret == map[]
    {
      this.code := code;
      this.msg := msg;
      ret := map[];
    }

    /** `set_value`: a later value for a key replaces the earlier one. */
    method SetValue(key: string, value: JsonValue)
      modifies this`ret
      ensures ret == old(ret)[key := value]
      ensures key in ret && ret[key] == value
      ensures forall k :: k in old(ret) && k != key ==> k in ret && ret[k] == old(ret)[k]
    {
      ret := ret[key := value];
    }

    /** `get_data`: exactly the keys `code`, `msg` and `ret`. */
    function GetData(): (d: map<string, JsonValue>)
      reads this
      ensures d.Keys == {"code", "msg", "ret"}
      ensures d["code"] == JInt(code) && d["msg"] == JString(msg) && d["ret"] == JObject(ret)
    {
      map["code" := JInt(code), "msg" := JString(msg), "ret" := JObject(ret)]
    }
  }

  /** The rows a lookup found: one, or none for `DoesNotExist`. */
  function TopicFound(t: Topic?): set<Topic>
  {
    if t == null then {} else {t}
  }

  function AuthorOf(t: Topic?): set<Profile>
  {
    if t == null then {} else {t.author}
  }

  function NodeFound(n: Node?): set<Node>
  {
    if n == null then {} else {n}
  }

  /** `if flag: s.remove(user) else: s.add(user)`. */
  function Toggle(s: set<Profile>, user: Profile, remove: bool): (r: set<Profile>)
    ensures user in r <==> !remove
    ensures r - {user} == s - {user}
  {
    if remove then s - {user} else s + {user}
  }

  /** Adding a liker never lowers the count of likers. */
  lemma AddedLikerKeepsCount(s: set<Profile>, user: Profile)
    ensures |Toggle(s, user, false)| >= |s|
  {
    if user in s {
      assert Toggle(s, user, false) == s;
    } else {
      assert Toggle(s, user, false) == s + {user};
    }
  }

  /** Remove after add leaves the set as it was without the user; add is idempotent. */
  lemma ToggleBack(s: set<Profile>, user: Profile)
    ensures Toggle(Toggle(s, user, false), user, true) == s - {user}
    ensures Toggle(Toggle(s, user, false), user, false) == Toggle(s, user, false)
  {
  }

  /**
   * `WatchNodeView.post`: `watch == 'true'` stops watching, anything else
   * (or no value) starts; the reply's `watching` is then the user's new
   * membership, the opposite of the request's flag.
   */
  method WatchNode(node: Node?, nodeId: string, user: Profile, watch: Option<string>) returns (j: JsonReturn)
    modifies NodeFound(node)`watcher
    ensures fresh(j)
    ensures node == null ==> j.code == J_ERROR && j.msg == "the node dose not exist" && j.ret == map[]
    ensures node != null ==>
      && node.watcher == Toggle(old(node.watcher), user, watch == Some("true"))
      && j.code == J_SUCCESS && j.msg == "ok"
      && j.ret == map["nodeid" := JString(nodeId), "watching" := JBool(watch != Some("true"))]
      && j.ret["watching"] == JBool(user in node.watcher)
  {
    var watching := watch == Some("true");
    if node == null {
      j := new JsonReturn.Error(J_ERROR, "the node dose not exist");
      return;
    }
    node.watcher := Toggle(node.watcher, user, watching);
    watching := !watching;
    j := new JsonReturn.Success("ok");
    j.SetValue("nodeid", JString(nodeId));
    j.SetValue("watching", JBool(watching));
  }

  const LIKE_REWARD_THRESHOLD := 10
  const REPLY_REWARD_THRESHOLD := 10

  /**
   * The body of `LikeTopicView.post`'s `try`, up to the flag: toggles the
   * like and, on an add that leaves at least ten likers while the topic is
   * unrewarded, pays the author. `paid` says the reward was due; `ok` is
   * false where `user_reward` raised KeyError, after the like was stored.
   */
  method ToggleLike(topic: Topic, user: Profile, remove: bool, c: Config) returns (due: bool, ok: bool)
    modifies topic`liker, topic.author`reputation, topic.author`repuStat
    ensures topic.liker == Toggle(old(topic.liker), user, remove)
    ensures due == (!remove && RewardDue(topic.likeReward, |topic.liker| >= LIKE_REWARD_THRESHOLD))
    ensures ok == (!due || c.repTopicLike in c.repGet)
    ensures due && ok ==>
      && topic.author.reputation == old(topic.author.reputation) + c.repGet[c.repTopicLike]
      && topic.author.repuStat == old(topic.author.repuStat)
           + [ReputationStat(c.repTopicLike, c.repGet[c.repTopicLike], topic.author.reputation, Some(topic.id), None)]
    ensures !(due && ok) ==>
      topic.author.reputation == old(topic.author.reputation) && topic.author.repuStat == old(topic.author.repuStat)
  {
    topic.liker := Toggle(topic.liker, user, remove);
    due := !remove && RewardDue(topic.likeReward, |topic.liker| >= LIKE_REWARD_THRESHOLD);
    ok := true;
    if due {
      ok := UserReward(topic.author, c.repGet, c.repTopicLike, Some(topic.id), None);
    }
  }

  /** The JSON a like request answers with: success with the new state, or the catch-all error. */
  method LikeResponse(topicId: string, ilike: bool, ok: bool) returns (j: JsonReturn)
    ensures fresh(j)
    ensures ok ==> j.code == J_SUCCESS && j.msg == "ok" && j.ret == map["topicid" := JString(topicId), "ilike" := JBool(ilike)]
    ensures !ok ==> j.code == J_ERROR && j.msg == "unknown error" && j.ret == map[]
  {
    if ok {
      j := new JsonReturn.Success("ok");
      j.SetValue("topicid", JString(topicId));
      j.SetValue("ilike", JBool(ilike));
    } else {
      j := new JsonReturn.Error(J_ERROR, "unknown error");
    }
  }

  /**
   * `LikeTopicView.post` with the reward flag stored: `like == 'true'`
   * removes the like, anything else adds it; the reward is checked only on
   * an add and paid once.
   */
  method LikeTopic(topic: Topic?, topicId: string, user: Profile, like: Option<string>, c: Config) returns (j: JsonReturn)
    modifies TopicFound(topic)`liker, TopicFound(topic)`likeReward, AuthorOf(topic)`reputation, AuthorOf(topic)`repuStat
    ensures fresh(j)
    ensures topic == null ==> j.code == J_ERROR && j.msg == "the topic dose not exist" && j.ret == map[]
    ensures topic != null ==>
      var remove := like == Some("true");
      var due := !remove && RewardDue(old(topic.likeReward), |topic.liker| >= LIKE_REWARD_THRESHOLD);
      var ok := !due || c.repTopicLike in c.repGet;
      && topic.liker == Toggle(old(topic.liker), user, remove)
      && topic.likeReward == (old(topic.likeReward) || (due && ok))
      && (due && ok ==>
            && topic.author.reputation == old(topic.author.reputation) + c.repGet[c.repTopicLike]
            && topic.author.repuStat == old(topic.author.repuStat)
                 + [ReputationStat(c.repTopicLike, c.repGet[c.repTopicLike], topic.author.reputation, Some(topic.id), None)])
      && (!(due && ok) ==>
            topic.author.reputation == old(topic.author.reputation) && topic.author.repuStat == old(topic.author.repuStat))
      && (ok ==> j.code == J_SUCCESS && j.msg == "ok"
                 && j.ret == map["topicid" := JString(topicId), "ilike" := JBool(user in topic.liker)])
      && (!ok ==> j.code == J_ERROR && j.msg == "unknown error" && j.ret == map[])
  {
    if topic == null {
      j := new JsonReturn.Error(J_ERROR, "the topic dose not exist");
      return;
    }
    var remove := like == Some("true");
    var due, ok := ToggleLike(topic, user, remove, c);
    if due && ok {
      topic.likeReward := true;
    }
    j := LikeResponse(topicId, !remove, ok);
  }

  /**
   * `LikeTopicView.post` as written: `topic.like_reward = True` is never
   * saved, so the stored flag stays as it was and the next add that finds
   * ten likers pays again.
   */
  method LikeTopicAsWritten(topic: Topic?, topicId: string, user: Profile, like: Option<string>, c: Config) returns (j: JsonReturn)
    modifies TopicFound(topic)`liker, AuthorOf(topic)`reputation, AuthorOf(topic)`repuStat
    ensures fresh(j)
    ensures topic == null ==> j.code == J_ERROR && j.msg == "the topic dose not exist" && j.ret == map[]
    ensures topic != null ==>
      var remove := like == Some("true");
      var due := !remove && RewardDue(topic.likeReward, |topic.liker| >= LIKE_REWARD_THRESHOLD);
      var ok := !due || c.repTopicLike in c.repGet;
      && topic.liker == Toggle(old(topic.liker), user, remove)
      && topic.likeReward == old(topic.likeReward)
      && (due && ok ==>
            && topic.author.reputation == old(topic.author.reputation) + c.repGet[c.repTopicLike]
            && topic.author.repuStat == old(topic.author.repuStat)
                 + [ReputationStat(c.repTopicLike, c.repGet[c.repTopicLike], topic.author.reputation, Some(topic.id), None)])
      && (!(due && ok) ==>
            topic.author.reputation == old(topic.author.reputation) && topic.author.repuStat == old(topic.author.repuStat))
      && (ok ==> j.code == J_SUCCESS && j.msg == "ok"
                 && j.ret == map["topicid" := JString(topicId), "ilike" := JBool(user in topic.liker)])
      && (!ok ==> j.code == J_ERROR && j.msg == "unknown error" && j.ret == map[])
  {
    if topic == null {
      j := new JsonReturn.Error(J_ERROR, "the topic dose not exist");
      return;
    }
    var remove := like == Some("true");
    var due, ok := ToggleLike(topic, user, remove, c);
    j := LikeResponse(topicId, !remove, ok);
  }

  /**
   * Two further likes on a topic that already has ten likers and was
   * rewarded in memory but not in storage: the author is paid twice.
   */
  method TwoLikesAsWritten(topic: Topic, u1: Profile, u2: Profile, c: Config)
    requires !topic.likeReward && |topic.liker| >= LIKE_REWARD_THRESHOLD
    requires u1 !in topic.liker && u2 !in topic.liker && u1 != u2
    requires c.repTopicLike in c.repGet
    modifies topic`liker, topic.author`reputation, topic.author`repuStat
    ensures topic.author.reputation == old(topic.author.reputation) + 2 * c.repGet[c.repTopicLike]
  {
    var rep := topic.author.reputation;
    var j1 := LikeTopicAsWritten(topic, "t", u1, None, c);
    AddedLikerKeepsCount(old(topic.liker), u1);
    assert topic.author.reputation == rep + c.repGet[c.repTopicLike];
    var j2 := LikeTopicAsWritten(topic, "t", u2, None, c);
  }

  /** With the flag stored, the second like pays nothing. */
  method TwoLikes(topic: Topic, u1: Profile, u2: Profile, c: Config)
    requires !topic.likeReward && |topic.liker| >= LIKE_REWARD_THRESHOLD
    requires u1 !in topic.liker && u2 !in topic.liker && u1 != u2
    requires c.repTopicLike in c.repGet
    modifies topic`liker, topic`likeReward, topic.author`reputation, topic.author`repuStat
    ensures topic.author.reputation == old(topic.author.reputation) + c.repGet[c.repTopicLike]
  {
    var j1 := LikeTopic(topic, "t", u1, None, c);
    var j2 := LikeTopic(topic, "t", u2, None, c);
  }

  /** Gives each recipient a fresh notification, newest first, and raises their flag. */
  method Notify(recipients: set<Profile>, detail: string, now: int)
    modifies recipients`hasNotification, recipients`notifications
    ensures forall u :: u in recipients ==>
      u.hasNotification && u.notifications == [NewNotification(detail, now)] + old(u.notifications)
  {
    var rest := recipients;
    while rest != {}
      invariant rest <= recipients
      invariant forall u :: u in recipients - rest ==>
        u.hasNotification && u.notifications == [NewNotification(detail, now)] + old(u.notifications)
      invariant forall u :: u in rest ==> u.notifications == old(u.notifications)
      decreases rest
    {
      var u :| u in rest;
      u.notifications := [NewNotification(detail, now)] + u.notifications;
      u.hasNotification := true;
      rest := rest - {u};
    }
  }

  /**
   * `ReplyTopicView._commit_changes`, one atomic commit: the reply count
   * goes up by one; the first commit that brings it to ten while the topic
   * is unrewarded pays the author and sets the flag; every mentioned user is
   * notified; the reply is stored, dated `now`, and so is `last_replied`.
   * If the reward amount is not configured the commit raises and nothing is
   * stored.
   */
  method CommitReply(topic: Topic, replier: Profile, markdown: string, content: string,
                     mentioned: set<Profile>, detail: string, now: int, c: Config)
    returns (ok: bool)
    modifies topic`replyCount, topic`replyReward, topic`lastReplied, topic`replies
    modifies topic.author`reputation, topic.author`repuStat
    modifies mentioned`hasNotification, mentioned`notifications
    ensures var due := RewardDue(old(topic.replyReward), old(topic.replyCount) + 1 >= REPLY_REWARD_THRESHOLD);
      && ok == (!due || c.repTopicReply in c.repGet)
      && (ok ==> topic.replyReward == (old(topic.replyReward) || due))
      && (ok && due ==>
            && topic.author.reputation == old(topic.author.reputation) + c.repGet[c.repTopicReply]
            && topic.author.repuStat == old(topic.author.repuStat)
                 + [ReputationStat(c.repTopicReply, c.repGet[c.repTopicReply], topic.author.reputation, Some(topic.id), None)])
      && (!(ok && due) ==>
            topic.author.reputation == old(topic.author.reputation) && topic.author.repuStat == old(topic.author.repuStat))
    ensures ok ==>
      && topic.replyCount == old(topic.replyCount) + 1
      && topic.lastReplied == Some(now)
      && topic.replies == old(topic.replies) + [Reply(replier, markdown, content, now)]
      && forall u :: u in mentioned ==>
           u.hasNotification && u.notifications == [NewNotification(detail, now)] + old(u.notifications)
    ensures !ok ==>
      && topic.replyCount == old(topic.replyCount) && topic.replyReward == old(topic.replyReward)
      && topic.lastReplied == old(topic.lastReplied) && topic.replies == old(topic.replies)
      && forall u :: u in mentioned ==>
           u.hasNotification == old(u.hasNotification) && u.notifications == old(u.notifications)
    ensures ok && OldestFirst(old(topic.replies)) && (forall k :: 0 <= k < |old(topic.replies)| ==> old(topic.replies)[k].dateCreated <= now)
      ==> OldestFirst(topic.replies)
  {
    var count := topic.replyCount + 1;
    var due := RewardDue(topic.replyReward, count >= REPLY_REWARD_THRESHOLD);
    if due && c.repTopicReply !in c.repGet {
      return false;
    }
    topic.replyCount := count;
    if due {
      ok := UserReward(topic.author, c.repGet, c.repTopicReply, Some(topic.id), None);
      topic.replyReward := true;
    }
    Notify(mentioned, detail, now);
    topic.lastReplied := Some(now);
    var reply := Reply(replier, markdown, content, now);
    if OldestFirst(topic.replies) && forall k :: 0 <= k < |topic.replies| ==> topic.replies[k].dateCreated <= now {
      AppendKeepsOldestFirst(topic.replies, reply);
    }
    topic.replies := topic.replies + [reply];
    ok := true;
  }

  /**
   * Over a run of successful reply commits the author is paid once: on the
   * commit that brings the count to ten, if the topic was unrewarded.
   */
  method CommitTwoReplies(topic: Topic, replier: Profile, c: Config, now: int)
    requires c.repTopicReply in c.repGet
    requires !topic.replyReward && topic.replyCount == REPLY_REWARD_THRESHOLD - 1
    modifies topic`replyCount, topic`replyReward, topic`lastReplied, topic`replies
    modifies topic.author`reputation, topic.author`repuStat
    ensures topic.replyCount == REPLY_REWARD_THRESHOLD + 1 && topic.replyReward
    ensures topic.author.reputation == old(topic.author.reputation) + c.repGet[c.repTopicReply]
    ensures |topic.author.repuStat| == |old(topic.author.repuStat)| + 1
  {
    var ok1 := CommitReply(topic, replier, "", "", {}, "", now, c);
    var ok2 := CommitReply(topic, replier, "", "", {}, "", now, c);
  }

  /** The users a post notifies: the existing ones among the names it mentions, other than its author. */
  function MentionedProfiles(sender: string, markdown: string, users: map<string, Profile>): (r: set<Profile>)
    ensures r <= users.Values
    ensures forall n :: n in users && n != sender && n in FindAll(markdown) ==> users[n] in r
    ensures forall p :: p in r ==> exists n :: n in users && users[n] == p && n != sender && n in FindAll(markdown)
  {
    match MentionedUsers(sender, markdown, users.Keys)
    case None => {}
    case Some(names) => set n | n in names :: users[n]
  }

  /** `if node.is_trash: rank = 0 else: rank = 10`, on create and on update alike. */
  function TopicRank(isTrash: bool): (rank: int)
    ensures isTrash ==> rank == 0
    ensures !isTrash ==> rank == DEFAULT_RANK
  {
    if isTrash then 0 else 10
  }

  /** A topic in a trash node is listed after every topic outside one, whatever their dates. */
  lemma TrashListedLast(d1: int, d2: int)
    ensures TopicBefore(TopicKey(TopicRank(false), d1), TopicKey(TopicRank(true), d2))
    ensures !TopicBefore(TopicKey(TopicRank(true), d2), TopicKey(TopicRank(false), d1))
  {
    RankDominates(TopicKey(TopicRank(false), d1), TopicKey(TopicRank(true), d2));
  }

  /** A valid `TopicForm`'s cleaned data. */
  datatype TopicForm = TopicForm(title: string, content: string, node: Node)

  datatype CreateOutcome =
    | CapabilityUnset      // REP_NEED_SETTING has no USER_CREATE_TOPIC: KeyError
    | NotAllowed           // the form is shown again
    | FormInvalid          // the form is shown again with its errors
    | Created(topic: Topic)

  /**
   * `CreateTopicView.post`: only a user with enough reputation may post; a
   * valid form yields a new topic, ranked by its node, with every mentioned
   * user notified. `render` stands for `render_markdown` and `summarise` for
   * the 60-character plain-text abstract.
   */
  method CreateTopic(author: Profile, c: Config, form: Option<TopicForm>, render: string -> string,
                     summarise: string -> string, users: map<string, Profile>, detail: string, id: int, now: int)
    returns (r: CreateOutcome)
    modifies users.Values`hasNotification, users.Values`notifications
    ensures author.CanCreateTopic(c).None? ==> r == CapabilityUnset
    ensures author.CanCreateTopic(c) == Some(false) ==> r == NotAllowed
    ensures author.CanCreateTopic(c) == Some(true) && form.None? ==> r == FormInvalid
    ensures author.CanCreateTopic(c) == Some(true) && form.Some? ==>
      var f := form.value;
      && r.Created? && fresh(r.topic)
      && r.topic.id == id && r.topic.node == f.node && r.topic.author == author && r.topic.title == f.title
      && r.topic.markdown == f.content && r.topic.content == render(f.content)
      && r.topic.summary == summarise(render(f.content)) && r.topic.dateCreated == now
      && r.topic.rank == TopicRank(f.node.isTrash)
      && r.topic.viewed == 0 && r.topic.replyCount == 0 && !r.topic.replyReward && !r.topic.likeReward
      && r.topic.liker == {} && r.topic.replies == [] && r.topic.lastReplied == None
      && !r.topic.adminStar && !r.topic.deleted && r.topic.editable
    ensures var notified := if r.Created? then MentionedProfiles(author.username, form.value.content, users) else {};
      forall u :: u in users.Values ==>
        if u in notified then u.hasNotification && u.notifications == [NewNotification(detail, now)] + old(u.notifications)
        else u.hasNotification == old(u.hasNotification) && u.notifications == old(u.notifications)
  {
    var authority := author.CanCreateTopic(c);
    if authority.None? {
      return CapabilityUnset;
    }
    if !authority.value {
      return NotAllowed;
    }
    if form.None? {
      return FormInvalid;
    }
    var f := form.value;
    var rendered := render(f.content);
    var topic := new Topic(id, f.node, author, f.title, f.content, rendered, summarise(rendered), now);
    topic.rank := TopicRank(f.node.isTrash);
    var mentioned := MentionedProfiles(author.username, f.content, users);
    Notify(mentioned, detail, now);
    r := Created(topic);
  }

  datatype UpdateOutcome = Denied(access: Access) | UpdateFormInvalid | Updated

  /**
   * `UpdateTopicView.post` behind `author_required`: only the author may
   * edit; a valid form replaces node, title, markdown, content and abstract,
   * and re-ranks the topic by its new node.
   */
  method UpdateTopic(topic: Topic?, user: Profile, form: Option<TopicForm>, render: string -> string,
                     summarise: string -> string)
    returns (r: UpdateOutcome)
    modifies TopicFound(topic)`node, TopicFound(topic)`title, TopicFound(topic)`markdown
    modifies TopicFound(topic)`content, TopicFound(topic)`summary, TopicFound(topic)`rank
    ensures AuthorRequired(topic, user) != Allowed ==> r == Denied(AuthorRequired(topic, user))
    ensures topic != null && (r != Updated) ==>
      && topic.node == old(topic.node) && topic.title == old(topic.title) && topic.markdown == old(topic.markdown)
      && topic.content == old(topic.content) && topic.summary == old(topic.summary) && topic.rank == old(topic.rank)
    ensures AuthorRequired(topic, user) == Allowed && form.None? ==> r == UpdateFormInvalid
    ensures AuthorRequired(topic, user) == Allowed && form.Some? ==>
      var f := form.value;
      && r == Updated
      && topic.node == f.node && topic.title == f.title && topic.markdown == f.content
      && topic.content == render(f.content) && topic.summary == summarise(render(f.content))
      && topic.rank == TopicRank(f.node.isTrash)
  {
    var access := AuthorRequired(topic, user);
    if access != Allowed {
      return Denied(access);
    }
    if form.None? {
      return UpdateFormInvalid;
    }
    var f := form.value;
    var rendered := render(f.content);
    topic.node := f.node;
    topic.title := f.title;
    topic.markdown := f.content;
    topic.content := rendered;
    topic.summary := summarise(rendered);
    topic.rank := TopicRank(f.node.isTrash);
    r := Updated;
  }

  const REPLIES_PER_PAGE := 10

  /** What the topic page shows: one page of replies and whether the viewer likes the topic. */
  datatype TopicPage = TopicPage(replies: Page<Reply>, ilike: bool)

  /**
   * `TopicView.get_context_data`: counts the view, shows ten replies a page
   * and, unlike the other lists, sends a non-integer page (or none) to the
   * last page, where the newest replies are.
   */
  method ViewTopic(topic: Topic?, viewer: Option<Profile>, req: PageRequest) returns (r: Option<TopicPage>)
    modifies TopicFound(topic)`viewed
    ensures topic == null ==> r.None?
    ensures topic != null ==>
      && topic.viewed == old(topic.viewed) + 1
      && r.Some?
      && r.value.replies == Paginate(topic.replies, req, REPLIES_PER_PAGE, LastPage)
      && (r.value.ilike <==> viewer.Some? && viewer.value in topic.liker)
  {
    if topic == null {
      return None;
    }
    topic.viewed := topic.viewed + 1;
    var page := Paginate(topic.replies, req, REPLIES_PER_PAGE, LastPage);
    var ilike := viewer.Some? && viewer.value in topic.liker;
    r := Some(TopicPage(page, ilike));
  }

  /** Without a page number, the topic page shows the newest reply. */
  lemma DefaultTopicPageShowsNewest(replies: seq<Reply>)
    requires |replies| >= 1
    ensures var p := Paginate(replies, NotAnInteger, REPLIES_PER_PAGE, LastPage);
      |p.items| >= 1 && p.items[|p.items| - 1] == replies[|replies| - 1]
  {
    LastPageEndsWithLast(replies, REPLIES_PER_PAGE);
  }
}

/**
 * forum/models.py: sections, nodes, topics and replies, with their field
 * defaults, their `Meta.ordering` and their string forms.
 */
module ForumModels {
  import opened Wrappers
  import opened AuthModels

  datatype Section = Section(name: string, order: int)
  {
    /** `Section.__str__`. */
    function Str(): string
    {
      name
    }
  }

  /** `Section.order` defaults to 1. */
  function NewSection(name: string): (s: Section)
    ensures s.name == name && s.order == 1
  {
    Section(name, 1)
  }

  class Node {
    const id: int
    const section: Section
    const name: string
    const description: string
    const iconS: string   // the small icon's stored name; "" when unset
    const order: int
    const isTrash: bool
    var watcher: set<Profile>

    constructor (id: int, section: Section, name: string, description: string, iconS: string, order: int, isTrash: bool)
      ensures this.id == id && this.section == section && this.name == name && this.description == description
      ensures this.iconS == iconS && this.order == order && this.isTrash == isTrash
      ensures watcher == {}
    {
      this.id := id;
      this.section := section;
      this.name := name;
      this.description := description;
      this.iconS := iconS;
      this.order := order;
      this.isTrash := isTrash;
      watcher := {};
    }

    /** `Node.__str__`: the section's name, a slash, the node's name. */
    function Str(): (s: string)
      ensures |s| == |section.name| + 1 + |name|
      ensures s[..|section.name|] == section.name && s[|section.name|] == '/' && s[|section.name| + 1..] == name
    {
      section.Str() + "/" + name
    }

    /** `admin_image`: a 24x24 image tag for the small icon, or None without one. */
    function AdminImage(): (r: Option<string>)
      ensures r.None? <==> iconS == ""
      ensures r.Some? ==> r.value == ImageTag(iconS)
    {
      if iconS != "" then Some(ImageTag(iconS)) else None
    }
  }

  function ImageTag(icon: string): string
  {
    "<img src=\"/media/" + icon + "\" width=\"24\" height=\"24\" />"
  }

  /** A reply; `dateCreated` is the instant it was saved. */
  datatype Reply = Reply(author: Profile, markdown: string, content: string, dateCreated: int)

  const DEFAULT_RANK := 10

  class Topic {
    const id: int
    var node: Node
    const author: Profile
    var title: string
    var markdown: string
    var content: string
    var summary: string   // the `abstract` field (a reserved word here)
    const dateCreated: int
    var liker: set<Profile>
    var viewed: int
    var replyCount: int
    var lastReplied: Option<int>
    var rank: int
    var replyReward: bool
    var likeReward: bool
    var adminStar: bool
    var deleted: bool
    var editable: bool
    var replies: seq<Reply>  // the topic's replies, oldest first

    /** A topic with the given content; every other field at its default. */
    constructor (id: int, node: Node, author: Profile, title: string, markdown: string, content: string,
                 summary: string, dateCreated: int)
      ensures this.id == id && this.node == node && this.author == author && this.title == title
      ensures this.markdown == markdown && this.content == content && this.summary == summary
      ensures this.dateCreated == dateCreated
      ensures liker == {} && viewed == 0 && replyCount == 0 && lastReplied == None && rank == DEFAULT_RANK
      ensures !replyReward && !likeReward && !adminStar && !deleted && editable
      ensures replies == []
    {
      this.id := id;
      this.node := node;
      this.author := author;
      this.title := title;
      this.markdown := markdown;
      this.content := content;
      this.summary := summary;
      this.dateCreated := dateCreated;
      liker := {};
      viewed := 0;
      replyCount := 0;
      lastReplied := None;
      rank := DEFAULT_RANK;
      replyReward := false;
      likeReward := false;
      adminStar := false;
      deleted := false;
      editable := true;
      replies := [];
    }
  }

  /** The fields a topic listing sorts on. */
  datatype TopicKey = TopicKey(rank: int, dateCreated: int)

  /** `['-rank', '-date_created']`: `a` may be listed before `b`. */
  predicate TopicBefore(a: TopicKey, b: TopicKey)
  {
    a.rank > b.rank || (a.rank == b.rank && a.dateCreated >= b.dateCreated)
  }

  ghost predicate TopicsListed(ts: seq<TopicKey>)
  {
    forall i, j :: 0 <= i < j < |ts| ==> TopicBefore(ts[i], ts[j])
  }

  /** The topic order is total and transitive, so every listing can be sorted by it. */
  lemma TopicOrderIsTotal(a: TopicKey, b: TopicKey, c: TopicKey)
    ensures TopicBefore(a, b) || TopicBefore(b, a)
    ensures TopicBefore(a, b) && TopicBefore(b, c) ==> TopicBefore(a, c)
    ensures TopicBefore(a, b) && TopicBefore(b, a) ==> a == b
  {
  }

  /** A higher rank is listed first whatever the dates: a trash topic (rank 0) follows every default one. */
  lemma RankDominates(a: TopicKey, b: TopicKey)
    requires a.rank > b.rank
    ensures TopicBefore(a, b) && !TopicBefore(b, a)
  {
  }

  /** `['date_created']` on replies: oldest first. */
  ghost predicate OldestFirst(rs: seq<Reply>)
  {
    forall i, j :: 0 <= i < j < |rs| ==> rs[i].dateCreated <= rs[j].dateCreated
  }

  /** A reply saved no earlier than the others goes last and keeps the order. */
  lemma AppendKeepsOldestFirst(rs: seq<Reply>, r: Reply)
    requires OldestFirst(rs)
    requires forall k :: 0 <= k < |rs| ==> rs[k].dateCreated <= r.dateCreated
    ensures OldestFirst(rs + [r])
  {
    var t := rs + [r];
    forall i, j | 0 <= i < j < |t| ensures t[i].dateCreated <= t[j].dateCreated {
      assert t[i] == rs[i];
      if j < |rs| {
        assert t[j] == rs[j];
      }
    }
  }

  /** `['-order']` on sections. */
  predicate SectionBefore(a: Section, b: Section)
  {
    a.order >= b.order
  }

  /** `['section', '-order']` on nodes: by the section's own order, then by the node's order descending. */
  predicate NodeBefore(a: Node, b: Node)
  {
    a.section.order > b.section.order || (a.section.order == b.section.order && a.order >= b.order)
  }

  /** Nodes of a higher-ordered section come first; within a section, a higher node order comes first. */
  lemma NodeOrderFollowsSections(a: Node, b: Node, c: Node)
    ensures NodeBefore(a, b) || NodeBefore(b, a)
    ensures NodeBefore(a, b) && NodeBefore(b, c) ==> NodeBefore(a, c)
    ensures NodeBefore(a, b) ==> SectionBefore(a.section, b.section)
  {
  }
}

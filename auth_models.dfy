/**
 * niuauth/models.py: avatars, user profiles, the reputation ledger,
 * notifications, and the signal handlers that create profiles.
 *
 * A `Profile` stands for a user together with its one-to-one profile row
 * and the rows that point back at the user (notifications, reputation
 * stats); code that goes through `user.profile` holds the `Profile` directly.
 */
module AuthModels {
  import opened Wrappers
  import opened Settings

  class Avatar {
    const rawName: string  // the stored name of the uploaded picture
    var deleted: bool

    constructor (rawName: string)
      ensures this.rawName == rawName && !deleted
    {
      this.rawName := rawName;
      deleted := false;
    }
  }

  /** One reputation change: its type, amount, the total it led to, and what it was for. */
  datatype ReputationStat = ReputationStat(statType: int, amount: int, total: int, topicId: Option<int>, nodeId: Option<int>)

  datatype Notification = Notification(detail: string, date: int, read: bool, deleted: bool)

  /** A fresh notification: unread and not deleted. */
  function NewNotification(detail: string, date: int): (n: Notification)
    ensures n.detail == detail && n.date == date
    ensures !n.read && !n.deleted
  {
    Notification(detail, date, false, false)
  }

  /** Notifications in their listing order, `['-date']`. */
  ghost predicate NewestFirst(ns: seq<Notification>)
  {
    forall i, j :: 0 <= i < j < |ns| ==> ns[i].date >= ns[j].date
  }

  /** A notification dated no earlier than all others goes first and keeps the order. */
  lemma PrependKeepsNewestFirst(n: Notification, ns: seq<Notification>)
    requires NewestFirst(ns)
    requires forall k :: 0 <= k < |ns| ==> ns[k].date <= n.date
    ensures NewestFirst([n] + ns)
  {
    var r := [n] + ns;
    forall i, j | 0 <= i < j < |r| ensures r[i].date >= r[j].date {
      assert r[j] == ns[j - 1];
      if i > 0 {
        assert r[i] == ns[i - 1];
      }
    }
  }

  class Profile {
    const username: string
    var oauth: Option<string>
    var displayName: Option<string>
    var website: Option<string>
    var location: Option<string>
    var company: Option<string>
    var email: string
    var description: Option<string>
    var github: Option<string>
    var gitlab: Option<string>
    var profileInitReward: bool
    var avatar: Avatar?
    var reputation: int
    var hasNotification: bool
    var notifications: seq<Notification>  // the user's notifications, newest first
    var repuStat: seq<ReputationStat>     // the user's reputation ledger, oldest first

    /**
     * `UserProfile(user=..., oauth=..., display_name=..., ...)`: the keyword
     * arguments the sign-up handler may pass, everything else at its default.
     */
    constructor (username: string, oauth: Option<string>, displayName: Option<string>,
                 location: Option<string>, company: Option<string>, github: Option<string>,
                 website: Option<string>, description: Option<string>)
      ensures this.username == username && this.oauth == oauth && this.displayName == displayName
      ensures this.location == location && this.company == company && this.github == github
      ensures this.website == website && this.description == description
      ensures email == "" && gitlab == None
      ensures !profileInitReward && avatar == null && reputation == 0 && !hasNotification
      ensures notifications == [] && repuStat == []
    {
      this.username := username;
      this.oauth := oauth;
      this.displayName := displayName;
      this.location := location;
      this.company := company;
      this.github := github;
      this.website := website;
      this.description := description;
      email := "";
      gitlab := None;
      profileInitReward := false;
      avatar := null;
      reputation := 0;
      hasNotification := false;
      notifications := [];
      repuStat := [];
    }

    predicate HasAvatar()
      reads this
    {
      avatar != null
    }

    /** `can_create_topic`; None where the threshold lookup raises KeyError. */
    function CanCreateTopic(c: Config): (r: Option<bool>)
      reads this
      ensures r.None? <==> c.userCreateTopic !in c.repNeed
      ensures r == Some(true) <==> c.userCreateTopic in c.repNeed && reputation >= c.repNeed[c.userCreateTopic]
    {
      Allows(reputation, c.repNeed, c.userCreateTopic)
    }

    /** `can_create_tool`; None where the threshold lookup raises KeyError. */
    function CanCreateTool(c: Config): (r: Option<bool>)
      reads this
      ensures r.None? <==> c.userCreateTool !in c.repNeed
      ensures r == Some(true) <==> c.userCreateTool in c.repNeed && reputation >= c.repNeed[c.userCreateTool]
    {
      Allows(reputation, c.repNeed, c.userCreateTool)
    }
  }

  /** Whether a reputation reaches the threshold configured for a capability. */
  function Allows(reputation: int, need: map<int, int>, capability: int): Option<bool>
  {
    if capability in need then Some(reputation >= need[capability]) else None
  }

  /** A capability once reached stays reached while reputation does not fall. */
  lemma AllowsMonotone(r1: int, r2: int, need: map<int, int>, capability: int)
    requires r1 <= r2 && Allows(r1, need, capability) == Some(true)
    ensures Allows(r2, need, capability) == Some(true)
  {
  }

  /** The authentication user: its profile may not exist yet. */
  class User {
    const username: string
    var profile: Profile?

    constructor (username: string)
      ensures this.username == username && profile == null
    {
      this.username := username;
      profile := null;
    }
  }

  /** The provider and the account data a social sign-up carries. */
  datatype SocialLogin = SocialLogin(provider: string, extraData: map<string, Option<string>>)

  datatype SignUpError =
    | MissingKey(key: string)             // KeyError on extra_data
    | NoProfileBuilt(provider: string)    // UnboundLocalError: neither github nor google

  /** The keys a GitHub sign-up reads, in the order the keyword arguments are evaluated. */
  const GITHUB_KEYS: seq<string> := ["name", "location", "company", "html_url", "blog", "bio"]

  /** The first of `keys` that `d` lacks: where the dictionary lookups raise KeyError. */
  function FirstMissing(keys: seq<string>, d: map<string, Option<string>>): (r: Option<string>)
    ensures r.None? <==> forall k :: k in keys ==> k in d
    ensures r.Some? ==> r.value in keys && r.value !in d
    ensures r.Some? ==> exists i :: 0 <= i < |keys| && keys[i] == r.value && forall j :: 0 <= j < i ==> keys[j] in d
  {
    if keys == [] then None
    else if keys[0] !in d then Some(keys[0])
    else
      var r := FirstMissing(keys[1..], d);
      assert forall k :: k in keys[1..] ==> k in keys;
      assert r.Some? ==> exists i :: 0 <= i < |keys| && keys[i] == r.value && forall j :: 0 <= j < i ==> keys[j] in d by {
        if r.Some? {
          var i :| 0 <= i < |keys[1..]| && keys[1..][i] == r.value && forall j :: 0 <= j < i ==> keys[1..][j] in d;
          assert keys[i + 1] == r.value;
          assert forall j :: 0 <= j < i + 1 ==> keys[j] in d by {
            forall j | 0 <= j < i + 1 ensures keys[j] in d {
              if j > 0 { assert keys[j] == keys[1..][j - 1]; }
            }
          }
        }
      }
      r
  }

  /**
   * `set_initial_user_profile`: a GitHub sign-up copies name, location,
   * company, html_url, blog and bio; a Google sign-up copies the name; a
   * sign-up without a social account gets a default profile. Another
   * provider leaves `profile` unbound, so the handler raises and saves nothing.
   */
  method SetInitialUserProfile(user: User, social: Option<SocialLogin>) returns (err: Option<SignUpError>)
    modifies user`profile
    ensures social.None? ==>
      && err.None? && fresh(user.profile) && user.profile.username == user.username
      && user.profile.oauth == None && user.profile.displayName == None && user.profile.github == None
      && user.profile.location == None && user.profile.company == None && user.profile.website == None
      && user.profile.description == None
    ensures social.Some? && social.value.provider == "github" ==>
      var d := social.value.extraData;
      match FirstMissing(GITHUB_KEYS, d)
      case None =>
        && err.None? && fresh(user.profile) && user.profile.username == user.username
        && user.profile.oauth == Some("github") && user.profile.displayName == d["name"]
        && user.profile.location == d["location"] && user.profile.company == d["company"]
        && user.profile.github == d["html_url"] && user.profile.website == d["blog"]
        && user.profile.description == d["bio"]
      case Some(key) => err == Some(MissingKey(key)) && user.profile == old(user.profile)
    ensures social.Some? && social.value.provider == "google" ==>
      var d := social.value.extraData;
      if "name" in d then
        && err.None? && fresh(user.profile) && user.profile.username == user.username
        && user.profile.oauth == Some("google") && user.profile.displayName == d["name"]
        && user.profile.location == None && user.profile.github == None && user.profile.description == None
        && user.profile.company == None && user.profile.website == None
      else
        err == Some(MissingKey("name")) && user.profile == old(user.profile)
    ensures social.Some? && social.value.provider != "github" && social.value.provider != "google" ==>
      err == Some(NoProfileBuilt(social.value.provider)) && user.profile == old(user.profile)
    ensures err.None? ==>
      && fresh(user.profile) && user.profile.reputation == 0
      && !user.profile.profileInitReward && !user.profile.hasNotification
      && user.profile.avatar == null && user.profile.notifications == [] && user.profile.repuStat == []
      && user.profile.email == "" && user.profile.gitlab == None
  {
    err := None;
    if social.Some? {
      var oauth := social.value.provider;
      var d := social.value.extraData;
      if oauth == "github" {
        var missing := FirstMissing(GITHUB_KEYS, d);
        if missing.Some? {
          return Some(MissingKey(missing.value));
        }
        assert "name" in GITHUB_KEYS && "location" in GITHUB_KEYS && "company" in GITHUB_KEYS;
        assert "html_url" in GITHUB_KEYS && "blog" in GITHUB_KEYS && "bio" in GITHUB_KEYS;
        user.profile := new Profile(user.username, Some(oauth), d["name"], d["location"], d["company"],
                                    d["html_url"], d["blog"], d["bio"]);
      } else if oauth == "google" {
        if "name" !in d {
          return Some(MissingKey("name"));
        }
        user.profile := new Profile(user.username, Some(oauth), d["name"], None, None, None, None, None);
      } else {
        return Some(NoProfileBuilt(oauth));
      }
    } else {
      user.profile := new Profile(user.username, None, None, None, None, None, None, None);
    }
  }

  /** `check_profile`: a login creates a default profile only for a user that has none. */
  method CheckProfile(user: User)
    modifies user`profile
    ensures old(user.profile) != null ==> user.profile == old(user.profile)
    ensures old(user.profile) == null ==>
      && fresh(user.profile) && user.profile.username == user.username
      && user.profile.oauth == None && user.profile.reputation == 0 && !user.profile.profileInitReward
      && user.profile.displayName == None && user.profile.location == None && user.profile.company == None
      && user.profile.github == None && user.profile.website == None && user.profile.description == None
      && user.profile.email == "" && user.profile.gitlab == None && user.profile.avatar == null
      && !user.profile.hasNotification && user.profile.notifications == [] && user.profile.repuStat == []
  {
    if user.profile == null {
      user.profile := new Profile(user.username, None, None, None, None, None, None, None);
    }
  }

  /** Logging in twice leaves the profile the first login left. */
  method CheckProfileTwice(user: User)
    modifies user`profile
    ensures old(user.profile) != null ==> user.profile == old(user.profile)
    ensures old(user.profile) == null ==> fresh(user.profile)
  {
    CheckProfile(user);
    ghost var first := user.profile;
    CheckProfile(user);
    assert user.profile == first;
  }
}

/**
 * niuauth/views.py: the profile settings post with its once-only reward,
 * avatar replacement, the paginated per-user lists, and the notification
 * views.
 *
 * As in the forum views, objects are the stored rows and a method is one
 * request. The random avatar name is a parameter, and the resized copies
 * the avatar row also holds are not modelled.
 */
module AuthViews {
  import opened Wrappers
  import opened Strings
  import opened Settings
  import opened AuthModels
  import opened AuthUtils
  import opened ForumUtils

  /** `image.name.split('.')[-1]`: what follows the last dot, or the whole name without one. */
  function Extension(name: string): (ext: string)
    ensures '.' !in ext
    ensures |ext| <= |name| && name[|name| - |ext|..] == ext
    ensures |ext| < |name| ==> name[|name| - |ext| - 1] == '.'
    ensures ext == name <==> '.' !in name
  {
    LastPiece(name, '.')
  }

  /** `'%s.%s' % (new_name, ext)`. */
  function StoredName(newName: string, ext: string): string
  {
    newName + "." + ext
  }

  /** The stored name keeps the upload's extension, whatever the random name is. */
  lemma StoredNameKeepsExtension(newName: string, ext: string)
    requires '.' !in ext
    ensures Extension(StoredName(newName, ext)) == ext
  {
    var s := StoredName(newName, ext);
    var l := Extension(s);
    assert s[|s| - |ext| - 1] == '.';
    assert s[|s| - |ext|..] == ext;
    assert |l| == |ext|;
    assert s[|s| - |l|..] == s[|s| - |ext|..];
  }

  function AvatarOf(p: Profile): set<Avatar>
    reads p
  {
    if p.avatar == null then {} else {p.avatar}
  }

  /**
   * `_save_avatar`: stores the upload under `newName` with its extension,
   * marks the previous avatar deleted if there was one, and points the
   * profile at the new avatar.
   */
  method SaveAvatar(profile: Profile, imageName: string, newName: string) returns (a: Avatar)
    modifies profile`avatar, AvatarOf(profile)`deleted
    ensures fresh(a) && !a.deleted && a.rawName == StoredName(newName, Extension(imageName))
    ensures profile.avatar == a
    ensures old(profile.avatar) != null ==> old(profile.avatar).deleted
  {
    var ext := Extension(imageName);
    a := new Avatar(StoredName(newName, ext));
    if profile.HasAvatar() {
      profile.avatar.deleted := true;
    }
    profile.avatar := a;
  }

  /** A valid `ProfileForm`'s cleaned data: an optional upload's name, and strings, "" when left blank. */
  datatype ProfileForm = ProfileForm(
    avatar: Option<string>,
    displayName: string,
    description: string,
    website: string,
    company: string,
    email: string,
    location: string,
    github: string,
    gitlab: string)

  datatype SettingsOutcome = SettingsFormInvalid | RewardUnset | Saved

  /** The init reward's condition: `avatar and display_name`. */
  predicate InitRewardEarned(f: ProfileForm)
  {
    f.avatar.Some? && f.displayName != ""
  }

  /** The eight profile fields hold the form's values. */
  ghost predicate HoldsForm(p: Profile, f: ProfileForm)
    reads p
  {
    && p.displayName == Some(f.displayName) && p.description == Some(f.description)
    && p.website == Some(f.website) && p.company == Some(f.company)
    && p.email == f.email && p.location == Some(f.location)
    && p.github == Some(f.github) && p.gitlab == Some(f.gitlab)
  }

  /** `profile.display_name = display_name` and the seven assignments after it. */
  method ApplyForm(profile: Profile, f: ProfileForm)
    modifies profile`displayName, profile`description, profile`website, profile`company
    modifies profile`email, profile`location, profile`github, profile`gitlab
    ensures HoldsForm(profile, f)
  {
    profile.displayName := Some(f.displayName);
    profile.description := Some(f.description);
    profile.website := Some(f.website);
    profile.company := Some(f.company);
    profile.email := f.email;
    profile.location := Some(f.location);
    profile.github := Some(f.github);
    profile.gitlab := Some(f.gitlab);
  }

  /**
   * `SettingsProfileView.post`: a valid form replaces the eight profile
   * fields and, with an upload, the avatar; the first post with both an
   * avatar and a display name pays the init reward and sets the flag. A post
   * whose reward is not configured raises before the profile is saved: the
   * new avatar row and the old one's deletion are stored, the profile is not.
   */
  method PostSettingsProfile(profile: Profile, form: Option<ProfileForm>, newName: string, c: Config)
    returns (r: SettingsOutcome)
    modifies profile`displayName, profile`description, profile`website, profile`company
    modifies profile`email, profile`location, profile`github, profile`gitlab
    modifies profile`avatar, profile`profileInitReward, profile`reputation, profile`repuStat
    modifies AvatarOf(profile)`deleted
    ensures form.None? ==> r == SettingsFormInvalid
    ensures form.None? && old(profile.avatar) != null ==> old(profile.avatar).deleted == old(profile.avatar.deleted)
    ensures r != Saved ==>
      && profile.avatar == old(profile.avatar) && profile.profileInitReward == old(profile.profileInitReward)
      && profile.reputation == old(profile.reputation) && profile.repuStat == old(profile.repuStat)
      && profile.displayName == old(profile.displayName) && profile.description == old(profile.description)
      && profile.website == old(profile.website) && profile.company == old(profile.company)
      && profile.email == old(profile.email) && profile.location == old(profile.location)
      && profile.github == old(profile.github) && profile.gitlab == old(profile.gitlab)
    ensures form.Some? ==>
      var due := RewardDue(old(profile.profileInitReward), InitRewardEarned(form.value));
      && (r == Saved <==> !due || c.repUserInit in c.repGet)
      && (r != Saved ==> r == RewardUnset)
    ensures form.Some? && form.value.avatar.Some? && old(profile.avatar) != null ==> old(profile.avatar).deleted
    ensures form.Some? && form.value.avatar.None? && old(profile.avatar) != null ==>
      old(profile.avatar).deleted == old(profile.avatar.deleted)
    ensures r == Saved ==>
      var f := form.value;
      var due := RewardDue(old(profile.profileInitReward), InitRewardEarned(f));
      && HoldsForm(profile, f)
      && profile.profileInitReward == (old(profile.profileInitReward) || due)
      && (f.avatar.Some? ==>
            fresh(profile.avatar) && !profile.avatar.deleted && profile.avatar.rawName == StoredName(newName, Extension(f.avatar.value)))
      && (f.avatar.None? ==> profile.avatar == old(profile.avatar))
      && (due ==>
            && profile.reputation == old(profile.reputation) + c.repGet[c.repUserInit]
            && profile.repuStat == old(profile.repuStat)
                 + [ReputationStat(c.repUserInit, c.repGet[c.repUserInit], profile.reputation, None, None)])
      && (!due ==> profile.reputation == old(profile.reputation) && profile.repuStat == old(profile.repuStat))
  {
    if form.None? {
      return SettingsFormInvalid;
    }
    var f := form.value;
    var before := profile.avatar;
    if f.avatar.Some? {
      var a := SaveAvatar(profile, f.avatar.value, newName);
    }
    if RewardDue(profile.profileInitReward, InitRewardEarned(f)) {
      var ok := UserReward(profile, c.repGet, c.repUserInit, None, None);
      if !ok {
        profile.avatar := before;  // `profile.save()` is never reached
        return RewardUnset;
      }
      profile.profileInitReward := true;
    }
    ApplyForm(profile, f);
    r := Saved;
  }

  /** Once the init reward is paid, later posts never pay it again. */
  method PostTwice(profile: Profile, f: ProfileForm, g: ProfileForm, n1: string, n2: string, c: Config)
    requires c.repUserInit in c.repGet
    modifies profile`displayName, profile`description, profile`website, profile`company
    modifies profile`email, profile`location, profile`github, profile`gitlab
    modifies profile`avatar, profile`profileInitReward, profile`reputation, profile`repuStat
    modifies AvatarOf(profile)`deleted
    ensures profile.reputation == old(profile.reputation) +
      (if RewardDue(old(profile.profileInitReward), InitRewardEarned(f) || InitRewardEarned(g)) then c.repGet[c.repUserInit] else 0)
  {
    var r1 := PostSettingsProfile(profile, Some(f), n1, c);
    var r2 := PostSettingsProfile(profile, Some(g), n2, c);
  }

  const LIST_PER_PAGE := 10

  /**
   * The per-user lists (a user's replies, a user's topics, one's own
   * notifications): ten a page, a non-integer page is the first, a page out
   * of range the last, and the window radius is 2.
   */
  function ListPage<T>(items: seq<T>, req: PageRequest): (p: Page<T>)
    ensures p == Paginate(items, req, LIST_PER_PAGE, FirstPage)
    ensures req.NotAnInteger? ==> p.number == 1
    ensures req.Number? && !(1 <= req.n <= p.numPages) ==> p.number == p.numPages
  {
    Paginate(items, req, LIST_PER_PAGE, FirstPage)
  }

  /** `NotificationView`: a page of the user's notifications, and the unread flag cleared. */
  method ViewNotifications(profile: Profile, req: PageRequest) returns (page: Page<Notification>)
    modifies profile`hasNotification
    ensures page == ListPage(profile.notifications, req)
    ensures !profile.hasNotification
  {
    page := ListPage(profile.notifications, req);
    profile.hasNotification := false;
  }

  /** `ClearNotificationView`: every notification of the user deleted; the flag is left as it was. */
  method ClearNotifications(profile: Profile)
    modifies profile`notifications
    ensures profile.notifications == []
  {
    profile.notifications := [];
  }
}

/**
 * The user profile page of the browser: the `action` state (nothing, a chosen
 * option key, or the content of an open modal), the effect that turns a chosen
 * key into modal content or the delete confirmation, and account deletion.
 */
module ProfilePage {
  import opened Wrappers

  /** `action`: `false`, a plain string key, or modal content. */
  datatype Action = NoAction | Key(key: string) | ChatModal | UpdateModal | AvatarModal(src: string)

  /** What the select's `onChange` stores: the blank option is `false`, any other value its key. */
  function Chosen(value: string): (a: Action)
    ensures value == "" <==> a == NoAction
    ensures value != "" ==> a == Key(value)
  {
    if value == "" then NoAction else Key(value)
  }

  /** The effect on a key: "message" and "edit" become modal content; "delete" and anything else become `false`. */
  function Settle(a: Action): (r: Action)
    ensures !r.Key?
    ensures !a.Key? ==> r == a
    ensures a.Key? && a.key == "message" ==> r == ChatModal
    ensures a.Key? && a.key == "edit" ==> r == UpdateModal
    ensures a.Key? && a.key != "message" && a.key != "edit" ==> r == NoAction
  {
    match a
    case Key(k) => if k == "message" then ChatModal else if k == "edit" then UpdateModal else NoAction
    case _ => a
  }

  /** The effect opens the delete confirmation exactly for the key "delete". */
  predicate OpensConfirm(a: Action)
  {
    a == Key("delete")
  }

  /** `action !== false && typeof action !== "string"`. */
  predicate IsModalOpen(a: Action)
  {
    a != NoAction && !a.Key?
  }

  /** Settling twice is settling once: once the effect has run, running it again changes nothing. */
  lemma SettleIdempotent(a: Action)
    ensures Settle(Settle(a)) == Settle(a)
  {
  }

  /** After choosing an option, a modal is open exactly for "message" and "edit"; "delete" opens none. */
  lemma ModalAfterChoice(value: string)
    ensures IsModalOpen(Settle(Chosen(value))) <==> value == "message" || value == "edit"
    ensures OpensConfirm(Chosen(value)) <==> value == "delete"
    ensures value == "delete" ==> !IsModalOpen(Settle(Chosen(value)))
  {
  }

  /** The select's values: on one's own profile Update Profile and Delete Account, elsewhere Message. */
  function Options(ownProfile: bool): (r: seq<string>)
    ensures |r| > 0 && r[0] == ""
    ensures "delete" in r <==> ownProfile
    ensures "message" in r <==> !ownProfile
  {
    if ownProfile then ["", "edit", "delete"] else ["", "message"]
  }

  /** `user.username === data?.username`: without data it is not one's own profile. */
  predicate OwnProfile(viewer: string, profileUsername: Option<string>)
  {
    profileUsername.Some? && profileUsername.value == viewer
  }

  /** On another user's profile no option can open the delete confirmation. */
  lemma OthersCannotDelete(viewer: string, profileUsername: Option<string>, value: string)
    requires !OwnProfile(viewer, profileUsername)
    requires value in Options(OwnProfile(viewer, profileUsername))
    ensures !OpensConfirm(Chosen(value))
  {
  }

  /** The page's state. */
  class Profile {
    var action: Action
    var showDeleteConfirm: bool
    var title: string

    constructor (username: string)
      ensures action == NoAction && !showDeleteConfirm && title == "u/" + username
    {
      action := NoAction;
      showDeleteConfirm := false;
      title := "u/" + username;
    }

    /** Choosing an option, followed by the effect the state change triggers. */
    method Select(value: string)
      modifies this
      ensures action == Settle(Chosen(value))
      ensures showDeleteConfirm == (old(showDeleteConfirm) || OpensConfirm(Chosen(value)))
      ensures !action.Key? && title == old(title)
    {
      action := Chosen(value);
      RunEffect();
    }

    /** The effect on `action`. */
    method RunEffect()
      modifies this
      ensures action == Settle(old(action))
      ensures showDeleteConfirm == (old(showDeleteConfirm) || OpensConfirm(old(action)))
      ensures title == old(title)
    {
      if action.Key? {
        if action.key == "delete" {
          showDeleteConfirm := true;
        }
        action := Settle(action);
      }
    }

    /** Clicking the avatar shows it full size; without one, the default picture. */
    method ClickAvatar(avatar: Option<string>)
      modifies this
      ensures action == AvatarModal(if avatar.Some? && avatar.value != "" then avatar.value else "/default_avatar.png")
      ensures IsModalOpen(action) && showDeleteConfirm == old(showDeleteConfirm) && title == old(title)
    {
      action := AvatarModal(if avatar.Some? && avatar.value != "" then avatar.value else "/default_avatar.png");
      RunEffect();
    }

    /** The modal's close sets `action` back to `false`. */
    method CloseModal()
      modifies this
      ensures action == NoAction && showDeleteConfirm == old(showDeleteConfirm) && title == old(title)
    {
      action := NoAction;
    }

    /** Cancel closes the confirmation and sends nothing. */
    method CancelDelete()
      modifies this
      ensures !showDeleteConfirm && action == old(action) && title == old(title)
    {
      showDeleteConfirm := false;
    }

    /**
     * `handleAccountDelete`: the confirmation closes first; the DELETE is sent and
     * the user is logged out only when it succeeds.
     */
    method HandleAccountDelete(ok: bool) returns (loggedOut: bool)
      modifies this
      ensures !showDeleteConfirm && action == old(action) && title == old(title)
      ensures loggedOut <==> ok
    {
      showDeleteConfirm := false;
      loggedOut := ok;
    }

    /** Leaving the page. */
    method Unmount()
      modifies this
      ensures title == "Reddot" && action == old(action) && showDeleteConfirm == old(showDeleteConfirm)
    {
      title := "Reddot";
    }
  }
}

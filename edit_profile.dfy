/**
 * The profile form's save check (`EditProfileForm.handleSave`): a name is
 * required, and a password change needs the current password and a new one
 * of at least six characters.
 */
module EditProfile {
  import opened Wrappers
  import Text
  import opened ClientTypes

  const NameRequired := "Tên không được để trống"
  const WrongOldPassword := "Mật khẩu cũ không đúng"
  const NewPasswordTooShort := "Mật khẩu mới phải dài hơn 6 ký tự"
  const MinPasswordLength := 6

  /** The form's outcome: the message shown, or the update handed to `onUpdateProfile`. */
  datatype SaveResult = Refused(message: string) | Saved(updates: UserPatch)

  /** The checks `handleSave` runs, in order; `None` when all pass. */
  function Check(user: User, editName: string, oldPass: string, newPass: string): (r: Option<string>)
    ensures Text.Trim(editName) == "" ==> r == Some(NameRequired)
    ensures Text.Trim(editName) != "" && oldPass == "" && newPass == "" ==> r == None
    ensures Text.Trim(editName) != "" && (oldPass != "" || newPass != "") ==>
      r == (if oldPass != user.password then Some(WrongOldPassword)
            else if |newPass| < MinPasswordLength then Some(NewPasswordTooShort)
            else None)
  {
    if Text.Trim(editName) == "" then Some(NameRequired)
    else if oldPass != "" || newPass != "" then
      if oldPass != user.password then Some(WrongOldPassword)
      else if |newPass| < MinPasswordLength then Some(NewPasswordTooShort)
      else None
    else None
  }

  /**
   * `handleSave`: the first failing check's message, or an update that
   * always holds the name and avatar and holds the password only when a new
   * one was typed.
   */
  function HandleSave(user: User, editName: string, editAvatar: string, oldPass: string, newPass: string): (r: SaveResult)
    ensures r.Refused? <==> Check(user, editName, oldPass, newPass).Some?
    ensures r.Refused? ==> r.message == Check(user, editName, oldPass, newPass).value
    ensures r.Saved? ==>
      && r.updates.name == Some(editName) && r.updates.avatarUrl == Some(editAvatar)
      && r.updates.password == (if newPass != "" then Some(newPass) else None)
      && r.updates.id.None? && r.updates.email.None? && r.updates.role.None?
      && r.updates.library.None? && r.updates.downloadedChapters.None?
  {
    match Check(user, editName, oldPass, newPass)
    case Some(message) => Refused(message)
    case None =>
      Saved(UserPatch(None, None, if newPass != "" then Some(newPass) else None, Some(editName), Some(editAvatar),
                      None, None, None))
  }

  /**
   * Saving never changes who the user is, and never leaves a password shorter
   * than six characters unless it keeps the old one: the password stays unless
   * the old one was given correctly.
   */
  lemma SavedProfile(user: User, editName: string, editAvatar: string, oldPass: string, newPass: string)
    requires HandleSave(user, editName, editAvatar, oldPass, newPass).Saved?
    ensures var u := MergeUser(user, HandleSave(user, editName, editAvatar, oldPass, newPass).updates);
      && u.id == user.id && u.email == user.email && u.role == user.role
      && Text.Trim(u.name) != ""
      && (u.password == user.password || (oldPass == user.password && |u.password| >= MinPasswordLength))
  {
  }

  /** Leaving both password fields empty skips the password checks entirely. */
  lemma NoPasswordNoChecks(user: User, editName: string, editAvatar: string)
    ensures HandleSave(user, editName, editAvatar, "", "").Saved? <==> Text.Trim(editName) != ""
  {
  }
}

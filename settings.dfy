/**
 * The settings page's password change: the form's validation rule, and the sequence of
 * re-authentication and update against the authentication service, whose answers are inputs.
 */
module Settings {
  import opened Outcomes

  datatype PasswordForm = PasswordForm(currentPassword: string, newPassword: string, confirmPassword: string)

  datatype Field = CurrentPassword | NewPassword | ConfirmPassword

  datatype FieldError = FieldError(field: Field, message: string)

  /**
   * `passwordSchema`'s findings, field checks first and the match rule last. Lengths count
   * string elements.
   */
  function PasswordErrors(f: PasswordForm): (errors: seq<FieldError>)
    ensures FieldError(ConfirmPassword, "Passwords don't match") in errors <==> f.newPassword != f.confirmPassword
  {
    (if |f.currentPassword| < 1 then [FieldError(CurrentPassword, "Current password is required")] else [])
    + (if |f.newPassword| < 6 then [FieldError(NewPassword, "Password must be at least 6 characters")] else [])
    + (if |f.confirmPassword| < 6 then [FieldError(ConfirmPassword, "Please confirm your password")] else [])
    + (if f.newPassword != f.confirmPassword then [FieldError(ConfirmPassword, "Passwords don't match")] else [])
  }

  /** The form is submitted only when the schema finds nothing. */
  predicate Accepted(f: PasswordForm)
  {
    PasswordErrors(f) == []
  }

  /** Accepted exactly when a current password is given, the new one has at least 6 characters and is confirmed. */
  lemma AcceptedIff(f: PasswordForm)
    ensures Accepted(f) <==>
      f.currentPassword != "" && |f.newPassword| >= 6 && |f.confirmPassword| >= 6 && f.newPassword == f.confirmPassword
    ensures Accepted(f) <==> f.currentPassword != "" && |f.newPassword| >= 6 && f.newPassword == f.confirmPassword
  {
  }

  /** A notification shown to the user. */
  datatype Toast = ErrorToast(message: string) | SuccessToast(message: string)

  /**
   * What `handleUpdatePassword` asked of the authentication service (the email and password
   * it signed in with, the password it set) and what it showed.
   */
  datatype PasswordOutcome = PasswordOutcome(signIn: Option<(string, string)>, update: Option<string>, toast: Toast)

  const EmptyPasswordForm := PasswordForm("", "", "")

  class SettingsPage {
    var isUpdatingPassword: bool
    var passwordForm: PasswordForm

    constructor ()
      ensures !isUpdatingPassword && passwordForm == EmptyPasswordForm
    {
      isUpdatingPassword, passwordForm := false, EmptyPasswordForm;
    }

    /**
     * `handleUpdatePassword` for an accepted form. When the user has an email the current
     * password is checked by signing in first, and a failure stops there. The update's error
     * message is shown as is. The form is cleared only after a successful update, and the
     * busy flag is down again on every way out.
     */
    method UpdatePassword(data: PasswordForm, userEmail: Option<string>, signInFails: bool,
                          updateFails: bool, updateErrorMessage: string)
      returns (outcome: PasswordOutcome)
      modifies this
      ensures !isUpdatingPassword
      ensures outcome.signIn == if userEmail.Some? && userEmail.value != ""
                                then Some((userEmail.value, data.currentPassword)) else None
      ensures outcome.update.Some? <==> !(outcome.signIn.Some? && signInFails)
      ensures outcome.update.Some? ==> outcome.update.value == data.newPassword
      ensures outcome.signIn.Some? && signInFails ==> outcome.toast == ErrorToast("Current password is incorrect")
      ensures outcome.update.Some? && updateFails ==> outcome.toast == ErrorToast(updateErrorMessage)
      ensures outcome.toast.SuccessToast? <==> outcome.update.Some? && !updateFails
      ensures outcome.toast.SuccessToast? ==> outcome.toast.message == "Password updated successfully"
      ensures passwordForm == if outcome.toast.SuccessToast? then EmptyPasswordForm else old(passwordForm)
    {
      isUpdatingPassword := true;
      var signIn: Option<(string, string)> := None;
      if userEmail.Some? && userEmail.value != "" {
        signIn := Some((userEmail.value, data.currentPassword));
        if signInFails {
          isUpdatingPassword := false;
          return PasswordOutcome(signIn, None, ErrorToast("Current password is incorrect"));
        }
      }
      if updateFails {
        isUpdatingPassword := false;
        return PasswordOutcome(signIn, Some(data.newPassword), ErrorToast(updateErrorMessage));
      }
      passwordForm := EmptyPasswordForm;
      isUpdatingPassword := false;
      return PasswordOutcome(signIn, Some(data.newPassword), SuccessToast("Password updated successfully"));
    }
  }
}

/**
 * The registration page (register.php): a logged-in visitor is sent home;
 * a submitted form goes through four checks in a fixed order, the first
 * failure being reported, and only a form passing all of them reaches
 * `User::register`.
 */
module Registration {
  import opened Wrappers
  import opened Text
  import opened Users
  import opened Session

  /** The posted fields; `None` is a field missing from the request. */
  datatype RegisterForm = RegisterForm(nim: Option<string>, name: Option<string>, password: Option<string>, confirmPassword: Option<string>)

  /** The result of the checks: the first error, or the values handed to `register`. */
  datatype Validation = Rejected(error: string) | Accepted(nim: string, name: string, password: string)

  /** `preg_match('/^[0-9]+$/', s)` on a trimmed string: one or more ASCII digits. */
  predicate IsDigits(s: string) {
    s != [] && forall k :: 0 <= k < |s| ==> '0' <= s[k] <= '9'
  }

  /** The nim and name are trimmed, the password and its confirmation are not. */
  function FormNim(form: RegisterForm): string { PhpTrim(form.nim.GetOr("")) }
  function FormName(form: RegisterForm): string { PhpTrim(form.name.GetOr("")) }

  /** The four checks, in order. */
  function Validate(form: RegisterForm): (v: Validation)
    ensures v.Accepted? <==>
      !PhpEmpty(FormNim(form)) && !PhpEmpty(FormName(form)) && !PhpEmpty(form.password.GetOr("")) &&
      form.password.GetOr("") == form.confirmPassword.GetOr("") &&
      Utf8Length(form.password.GetOr("")) >= 6 && IsDigits(FormNim(form))
    ensures v.Accepted? ==> v == Accepted(FormNim(form), FormName(form), form.password.GetOr(""))
    ensures PhpEmpty(FormNim(form)) || PhpEmpty(FormName(form)) || PhpEmpty(form.password.GetOr("")) ==>
      v == Rejected("All fields are required")
  {
    var nim := FormNim(form);
    var name := FormName(form);
    var password := form.password.GetOr("");
    var confirmPassword := form.confirmPassword.GetOr("");
    if PhpEmpty(nim) || PhpEmpty(name) || PhpEmpty(password) then Rejected("All fields are required")
    else if password != confirmPassword then Rejected("Passwords do not match")
    else if Utf8Length(password) < 6 then Rejected("Password must be at least 6 characters")
    else if !IsDigits(nim) then Rejected("NIM must contain only numbers")
    else Accepted(nim, name, password)
  }

  /** The first failing check decides: each message is reported exactly when the earlier checks pass and its own fails. */
  lemma FirstFailureWins(form: RegisterForm)
    ensures var nim, name, password := FormNim(form), FormName(form), form.password.GetOr("");
      var filled := !PhpEmpty(nim) && !PhpEmpty(name) && !PhpEmpty(password);
      var same := password == form.confirmPassword.GetOr("");
      (Validate(form) == Rejected("Passwords do not match") <==> filled && !same) &&
      (Validate(form) == Rejected("Password must be at least 6 characters") <==> filled && same && Utf8Length(password) < 6) &&
      (Validate(form) == Rejected("NIM must contain only numbers") <==>
         filled && same && Utf8Length(password) >= 6 && !IsDigits(nim))
  {
  }

  /** A nim or password of "0" counts as missing. */
  lemma ZeroIsMissing(form: RegisterForm)
    requires form.nim == Some("0") || form.password == Some("0")
    ensures Validate(form) == Rejected("All fields are required")
  {
    if form.nim == Some("0") {
      TrimKeepsTrimmed("0", IsPhpWhite);
    }
  }

  /** A password of exactly six bytes passes the length check. */
  lemma SixBytesSuffice(form: RegisterForm)
    requires !PhpEmpty(FormName(form)) && IsDigits(FormNim(form)) && FormNim(form) != "0"
    requires form.password == form.confirmPassword && Utf8Length(form.password.GetOr("")) == 6
    ensures Validate(form) == Accepted(FormNim(form), FormName(form), form.password.GetOr(""))
  {
  }

  /** The password is not trimmed: a trailing space makes it differ from a confirmation without one. */
  lemma PasswordNotTrimmed(form: RegisterForm, p: string)
    requires !PhpEmpty(FormNim(form)) && !PhpEmpty(FormName(form))
    requires form.password == Some(p + " ") && form.confirmPassword == Some(p)
    ensures Validate(form) == Rejected("Passwords do not match")
  {
    assert |p + " "| != |p|;
    assert (p + " ")[|p|] == ' ';
  }

  /** What the page shows. */
  datatype RegisterPage = RedirectToIndex | ShowForm(error: string, success: string)

  /**
   * The page: logged-in visitors are redirected; a GET shows the empty form;
   * a POST is checked and, when it passes, registered; the store's failure
   * message is shown as it is. `hashed` is what `password_hash` returns
   * for the password and `insertSucceeds` whether the INSERT executes.
   */
  method HandleRegistration(session: PhpSession, store: UserStore, isPost: bool, form: RegisterForm,
                            hashed: string, insertSucceeds: bool) returns (page: RegisterPage)
    requires store.Valid()
    modifies store
    ensures store.Valid()
    ensures store.sessions == old(store.sessions) && store.nextSessionRowId == old(store.nextSessionRowId)
    ensures session.IsLoggedIn() ==> page == RedirectToIndex && store.users == old(store.users)
    ensures !session.IsLoggedIn() && !isPost ==> page == ShowForm("", "") && store.users == old(store.users)
    ensures !session.IsLoggedIn() && isPost && Validate(form).Rejected? ==>
      page == ShowForm(Validate(form).error, "") && store.users == old(store.users)
    ensures !session.IsLoggedIn() && isPost && Validate(form).Accepted? && NimTaken(old(store.users.rows), Validate(form).nim) ==>
      page == ShowForm("NIM already registered", "") && store.users == old(store.users)
    ensures !session.IsLoggedIn() && isPost && Validate(form).Accepted? && !NimTaken(old(store.users.rows), Validate(form).nim) ==>
      page == (if insertSucceeds then ShowForm("", "Registration successful! You can now login.") else ShowForm("Failed to register user", "")) &&
      store.users == (if insertSucceeds
                      then UsersTable(old(store.users.rows) + [UserRow(old(store.users.nextId), Validate(form).nim, Validate(form).name, hashed)], old(store.users.nextId) + 1)
                      else old(store.users))
    ensures page == ShowForm("", "Registration successful! You can now login.") ==>
      Validate(form).Accepted? && store.users.rows == old(store.users.rows) + [UserRow(old(store.users.nextId), Validate(form).nim, Validate(form).name, hashed)]
  {
    if session.IsLoggedIn() {
      return RedirectToIndex;
    }
    if !isPost {
      return ShowForm("", "");
    }
    var v := Validate(form);
    if v.Rejected? {
      return ShowForm(v.error, "");
    }
    var result := store.Register(v.nim, v.name, hashed, insertSucceeds);
    if result.Registered? {
      page := ShowForm("", "Registration successful! You can now login.");
    } else {
      page := ShowForm(result.message, "");
    }
  }

  /** Every accepted registration stores a nim of digits and a password of at least six bytes. */
  lemma AcceptedIsWellFormed(form: RegisterForm)
    requires Validate(form).Accepted?
    ensures IsDigits(Validate(form).nim) && Utf8Length(Validate(form).password) >= 6
    ensures !PhpEmpty(Validate(form).name) && Validate(form).password == form.confirmPassword.GetOr("")
  {
  }
}

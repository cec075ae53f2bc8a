/** The sign-in form of components/LoginPage.tsx: what a submit decides
    against the list of registered users, and how the form's error message
    follows the submits and the switch between signing in and signing up. */
module Login {
  import opened Common

  /** A registered user; the password is optional in the stored records. */
  datatype User = User(email: string, password: Option<string>)

  /** What a submit leads to: a message shown on the form, `onLogin`, or
      `onSignUp`. */
  datatype Outcome = Rejected(message: string) | LogIn(email: string) | SignUp(email: string, password: string)

  /** The form: which of the two views is shown, the two fields and the
      message under them (empty when there is none). */
  datatype Form = Form(isLoginView: bool, email: string, password: string, error: string)

  const FillInAllFields := "Please fill in all fields."
  const InvalidPassword := "Invalid password."
  const NoAccount := "No account found with this email. Please sign up."
  const EmailTaken := "An account with this email already exists."

  /** `users.find(user => user.email === email)`: the first user with that
      email, or none when no user has it. */
  function FindUser(users: seq<User>, email: string): (r: Option<User>)
    ensures r.None? <==> forall i :: 0 <= i < |users| ==> users[i].email != email
    ensures r.Some? ==>
      exists i :: 0 <= i < |users| && users[i] == r.value && r.value.email == email &&
        forall k :: 0 <= k < i ==> users[k].email != email
  {
    if users == [] then None
    else if users[0].email == email then Some(users[0])
    else
      var r := FindUser(users[1..], email);
      assert forall i :: 1 <= i < |users| ==> users[1..][i - 1] == users[i];
      r
  }

  /** `users.some(user => user.email === email)`. */
  predicate EmailTakenBy(users: seq<User>, email: string)
  {
    exists i :: 0 <= i < |users| && users[i].email == email
  }

  /** Both fields hold something. */
  predicate Filled(form: Form)
  {
    form.email != [] && form.password != []
  }

  /** `handleSubmit`: empty fields are refused first; signing in looks the
      email up and compares the password; signing up refuses an email that
      is already registered. A refusal shows one of the four messages; a
      sign-in names the email typed, a sign-up hands over both fields. */
  function Decide(form: Form, users: seq<User>): (r: Outcome)
    ensures r.Rejected? ==>
      r.message == FillInAllFields || r.message == InvalidPassword || r.message == NoAccount || r.message == EmailTaken
    ensures r.LogIn? ==> r.email == form.email && form.isLoginView
    ensures r.SignUp? ==> r.email == form.email && r.password == form.password && !form.isLoginView
  {
    if !Filled(form) then Rejected(FillInAllFields)
    else if form.isLoginView then
      match FindUser(users, form.email)
      case None => Rejected(NoAccount)
      case Some(u) => if u.password == Some(form.password) then LogIn(form.email) else Rejected(InvalidPassword)
    else if EmailTakenBy(users, form.email) then Rejected(EmailTaken)
    else SignUp(form.email, form.password)
  }

  /** The form after a submit: the message is cleared first and set only
      when the submit is refused. */
  function AfterSubmit(form: Form, users: seq<User>): (r: Form)
    ensures r.isLoginView == form.isLoginView && r.email == form.email && r.password == form.password
    ensures r.error != "" <==> Decide(form, users).Rejected?
    ensures Decide(form, users).Rejected? ==> r.error == Decide(form, users).message
  {
    match Decide(form, users)
    case Rejected(message) => form.(error := message)
    case _ => form.(error := "")
  }

  /** The link under the form: the other view, with the message cleared. */
  function Toggle(form: Form): (r: Form)
    ensures r.isLoginView == !form.isLoginView && r.error == ""
    ensures r.email == form.email && r.password == form.password
  {
    Form(!form.isLoginView, form.email, form.password, "")
  }

  /** The outcomes of a submit, case by case: a submit is refused as unfilled
      exactly when a field is empty, whatever the view; signing in succeeds exactly when the first user
      with the email has the password given, and says which check failed
      otherwise; signing up succeeds exactly when no user has the email, and
      then hands over the two fields. */
  lemma {:induction false} DecideSpec(form: Form, users: seq<User>)
    ensures var r := Decide(form, users);
      (r == Rejected(FillInAllFields) <==> !Filled(form)) &&
      (r.LogIn? <==>
        form.isLoginView && Filled(form) &&
        FindUser(users, form.email).Some? && FindUser(users, form.email).value.password == Some(form.password)) &&
      (r.LogIn? ==> r.email == form.email) &&
      (r == Rejected(InvalidPassword) <==>
        form.isLoginView && Filled(form) &&
        FindUser(users, form.email).Some? && FindUser(users, form.email).value.password != Some(form.password)) &&
      (r == Rejected(NoAccount) <==>
        form.isLoginView && Filled(form) && !EmailTakenBy(users, form.email)) &&
      (r.SignUp? <==>
        !form.isLoginView && Filled(form) && !EmailTakenBy(users, form.email)) &&
      (r.SignUp? ==> r.email == form.email && r.password == form.password) &&
      (r == Rejected(EmailTaken) <==>
        !form.isLoginView && Filled(form) && EmailTakenBy(users, form.email))
  {
    if !EmailTakenBy(users, form.email) {
      assert FindUser(users, form.email).None?;
    } else if form.isLoginView {
      assert FindUser(users, form.email).Some?;
    }
  }

  /** No two registered users share an email. */
  predicate UniqueEmails(users: seq<User>)
  {
    forall i, k :: 0 <= i < k < |users| ==> users[i].email != users[k].email
  }

  /** What `onSignUp` does with a new account (App.tsx): the record is
      appended to the stored users. */
  function Register(users: seq<User>, email: string, password: string): (r: seq<User>)
    ensures |r| == |users| + 1 && r[..|users|] == users
  {
    users + [User(email, Some(password))]
  }

  /** Signing up never registers an email twice: the outcome it hands to
      `onSignUp` keeps the emails unique. */
  lemma {:induction false} SignUpKeepsEmailsUnique(form: Form, users: seq<User>)
    requires UniqueEmails(users) && Decide(form, users).SignUp?
    ensures UniqueEmails(Register(users, form.email, form.password))
  {
    DecideSpec(form, users);
  }

  /** With unique emails, signing in succeeds exactly when some user has both
      the email and the password given. */
  lemma {:induction false} LogInIffRegistered(form: Form, users: seq<User>)
    requires UniqueEmails(users) && form.isLoginView && Filled(form)
    ensures Decide(form, users).LogIn? <==>
      exists i :: 0 <= i < |users| && users[i] == User(form.email, Some(form.password))
  {
    DecideSpec(form, users);
    if i :| 0 <= i < |users| && users[i] == User(form.email, Some(form.password)) {
      var u := FindUser(users, form.email);
      var k :| 0 <= k < |users| && users[k] == u.value && u.value.email == form.email &&
        forall k' :: 0 <= k' < k ==> users[k'].email != form.email;
      assert k == i;
    }
  }

  /** Signing up and then signing in with the same fields logs the new user
      in. */
  lemma {:induction false} SignUpThenSignIn(form: Form, users: seq<User>)
    requires Decide(form, users).SignUp?
    ensures Decide(Toggle(form), Register(users, form.email, form.password)) == LogIn(form.email)
  {
    DecideSpec(form, users);
    var users' := Register(users, form.email, form.password);
    var found := FindUser(users', form.email);
    assert users'[|users|] == User(form.email, Some(form.password));
    var i :| 0 <= i < |users'| && users'[i] == found.value && found.value.email == form.email &&
      forall k :: 0 <= k < i ==> users'[k].email != form.email;
  }
}

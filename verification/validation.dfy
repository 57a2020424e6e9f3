/** The two email checks of src/components/Form.js: the format check run as an
    effect whenever `store.email` changes, and the simulated server check
    (`validator`) run on sign-up.
 */
module Validation {
  import opened Values

  const NotValid := "Email is not valid"
  const AlreadyExists := "Email is already exists"

  /** The simulated server's list of taken addresses (`notAllowed`). */
  const Denylist: seq<string> := ["test@test.test"]

  /** The format heuristic: longer than three characters, with an `@` and a `.`. */
  predicate WellFormed(email: string) {
    |email| > 3 && '@' in email && '.' in email
  }

  /** The email effect: the next `emailError` given the current email and the
      previous error. An empty or unset email returns early. */
  function EmailCheck(email: Option<string>, previous: Option<string>): (r: Option<string>)
    ensures !Truthy(email) ==> r == previous
    ensures Truthy(email) && WellFormed(email.value) ==> r.None?
    ensures Truthy(email) && !WellFormed(email.value) ==> r == Some(NotValid)
  {
    if !Truthy(email) then previous
    else if WellFormed(email.value) then None
    else Some(NotValid)
  }

  /** Once an email is entered, the check forgets the previous error, so running
      it again changes nothing. */
  lemma EmailCheckSettles(email: Option<string>, previous: Option<string>, other: Option<string>)
    ensures EmailCheck(email, EmailCheck(email, previous)) == EmailCheck(email, previous)
    ensures Truthy(email) ==> EmailCheck(email, previous) == EmailCheck(email, other)
    ensures Truthy(email) ==> (EmailCheck(email, previous).None? <==> WellFormed(email.value))
  {
  }

  /** The boundary cases: "" keeps the previous error, "ab@" (three characters)
      and "plainstring" are rejected, "a@b." is accepted. */
  lemma EmailCheckExamples(previous: Option<string>)
    ensures EmailCheck(Some(""), previous) == previous
    ensures EmailCheck(None, previous) == previous
    ensures EmailCheck(Some("ab@"), previous) == Some(NotValid)
    ensures EmailCheck(Some("a@b."), previous) == None
    ensures EmailCheck(Some("plainstring"), previous) == Some(NotValid)
  {
    assert '@' in "a@b." && '.' in "a@b.";
    assert '@' !in "plainstring";
  }

  /** The observable part of a submission: `loading`, `emailError`, `finish`. */
  datatype Status = Status(loading: bool, emailError: Option<string>, finish: bool)

  const Idle: Status := Status(false, None, false)

  /** The simulated server rejects the email: it is set and on the denylist
      (Form.js:71). */
  predicate Denied(email: Option<string>) {
    email.Some? && email.value in Denylist
  }

  /** The synchronous half of `validator`: it marks the submission as loading
      and changes nothing else (Form.js:69). */
  function Start(st: Status): (r: Status)
    ensures r.loading
    ensures r.emailError == st.emailError && r.finish == st.finish
  {
    st.(loading := true)
  }

  /** The timer callback and the promise handlers: a denied email rejects and
      sets the "already exists" error, any other email resolves and finishes. */
  function Resolve(st: Status, email: Option<string>): (r: Status)
    ensures !r.loading
    ensures Denied(email) ==> r.emailError == Some(AlreadyExists) && r.finish == st.finish
    ensures !Denied(email) ==> r.finish && r.emailError == st.emailError
  {
    if Denied(email) then st.(loading := false, emailError := Some(AlreadyExists))
    else st.(loading := false, finish := true)
  }

  /** A whole submission: loading in between; afterwards, a denied email ends with
      the "already exists" error and `finish` as it was, any other email ends
      finished with the error as it was. */
  lemma SubmissionOutcome(st: Status, email: Option<string>)
    ensures Start(st).loading
    ensures Denied(email) ==> Resolve(Start(st), email) == Status(false, Some(AlreadyExists), st.finish)
    ensures !Denied(email) ==> Resolve(Start(st), email) == Status(false, st.emailError, true)
  {
  }

  /** The listed address is denied; "new@user.com" and an unset email are not. */
  lemma DenylistExamples()
    ensures Denied(Some("test@test.test"))
    ensures !Denied(Some("new@user.com"))
    ensures !Denied(None)
  {
  }
}

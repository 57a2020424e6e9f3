/** Concrete runs of the registration form from mounting. */
module Scenarios {
  import opened Values
  import opened Registration
  import opened Validation
  import opened Draft
  import opened RegistrationForm

  /** Composing a hobby with both fields filled and clicking "Add one" appends
      it and clears the draft, from any state. */
  lemma ComposeAndAdd(st: State, name: string, duration: string)
    requires name != "" && duration != ""
    ensures Run(st, [TypeHobbyName(name), TypeHobbyDuration(duration), ClickAddOne])
      == st.(store := st.store.(hobbies := st.store.hobbies + [Hobby(Some(name), Some(duration))]), draft := Cleared)
  {
    var h := Hobby(Some(name), Some(duration));
    var s1 := Step(st, TypeHobbyName(name));
    var s2 := Step(s1, TypeHobbyDuration(duration));
    assert s2 == st.(draft := h);
    var s3 := Step(s2, ClickAddOne);
    AddOneIsGated(s2);
    assert s3.store == st.store.(hobbies := st.store.hobbies + [h]);
    var es := [TypeHobbyName(name), TypeHobbyDuration(duration), ClickAddOne];
    assert es[1..] == [TypeHobbyDuration(duration), ClickAddOne];
    assert es[1..][1..] == [ClickAddOne];
    assert Run(s3, []) == s3;
    assert Run(s2, [ClickAddOne]) == s3;
    assert Run(s1, es[1..]) == s3;
  }

  /** Deleting a row from a state with the given hobbies. */
  lemma DeleteRow(st: State, row: nat)
    requires row < |st.store.hobbies|
    ensures Run(st, [ClickDelete(row)]).store.hobbies == RemoveNamed(st.store.hobbies, st.store.hobbies[row].name)
  {
    assert Run(Step(st, ClickDelete(row)), []) == Step(st, ClickDelete(row));
  }

  /** Composing and adding "chess"/"2y", then deleting its row, leaves no hobbies. */
  lemma HobbyAddDeleteRoundTrip()
    ensures Run(Mounted, [TypeHobbyName("chess"), TypeHobbyDuration("2y"), ClickAddOne] + [ClickDelete(0)]).store.hobbies == []
  {
    var add := [TypeHobbyName("chess"), TypeHobbyDuration("2y"), ClickAddOne];
    RunAppend(Mounted, add, [ClickDelete(0)]);
    ComposeAndAdd(Mounted, "chess", "2y");
    var s := Run(Mounted, add);
    assert s.store.hobbies == [Hobby(Some("chess"), Some("2y"))];
    DeleteRow(s, 0);
    assert [Hobby(Some("chess"), Some("2y"))][1..] == [];
  }

  /** Two entries named "chess" are both removed by deleting either row. */
  lemma DeleteRemovesEveryEntryOfTheName()
    ensures var first := [TypeHobbyName("chess"), TypeHobbyDuration("1y"), ClickAddOne];
      var second := [TypeHobbyName("chess"), TypeHobbyDuration("2y"), ClickAddOne];
      Run(Mounted, first + second + [ClickDelete(1)]).store.hobbies == []
  {
    var first := [TypeHobbyName("chess"), TypeHobbyDuration("1y"), ClickAddOne];
    var second := [TypeHobbyName("chess"), TypeHobbyDuration("2y"), ClickAddOne];
    RunAppend(Mounted, first + second, [ClickDelete(1)]);
    RunAppend(Mounted, first, second);
    ComposeAndAdd(Mounted, "chess", "1y");
    var s1 := Run(Mounted, first);
    ComposeAndAdd(s1, "chess", "2y");
    var s2 := Run(s1, second);
    var hs := [Hobby(Some("chess"), Some("1y")), Hobby(Some("chess"), Some("2y"))];
    assert s2.store.hobbies == hs;
    DeleteRow(s2, 1);
    RemoveNamedAbsent([], Some("chess"));
    assert hs[1..] == [hs[1]] && hs[1..][1..] == [];
  }

  /** The events that fill in an email and one hobby, enough to enable "Sign up". */
  function Prepare(email: string): seq<Event> {
    [TypeEmail(email), TypeHobbyName("chess"), TypeHobbyDuration("2y"), ClickAddOne]
  }

  /** The state those events reach for a well-formed email. */
  function Prepared(email: string): State {
    State(Store(None, None, None, Some(email), None, None, [Hobby(Some("chess"), Some("2y"))]),
          Cleared, Idle, None)
  }

  lemma PrepareReaches(email: string)
    requires WellFormed(email)
    ensures Run(Mounted, Prepare(email)) == Prepared(email)
    ensures Inv(Prepared(email)) && !SignUpDisabled(Prepared(email).store, None)
  {
    var compose := [TypeHobbyName("chess"), TypeHobbyDuration("2y"), ClickAddOne];
    assert Prepare(email) == [TypeEmail(email)] + compose;
    RunAppend(Mounted, [TypeEmail(email)], compose);
    var s1 := Step(Mounted, TypeEmail(email));
    SetFieldReplacesOnlyItsField(Initial, Email, email);
    assert s1 == State(Initial.(email := Some(email)), Blank, Idle, None);
    assert Run(Mounted, [TypeEmail(email)]) == s1 by {
      assert Run(s1, []) == s1;
    }
    ComposeAndAdd(s1, "chess", "2y");
    assert forall g :: Get(Prepared(email).store, g) != Some("");
  }

  lemma WellFormedExamples()
    ensures WellFormed("test@test.test") && WellFormed("new@user.com")
  {
    assert "test@test.test"[4] == '@' && "test@test.test"[9] == '.';
    assert "new@user.com"[3] == '@' && "new@user.com"[8] == '.';
  }

  /** The state after signing up from `Prepared(email)`. */
  function Submitted(email: string): State {
    var p := Prepared(email);
    p.(status := Status(true, None, false), pending := Some(p.store))
  }

  lemma SubmitFromPrepared(email: string)
    requires WellFormed(email)
    ensures Step(Prepared(email), ClickSignUp) == Submitted(email)
  {
    PrepareReaches(email);
  }

  /** From `Prepared(email)`, signing up and letting the timer fire resolves on
      that email. */
  lemma SubmitAndResolve(email: string)
    requires WellFormed(email)
    ensures Run(Prepared(email), [ClickSignUp, TimerFires]).status == Resolve(Status(true, None, false), Some(email))
  {
    SubmitFromPrepared(email);
    var s1 := Submitted(email);
    var s2 := Step(s1, TimerFires);
    assert s2.status == Resolve(Status(true, None, false), Some(email));
    assert [ClickSignUp, TimerFires][1..] == [TimerFires];
    assert Run(s2, []) == s2;
    assert Run(s1, [TimerFires]) == s2;
  }

  /** Signing up with the denied address ends with the "already exists" error,
      not loading and not finished. A hobby is added first: with an empty hobby
      list and no error, the button is disabled. */
  lemma DeniedSignUp()
    ensures Run(Mounted, Prepare("test@test.test") + [ClickSignUp, TimerFires]).status
      == Status(false, Some(AlreadyExists), false)
  {
    WellFormedExamples();
    PrepareReaches("test@test.test");
    RunAppend(Mounted, Prepare("test@test.test"), [ClickSignUp, TimerFires]);
    SubmitAndResolve("test@test.test");
    DenylistExamples();
  }

  /** Signing up with any other accepted address ends finished, not loading,
      and with the error as it was. */
  lemma AcceptedSignUp()
    ensures Run(Mounted, Prepare("new@user.com") + [ClickSignUp, TimerFires]).status
      == Status(false, None, true)
  {
    WellFormedExamples();
    PrepareReaches("new@user.com");
    RunAppend(Mounted, Prepare("new@user.com"), [ClickSignUp, TimerFires]);
    SubmitAndResolve("new@user.com");
    DenylistExamples();
  }

  /** Clearing a malformed email does not clear its error: the effect returns
      early on an empty email. */
  lemma ClearedEmailKeepsStaleError()
    ensures Run(Mounted, [TypeEmail("ab"), TypeEmail("")]).status.emailError == Some(NotValid)
  {
    var s1 := Step(Mounted, TypeEmail("ab"));
    assert s1.status.emailError == Some(NotValid);
    var s2 := Step(s1, TypeEmail(""));
    assert Run(s2, []) == s2;
  }

  lemma EditWhilePending(email: string, other: string)
    requires WellFormed(other)
    ensures Step(Submitted(email), TypeEmail(other))
      == Submitted(email).(store := Prepared(other).store)
  {
    var st := Submitted(email);
    SetFieldReplacesOnlyItsField(st.store, Email, other);
    assert Reducer(st.store, Message("INIT_EMAIL", Text(other))) == Prepared(other).store;
  }

  lemma PendingEditTail(email: string, other: string)
    requires WellFormed(email) && WellFormed(other) && other != email
    ensures var r := Run(Prepared(email), [ClickSignUp, TypeEmail(other), TimerFires]);
      r.store == Prepared(other).store && r.status == Resolve(Status(true, None, false), Some(email))
  {
    SubmitFromPrepared(email);
    EditWhilePending(email, other);
    var s6 := Submitted(email).(store := Prepared(other).store);
    var s7 := Step(s6, TimerFires);
    var es := [ClickSignUp, TypeEmail(other), TimerFires];
    assert es[1..] == [TypeEmail(other), TimerFires];
    assert es[1..][1..] == [TimerFires];
    assert Run(s6, [TimerFires]) == s7;
    assert Run(Submitted(email), es[1..]) == s7;
  }

  /** The outcome is decided by the email submitted, not the one showing when
      the timer fires. */
  lemma ResolutionUsesSubmittedEmail()
    ensures var r := Run(Mounted, Prepare("test@test.test") + [ClickSignUp, TypeEmail("new@user.com"), TimerFires]);
      r.store.email == Some("new@user.com") && r.status == Status(false, Some(AlreadyExists), false)
  {
    WellFormedExamples();
    PrepareReaches("test@test.test");
    RunAppend(Mounted, Prepare("test@test.test"), [ClickSignUp, TypeEmail("new@user.com"), TimerFires]);
    PendingEditTail("test@test.test", "new@user.com");
    assert Denied(Some("test@test.test"));
  }
}

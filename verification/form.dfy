/** The registration form component as a state machine over user and timer
    events (src/components/Form.js, `Form`). Each event is one handler of the
    rendered inputs and buttons, followed by the email effect when the store's
    email changed.
 */
module RegistrationForm {
  import opened Values
  import opened Registration
  import opened Validation
  import opened Catalog
  import opened Draft

  /** Everything the component holds: the reducer's store, the hobby draft, the
      submission status, and the store snapshot an unresolved `validator` call
      was given. */
  datatype State = State(store: Store, draft: Hobby, status: Status, pending: Option<Store>)

  /** The state right after mounting. */
  const Mounted: State := State(Initial, Blank, Idle, None)

  /** What the user (or the pending timer) can do. Menu picks are indexes into
      the items the select input renders. */
  datatype Event =
    | TypeFirstName(text: string)
    | TypeSurname(text: string)
    | PickDate(text: string)
    | PickFramework(item: nat)
    | PickVersion(item: nat)
    | TypeEmail(text: string)
    | TypeHobbyName(text: string)
    | TypeHobbyDuration(text: string)
    | TypeListedName(row: nat, text: string)
    | TypeListedDuration(row: nat, text: string)
    | ClickAddOne
    | ClickDelete(row: nat)
    | ClickSignUp
    | TimerFires

  /** Some value present in the store has length zero (Form.js:229). The hobby
      list is always present; a scalar field only once it was dispatched, so
      an unset field never counts as empty. */
  predicate SomeValueEmpty(s: Store) {
    |s.hobbies| == 0 || exists g :: Get(s, g) == Some("")
  }

  /** The "Sign up" button's disabled condition, as written at Form.js:229: some
      present value is empty and no email error is showing. */
  predicate SignUpDisabled(s: Store, emailError: Option<string>) {
    SomeValueEmpty(s) && !Truthy(emailError)
  }

  /** Dispatching an action, then running the email effect if the store's email
      changed (Form.js:85-93). */
  function Dispatch(st: State, m: Message): (r: State)
    requires Fits(m)
    ensures r.draft == st.draft && r.pending == st.pending
    ensures r.status.loading == st.status.loading && r.status.finish == st.status.finish
    ensures r.store.email == st.store.email ==> r.status.emailError == st.status.emailError
  {
    var store := Reducer(st.store, m);
    var emailError :=
      if store.email != st.store.email then EmailCheck(store.email, st.status.emailError)
      else st.status.emailError;
    st.(store := store, status := st.status.(emailError := emailError))
  }

  /** One handler of the component (Form.js:104-233), or the pending timer. */
  function Step(st: State, e: Event): State {
    match e
    case TypeFirstName(t) => Dispatch(st, Message("INIT_FIRSTNAME", Text(t)))
    case TypeSurname(t) => Dispatch(st, Message("INIT_LASTTNAME", Text(t)))
    case PickDate(t) => Dispatch(st, Message("INIT_DATEOFBIRTH", Text(t)))
    case PickFramework(i) =>
      if i < |Frameworks| then Dispatch(st, Message("INIT_FRAMEWORK", Text(Frameworks[i]))) else st
    case PickVersion(i) =>
      var fw := st.store.framework;
      if Truthy(fw) && fw.value in Versions && i < |VersionOptions(fw)| then
        Dispatch(st, Message("INIT_VERSION", Text(VersionOptions(fw)[i])))
      else st
    case TypeEmail(t) => Dispatch(st, Message("INIT_EMAIL", Text(t)))
    case TypeHobbyName(t) => st.(draft := WithName(st.draft, t))
    case TypeHobbyDuration(t) => st.(draft := WithDuration(st.draft, t))
    case TypeListedName(row, t) =>
      if row < |st.store.hobbies| then st.(draft := WithName(st.store.hobbies[row], t)) else st
    case TypeListedDuration(row, t) =>
      if row < |st.store.hobbies| then st.(draft := WithDuration(st.store.hobbies[row], t)) else st
    case ClickAddOne =>
      if AddEnabled(st.draft) then
        var (store, draft) := Commit(st.store, st.draft);
        st.(store := store, draft := draft)
      else st
    case ClickDelete(row) =>
      if row < |st.store.hobbies| then Dispatch(st, Message("DELETE_HOBBY", Entry(st.store.hobbies[row]))) else st
    case ClickSignUp =>
      if st.status.loading || SignUpDisabled(st.store, st.status.emailError) then st
      else st.(status := Start(st.status), pending := Some(st.store))
    case TimerFires =>
      match st.pending
      case None => st
      case Some(snapshot) => st.(status := Resolve(st.status, snapshot.email), pending := None)
  }

  /** Only handlers that dispatch change the store, and loading only starts on
      a sign-up click, which captures the store as it is. */
  lemma StepFrame(st: State, e: Event)
    ensures (e.TypeHobbyName? || e.TypeHobbyDuration? || e.TypeListedName? || e.TypeListedDuration?
             || e.ClickSignUp? || e.TimerFires?) ==> Step(st, e).store == st.store
    ensures !st.status.loading && Step(st, e).status.loading ==>
      e.ClickSignUp? && Step(st, e).pending == Some(st.store)
  {
  }

  /** A field dispatch other than the surname's leaves the surname alone. */
  lemma FieldDispatchKeepsSurname(st: State, f: Field, t: string)
    requires f != LastName
    ensures Dispatch(st, Message(TagOf(f), Text(t))).store.lastName == st.store.lastName
  {
    SetFieldReplacesOnlyItsField(st.store, f, t);
  }

  lemma TypedFieldKeepsSurname(st: State, e: Event)
    requires e.TypeFirstName? || e.PickDate? || e.TypeEmail? || e.TypeSurname?
    ensures Step(st, e).store.lastName == st.store.lastName
  {
    match e {
      case TypeFirstName(t) => FieldDispatchKeepsSurname(st, FirstName, t);
      case PickDate(t) => FieldDispatchKeepsSurname(st, DateOfBirth, t);
      case TypeEmail(t) => FieldDispatchKeepsSurname(st, Email, t);
      case TypeSurname(t) => SurnameTagIsUnhandled(st.store, t);
    }
  }

  lemma MenuPickKeepsSurname(st: State, e: Event)
    requires e.PickFramework? || e.PickVersion?
    ensures Step(st, e).store.lastName == st.store.lastName
  {
    match e {
      case PickFramework(i) =>
        if i < |Frameworks| { FieldDispatchKeepsSurname(st, Framework, Frameworks[i]); }
      case PickVersion(i) =>
        var fw := st.store.framework;
        if Truthy(fw) && fw.value in Versions && i < |VersionOptions(fw)| {
          FieldDispatchKeepsSurname(st, Version, VersionOptions(fw)[i]);
        }
    }
  }

  /** No handler reaches the surname field. */
  lemma StepKeepsSurname(st: State, e: Event)
    ensures Step(st, e).store.lastName == st.store.lastName
  {
    if e.TypeFirstName? || e.PickDate? || e.TypeEmail? || e.TypeSurname? {
      TypedFieldKeepsSurname(st, e);
    } else if e.PickFramework? || e.PickVersion? {
      MenuPickKeepsSurname(st, e);
    } else if !e.ClickAddOne? && !e.ClickDelete? {
      StepFrame(st, e);
    }
  }

  function Run(st: State, events: seq<Event>): State
    decreases |events|
  {
    if events == [] then st else Run(Step(st, events[0]), events[1..])
  }

  /** Running two event sequences one after the other is running their concatenation. */
  lemma {:induction false} RunAppend(st: State, a: seq<Event>, b: seq<Event>)
    ensures Run(st, a + b) == Run(Run(st, a), b)
    decreases |a|
  {
    if a == [] {
      assert a + b == b;
    } else {
      assert (a + b)[0] == a[0];
      assert (a + b)[1..] == a[1..] + b;
      RunAppend(Step(st, a[0]), a[1..], b);
    }
  }

  // ---------------------------------------------------------------------------
  // Invariant of every reachable state

  /** Facts every state the user can reach satisfies. */
  predicate Inv(st: State) {
    // a validator call is in flight exactly while the spinner shows
    && (st.status.loading <==> st.pending.Some?)
    // the framework is one of the menu's items
    && (st.store.framework.Some? ==> st.store.framework.value in Frameworks)
    // a version is only ever picked from a framework's menu
    && (st.store.version.Some? ==> st.store.framework.Some? && KnownVersion(st.store.version.value))
    // the surname input never reaches the store
    && st.store.lastName.None?
    // hobbies only arrive through the gated "Add one" button
    && (forall i :: 0 <= i < |st.store.hobbies| ==> AddEnabled(st.store.hobbies[i]))
    // the only error messages are the two checks'
    && (st.status.emailError.Some? ==>
          st.status.emailError.value == NotValid || st.status.emailError.value == AlreadyExists)
    // a malformed, non-empty email always shows an error
    && (Truthy(st.store.email) && !WellFormed(st.store.email.value) ==> st.status.emailError.Some?)
  }

  lemma MountedInv()
    ensures Inv(Mounted)
  {
  }

  /** Writing a field the invariant says nothing about keeps it, and so does
      writing the email: the effect recomputes the error. */
  lemma FreeFieldPreservesInv(st: State, f: Field, t: string)
    requires Inv(st)
    requires f == FirstName || f == DateOfBirth || f == Email
    ensures Inv(Dispatch(st, Message(TagOf(f), Text(t))))
  {
    SetFieldReplacesOnlyItsField(st.store, f, t);
  }

  lemma FrameworkPickPreservesInv(st: State, i: nat)
    requires Inv(st) && i < |Frameworks|
    ensures Inv(Dispatch(st, Message("INIT_FRAMEWORK", Text(Frameworks[i]))))
  {
    SetFieldReplacesOnlyItsField(st.store, Framework, Frameworks[i]);
  }

  lemma VersionPickPreservesInv(st: State, i: nat)
    requires Inv(st)
    requires Truthy(st.store.framework) && st.store.framework.value in Versions
    requires i < |VersionOptions(st.store.framework)|
    ensures Inv(Dispatch(st, Message("INIT_VERSION", Text(VersionOptions(st.store.framework)[i]))))
  {
    var v := VersionOptions(st.store.framework)[i];
    assert KnownVersion(v);
    SetFieldReplacesOnlyItsField(st.store, Version, v);
  }

  lemma DeletePreservesInv(st: State, h: Hobby)
    requires Inv(st)
    ensures Inv(Dispatch(st, Message("DELETE_HOBBY", Entry(h))))
  {
    var r := Dispatch(st, Message("DELETE_HOBBY", Entry(h)));
    forall j | 0 <= j < |r.store.hobbies|
      ensures AddEnabled(r.store.hobbies[j])
    {
      assert r.store.hobbies[j] in st.store.hobbies;
    }
  }

  lemma AddOnePreservesInv(st: State)
    requires Inv(st)
    ensures Inv(Step(st, ClickAddOne))
  {
    if AddEnabled(st.draft) {
      var r := Step(st, ClickAddOne);
      assert r.store.hobbies == st.store.hobbies + [st.draft];
    }
  }

  lemma SubmissionPreservesInv(st: State, e: Event)
    requires Inv(st) && (e.ClickSignUp? || e.TimerFires?)
    ensures Inv(Step(st, e))
  {
    assert Step(st, e).store == st.store;
  }

  lemma DraftEventPreservesInv(st: State, e: Event)
    requires Inv(st)
    requires e.TypeHobbyName? || e.TypeHobbyDuration? || e.TypeListedName? || e.TypeListedDuration?
    ensures Inv(Step(st, e))
  {
    assert Step(st, e).store == st.store && Step(st, e).status == st.status;
  }

  /** The events that dispatch to the reducer keep the invariant. */
  lemma DispatchEventPreservesInv(st: State, e: Event)
    requires Inv(st)
    requires e.TypeFirstName? || e.PickDate? || e.TypeEmail? || e.TypeSurname?
          || e.PickFramework? || e.PickVersion? || e.ClickDelete?
    ensures Inv(Step(st, e))
  {
    match e {
      case TypeFirstName(t) => FreeFieldPreservesInv(st, FirstName, t);
      case PickDate(t) => FreeFieldPreservesInv(st, DateOfBirth, t);
      case TypeEmail(t) => FreeFieldPreservesInv(st, Email, t);
      case TypeSurname(t) => SurnameTagIsUnhandled(st.store, t);
      case PickFramework(i) =>
        if i < |Frameworks| { FrameworkPickPreservesInv(st, i); }
      case PickVersion(i) =>
        var fw := st.store.framework;
        if Truthy(fw) && fw.value in Versions && i < |VersionOptions(fw)| { VersionPickPreservesInv(st, i); }
      case ClickDelete(row) =>
        if row < |st.store.hobbies| { DeletePreservesInv(st, st.store.hobbies[row]); }
    }
  }

  lemma StepPreservesInv(st: State, e: Event)
    requires Inv(st)
    ensures Inv(Step(st, e))
  {
    if e.ClickAddOne? {
      AddOnePreservesInv(st);
    } else if e.ClickSignUp? || e.TimerFires? {
      SubmissionPreservesInv(st, e);
    } else if e.TypeHobbyName? || e.TypeHobbyDuration? || e.TypeListedName? || e.TypeListedDuration? {
      DraftEventPreservesInv(st, e);
    } else {
      DispatchEventPreservesInv(st, e);
    }
  }

  lemma {:induction false} RunPreservesInv(st: State, events: seq<Event>)
    requires Inv(st)
    ensures Inv(Run(st, events))
    decreases |events|
  {
    if events != [] {
      StepPreservesInv(st, events[0]);
      RunPreservesInv(Step(st, events[0]), events[1..]);
    }
  }

  /** Every state reachable from mounting satisfies the invariant. */
  lemma ReachableInv(events: seq<Event>)
    ensures Inv(Run(Mounted, events))
  {
    MountedInv();
    RunPreservesInv(Mounted, events);
  }

  // ---------------------------------------------------------------------------
  // Behaviour of single events

  /** Typing a surname changes nothing: its handler dispatches `INIT_LASTTNAME`. */
  lemma SurnameEditIsLost(st: State, t: string)
    ensures Step(st, TypeSurname(t)) == st
  {
    SurnameTagIsUnhandled(st.store, t);
  }

  /** Typing into the draft's inputs changes the draft field typed into and
      nothing else. */
  lemma DraftEditsOnlyTouchDraft(st: State, t: string)
    ensures var r := Step(st, TypeHobbyName(t));
      && r.store == st.store && r.status == st.status && r.pending == st.pending
      && r.draft == Hobby(Some(t), st.draft.duration)
    ensures var r := Step(st, TypeHobbyDuration(t));
      && r.store == st.store && r.status == st.status && r.pending == st.pending
      && r.draft == Hobby(st.draft.name, Some(t))
  {
  }

  /** Typing into a listed hobby's input only loads that entry, edited, into
      the draft; the committed entry is not rewritten. */
  lemma ListedEditOnlyTouchesDraft(st: State, row: nat, t: string)
    requires row < |st.store.hobbies|
    ensures var r := Step(st, TypeListedName(row, t));
      && r.store == st.store && r.status == st.status && r.pending == st.pending
      && r.draft.name == Some(t) && r.draft.duration == st.store.hobbies[row].duration
    ensures var r := Step(st, TypeListedDuration(row, t));
      && r.store == st.store && r.status == st.status && r.pending == st.pending
      && r.draft.duration == Some(t) && r.draft.name == st.store.hobbies[row].name
  {
  }

  /** "Add one" changes the state exactly when both draft fields are filled, and
      then appends the draft and clears it. */
  lemma AddOneIsGated(st: State)
    ensures Step(st, ClickAddOne) != st <==> AddEnabled(st.draft)
    ensures AddEnabled(st.draft) ==>
      var r := Step(st, ClickAddOne);
      && r.store.hobbies == st.store.hobbies + [st.draft]
      && r.draft == Cleared
      && SameFields(r.store, st.store)
      && r.status == st.status
  {
    if AddEnabled(st.draft) {
      var r := Step(st, ClickAddOne);
      assert |r.store.hobbies| == |st.store.hobbies| + 1;
    }
  }

  /** Typing an email: an unchanged or empty email keeps the previous error; a
      new non-empty email clears it exactly when it is well formed, and sets
      "Email is not valid" otherwise. */
  lemma EmailEffect(st: State, t: string)
    ensures var r := Step(st, TypeEmail(t));
      && r.store.email == Some(t)
      && (Some(t) == st.store.email || t == "" ==> r.status.emailError == st.status.emailError)
      && (Some(t) != st.store.email && t != "" ==>
            (r.status.emailError.None? <==> WellFormed(t))
            && (!WellFormed(t) ==> r.status.emailError == Some(NotValid)))
      && r.status.loading == st.status.loading && r.status.finish == st.status.finish
  {
    SetFieldReplacesOnlyItsField(st.store, Email, t);
  }

  /** While a submission is pending the button is replaced by the spinner, so a
      second click does nothing. */
  lemma SignUpIsSingleFlight(st: State)
    requires st.status.loading
    ensures Step(st, ClickSignUp) == st
  {
  }

  /** An enabled sign-up click starts loading with the store as it is; the
      timer then resolves on that store's email: a denied email ends with the
      "already exists" error and `finish` as it was, any other ends finished
      with the error as it was. */
  lemma SignUpThenTimer(st: State)
    requires Inv(st)
    requires !st.status.loading && !SignUpDisabled(st.store, st.status.emailError)
    ensures var mid := Step(st, ClickSignUp);
      && mid.status.loading && mid.store == st.store && Inv(mid)
      && var end := Step(mid, TimerFires);
      && !end.status.loading && end.pending.None? && end.store == st.store
      && (Denied(st.store.email) ==> end.status == Status(false, Some(AlreadyExists), st.status.finish))
      && (!Denied(st.store.email) ==> end.status == Status(false, st.status.emailError, true))
  {
    StepPreservesInv(st, ClickSignUp);
  }

  /** `finish` never goes back to false. */
  lemma FinishIsSticky(st: State, e: Event)
    requires st.status.finish
    ensures Step(st, e).status.finish
  {
  }

  /** `finish` only becomes true when the timer resolves a submission whose
      email is not denied. */
  lemma FinishOnlyOnAcceptance(st: State, e: Event)
    requires !st.status.finish && Step(st, e).status.finish
    ensures e.TimerFires? && st.pending.Some? && !Denied(st.pending.value.email)
  {
  }

  /** The sign-up guard as written: whenever a malformed email shows its error,
      the button is enabled, whatever other fields are empty. */
  lemma MalformedEmailLeavesSignUpEnabled(st: State)
    requires Inv(st)
    requires Truthy(st.store.email) && !WellFormed(st.store.email.value)
    ensures !SignUpDisabled(st.store, st.status.emailError)
  {
  }

  /** Picking another framework keeps the chosen version, which is then not on
      the new framework's menu. */
  lemma FrameworkSwitchKeepsStaleVersion(st: State, i: nat)
    requires i < |Frameworks|
    requires Truthy(st.store.framework) && st.store.framework.value in Versions
    requires st.store.framework.value != Frameworks[i]
    requires st.store.version.Some? && st.store.version.value in VersionOptions(st.store.framework)
    ensures var r := Step(st, PickFramework(i));
      && r.store.framework == Some(Frameworks[i])
      && r.store.version == st.store.version
      && r.store.version.value !in VersionOptions(r.store.framework)
  {
    var a, b, v := st.store.framework.value, Frameworks[i], st.store.version.value;
    CatalogIsComplete();
    assert b in Versions;
    SetFieldReplacesOnlyItsField(st.store, Framework, b);
    var r := Step(st, PickFramework(i));
    assert r.store == Reducer(st.store, Message(TagOf(Framework), Text(b)));
    assert r.store.framework == Some(b) && r.store.version == Some(v);
    OptionsAreDisjoint(a, b, v);
  }
}

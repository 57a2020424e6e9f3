# Registration form — a Dafny model

This project models the state logic of the registration form component in
`src/components/Form.js`. That logic covers:

- the reducer-driven registration record (first name, surname, date of birth,
  email, framework, version, hobbies);
- the hobby draft and its "Add one" button;
- the email format check that re-runs whenever the email changes;
- the simulated server check behind "Sign up", which rejects a one-entry
  denylist after a timer;
- the framework and version menus.

Everything is a pure function over immutable datatypes:

| file | module | contents |
|---|---|---|
| `values.dfy` | `Values` | `Option` (an absent or present JS value) and JS truthiness for optional strings |
| `registration.dfy` | `Registration` | `Store`, `Hobby`, the `{type, payload}` action object (`Message`), the reducer's switch (`Classify`), the reducer (`Apply`, `Reducer`) and the hobby filter (`RemoveNamed`) |
| `validation.dfy` | `Validation` | the email effect (`EmailCheck`) and the two halves of `validator` (`Start`, `Resolve`) over `Status(loading, emailError, finish)` |
| `catalog.dfy` | `Catalog` | the `frameworks` and `versions` constants and the version menu |
| `draft.dfy` | `Draft` | the hobby draft, the "Add one" gate and `addHobby` (`Commit`) |
| `form.dfy` | `RegistrationForm` | the whole component as a state machine over user and timer events (`Step`, `Run`) and an invariant of every reachable state |
| `scenarios.dfy` | `Scenarios` | concrete event runs from mounting |

Modelling choices:

- A scalar store field is `None` until it is first dispatched, which matches a
  key missing from the JS object. After that it always holds the input's
  string.
- The hobby draft starts as `{}`, so `Hobby` has optional `name` and
  `duration`. The same type is used for committed entries, because `addHobby`
  dispatches the draft object itself.
- `emailError` is `Option<string>`. JS `undefined` and `null` both become
  `None`, because every read of the error only tests whether it is truthy.
- The email effect runs only when the email actually changes
  (`useEffect(..., [store.email])`). So `RegistrationForm.Dispatch`
  recomputes the error only when the reducer changed `store.email`.
- `validator(store, 2000)` is two steps. Clicking "Sign up" runs `Start` and
  keeps the store snapshot that was passed to the validator. A later
  `TimerFires` event runs `Resolve` on that snapshot's email.
- Menu picks are indexes into the items the select renders. So the framework
  is always one of `frameworks`, and a version is always one that some
  framework's menu offered when it was picked.

Three behaviours of the code are kept as written, although they look
unintended:

- **Empty email.** Clearing the email keeps the previous error, because the
  effect returns early (`Scenarios.ClearedEmailKeepsStaleError`).
- **Delete payload.** `DELETE_HOBBY` takes a whole hobby object and removes
  every entry that shares its `name`, not just the clicked row.
- **Sign-up guard.** The button's `disabled` expression is modelled exactly
  as written (`RegistrationForm.SignUpDisabled`). It is not a guard that
  would require every field filled and no email error: any error showing
  enables the button.

## Model

| member | source | states |
|---|---|---|
| Registration.Put | src/components/Form.js:12-23 | writing a field sets exactly that field to the payload; every other field and the hobby list are unchanged |
| Registration.FieldOfTag | src/components/Form.js:11-23 | the six `INIT_*` type strings and the fields they select are inverse to each other; any other string selects no field |
| Registration.Classify | src/components/Form.js:10-35 | an action falls to the default case exactly when its type is none of the eight handled ones; a handled type yields the case for that type, carrying the payload |
| Registration.RemoveNamed | src/components/Form.js:29-31 | the filtered list is no longer than the original; it holds no entry with the given name; an entry is in it exactly when it was in the original and has another name |
| Registration.Reducer | src/components/Form.js:10-36 | an unhandled type returns the store unchanged; an `INIT_*` type writes the payload into its own field only; `ADD_HOBBY` appends the payload; `DELETE_HOBBY` leaves exactly the entries whose name differs from the payload's; hobby types leave every scalar field unchanged |
| Registration.Apply | src/components/Form.js:10-35 | an unrecognised action returns the store unchanged; hobby actions leave every scalar field unchanged; field actions leave the hobby list unchanged |
| Registration.SetFieldReplacesOnlyItsField | src/components/Form.js:12-23 | each `INIT_*` action replaces its own field with the payload and leaves every other field and the hobbies unchanged |
| Registration.AddHobbyAppends | src/components/Form.js:24-25 | `ADD_HOBBY` gives the old hobbies plus the payload at the end: one longer, old prefix kept, payload last; scalar fields unchanged |
| Registration.UnhandledTagKeepsStore | src/components/Form.js:33-34 | any action type outside the handled set returns the store unchanged |
| Registration.SurnameTagIsUnhandled | src/components/Form.js:114-117 | the surname input's type `INIT_LASTTNAME` is not handled, so the reducer returns the store unchanged |
| Registration.RemoveNamedAppend | src/components/Form.js:29-31 | filtering by name distributes over concatenation, so the kept entries stay in their original order |
| Registration.RemoveNamedSingle | src/components/Form.js:29-31 | on a one-entry list the filter keeps the entry exactly when its name differs |
| Registration.RemoveNamedCounts | src/components/Form.js:29-31 | every entry with another name keeps its number of occurrences; entries with the name occur zero times |
| Registration.RemoveNamedAbsent | src/components/Form.js:29-31 | a list with no entry of the name is returned unchanged |
| Registration.RemoveNamedIdempotent | src/components/Form.js:29-31 | filtering twice by the same name equals filtering once |
| Registration.DeleteHobbyRemovesName | src/components/Form.js:26-32 | after `DELETE_HOBBY` no entry has the payload's name; every other entry keeps its multiplicity; deleting again changes nothing; scalar fields unchanged |
| Registration.AddThenDeleteRestores | src/components/Form.js:24-32 | adding an entry whose name is new and then deleting it gives back the original store |
| Validation.EmailCheck | src/components/Form.js:85-93 | an empty or unset email keeps the previous error; a non-empty email that is longer than 3 and contains `@` and `.` clears the error; any other non-empty email gives "Email is not valid" |
| Validation.EmailCheckSettles | src/components/Form.js:85-93 | re-running the check changes nothing; for a non-empty email the result ignores the previous error and is "no error" exactly when the email is well formed |
| Validation.EmailCheckExamples | src/components/Form.js:85-93 | "" and unset keep the previous error; "ab@" and "plainstring" give "Email is not valid"; "a@b." gives no error |
| Validation.WellFormed | src/components/Form.js:88-90 | encodes the format test: more than three characters, containing `@` and `.`; its consequences for the error shown are stated by `Validation.EmailCheck`, `Validation.EmailCheckSettles` and `RegistrationForm.EmailEffect` |
| Validation.Denied | src/components/Form.js:66-71 | encodes the simulated server's rejection: the email is set and on the one-entry list; which address that is, and what a rejection does to the status, is stated by `Validation.DenylistExamples`, `Validation.SubmissionOutcome` and `RegistrationForm.FinishOnlyOnAcceptance` |
| Validation.Start | src/components/Form.js:68-69 | starting a submission sets `loading` and keeps `emailError` and `finish` |
| Validation.Resolve | src/components/Form.js:70-82 | resolution always clears `loading`; a denied email sets "Email is already exists" and keeps `finish`; any other email sets `finish` and keeps the error |
| Validation.SubmissionOutcome | src/components/Form.js:65-82 | `loading` is true between start and resolution; afterwards the status is exactly one of the two outcomes, decided by the email alone |
| Validation.DenylistExamples | src/components/Form.js:66-71 | "test@test.test" is denied; "new@user.com" and an unset email are not |
| Catalog.VersionOptions | src/components/Form.js:150-160 | no options while the framework is unset or empty; otherwise three options, each on the chosen framework's own version list |
| Catalog.CatalogIsComplete | src/components/Form.js:39-44 | a string has a version list exactly when it is one of the three menu frameworks |
| Catalog.VersionOptionsExamples | src/components/Form.js:40-44 | no options while unset or empty; "angular", "react" and "vue" offer exactly their three listed versions, e.g. "vue" gives "3.1.1", "3.2.1", "3.3.3" |
| Catalog.OptionsAreDisjoint | src/components/Form.js:40-44 | two different frameworks share no version |
| Draft.AddEnabled | src/components/Form.js:217-218 | encodes the "Add one" enabling test: both draft fields truthy; its consequences are stated by `Draft.AddEnabledExamples`, `RegistrationForm.AddOneIsGated` and the clause of `RegistrationForm.Inv` that every listed hobby has both fields filled |
| Draft.WithName | src/components/Form.js:208 | typing a hobby name replaces the draft's name and keeps its duration |
| Draft.WithDuration | src/components/Form.js:215 | typing a hobby duration replaces the draft's duration and keeps its name |
| Draft.Commit | src/components/Form.js:53-56 | committing appends the draft as the last hobby and keeps the scalar fields; the draft becomes `{name: "", duration: ""}`, which disables "Add one" again |
| Draft.AddEnabledExamples | src/components/Form.js:217-218 | "Add one" is disabled for `{}`, for the cleared draft, and for a draft with one field empty or missing; it is enabled when both fields are filled |
| RegistrationForm.SomeValueEmpty | src/components/Form.js:229 | encodes the first half of the guard, "some value of the store has length zero": an empty hobby list or a dispatched field holding ""; its consequences are stated by `Scenarios.PrepareReaches` and `RegistrationForm.MalformedEmailLeavesSignUpEnabled` |
| RegistrationForm.SignUpDisabled | src/components/Form.js:228-230 | encodes the guard as written: some value empty and no truthy error; its consequences are stated by `RegistrationForm.MalformedEmailLeavesSignUpEnabled` (any error showing enables the button) and `Scenarios.PrepareReaches` (a well-formed email plus one hobby enables it) |
| RegistrationForm.Step | src/components/Form.js:104-233 | one handler per user event plus the pending timer; its behaviour is stated by `StepFrame`, `StepKeepsSurname`, `StepPreservesInv`, `FinishIsSticky`, `FinishOnlyOnAcceptance` and the single-event lemmas below |
| RegistrationForm.StepFrame | src/components/Form.js:104-233 | draft edits, the sign-up click and the timer leave the store unchanged; loading only starts on a sign-up click, which captures the current store |
| RegistrationForm.StepKeepsSurname | src/components/Form.js:104-171 | no event changes the surname field: the surname handler's dispatch is unhandled and every other dispatch writes another field |
| RegistrationForm.Dispatch | src/components/Form.js:85-93 | a dispatch leaves the draft, the pending submission, `loading` and `finish` alone; it keeps the error when the email did not change |
| RegistrationForm.StepPreservesInv | src/components/Form.js:95-238 | every handler keeps the invariant: loading exactly while a submission is pending; framework from the menu; version only from a framework's menu; surname never set; every hobby has both fields filled; only the two error messages; a malformed non-empty email always shows an error |
| RegistrationForm.ReachableInv | src/components/Form.js:46-51 | every state reachable from the initial state satisfies that invariant |
| RegistrationForm.SurnameEditIsLost | src/components/Form.js:114-117 | typing a surname leaves the whole component state unchanged |
| RegistrationForm.DraftEditsOnlyTouchDraft | src/components/Form.js:203-216 | typing a hobby name or duration replaces that draft field, keeps the other, and leaves the store, status and pending submission unchanged |
| RegistrationForm.ListedEditOnlyTouchesDraft | src/components/Form.js:186-195 | typing into a listed hobby's name input loads that entry into the draft with the typed name and the entry's own duration; typing into its duration input loads it with the typed duration and the entry's own name; in both cases the store, status and pending submission are unchanged |
| RegistrationForm.AddOneIsGated | src/components/Form.js:217-222 | "Add one" changes the state exactly when both draft fields are filled; it then appends the draft, clears the draft and leaves fields and status alone |
| RegistrationForm.EmailEffect | src/components/Form.js:85-93 | after typing an email: if the email is unchanged or empty, the error is kept; if the new email is non-empty, the error is cleared exactly when it is well formed and is "Email is not valid" otherwise |
| RegistrationForm.SignUpIsSingleFlight | src/components/Form.js:224-236 | while loading, the button is replaced by the spinner, so clicking "Sign up" changes nothing |
| RegistrationForm.SignUpThenTimer | src/components/Form.js:65-83 | an enabled click starts loading on the current store; the timer then resolves with the denied outcome or the finished outcome for that store's email |
| RegistrationForm.FinishIsSticky | src/components/Form.js:74-77 | once `finish` is true, no event makes it false |
| RegistrationForm.FinishOnlyOnAcceptance | src/components/Form.js:70-82 | `finish` only becomes true when the timer resolves a pending submission whose email is not denied |
| RegistrationForm.MalformedEmailLeavesSignUpEnabled | src/components/Form.js:228-230 | under the guard as written, a malformed non-empty email (which always shows an error) leaves "Sign up" enabled |
| RegistrationForm.FrameworkSwitchKeepsStaleVersion | src/components/Form.js:130-161 | picking another framework keeps the chosen version, which is then not on the new framework's menu |
| Scenarios.ComposeAndAdd | src/components/Form.js:203-222 | from any state, typing a non-empty name and duration and clicking "Add one" appends exactly that entry and clears the draft, changing nothing else |
| Scenarios.HobbyAddDeleteRoundTrip | src/components/Form.js:53-63 | composing "chess"/"2y", adding it and deleting its row leaves no hobbies |
| Scenarios.DeleteRemovesEveryEntryOfTheName | src/components/Form.js:26-32 | with two entries named "chess", deleting one row removes both |
| Scenarios.PrepareReaches | src/components/Form.js:46-56 | entering a well-formed email and adding one hobby reaches a state where "Sign up" is enabled |
| Scenarios.DeniedSignUp | src/components/Form.js:65-83 | submitting "test@test.test" ends with `loading` false, error "Email is already exists", `finish` false |
| Scenarios.AcceptedSignUp | src/components/Form.js:65-83 | submitting "new@user.com" ends with `loading` false, `finish` true and the error still unset |
| Scenarios.ClearedEmailKeepsStaleError | src/components/Form.js:85-93 | typing "ab" and then clearing the email leaves "Email is not valid" showing |
| Scenarios.ResolutionUsesSubmittedEmail | src/components/Form.js:65-72 | changing the email while a submission is pending does not change its outcome: "test@test.test" is still rejected |

## Left out

- Rendering is not modelled: JSX, the MUI components, CSS classes, the
  success and error banners, and the spinner as a visual element. Only the
  values that gate events are kept.
- React hook mechanics are not modelled. Each event is one atomic step: the
  handler's state updates, then the email effect.
- `setTimeout` and its 2000 ms delay are not modelled. The pending timer is a
  single `TimerFires` event. Promise scheduling is not modelled either.
- Re-entrant calls to `validator` from outside the rendered button are not
  modelled. The UI permits only one call in flight, so the model keeps at
  most one pending snapshot.
- `Date.now()` as the date input's default value is not modelled. It is
  non-deterministic and display-only; the store's date is unset until the
  input reports a value.
- Registration.Classify: covers only the payload shapes the component
  dispatches. A string under a hobby type, or an object under an `INIT_*`
  type, is excluded by its precondition.
- Catalog.VersionOptions: requires a truthy framework to be a key of
  `versions`. An unknown key would make `versions[...].map` throw, and the
  menu can never produce one.
- Validation.EmailCheck: counts length in characters, not UTF-16 code units.
  An email with characters outside the Basic Multilingual Plane can have a
  different JS `length`.
- Validation.EmailCheck: does not separate `undefined` from `null`. Both are
  `None`, because the component only tests the error for truthiness.
- RegistrationForm.Step: includes the change handlers of the listed hobby
  inputs, although those inputs are read-only, so typing cannot trigger them.
- The rows' React `key={hobby}` is not modelled. It turns every object into
  the same string, which only affects how React reconciles the list.

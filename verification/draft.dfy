/** The hobby draft: the single entry being composed below the hobby list
    (src/components/Form.js, `hobby`, `addHobby` and the "Add one" button).
 */
module Draft {
  import opened Values
  import opened Registration

  /** The draft's initial value `{}`. */
  const Blank: Hobby := Hobby(None, None)

  /** The draft after a commit, `{ name: "", duration: "" }`. */
  const Cleared: Hobby := Hobby(Some(""), Some(""))

  /** The "Add one" button is enabled: neither draft field is missing or empty
      (Form.js:218). */
  predicate AddEnabled(d: Hobby) {
    Truthy(d.name) && Truthy(d.duration)
  }

  /** The draft with its name replaced by the typed text (Form.js:186, 208). */
  function WithName(d: Hobby, text: string): (r: Hobby)
    ensures r.name == Some(text) && r.duration == d.duration
  {
    d.(name := Some(text))
  }

  /** The draft with its duration replaced by the typed text (Form.js:195, 215). */
  function WithDuration(d: Hobby, text: string): (r: Hobby)
    ensures r.duration == Some(text) && r.name == d.name
  {
    d.(duration := Some(text))
  }

  /** `addHobby`: dispatch `ADD_HOBBY` with the draft, then reset the draft. The
      function itself does not look at the draft; the button does. */
  function Commit(s: Store, d: Hobby): (r: (Store, Hobby))
    ensures r.0.hobbies == s.hobbies + [d]
    ensures |r.0.hobbies| > 0 && r.0.hobbies[|r.0.hobbies| - 1] == d
    ensures SameFields(r.0, s)
    ensures r.1 == Cleared && !AddEnabled(r.1)
  {
    AddHobbyAppends(s, d);
    (Reducer(s, Message(AddHobbyTag, Entry(d))), Cleared)
  }

  /** The button is enabled exactly when both draft fields hold non-empty text. */
  lemma AddEnabledExamples()
    ensures !AddEnabled(Blank) && !AddEnabled(Cleared)
    ensures !AddEnabled(Hobby(Some("chess"), Some("")))
    ensures !AddEnabled(Hobby(None, Some("2y")))
    ensures AddEnabled(Hobby(Some("chess"), Some("2y")))
  {
  }
}

/** The registration record and the reducer that is its only way to change
    (src/components/Form.js, `reducer`).
 */
module Registration {
  import opened Values

  /** A hobby entry, and equally the hobby draft it is copied from: the draft
      starts as `{}`, so either property may be absent. */
  datatype Hobby = Hobby(name: Option<string>, duration: Option<string>)

  /** The store. A scalar field is `None` until its first dispatch. */
  datatype Store = Store(
    firstName: Option<string>,
    lastName: Option<string>,
    dateOfBirth: Option<string>,
    email: Option<string>,
    framework: Option<string>,
    version: Option<string>,
    hobbies: seq<Hobby>)

  /** The initial store `{ hobbies: [] }`. */
  const Initial: Store := Store(None, None, None, None, None, None, [])

  /** The six scalar fields the `INIT_*` actions replace. */
  datatype Field = FirstName | LastName | DateOfBirth | Email | Framework | Version

  function Get(s: Store, f: Field): Option<string> {
    match f
    case FirstName => s.firstName
    case LastName => s.lastName
    case DateOfBirth => s.dateOfBirth
    case Email => s.email
    case Framework => s.framework
    case Version => s.version
  }

  /** The store with field `f` replaced by `v` (the object spreads of Form.js:13-23). */
  function Put(s: Store, f: Field, v: string): (r: Store)
    ensures Get(r, f) == Some(v)
    ensures forall g :: g != f ==> Get(r, g) == Get(s, g)
    ensures r.hobbies == s.hobbies
  {
    match f
    case FirstName => s.(firstName := Some(v))
    case LastName => s.(lastName := Some(v))
    case DateOfBirth => s.(dateOfBirth := Some(v))
    case Email => s.(email := Some(v))
    case Framework => s.(framework := Some(v))
    case Version => s.(version := Some(v))
  }

  /** Two stores that agree on every scalar field. */
  predicate SameFields(s: Store, t: Store) {
    forall g :: Get(s, g) == Get(t, g)
  }

  // ---------------------------------------------------------------------------
  // Actions

  const AddHobbyTag := "ADD_HOBBY"
  const DeleteHobbyTag := "DELETE_HOBBY"

  /** The `type` the reducer recognises for each field. */
  function TagOf(f: Field): string {
    match f
    case FirstName => "INIT_FIRSTNAME"
    case LastName => "INIT_LASTNAME"
    case DateOfBirth => "INIT_DATEOFBIRTH"
    case Email => "INIT_EMAIL"
    case Framework => "INIT_FRAMEWORK"
    case Version => "INIT_VERSION"
  }

  /** The field a `type` string selects in the reducer's switch, if any. */
  function FieldOfTag(tag: string): (r: Option<Field>)
    ensures r.Some? ==> TagOf(r.value) == tag
    ensures r.None? ==> forall f :: TagOf(f) != tag
  {
    if tag == "INIT_FIRSTNAME" then Some(FirstName)
    else if tag == "INIT_LASTNAME" then Some(LastName)
    else if tag == "INIT_DATEOFBIRTH" then Some(DateOfBirth)
    else if tag == "INIT_EMAIL" then Some(Email)
    else if tag == "INIT_FRAMEWORK" then Some(Framework)
    else if tag == "INIT_VERSION" then Some(Version)
    else None
  }

  /** Every `type` the reducer's switch has a case for. */
  predicate Handled(tag: string) {
    FieldOfTag(tag).Some? || tag == AddHobbyTag || tag == DeleteHobbyTag
  }

  /** An action's payload: an input's text, or a hobby object. */
  datatype Payload = Text(text: string) | Entry(hobby: Hobby)

  /** The action object `{ type, payload }` handed to `dispatch`. */
  datatype Message = Message(tag: string, payload: Payload)

  /** The payload shape each handled `type` is dispatched with. */
  predicate Fits(m: Message) {
    && (FieldOfTag(m.tag).Some? ==> m.payload.Text?)
    && (m.tag == AddHobbyTag || m.tag == DeleteHobbyTag ==> m.payload.Entry?)
  }

  /** The reducer's cases, as a closed union. */
  datatype Action =
    | SetField(field: Field, value: string)
    | AddHobby(hobby: Hobby)
    | DeleteHobby(hobby: Hobby)
    | Unrecognized(tag: string)

  /** The reducer's `switch (action.type)`. */
  function Classify(m: Message): (a: Action)
    requires Fits(m)
    ensures a.Unrecognized? <==> !Handled(m.tag)
    ensures a.SetField? ==> TagOf(a.field) == m.tag && m.payload == Text(a.value)
    ensures a.AddHobby? ==> m.tag == AddHobbyTag && m.payload == Entry(a.hobby)
    ensures a.DeleteHobby? ==> m.tag == DeleteHobbyTag && m.payload == Entry(a.hobby)
  {
    match FieldOfTag(m.tag)
    case Some(f) => SetField(f, m.payload.text)
    case None =>
      if m.tag == AddHobbyTag then AddHobby(m.payload.hobby)
      else if m.tag == DeleteHobbyTag then DeleteHobby(m.payload.hobby)
      else Unrecognized(m.tag)
  }

  // ---------------------------------------------------------------------------
  // Hobby list operations

  /** The hobbies whose name differs from `name`, in their original order
      (the filter of Form.js:29-31). */
  function RemoveNamed(hobbies: seq<Hobby>, name: Option<string>): (r: seq<Hobby>)
    ensures |r| <= |hobbies|
    ensures forall h :: h in r <==> h in hobbies && h.name != name
  {
    if hobbies == [] then []
    else (if hobbies[0].name == name then [] else [hobbies[0]]) + RemoveNamed(hobbies[1..], name)
  }

  /** The reducer on the closed union. */
  function Apply(s: Store, a: Action): (r: Store)
    ensures a.Unrecognized? ==> r == s
    ensures !a.SetField? ==> SameFields(r, s)
    ensures a.SetField? ==> r.hobbies == s.hobbies
  {
    match a
    case SetField(f, v) => Put(s, f, v)
    case AddHobby(h) => s.(hobbies := s.hobbies + [h])
    case DeleteHobby(h) => s.(hobbies := RemoveNamed(s.hobbies, h.name))
    case Unrecognized(_) => s
  }

  /** The reducer applied to an action object (Form.js:10-36): an `INIT_*` type
      writes its field, `ADD_HOBBY` appends, `DELETE_HOBBY` drops every entry
      with the payload's name, and any other type returns the store as it was. */
  function Reducer(s: Store, m: Message): (r: Store)
    requires Fits(m)
    ensures !Handled(m.tag) ==> r == s
    ensures FieldOfTag(m.tag).Some? ==>
      && Get(r, FieldOfTag(m.tag).value) == Some(m.payload.text)
      && (forall g :: g != FieldOfTag(m.tag).value ==> Get(r, g) == Get(s, g))
      && r.hobbies == s.hobbies
    ensures m.tag == AddHobbyTag ==> r.hobbies == s.hobbies + [m.payload.hobby] && SameFields(r, s)
    ensures m.tag == DeleteHobbyTag ==>
      && (forall i :: 0 <= i < |r.hobbies| ==> r.hobbies[i].name != m.payload.hobby.name)
      && (forall h :: h in r.hobbies <==> h in s.hobbies && h.name != m.payload.hobby.name)
      && SameFields(r, s)
  {
    Apply(s, Classify(m))
  }

  // ---------------------------------------------------------------------------
  // Properties

  /** An `INIT_*` action replaces its own field with the payload and nothing else. */
  lemma SetFieldReplacesOnlyItsField(s: Store, f: Field, v: string)
    ensures var r := Reducer(s, Message(TagOf(f), Text(v)));
      && Get(r, f) == Some(v)
      && (forall g :: g != f ==> Get(r, g) == Get(s, g))
      && r.hobbies == s.hobbies
  {
    assert FieldOfTag(TagOf(f)) == Some(f);
  }

  /** `ADD_HOBBY` appends its payload: one longer, old prefix kept, payload last. */
  lemma AddHobbyAppends(s: Store, h: Hobby)
    ensures var r := Reducer(s, Message(AddHobbyTag, Entry(h)));
      && r.hobbies == s.hobbies + [h]
      && |r.hobbies| == |s.hobbies| + 1
      && r.hobbies[..|s.hobbies|] == s.hobbies
      && r.hobbies[|s.hobbies|] == h
      && SameFields(r, s)
  {
    var r := Reducer(s, Message(AddHobbyTag, Entry(h)));
    assert r.hobbies[..|s.hobbies|] == s.hobbies;
  }

  /** Any `type` the switch does not name leaves the store as it was. */
  lemma UnhandledTagKeepsStore(s: Store, m: Message)
    requires !Handled(m.tag)
    ensures Reducer(s, m) == s
  {
  }

  /** The surname input dispatches `INIT_LASTTNAME`, which the switch does not name. */
  lemma SurnameTagIsUnhandled(s: Store, v: string)
    ensures !Handled("INIT_LASTTNAME")
    ensures Reducer(s, Message("INIT_LASTTNAME", Text(v))) == s
  {
  }

  /** Filtering distributes over concatenation, which is what "the kept
      entries stay in their original order" means. */
  lemma {:induction false} RemoveNamedAppend(a: seq<Hobby>, b: seq<Hobby>, name: Option<string>)
    ensures RemoveNamed(a + b, name) == RemoveNamed(a, name) + RemoveNamed(b, name)
  {
    if a == [] {
      assert a + b == b;
    } else {
      assert (a + b)[0] == a[0];
      assert (a + b)[1..] == a[1..] + b;
      RemoveNamedAppend(a[1..], b, name);
    }
  }

  /** On one entry the filter keeps it exactly when its name differs. */
  lemma RemoveNamedSingle(h: Hobby, name: Option<string>)
    ensures RemoveNamed([h], name) == if h.name == name then [] else [h]
  {
    assert [h][1..] == [];
  }

  /** Entries that do not match keep their multiplicity; matching ones are gone. */
  lemma {:induction false} RemoveNamedCounts(hobbies: seq<Hobby>, name: Option<string>, h: Hobby)
    ensures multiset(RemoveNamed(hobbies, name))[h] == if h.name == name then 0 else multiset(hobbies)[h]
  {
    if hobbies != [] {
      var rest := hobbies[1..];
      var head := if hobbies[0].name == name then [] else [hobbies[0]];
      RemoveNamedCounts(rest, name, h);
      assert RemoveNamed(hobbies, name) == head + RemoveNamed(rest, name);
      assert multiset(head + RemoveNamed(rest, name)) == multiset(head) + multiset(RemoveNamed(rest, name));
      assert hobbies == [hobbies[0]] + rest;
      assert multiset(hobbies) == multiset([hobbies[0]]) + multiset(rest);
    }
  }

  /** A list with no entry of that name is left exactly as it was. */
  lemma {:induction false} RemoveNamedAbsent(hobbies: seq<Hobby>, name: Option<string>)
    requires forall i :: 0 <= i < |hobbies| ==> hobbies[i].name != name
    ensures RemoveNamed(hobbies, name) == hobbies
  {
    if hobbies != [] {
      RemoveNamedAbsent(hobbies[1..], name);
    }
  }

  /** Deleting the same name twice is deleting it once. */
  lemma RemoveNamedIdempotent(hobbies: seq<Hobby>, name: Option<string>)
    ensures RemoveNamed(RemoveNamed(hobbies, name), name) == RemoveNamed(hobbies, name)
  {
    RemoveNamedAbsent(RemoveNamed(hobbies, name), name);
  }

  /** `DELETE_HOBBY` removes every entry with the payload's name, keeps every
      other entry with its multiplicity, and is idempotent. */
  lemma DeleteHobbyRemovesName(s: Store, h: Hobby)
    ensures var r := Reducer(s, Message(DeleteHobbyTag, Entry(h)));
      && (forall i :: 0 <= i < |r.hobbies| ==> r.hobbies[i].name != h.name)
      && (forall x: Hobby :: x.name != h.name ==> multiset(r.hobbies)[x] == multiset(s.hobbies)[x])
      && Reducer(r, Message(DeleteHobbyTag, Entry(h))) == r
      && SameFields(r, s)
  {
    var r := Reducer(s, Message(DeleteHobbyTag, Entry(h)));
    forall x: Hobby | x.name != h.name
      ensures multiset(r.hobbies)[x] == multiset(s.hobbies)[x]
    {
      RemoveNamedCounts(s.hobbies, h.name, x);
    }
    RemoveNamedIdempotent(s.hobbies, h.name);
  }

  /** Adding an entry whose name is new and then deleting it restores the store. */
  lemma AddThenDeleteRestores(s: Store, h: Hobby)
    requires forall i :: 0 <= i < |s.hobbies| ==> s.hobbies[i].name != h.name
    ensures Reducer(Reducer(s, Message(AddHobbyTag, Entry(h))), Message(DeleteHobbyTag, Entry(h))) == s
  {
    RemoveNamedAppend(s.hobbies, [h], h.name);
    RemoveNamedSingle(h, h.name);
    RemoveNamedAbsent(s.hobbies, h.name);
    assert s.hobbies + [] == s.hobbies;
  }
}

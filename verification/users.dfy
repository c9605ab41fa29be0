/** The two user-controller operations that write: the partial profile
    update and deletion. */
module Users {
  import opened Common
  import opened Schema
  import opened Store

  /** The value a profile field takes under a partial update: a supplied
      (non-empty) value replaces the stored one, an absent one keeps it. */
  function Merge(supplied: string, stored: string): (v: string)
    ensures supplied != "" ==> v == supplied
    ensures supplied == "" ==> v == stored
  {
    if supplied != "" then supplied else stored
  }

  /** Updates the name, email and specialization of user `id`; the
      specialization must be one the user schema lists, or saving fails. */
  function UpdateUser(s: Db, id: Option<UserId>, name: string, email: string,
                      specialization: string): (r: Outcome)
    ensures id.None? || id.value !in s.users ==> r == Outcome(NotFound, s)
    ensures id.Some? && id.value in s.users && Merge(specialization, s.users[id.value].specialization) !in SpecializationNames ==>
      r == Outcome(ServerError, s)
    ensures id.Some? && id.value in s.users && Merge(specialization, s.users[id.value].specialization) in SpecializationNames ==>
      var before := s.users[id.value];
      && r.status == Ok
      && id.value in r.db.users
      && r.db.users == s.users[id.value := r.db.users[id.value]]
      && var after := r.db.users[id.value];
      && (name != "" ==> after.name == name)
      && (name == "" ==> after.name == before.name)
      && (email != "" ==> after.email == email)
      && (email == "" ==> after.email == before.email)
      && (specialization != "" ==> after.specialization == specialization)
      && (specialization == "" ==> after.specialization == before.specialization)
      && after == before.(name := after.name, email := after.email, specialization := after.specialization)
      && r.db.rooms == s.rooms && r.db.notifications == s.notifications && r.db.activities == s.activities
  {
    if id.None? || id.value !in s.users then Outcome(NotFound, s)
    else
      var user := s.users[id.value];
      var updated := user.(name := Merge(name, user.name), email := Merge(email, user.email),
                           specialization := Merge(specialization, user.specialization));
      if updated.specialization !in SpecializationNames then Outcome(ServerError, s)
      else Outcome(Ok, PutUser(s, id.value, updated))
  }

  /** Sending the same update twice changes nothing the first did not. */
  lemma UpdateUserIdempotent(s: Db, id: Option<UserId>, name: string, email: string, specialization: string)
    ensures var once := UpdateUser(s, id, name, email, specialization);
      once.status == Ok ==>
        UpdateUser(once.db, id, name, email, specialization) == once
  {
  }

  /** An update that supplies nothing leaves the store as it was. */
  lemma EmptyUpdateChangesNothing(s: Db, id: UserId)
    requires id in s.users && s.users[id].specialization in SpecializationNames
    ensures UpdateUser(s, Some(id), "", "", "").db == s
  {
  }

  /** Deletes user `id`. Nothing else is touched: rooms keep listing the
      user among their contributors. */
  function DeleteUser(s: Db, id: Option<UserId>): (r: Outcome)
    ensures id.None? ==> r == Outcome(BadRequest, s)
    ensures id.Some? ==>
      && r.status == Ok
      && r.db.users.Keys == s.users.Keys - {id.value}
      && (forall u :: u in r.db.users ==> r.db.users[u] == s.users[u])
      && r.db.rooms == s.rooms && r.db.notifications == s.notifications
      && r.db.activities == s.activities
  {
    if id.None? then Outcome(BadRequest, s)
    else Outcome(Ok, s.(users := s.users - {id.value}))
  }
}

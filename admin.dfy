/** The role change of src/app/actions/admin.ts. */
module Admin {
  import opened Types
  import opened Store

  /** The profiles table after `update({ role }).eq("id", userId)`: the
      matching row, if any, takes the new role; a missing id matches no row. */
  function SetRole(profiles: map<Id, Profile>, userId: Id, role: Role): (r: map<Id, Profile>)
    ensures r.Keys == profiles.Keys
    ensures userId in profiles ==> r[userId].role == role
    ensures userId in profiles ==> r[userId].(role := profiles[userId].role) == profiles[userId]
    ensures forall k :: k in profiles && k != userId ==> r[k] == profiles[k]
  {
    if userId in profiles then profiles[userId := profiles[userId].(role := role)] else profiles
  }

  /** Applying the same role change twice is applying it once. */
  lemma SetRoleIdempotent(profiles: map<Id, Profile>, userId: Id, role: Role)
    ensures SetRole(SetRole(profiles, userId, role), userId, role) == SetRole(profiles, userId, role)
  {
  }

  /** Setting a user's role back to its previous value restores the table. */
  lemma SetRoleUndo(profiles: map<Id, Profile>, userId: Id, role: Role)
    requires userId in profiles
    ensures SetRole(SetRole(profiles, userId, role), userId, profiles[userId].role) == profiles
  {
    var r := SetRole(SetRole(profiles, userId, role), userId, profiles[userId].role);
    assert forall k :: k in profiles ==> r[k] == profiles[k];
  }

  /** `updateUserRoleAction`: only an admin may change roles, to any of the
      three; `storeFails` stands for an update error. */
  method UpdateUserRole(db: Db, caller: Option<Profile>, userId: Id, role: Role, storeFails: bool)
    returns (r: Result<()>)
    requires db.Valid()
    modifies db`profiles
    ensures db.Valid()
    ensures r == if caller.None? || caller.value.role != Admin then Failure(RoleChangeForbidden)
                 else if storeFails then Failure(RoleNotUpdated) else Success(())
    ensures r.Failure? ==> db.profiles == old(db.profiles)
    ensures r.Success? ==> db.profiles == SetRole(old(db.profiles), userId, role)
  {
    if caller.None? || caller.value.role != Admin {
      return Failure(RoleChangeForbidden);
    }
    if storeFails {
      return Failure(RoleNotUpdated);
    }
    db.profiles := SetRole(db.profiles, userId, role);
    r := Success(());
  }
}

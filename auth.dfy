/** The identity resolver and role gates of src/lib/auth.ts, and the
    "instructor or admin" and "owner or admin" tests the actions repeat. */
module Auth {
  import opened Types

  /** `getCurrentProfile`: the signed-in user's profile row, or nothing.
      `user` is what the authentication provider reports (None when no one is
      signed in or the provider reports an error); the profile table lookup
      fails when the row is missing. */
  function CurrentProfile(user: Option<Id>, profiles: map<Id, Profile>): (r: Option<Profile>)
    ensures user.None? ==> r.None?
    ensures user.Some? && user.value !in profiles ==> r.None?
    ensures r.Some? ==> user.Some? && user.value in profiles && r.value == profiles[user.value]
  {
    if user.Some? && user.value in profiles then Some(profiles[user.value]) else None
  }

  /** `hasRole(profile, roles)`. */
  function HasRole(profile: Option<Profile>, roles: seq<Role>): (b: bool)
    ensures b ==> profile.Some?
    ensures roles == [] ==> !b
  {
    profile.Some? && profile.value.role in roles
  }

  /** For a present profile, `hasRole` is membership of its role in the list. */
  lemma HasRoleIsMembership(p: Profile, roles: seq<Role>)
    ensures HasRole(Some(p), roles) <==> exists i :: 0 <= i < |roles| && roles[i] == p.role
  {
  }

  /** Widening the list of accepted roles never turns acceptance into refusal. */
  lemma HasRoleMonotone(profile: Option<Profile>, roles: seq<Role>, wider: seq<Role>)
    requires forall r :: r in roles ==> r in wider
    ensures HasRole(profile, roles) ==> HasRole(profile, wider)
  {
  }

  /** `!profile || (profile.role !== "instructor" && profile.role !== "admin")`
      is the negation of this gate. */
  predicate IsStaff(profile: Option<Profile>) {
    HasRole(profile, [Instructor, Admin])
  }

  /** `course.instructor_id !== profile.id && profile.role !== "admin"` is the
      negation of this gate. A course without an instructor is admin-only. */
  predicate OwnerOrAdmin(profile: Profile, instructorId: Option<Id>) {
    instructorId == Some(profile.id) || profile.role == Admin
  }

  lemma StaffGate(profile: Option<Profile>)
    ensures IsStaff(profile) <==> profile.Some? && profile.value.role != Student
  {
  }
}

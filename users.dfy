/** The user endpoints of app/api/v1/endpoints/users.py. Storage is a
    placeholder in the source; what is real is the permission check of
    `read_user` and `update_user` and the shape of each answer. */
module Users {
  import opened Wrappers
  import opened Schemas

  const Forbidden: HttpError := HttpError(403, "Not enough permissions")

  /** The owner-or-superuser rule: a user may act on their own id, a
      superuser on any id. */
  predicate MayAccess(userId: int, current: User) {
    userId == current.id || current.isSuperuser
  }

  /** `read_users`: the two fixed sample users, whatever `skip` and `limit`. */
  function ReadUsers(skip: int, limit: int): (r: seq<UserResponse>)
    requires 0 <= skip && 1 <= limit <= 1000
    ensures |r| == 2
    ensures forall i :: 0 <= i < |r| ==> r[i].id == i + 1 && r[i].isActive
  {
    [UserResponse(1, "user1@example.com", "User One", true, PlaceholderCreatedAt),
     UserResponse(2, "user2@example.com", "User Two", true, PlaceholderCreatedAt)]
  }

  /** `create_user`: the payload's email and name, with placeholder id 999,
      active, and the fixed creation time. */
  function CreateUser(data: UserCreate): (r: UserResponse)
    ensures r.email == data.email && r.fullName == data.fullName
    ensures r.id == 999 && r.isActive && r.createdAt == PlaceholderCreatedAt
  {
    UserResponse(999, data.email, data.fullName, true, PlaceholderCreatedAt)
  }

  /** `read_user`: 403 unless the rule allows it; otherwise a record carrying
      the requested id. */
  function ReadUser(userId: int, current: User): (r: Result<UserResponse, HttpError>)
    ensures r.Failure? <==> userId != current.id && !current.isSuperuser
    ensures r.Failure? ==> r.error == Forbidden
    ensures r.Success? ==> r.value.id == userId && r.value.isActive
  {
    if !MayAccess(userId, current) then Failure(Forbidden)
    else Success(UserResponse(userId, "user@example.com", "Example User", true, PlaceholderCreatedAt))
  }

  /** `update_user`: the same rule as `read_user`; the given email and name when
      truthy, otherwise placeholders. */
  function UpdateUser(userId: int, data: UserUpdate, current: User): (r: Result<UserResponse, HttpError>)
    ensures r.Failure? <==> userId != current.id && !current.isSuperuser
    ensures r.Failure? ==> r.error == Forbidden
    ensures r.Success? ==> r.value.id == userId && r.value.isActive
    ensures r.Success? && data.email.Some? && data.email.value != "" ==> r.value.email == data.email.value
    ensures r.Success? && (data.email.None? || data.email.value == "") ==> r.value.email == "updated@example.com"
    ensures r.Success? && data.fullName.Some? && data.fullName.value != "" ==> r.value.fullName == data.fullName.value
    ensures r.Success? && (data.fullName.None? || data.fullName.value == "") ==> r.value.fullName == "Updated User"
  {
    if !MayAccess(userId, current) then Failure(Forbidden)
    else Success(UserResponse(userId, OrElse(data.email, "updated@example.com"),
                              OrElse(data.fullName, "Updated User"), true, PlaceholderCreatedAt))
  }

  /** Reading and updating are refused for exactly the same callers, and a
      user may always act on their own id, a superuser on any id. */
  lemma SameRuleForReadAndUpdate(userId: int, data: UserUpdate, current: User)
    ensures ReadUser(userId, current).Failure? <==> UpdateUser(userId, data, current).Failure?
    ensures ReadUser(current.id, current).Success? && UpdateUser(current.id, data, current).Success?
    ensures current.isSuperuser ==> ReadUser(userId, current).Success? && UpdateUser(userId, data, current).Success?
  {
  }
}

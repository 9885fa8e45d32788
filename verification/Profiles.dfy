/** The user profiles of backend/app/vault_client.py, and the roles of departments. */
module Profiles {
  import opened Options

  datatype Profile = Profile(userId: Option<string>, role: Option<string>, homeRegion: Option<string>)

  function OrElse(o: Option<string>, default: string): string {
    if o.Some? then o.value else default
  }

  /** The first profile of a user. */
  function ProfileOf(profiles: seq<Profile>, user: string): Option<Profile> {
    if profiles == [] then None
    else if profiles[0].userId == Some(user) then Some(profiles[0])
    else ProfileOf(profiles[1..], user)
  }

  function DepartmentRole(department: string): string {
    if department == "Engineering" then "Developer"
    else if department == "Finance" || department == "HR" || department == "Sales" then department
    else if department == "Security" then "Admin"
    else "Employee"
  }
}

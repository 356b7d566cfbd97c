/** The `UserEntity` domain object: its status and role enumerations, construction checks and status changes. */
module Users {
  import opened Wrappers

  datatype UserStatus = Active | Inactive | Suspended | PendingVerification | Deleted

  datatype UserRole = Admin | Contractor | Hauler | Subhauler

  /**
   * The `ValueError` message of `__post_init__`, or `None` when the fields are accepted. The roles
   * are checked first, so a user with neither roles nor a usable email gets the roles message.
   */
  function ConstructionError(roles: seq<UserRole>, email: string): (r: Option<string>)
    ensures r.None? <==> roles != [] && email != [] && '@' in email
    ensures roles == [] ==> r == Some("User must have at least one role")
    ensures roles != [] && r.Some? ==> r == Some("Invalid email address")
  {
    if roles == [] then Some("User must have at least one role")
    else if email == [] || '@' !in email then Some("Invalid email address")
    else None
  }

  /** `f"{first_name} {last_name}"` */
  function FullNameOf(firstName: string, lastName: string): (r: string)
    ensures |r| == |firstName| + 1 + |lastName|
    ensures r[..|firstName|] == firstName && r[|firstName|] == ' ' && r[|firstName| + 1..] == lastName
  {
    firstName + " " + lastName
  }

  /** No position inside a first name without spaces holds the separating space. */
  lemma NoSpaceInFirstName(firstName: string, lastName: string, k: nat)
    ensures ' ' !in firstName && k < |firstName| ==> FullNameOf(firstName, lastName)[k] != ' '
  {
    if ' ' !in firstName && k < |firstName| {
      assert FullNameOf(firstName, lastName)[k] == firstName[k];
      assert firstName[k] in firstName;
    }
  }

  /** When first names hold no space, the full name determines both names. */
  lemma FullNameDetermines(first1: string, last1: string, first2: string, last2: string)
    requires ' ' !in first1 && ' ' !in first2
    requires FullNameOf(first1, last1) == FullNameOf(first2, last2)
    ensures first1 == first2 && last1 == last2
  {
    NoSpaceInFirstName(first1, last1, |first2|);
    NoSpaceInFirstName(first2, last2, |first1|);
  }

  class UserEntity {
    const id: string
    const firstName: string
    const lastName: string
    const email: string
    var status: UserStatus
    const roles: seq<UserRole>
    const phone: Option<string>

    /** The dataclass constructor once `__post_init__` has accepted the fields. */
    constructor (id: string, firstName: string, lastName: string, email: string, status: UserStatus,
                 roles: seq<UserRole>, phone: Option<string>)
      requires ConstructionError(roles, email).None?
      ensures this.id == id && this.firstName == firstName && this.lastName == lastName && this.email == email
      ensures this.status == status && this.roles == roles && this.phone == phone
    {
      this.id := id;
      this.firstName := firstName;
      this.lastName := lastName;
      this.email := email;
      this.status := status;
      this.roles := roles;
      this.phone := phone;
    }

    /** `UserEntity(...)`: the `ValueError` of `__post_init__`, or the new entity. */
    static method Create(id: string, firstName: string, lastName: string, email: string, status: UserStatus,
                         roles: seq<UserRole>, phone: Option<string>) returns (r: Result<UserEntity, string>)
      ensures r.Err? <==> ConstructionError(roles, email).Some?
      ensures r.Err? ==> r.error == ConstructionError(roles, email).value
      ensures r.Ok? ==> fresh(r.value) && r.value.status == status && r.value.roles == roles && r.value.email == email
      ensures r.Ok? ==> r.value.id == id && r.value.firstName == firstName && r.value.lastName == lastName && r.value.phone == phone
    {
      var error := ConstructionError(roles, email);
      if error.Some? {
        return Err(error.value);
      }
      var user := new UserEntity(id, firstName, lastName, email, status, roles, phone);
      return Ok(user);
    }

    /** `is_active()` */
    function IsActive(): (r: bool)
      reads this
      ensures r <==> status == Active
    {
      status == Active
    }

    /** `has_role(role)` */
    function HasRole(role: UserRole): (r: bool)
      ensures r <==> exists k :: 0 <= k < |roles| && roles[k] == role
    {
      role in roles
    }

    /** `full_name()` */
    function FullName(): (r: string)
      ensures |r| == |firstName| + 1 + |lastName|
      ensures r[..|firstName|] == firstName && r[|firstName|] == ' ' && r[|firstName| + 1..] == lastName
    {
      FullNameOf(firstName, lastName)
    }

    /** `activate()`: the status becomes `ACTIVE`. */
    method Activate()
      modifies this
      ensures status == Active && IsActive()
    {
      status := Active;
    }

    /** `deactivate()`: the status becomes `INACTIVE`. */
    method Deactivate()
      modifies this
      ensures status == Inactive && !IsActive()
    {
      status := Inactive;
    }
  }
}

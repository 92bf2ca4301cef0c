// User administration page: the completeness check on the user form, the
// roles normalisation applied before a submit, and the role badge colours.

module AdminUsers {
  import opened Common

  /**
   * `formData.roles`: normally an array of role names, but the code also
   * allows a single role name held directly.
   */
  datatype RolesField = RoleList(names: seq<string>) | SingleRole(name: string)

  datatype UserForm = UserForm(
    firstName: string,
    lastName: string,
    email: string,
    phoneNumber: string,
    password: string,
    roles: RolesField)

  /** The data handed to `handleSubmitUser`: the form with its roles as a list. */
  datatype UserData = UserData(
    firstName: string,
    lastName: string,
    email: string,
    phoneNumber: string,
    password: string,
    roles: seq<string>)

  /**
   * `formData.roles.length`: the number of roles for a list, but the number
   * of characters for a single role name.
   */
  function RolesLength(roles: RolesField): nat {
    match roles
    case RoleList(names) => |names|
    case SingleRole(name) => |name|
  }

  /** isFormValid: the password is only checked while `isAdding` is false. */
  predicate IsFormValid(form: UserForm, isAdding: bool) {
    var basicFieldsValid :=
      Trim(form.firstName) != "" && Trim(form.lastName) != "" && Trim(form.email) != ""
      && RolesLength(form.roles) == 1;
    if !isAdding then basicFieldsValid && Trim(form.password) != "" else basicFieldsValid
  }

  /**
   * The form is complete iff first name, last name and e-mail are not blank,
   * `roles.length` is one, and, when `isAdding` is false, the password is not
   * blank; while adding, the password does not matter.
   */
  lemma IsFormValidSpec(form: UserForm, isAdding: bool, otherPassword: string)
    ensures IsFormValid(form, isAdding) <==>
      !AllSpace(form.firstName) && !AllSpace(form.lastName) && !AllSpace(form.email)
      && RolesLength(form.roles) == 1
      && (!isAdding ==> !AllSpace(form.password))
    ensures isAdding ==> (IsFormValid(form, true) <==> IsFormValid(form.(password := otherPassword), true))
    ensures IsFormValid(form, false) ==> IsFormValid(form, true)
  {
    BlankIffAllSpace(form.firstName);
    BlankIffAllSpace(form.lastName);
    BlankIffAllSpace(form.email);
    BlankIffAllSpace(form.password);
  }

  /** `Array.isArray(roles) ? roles : [roles]`. */
  function NormaliseRoles(roles: RolesField): seq<string> {
    match roles
    case RoleList(names) => names
    case SingleRole(name) => [name]
  }

  /** A list is sent as it is and a single name becomes a one-element list. */
  lemma NormaliseRolesSpec(roles: RolesField)
    ensures roles.RoleList? ==> NormaliseRoles(roles) == roles.names
    ensures roles.SingleRole? ==> NormaliseRoles(roles) == [roles.name]
    ensures NormaliseRoles(RoleList(NormaliseRoles(roles))) == NormaliseRoles(roles)
    ensures forall r :: r in NormaliseRoles(roles) <==>
      (roles.RoleList? && r in roles.names) || (roles.SingleRole? && r == roles.name)
  {
  }

  function ToUserData(form: UserForm): UserData {
    UserData(form.firstName, form.lastName, form.email, form.phoneNumber, form.password,
             NormaliseRoles(form.roles))
  }

  datatype SubmitStep = IncompleteWarning | SubmitUser(data: UserData)

  /** handleSubmit up to the call of `handleSubmitUser`. */
  function HandleSubmit(form: UserForm, isAdding: bool): SubmitStep {
    if !IsFormValid(form, isAdding) then IncompleteWarning else SubmitUser(ToUserData(form))
  }

  /**
   * A user is submitted iff the form is complete; what is submitted has
   * exactly one role and carries the form's fields unchanged.
   */
  lemma HandleSubmitSpec(form: UserForm, isAdding: bool)
    ensures HandleSubmit(form, isAdding).SubmitUser? <==> IsFormValid(form, isAdding)
    ensures var step := HandleSubmit(form, isAdding);
      step.SubmitUser? ==>
        && |step.data.roles| == 1
        && step.data.firstName == form.firstName && step.data.lastName == form.lastName
        && step.data.email == form.email && step.data.phoneNumber == form.phoneNumber
        && step.data.password == form.password
        && (form.roles.RoleList? ==> step.data.roles == form.roles.names)
        && (form.roles.SingleRole? ==> step.data.roles == [form.roles.name] && |form.roles.name| == 1)
  {
  }

  /**
   * Because a single role name is measured in characters, a single real role
   * name such as "Admin" never passes the check, while the same role in a list does.
   */
  lemma SingleRoleNameRejected(form: UserForm, isAdding: bool)
    requires form.roles == SingleRole("Admin")
    ensures !IsFormValid(form, isAdding)
    ensures !AllSpace(form.firstName) && !AllSpace(form.lastName) && !AllSpace(form.email)
      && (!isAdding ==> !AllSpace(form.password))
      ==> IsFormValid(form.(roles := RoleList(["Admin"])), isAdding)
  {
    IsFormValidSpec(form, isAdding, "");
    IsFormValidSpec(form.(roles := RoleList(["Admin"])), isAdding, "");
  }

  /** resetForm's state: empty fields and the "Restaurant" role. */
  const EmptyForm: UserForm := UserForm("", "", "", "", "", RoleList(["Restaurant"]))

  /** The freshly reset form cannot be submitted, whatever the mode. */
  lemma EmptyFormIncomplete(isAdding: bool)
    ensures HandleSubmit(EmptyForm, isAdding) == IncompleteWarning
    ensures RolesLength(EmptyForm.roles) == 1
  {
    assert EmptyForm.firstName == "";
    assert |Trim(EmptyForm.firstName)| == 0;
    assert !IsFormValid(EmptyForm, isAdding);
  }

  const AdminBadge: string := "bg-red-100 text-red-800 border-red-200"
  const RestaurantBadge: string := "bg-blue-100 text-blue-800 border-blue-200"
  const BranchBadge: string := "bg-green-100 text-green-800 border-green-200"
  const DefaultBadge: string := "bg-gray-100 text-gray-800 border-gray-200"

  /** getRoleBadgeColor. */
  function RoleBadgeColor(role: string): string {
    if role == "Admin" then AdminBadge
    else if role == "Restaurant" then RestaurantBadge
    else if role == "Branch" then BranchBadge
    else DefaultBadge
  }

  /** The three known roles get three distinct colours; every other role is grey. */
  lemma RoleBadgeColorSpec(role: string)
    ensures role !in {"Admin", "Restaurant", "Branch"} <==> RoleBadgeColor(role) == DefaultBadge
    ensures RoleBadgeColor("Admin") != RoleBadgeColor("Restaurant")
    ensures RoleBadgeColor("Admin") != RoleBadgeColor("Branch")
    ensures RoleBadgeColor("Restaurant") != RoleBadgeColor("Branch")
  {
  }
}

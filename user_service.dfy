/**
 * The user-store operations of UserServiceImpl: findById, save, update,
 * remove, and the role assignment getRoles they share.
 *
 * The user repository is a map from id to stored user, kept in a class
 * whose methods change it in place; the role repository is a fixed table
 * from role name to role id.  Password hashing (BCrypt) is an opaque
 * function the service is built with.
 */
module Service {
  import opened Wrappers
  import TokenCheck

  const UserRoleName: string := "ROLE_USER"
  const AdminRoleName: string := "ROLE_ADMIN"

  datatype Role = Role(id: int, name: string)

  /** A stored user: the entity fields the service reads and writes. */
  datatype User = User(id: int, username: string, password: string, email: string, roles: seq<Role>)

  /** The body of a create request (a User without an id). */
  datatype UserForm = UserForm(username: string, password: string, email: string, admin: bool)

  /** The body of an update request (UserRequest): no password. */
  datatype UserRequest = UserRequest(username: string, email: string, admin: bool)

  /** RoleRepository.findByName over a table from role name to role id. */
  function FindRoleByName(roleTable: map<string, int>, name: string): (r: Option<Role>)
    ensures r.Some? <==> name in roleTable
    ensures r.Some? ==> r.value == Role(roleTable[name], name)
  {
    if name in roleTable then Some(Role(roleTable[name], name)) else None
  }

  predicate HasRoleNamed(roles: seq<Role>, name: string) {
    exists i :: 0 <= i < |roles| && roles[i].name == name
  }

  /** The roles getRoles assigns: ROLE_USER when the table has it, then
      ROLE_ADMIN when the user is an admin and the table has it. */
  function RolesFor(roleTable: map<string, int>, admin: bool): (r: seq<Role>)
    ensures |r| == (if UserRoleName in roleTable then 1 else 0) + (if admin && AdminRoleName in roleTable then 1 else 0)
    ensures forall i, j :: 0 <= i < j < |r| ==> r[i].name != r[j].name
    ensures forall i :: 0 <= i < |r| ==> r[i].name == UserRoleName || r[i].name == AdminRoleName
    ensures forall i :: 0 <= i < |r| ==> r[i].name in roleTable && r[i].id == roleTable[r[i].name]
    ensures HasRoleNamed(r, UserRoleName) <==> UserRoleName in roleTable
    ensures HasRoleNamed(r, AdminRoleName) <==> admin && AdminRoleName in roleTable
    ensures UserRoleName in roleTable ==> r[0].name == UserRoleName
    ensures !admin ==> !HasRoleNamed(r, AdminRoleName)
  {
    var user := if UserRoleName in roleTable then [Role(roleTable[UserRoleName], UserRoleName)] else [];
    var adminRole := if admin && AdminRoleName in roleTable then [Role(roleTable[AdminRoleName], AdminRoleName)] else [];
    var r := user + adminRole;
    assert UserRoleName != AdminRoleName by { assert UserRoleName[5] != AdminRoleName[5]; }
    assert UserRoleName in roleTable ==> r[0].name == UserRoleName;
    assert admin && AdminRoleName in roleTable ==> r[|r| - 1].name == AdminRoleName;
    r
  }

  /** UserServiceImpl over an in-memory user repository. */
  class UserService {
    /** The user repository: id to stored user. */
    var users: map<int, User>
    /** The next id the identity column hands out. */
    var nextId: int
    /** The role repository: role name to role id. */
    const roleTable: map<string, int>
    /** PasswordEncoder.encode (BCrypt). */
    const encode: string -> string
    /** The JWT parser, under the shared secret. */
    const parse: TokenCheck.Parser
    /** The decoder of the "authorities" claim. */
    const decodeAuthorities: TokenCheck.AuthoritiesDecoder

    /** Every user is stored under its own id, and every id is below the
        next one to be handed out. */
    ghost predicate Valid()
      reads this
    {
      forall k :: k in users ==> users[k].id == k && k < nextId
    }

    constructor (roleTable: map<string, int>, encode: string -> string,
                 parse: TokenCheck.Parser, decodeAuthorities: TokenCheck.AuthoritiesDecoder)
      ensures Valid()
      ensures users == map[] && nextId == 1
      ensures this.roleTable == roleTable && this.encode == encode
      ensures this.parse == parse && this.decodeAuthorities == decodeAuthorities
    {
      users := map[];
      nextId := 1;
      this.roleTable := roleTable;
      this.encode := encode;
      this.parse := parse;
      this.decodeAuthorities := decodeAuthorities;
    }

    /** UserServiceImpl.findById */
    function FindById(id: int): (r: Option<User>)
      requires Valid()
      reads this
      ensures r.Some? <==> id in users
      ensures r.Some? ==> r.value == users[id] && r.value.id == id
    {
      if id in users then Some(users[id]) else None
    }

    /** UserServiceImpl.getRoles: builds the list one role at a time. */
    method GetRoles(admin: bool) returns (roles: seq<Role>)
      ensures roles == RolesFor(roleTable, admin)
    {
      var ou := FindRoleByName(roleTable, UserRoleName);
      roles := [];
      if ou.Some? {
        roles := roles + [ou.value];
      }
      if admin {
        var oa := FindRoleByName(roleTable, AdminRoleName);
        if oa.Some? {
          roles := roles + [oa.value];
        }
      }
    }

    /** UserServiceImpl.save: hashes the password, assigns the roles and
        stores the user under a fresh id. */
    method Save(form: UserForm) returns (saved: User)
      requires Valid()
      modifies this
      ensures Valid()
      ensures saved.id == old(nextId) && saved.id !in old(users) && nextId == old(nextId) + 1
      ensures saved.username == form.username && saved.email == form.email
      ensures saved.password == encode(form.password)
      ensures saved.roles == RolesFor(roleTable, form.admin)
      ensures users == old(users)[saved.id := saved]
    {
      var password := encode(form.password);
      var roles := GetRoles(form.admin);
      saved := User(nextId, form.username, password, form.email, roles);
      users := users[nextId := saved];
      nextId := nextId + 1;
    }

    /** UserServiceImpl.remove (deleteById; an absent id is ignored). */
    method Remove(id: int)
      requires Valid()
      modifies this
      ensures Valid()
      ensures users == old(users) - {id} && nextId == old(nextId)
    {
      users := users - {id};
    }

    /** UserServiceImpl.update: on a present id, overwrites roles, username
        and email and keeps id and password; on an absent id, changes
        nothing. */
    method Update(request: UserRequest, id: int) returns (r: Option<User>)
      requires Valid()
      modifies this
      ensures Valid()
      ensures nextId == old(nextId)
      ensures id in old(users) ==>
        && id in users
        && r == Some(users[id])
        && users == old(users)[id := users[id]]
        && users[id].id == old(users)[id].id
        && users[id].password == old(users)[id].password
        && users[id].username == request.username
        && users[id].email == request.email
        && users[id].roles == RolesFor(roleTable, request.admin)
      ensures id !in old(users) ==> users == old(users)
    {
      var found := FindById(id);
      r := None;
      if found.Some? {
        var roles := GetRoles(request.admin);
        var updated := found.value.(roles := roles, username := request.username, email := request.email);
        users := users[id := updated];
        r := Some(updated);
      }
    }
  }
}

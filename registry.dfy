/**
 * The database operations on users, roles, discourses and comments, over an
 * in-memory store whose tables are sequences in insertion order. Row ids
 * are assigned as the position in the table plus one, as an
 * autoincrementing key does on a table nothing is deleted from. Password
 * hashing and the clock are parameters.
 */
module Registry {
  import opened Wrappers

  datatype RoleType = Admin | Editor | Writer | Reader

  datatype Role = Role(id: nat, name: RoleType, description: string)

  datatype User = User(id: nat, name: string, otherNames: string, email: string, username: string,
                       organizationName: Option<string>, website: Option<string>,
                       passwordHash: string, isActive: bool, isAuthorized: bool, roleIds: seq<nat>)

  /** One entry of `resources_data`: the keyword arguments of a resource. */
  datatype ResourceData = ResourceData(kind: string, name: string, medium: Option<string>, link: Option<string>)

  datatype Discourse = Discourse(id: nat, userId: nat, reference: string, title: string, body: string,
                                 isApproved: bool, resources: seq<ResourceData>)

  datatype Comment = Comment(id: nat, userId: nat, discourseId: nat, body: string,
                             ipAddress: Option<string>, isAudited: bool)

  /** A created row, or the message of the `ValueError` raised instead. */
  datatype Outcome<T> = Created(value: T) | Refused(message: string)

  const EmailExists: string := "An account with this email already exists."
  const UsernameExists: string := "This username is already taken."
  const NotOpenForComments: string := "Discourse not found or not open for comments."

  // ---------------------------------------------------------------------
  // Table queries
  // ---------------------------------------------------------------------

  predicate EmailTaken(users: seq<User>, email: string) {
    exists i :: 0 <= i < |users| && users[i].email == email
  }

  predicate UsernameTaken(users: seq<User>, username: string) {
    exists i :: 0 <= i < |users| && users[i].username == username
  }

  predicate UniqueEmails(users: seq<User>) {
    forall i, j :: 0 <= i < j < |users| ==> users[i].email != users[j].email
  }

  predicate UniqueUsernames(users: seq<User>) {
    forall i, j :: 0 <= i < j < |users| ==> users[i].username != users[j].username
  }

  /** `get_user_by_email`: the first user with that email. */
  function UserByEmail(users: seq<User>, email: string): (r: Option<User>)
    ensures r.Some? <==> EmailTaken(users, email)
    ensures r.Some? ==> r.value in users && r.value.email == email
    decreases |users|
  {
    if users == [] then None
    else if users[0].email == email then Some(users[0])
    else
      var r := UserByEmail(users[1..], email);
      assert EmailTaken(users[1..], email) ==> EmailTaken(users, email) by {
        if EmailTaken(users[1..], email) {
          var i :| 0 <= i < |users[1..]| && users[1..][i].email == email;
          assert users[i + 1].email == email;
        }
      }
      assert EmailTaken(users, email) ==> EmailTaken(users[1..], email) by {
        if EmailTaken(users, email) {
          var i :| 0 <= i < |users| && users[i].email == email;
          assert i != 0;
          assert users[1..][i - 1].email == email;
        }
      }
      r
  }

  /** The first role with the given name (`filter_by(name=...).first()`). */
  function RoleNamed(roles: seq<Role>, name: RoleType): (r: Option<Role>)
    ensures r.Some? ==> r.value in roles && r.value.name == name
    ensures r.None? ==> forall i :: 0 <= i < |roles| ==> roles[i].name != name
    decreases |roles|
  {
    if roles == [] then None
    else if roles[0].name == name then Some(roles[0])
    else
      var r := RoleNamed(roles[1..], name);
      assert forall i :: 1 <= i < |roles| ==> roles[i] == roles[1..][i - 1];
      r
  }

  /** The open discourse a comment may be attached to, if any. */
  predicate OpenForComments(discourses: seq<Discourse>, discourseId: nat) {
    exists i :: 0 <= i < |discourses| && discourses[i].id == discourseId && discourses[i].isApproved
  }

  predicate DiscourseExists(discourses: seq<Discourse>, discourseId: nat) {
    exists i :: 0 <= i < |discourses| && discourses[i].id == discourseId
  }

  // ---------------------------------------------------------------------
  // create_user
  // ---------------------------------------------------------------------

  /** The checks `create_user` makes, in order: the email first, then the
      username. None when both are free. */
  function CheckNewUser(users: seq<User>, email: string, username: string): (r: Option<string>)
    ensures EmailTaken(users, email) ==> r == Some(EmailExists)
    ensures !EmailTaken(users, email) && UsernameTaken(users, username) ==> r == Some(UsernameExists)
    ensures r.None? <==> !EmailTaken(users, email) && !UsernameTaken(users, username)
  {
    if EmailTaken(users, email) then Some(EmailExists)
    else if UsernameTaken(users, username) then Some(UsernameExists)
    else None
  }

  /** The row `create_user` builds: active, not authorized, and holding the
      Reader role exactly when the store has one. */
  function NewUser(id: nat, name: string, otherNames: string, email: string, username: string,
                   passwordHash: string, organizationName: Option<string>, website: Option<string>,
                   roles: seq<Role>): (u: User)
    ensures u.isActive && !u.isAuthorized
    ensures u.email == email && u.username == username && u.id == id
    ensures u.name == name && u.otherNames == otherNames && u.passwordHash == passwordHash
    ensures u.organizationName == organizationName && u.website == website
    ensures |u.roleIds| <= 1
    ensures u.roleIds != [] <==> exists i :: 0 <= i < |roles| && roles[i].name == Reader
    ensures u.roleIds != [] ==> exists i :: 0 <= i < |roles| && roles[i].name == Reader && roles[i].id == u.roleIds[0]
  {
    var reader := RoleNamed(roles, Reader);
    User(id, name, otherNames, email, username, organizationName, website, passwordHash, true, false,
         if reader.Some? then [reader.value.id] else [])
  }

  /** Adding a user whose email and username are both free keeps both
      columns unique. */
  lemma AppendKeepsUnique(users: seq<User>, u: User)
    requires UniqueEmails(users) && UniqueUsernames(users)
    requires !EmailTaken(users, u.email) && !UsernameTaken(users, u.username)
    ensures UniqueEmails(users + [u]) && UniqueUsernames(users + [u])
  {
    forall i, j | 0 <= i < j < |users + [u]|
      ensures (users + [u])[i].email != (users + [u])[j].email
      ensures (users + [u])[i].username != (users + [u])[j].username
    {
      if j == |users| {
        assert (users + [u])[i] == users[i];
      }
    }
  }

  /** The user just added is the one `get_user_by_email` finds. */
  lemma CreatedUserFound(users: seq<User>, u: User)
    requires !EmailTaken(users, u.email)
    ensures UserByEmail(users + [u], u.email) == Some(u)
    decreases |users|
  {
    if users != [] {
      assert (users + [u])[1..] == users[1..] + [u];
      assert !EmailTaken(users[1..], u.email);
      assert users[0].email != u.email;
      CreatedUserFound(users[1..], u);
    }
  }

  // ---------------------------------------------------------------------
  // seed_roles
  // ---------------------------------------------------------------------

  /** The four roles `seed_roles` adds to an empty table, in order. */
  function DefaultRoles(): (r: seq<Role>)
    ensures |r| == 4 && r[3].name == Reader
    ensures r[0].name == Admin && r[0].description == "Full access to the system."
    ensures r[1].name == Editor && r[1].description == "Can create, edit, and delete content."
    ensures r[2].name == Writer && r[2].description == "Can create content for approval."
    ensures r[3].description == "Can only read approved content."
    ensures forall i :: 0 <= i < |r| ==> r[i].id == i + 1
  {
    [Role(1, Admin, "Full access to the system."),
     Role(2, Editor, "Can create, edit, and delete content."),
     Role(3, Writer, "Can create content for approval."),
     Role(4, Reader, "Can only read approved content.")]
  }

  /** The role table after `seed_roles`. */
  function SeededRoles(roles: seq<Role>): (r: seq<Role>)
    ensures roles != [] ==> r == roles
    ensures roles == [] ==> r == DefaultRoles()
  {
    if |roles| > 0 then roles else DefaultRoles()
  }

  /** Seeding twice is seeding once, and a seeded table has a Reader. */
  lemma SeedRolesIdempotent(roles: seq<Role>)
    ensures SeededRoles(SeededRoles(roles)) == SeededRoles(roles)
    ensures roles == [] ==> RoleNamed(SeededRoles(roles), Reader) == Some(Role(4, Reader, "Can only read approved content."))
  {
    if roles == [] {
      var d := DefaultRoles();
      assert d[0].name != Reader && d[1].name != Reader && d[2].name != Reader;
      assert d[1..][1..][1..][0] == d[3];
    }
  }

  /** The role names are distinct in a seeded table. */
  predicate UniqueRoleNames(roles: seq<Role>) {
    forall i, j :: 0 <= i < j < |roles| ==> roles[i].name != roles[j].name
  }

  // ---------------------------------------------------------------------
  // The store
  // ---------------------------------------------------------------------

  class Store {
    var users: seq<User>
    var roles: seq<Role>
    var discourses: seq<Discourse>
    var comments: seq<Comment>

    /** The constraints of the schema the operations keep: unique emails,
        usernames and role names, ids numbered from 1, and every comment attached to
        an existing discourse. */
    ghost predicate Valid()
      reads this
    {
      && UniqueEmails(users) && UniqueUsernames(users) && UniqueRoleNames(roles)
      && (forall i :: 0 <= i < |users| ==> users[i].id == i + 1)
      && (forall i :: 0 <= i < |roles| ==> roles[i].id == i + 1)
      && (forall i :: 0 <= i < |discourses| ==> discourses[i].id == i + 1)
      && (forall i :: 0 <= i < |comments| ==> comments[i].id == i + 1)
      && (forall i :: 0 <= i < |comments| ==> DiscourseExists(discourses, comments[i].discourseId))
    }

    constructor ()
      ensures Valid()
      ensures users == [] && roles == [] && discourses == [] && comments == []
    {
      users, roles, discourses, comments := [], [], [], [];
    }

    /** `create_user`: refuses a taken email, then a taken username, and
        otherwise adds exactly one user. */
    method CreateUser(name: string, otherNames: string, email: string, username: string,
                      password: string, hashPassword: string -> string,
                      organizationName: Option<string>, website: Option<string>)
      returns (result: Outcome<User>)
      requires Valid()
      modifies this
      ensures Valid()
      ensures roles == old(roles) && discourses == old(discourses) && comments == old(comments)
      ensures CheckNewUser(old(users), email, username).Some? ==>
        result == Refused(CheckNewUser(old(users), email, username).value) && users == old(users)
      ensures CheckNewUser(old(users), email, username).None? ==>
        && result == Created(NewUser(|old(users)| + 1, name, otherNames, email, username,
                                     hashPassword(password), organizationName, website, roles))
        && users == old(users) + [result.value]
    {
      var refusal := CheckNewUser(users, email, username);
      if refusal.Some? {
        return Refused(refusal.value);
      }
      var newUser := NewUser(|users| + 1, name, otherNames, email, username,
                             hashPassword(password), organizationName, website, roles);
      AppendKeepsUnique(users, newUser);
      users := users + [newUser];
      result := Created(newUser);
    }

    /** `add_discourse`: the resources are attached one by one in input
        order; the new discourse is not approved. `stamp` is the clock
        reading formatted as `%Y%m%d%H%M%S`. */
    method AddDiscourse(userId: nat, title: string, bodyHtml: string,
                        resourcesData: seq<ResourceData>, stamp: string)
      returns (d: Discourse)
      requires Valid()
      modifies this
      ensures Valid()
      ensures users == old(users) && roles == old(roles) && comments == old(comments)
      ensures discourses == old(discourses) + [d]
      ensures d.id == |old(discourses)| + 1 && d.userId == userId
      ensures d.title == title && d.body == bodyHtml && d.reference == "DISC-" + stamp
      ensures !d.isApproved && d.resources == resourcesData
    {
      d := Discourse(|discourses| + 1, userId, "DISC-" + stamp, title, bodyHtml, false, []);
      var i := 0;
      while i < |resourcesData|
        invariant 0 <= i <= |resourcesData|
        invariant d == Discourse(|discourses| + 1, userId, "DISC-" + stamp, title, bodyHtml, false, resourcesData[..i])
      {
        d := d.(resources := d.resources + [resourcesData[i]]);
        assert resourcesData[..i + 1] == resourcesData[..i] + [resourcesData[i]];
        i := i + 1;
      }
      assert resourcesData[..i] == resourcesData;
      assert forall k :: 0 <= k < |comments| ==>
        DiscourseExists(discourses, comments[k].discourseId) ==> DiscourseExists(discourses + [d], comments[k].discourseId) by {
        forall k | 0 <= k < |comments| && DiscourseExists(discourses, comments[k].discourseId)
          ensures DiscourseExists(discourses + [d], comments[k].discourseId)
        {
          var j :| 0 <= j < |discourses| && discourses[j].id == comments[k].discourseId;
          assert (discourses + [d])[j] == discourses[j];
        }
      }
      discourses := discourses + [d];
    }

    /** `add_comment_to_discourse`: only an existing, approved discourse
        takes comments; the new comment is not audited. */
    method AddComment(userId: nat, discourseId: nat, body: string, ipAddress: Option<string>)
      returns (result: Outcome<Comment>)
      requires Valid()
      modifies this
      ensures Valid()
      ensures users == old(users) && roles == old(roles) && discourses == old(discourses)
      ensures !OpenForComments(discourses, discourseId) ==>
        result == Refused(NotOpenForComments) && comments == old(comments)
      ensures OpenForComments(discourses, discourseId) ==>
        && result == Created(Comment(|old(comments)| + 1, userId, discourseId, body, ipAddress, false))
        && comments == old(comments) + [result.value]
    {
      if !OpenForComments(discourses, discourseId) {
        return Refused(NotOpenForComments);
      }
      var c := Comment(|comments| + 1, userId, discourseId, body, ipAddress, false);
      assert DiscourseExists(discourses, discourseId);
      comments := comments + [c];
      result := Created(c);
    }

    /** `seed_roles`: fills an empty role table with the four default
        roles and leaves any other table as it is; `seeded` says which. */
    method SeedRoles() returns (seeded: bool)
      requires Valid()
      modifies this
      ensures Valid()
      ensures users == old(users) && discourses == old(discourses) && comments == old(comments)
      ensures roles == SeededRoles(old(roles))
      ensures seeded <==> old(roles) == []
    {
      if |roles| > 0 {
        return false;
      }
      DefaultRolesUnique();
      roles := DefaultRoles();
      seeded := true;
    }
  }

  /** A user created after seeding an empty role table holds the Reader role. */
  lemma NewUserAfterSeedIsReader(id: nat, name: string, otherNames: string, email: string, username: string,
                                 passwordHash: string, organizationName: Option<string>, website: Option<string>)
    ensures NewUser(id, name, otherNames, email, username, passwordHash, organizationName, website,
                    SeededRoles([])).roleIds == [4]
  {
    SeedRolesIdempotent([]);
  }

  /** The default roles have distinct names. */
  lemma DefaultRolesUnique()
    ensures UniqueRoleNames(DefaultRoles())
  {
  }
}

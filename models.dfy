/** The tables of the club/project directory and the invariant the request
    handlers keep on them.

    Every table is a sequence of rows. Clubs and projects are newest first
    (their `ordering` is by descending creation time). The relationship and
    member tables are queried without ORDER BY, which SQL leaves unordered;
    the model assumes insertion order for them. Primary keys are auto-increment and no row of
    the users, clubs or projects tables is ever deleted, so ids are positions:
    user `k` is `users[k - 1]`, and club or project `k` sits `k` rows from the
    end of its table. */
module Models {
  import opened Common

  type UserId = nat
  type ClubId = nat
  type ProjectId = nat

  /** A row of a privilege catalog (`ClubMemberPrivilege` or `ProjectMemberPrivilege`). */
  datatype Privilege = Privilege(code: int, name: string)

  const ViewName: string := "View"
  const AdminName: string := "Admin"

  /** The rows the seed migration puts in each catalog: View = 1, Admin = 2. */
  const SeededCatalog: seq<Privilege> := [Privilege(1, ViewName), Privilege(2, AdminName)]

  datatype User = User(id: UserId, email: string, name: string, password: string,
                       image: string, isAdmin: bool)

  /** `head` is nullable: removing the head of a club clears it. */
  datatype Club = Club(id: ClubId, name: string, abstractText: string, link: string,
                       image: Option<string>, head: Option<UserId>)

  datatype Project = Project(id: ProjectId, name: string, abstractText: string, link: string,
                             image: Option<string>, head: UserId, club: ClubId,
                             techstack: seq<string>)

  /** A row of `ClubMemberRelationship` (resource = club id) or of
      `ProjectMemberRelationship` (resource = project id). */
  datatype Relationship = Relationship(resource: nat, user: UserId, privilege: Privilege)

  /** A roster entry of a project: a name and an optional picture, no account. */
  datatype ProjectMember = ProjectMember(project: ProjectId, name: Option<string>,
                                         profilePic: Option<string>)

  /** The whole database at one instant. */
  datatype Db = Db(users: seq<User>, clubs: seq<Club>,
                   clubPrivileges: seq<Privilege>, clubRels: seq<Relationship>,
                   projects: seq<Project>, projectPrivileges: seq<Privilege>,
                   projectRels: seq<Relationship>, members: seq<ProjectMember>)

  /** The database right after the migrations: empty tables, seeded catalogs. */
  const Migrated: Db := Db([], [], SeededCatalog, [], [], SeededCatalog, [], [])

  // ---------------------------------------------------------------------
  // Queries
  // ---------------------------------------------------------------------

  function UserByEmail(users: seq<User>, email: string): Option<nat>
  {
    Find(users, (u: User) => u.email == email)
  }

  function ClubByName(clubs: seq<Club>, name: string): Option<nat>
  {
    Find(clubs, (c: Club) => c.name == name)
  }

  function ClubById(clubs: seq<Club>, id: ClubId): Option<nat>
  {
    Find(clubs, (c: Club) => c.id == id)
  }

  function ProjectByName(projects: seq<Project>, name: string): Option<nat>
  {
    Find(projects, (p: Project) => p.name == name)
  }

  /** `get(name=...)` on a privilege catalog. */
  function PrivilegeNamed(catalog: seq<Privilege>, name: string): Lookup
  {
    Get(catalog, (p: Privilege) => p.name == name)
  }

  predicate IsPair(r: Relationship, resource: nat, user: UserId)
  {
    r.resource == resource && r.user == user
  }

  /** `get(club=..., user=...)` (or project) on a relationship table. */
  function RelationshipOf(rels: seq<Relationship>, resource: nat, user: UserId): Lookup
  {
    Get(rels, (r: Relationship) => IsPair(r, resource, user))
  }

  predicate HasPair(rels: seq<Relationship>, resource: nat, user: UserId)
  {
    exists j :: 0 <= j < |rels| && IsPair(rels[j], resource, user)
  }

  /** The filter `ProjectMember.objects.filter(project=...)`. */
  function OfProject(project: ProjectId): ProjectMember -> bool
  {
    (m: ProjectMember) => m.project == project
  }

  /** `project.members.all()`: the roster rows of one project, in table order. */
  function MembersOf(members: seq<ProjectMember>, project: ProjectId): seq<ProjectMember>
  {
    Filter(members, OfProject(project))
  }

  // ---------------------------------------------------------------------
  // Invariant
  // ---------------------------------------------------------------------

  predicate UsersIndexed(users: seq<User>)
  {
    forall i :: 0 <= i < |users| ==> users[i].id == i + 1
  }

  /** The unique constraint on `User.email`. */
  predicate EmailsUnique(users: seq<User>)
  {
    forall i, j :: 0 <= i < j < |users| ==> users[i].email != users[j].email
  }

  predicate ClubsIndexed(clubs: seq<Club>)
  {
    forall i :: 0 <= i < |clubs| ==> clubs[i].id == |clubs| - i
  }

  predicate ProjectsIndexed(projects: seq<Project>)
  {
    forall i :: 0 <= i < |projects| ==> projects[i].id == |projects| - i
  }

  /** Project names are unique across all clubs. */
  predicate ProjectNamesUnique(projects: seq<Project>)
  {
    forall i, j :: 0 <= i < j < |projects| ==> projects[i].name != projects[j].name
  }

  /** At most one relationship row per (resource, user) pair. The schema does
      not enforce it; the handlers must keep it. */
  predicate OnePerPair(rels: seq<Relationship>)
  {
    forall i, j :: 0 <= i < j < |rels| ==> !IsPair(rels[j], rels[i].resource, rels[i].user)
  }

  /** Foreign keys of a relationship table point at existing rows. */
  predicate RelsRefer(rels: seq<Relationship>, resources: nat, users: nat)
  {
    forall r :: r in rels ==> 1 <= r.resource <= resources && 1 <= r.user <= users
  }

  predicate HeadsRefer(clubs: seq<Club>, users: nat)
  {
    forall c :: c in clubs ==> (c.head.Some? ==> 1 <= c.head.value <= users)
  }

  predicate ProjectsRefer(projects: seq<Project>, clubs: nat, users: nat)
  {
    forall p :: p in projects ==> 1 <= p.head <= users && 1 <= p.club <= clubs
  }

  predicate MembersRefer(members: seq<ProjectMember>, projects: nat)
  {
    forall m :: m in members ==> 1 <= m.project <= projects
  }

  predicate Valid(s: Db)
  {
    && UsersIndexed(s.users) && EmailsUnique(s.users)
    && ClubsIndexed(s.clubs) && HeadsRefer(s.clubs, |s.users|)
    && ProjectsIndexed(s.projects) && ProjectNamesUnique(s.projects)
    && ProjectsRefer(s.projects, |s.clubs|, |s.users|)
    && OnePerPair(s.clubRels) && RelsRefer(s.clubRels, |s.clubs|, |s.users|)
    && OnePerPair(s.projectRels) && RelsRefer(s.projectRels, |s.projects|, |s.users|)
    && MembersRefer(s.members, |s.projects|)
  }

  /** The catalog has exactly one row named Admin, so `get(name="Admin")` succeeds. */
  predicate AdminSeeded(catalog: seq<Privilege>)
  {
    PrivilegeNamed(catalog, AdminName).Unique?
  }

  /** The freshly migrated database satisfies the invariant and its catalogs
      resolve Admin to the row with code 2. */
  lemma MigratedValid()
    ensures Valid(Migrated)
    ensures PrivilegeNamed(Migrated.clubPrivileges, AdminName) == Unique(1)
    ensures PrivilegeNamed(Migrated.projectPrivileges, AdminName) == Unique(1)
    ensures Migrated.clubPrivileges[1] == Privilege(2, AdminName)
  {
    var p := (p: Privilege) => p.name == AdminName;
    assert !p(SeededCatalog[0]) && p(SeededCatalog[1]);
  }

  /** The mutable database: one field per table, each reassigned as rows are
      saved, created or deleted. */
  class Database {
    var users: seq<User>
    var clubs: seq<Club>
    var clubPrivileges: seq<Privilege>
    var clubRels: seq<Relationship>
    var projects: seq<Project>
    var projectPrivileges: seq<Privilege>
    var projectRels: seq<Relationship>
    var members: seq<ProjectMember>

    /** The tables as a value. */
    function State(): Db
      reads this
    {
      Db(users, clubs, clubPrivileges, clubRels, projects, projectPrivileges, projectRels, members)
    }

    constructor (initial: Db)
      ensures State() == initial
    {
      users, clubs := initial.users, initial.clubs;
      clubPrivileges, clubRels := initial.clubPrivileges, initial.clubRels;
      projects, projectPrivileges := initial.projects, initial.projectPrivileges;
      projectRels, members := initial.projectRels, initial.members;
    }
  }
}

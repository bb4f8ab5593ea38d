/** Club administration: the overall admin and club heads assign and remove
    club heads, and read the club list, a club's detail and a club head's
    dashboard.

    The caller's overall-admin flag and club access privilege are computed by
    request decorators that are not part of this model; they are parameters. */
module AdminViews {
  import opened Common
  import opened Models

  const AdminAssignDenied: string := "Permission denied: Only overall admin can assign club heads."
  const AdminRemoveDenied: string := "Permission denied: Only overall admin can remove club heads."
  const ClubHeadDenied: string := "Permission denied: You do not have admin privileges in this club."
  const ClubMissing: string := "Club does not exist."
  const UserMissing: string := "User does not exist."
  const AssignFailed: string := "Failed to assign club head."
  const RemoveFailed: string := "Failed to remove club head."
  const NotAClubHead: string := "User is not a club head in this club."
  const AssignedByAdmin: string := "Club head assigned successfully by overall admin."
  const AssignedByClubHead: string := "Club head assigned successfully by club head."
  const RemovedByAdmin: string := "Club head removed successfully by overall admin."
  const RemovedByClubHead: string := "Club head removed successfully by club head."

  // ---------------------------------------------------------------------
  // Relationship rows
  // ---------------------------------------------------------------------

  /** `after` is `before` with the (resource, user) row created, or its
      privilege overwritten in place; no other row moves or changes. */
  predicate Upserted(before: seq<Relationship>, after: seq<Relationship>,
                     resource: nat, user: UserId, privilege: Privilege)
  {
    && Relationship(resource, user, privilege) in after
    && |after| == (if HasPair(before, resource, user) then |before| else |before| + 1)
    && (forall j :: 0 <= j < |before| && !IsPair(before[j], resource, user) ==> after[j] == before[j])
    && (forall j :: 0 <= j < |after| && (j >= |before| || IsPair(before[j], resource, user)) ==>
          after[j] == Relationship(resource, user, privilege))
  }

  /** `after` is `before` with one row of the (resource, user) pair deleted. */
  predicate Revoked(before: seq<Relationship>, after: seq<Relationship>, resource: nat, user: UserId)
  {
    exists i :: 0 <= i < |before| && IsPair(before[i], resource, user)
                && after == before[..i] + before[i + 1..]
  }

  /** `get_or_create(club, user, defaults={"privilege": privilege})` followed by
      writing `privilege` into an existing row; None when the lookup raises
      because the pair has several rows. */
  function GrantAdmin(rels: seq<Relationship>, club: ClubId, user: UserId, privilege: Privilege)
    : (r: Option<seq<Relationship>>)
    ensures OnePerPair(rels) ==> r.Some?
    ensures r.Some? ==> Upserted(rels, r.value, club, user, privilege)
    ensures r.Some? ==> RelationshipOf(r.value, club, user).Unique?
    ensures r.Some? ==> r.value[RelationshipOf(r.value, club, user).index] == Relationship(club, user, privilege)
    ensures r.Some? && OnePerPair(rels) ==> OnePerPair(r.value)
  {
    match RelationshipOf(rels, club, user)
    case Missing =>
      AppendPairUpserts(rels, club, user, privilege);
      Some(rels + [Relationship(club, user, privilege)])
    case Unique(i) =>
      OverwritePairUpserts(rels, i, club, user, privilege);
      Some(rels[i := rels[i].(privilege := privilege)])
    case Multiple => None
  }

  /** Creating the row of a pair that has none: it is the only row of the pair. */
  lemma AppendPairUpserts(rels: seq<Relationship>, club: ClubId, user: UserId, privilege: Privilege)
    requires RelationshipOf(rels, club, user).Missing?
    ensures var after := rels + [Relationship(club, user, privilege)];
            && Upserted(rels, after, club, user, privilege)
            && RelationshipOf(after, club, user) == Unique(|rels|)
            && (OnePerPair(rels) ==> OnePerPair(after))
  {
    var after := rels + [Relationship(club, user, privilege)];
    assert after[|rels|] == Relationship(club, user, privilege);
    assert !HasPair(rels, club, user);
    GetSingle(after, (x: Relationship) => IsPair(x, club, user), |rels|);
  }

  /** Overwriting the privilege of the single row of a pair keeps it the only one. */
  lemma OverwritePairUpserts(rels: seq<Relationship>, i: nat, club: ClubId, user: UserId, privilege: Privilege)
    requires RelationshipOf(rels, club, user) == Unique(i)
    ensures i < |rels|
    ensures var after := rels[i := rels[i].(privilege := privilege)];
            && Upserted(rels, after, club, user, privilege)
            && RelationshipOf(after, club, user) == Unique(i)
            && (OnePerPair(rels) ==> OnePerPair(after))
  {
    var after := rels[i := rels[i].(privilege := privilege)];
    assert after[i] == Relationship(club, user, privilege);
    assert HasPair(rels, club, user) by { assert IsPair(rels[i], club, user); }
    GetSingle(after, (x: Relationship) => IsPair(x, club, user), i);
  }

  /** Granting the same privilege twice leaves the table as the first grant left it. */
  lemma GrantAdminIdempotent(rels: seq<Relationship>, club: ClubId, user: UserId, privilege: Privilege)
    requires GrantAdmin(rels, club, user, privilege).Some?
    ensures var after := GrantAdmin(rels, club, user, privilege).value;
            GrantAdmin(after, club, user, privilege) == Some(after)
  {
    var after := GrantAdmin(rels, club, user, privilege).value;
    var k := RelationshipOf(after, club, user).index;
    assert after[k := after[k].(privilege := privilege)] == after;
  }

  /** Deleting one row keeps "one row per pair" and the foreign keys. */
  lemma DeleteRowKeepsInvariant(rels: seq<Relationship>, i: nat, resources: nat, users: nat)
    requires i < |rels| && OnePerPair(rels) && RelsRefer(rels, resources, users)
    ensures OnePerPair(rels[..i] + rels[i + 1..])
    ensures RelsRefer(rels[..i] + rels[i + 1..], resources, users)
    ensures !HasPair(rels[..i] + rels[i + 1..], rels[i].resource, rels[i].user)
  {
    var after := rels[..i] + rels[i + 1..];
    assert forall a :: 0 <= a < |after| ==> after[a] == rels[if a < i then a else a + 1];
    forall a, b | 0 <= a < b < |after|
      ensures !IsPair(after[b], after[a].resource, after[a].user)
    {
      assert after[a] == rels[if a < i then a else a + 1];
      assert after[b] == rels[if b < i then b else b + 1];
    }
    forall a | 0 <= a < |after|
      ensures !IsPair(after[a], rels[i].resource, rels[i].user)
    {
      var a' := if a < i then a else a + 1;
      assert after[a] == rels[a'];
      if a' < i {
        assert !IsPair(rels[i], rels[a'].resource, rels[a'].user);
      }
    }
  }

  // ---------------------------------------------------------------------
  // Assign / remove club head
  // ---------------------------------------------------------------------

  /** The steps shared by both assign endpoints once the caller is allowed:
      resolve the club, then the user, optionally set `club.head` and save it,
      then upsert an Admin relationship. A failure after the save keeps it. */
  function AssignHead(s: Db, name: string, email: string, setHead: bool, success: string)
    : (out: (Db, Response<string>))
    ensures ClubByName(s.clubs, name).None? ==> out == (s, Err(ClubMissing))
    ensures ClubByName(s.clubs, name).Some? && UserByEmail(s.users, email).None? ==>
              out == (s, Err(UserMissing))
    ensures ClubByName(s.clubs, name).Some? && UserByEmail(s.users, email).Some? ==>
              var ci := ClubByName(s.clubs, name).value;
              var user := s.users[UserByEmail(s.users, email).value].id;
              var club := s.clubs[ci];
              var clubs := if setHead then s.clubs[ci := club.(head := Some(user))] else s.clubs;
              && out.0 == s.(clubs := clubs, clubRels := out.0.clubRels)
              && (out.1.Ok? <==> AdminSeeded(s.clubPrivileges)
                                 && !RelationshipOf(s.clubRels, club.id, user).Multiple?)
              && (out.1.Ok? ==>
                    && out.1 == Ok(success)
                    && Upserted(s.clubRels, out.0.clubRels, club.id, user,
                                s.clubPrivileges[PrivilegeNamed(s.clubPrivileges, AdminName).index]))
              && (out.1.Err? ==> out.1 == Err(AssignFailed) && out.0.clubRels == s.clubRels)
  {
    match ClubByName(s.clubs, name)
    case None => (s, Err(ClubMissing))
    case Some(ci) =>
      match UserByEmail(s.users, email)
      case None => (s, Err(UserMissing))
      case Some(ui) =>
        var club := s.clubs[ci];
        var user := s.users[ui].id;
        var saved := if setHead then s.(clubs := s.clubs[ci := club.(head := Some(user))]) else s;
        match PrivilegeNamed(saved.clubPrivileges, AdminName)
        case Unique(a) =>
          (match GrantAdmin(saved.clubRels, club.id, user, saved.clubPrivileges[a])
           case Some(rels) => (saved.(clubRels := rels), Ok(success))
           case None => (saved, Err(AssignFailed)))
        case _ => (saved, Err(AssignFailed))
  }

  /** AdminAssignClubHead: only the overall admin; sets `club.head` and grants Admin. */
  function AssignByAdmin(s: Db, isAdmin: bool, name: string, email: string): (out: (Db, Response<string>))
    ensures !isAdmin ==> out == (s, Err(AdminAssignDenied))
    ensures out.1.Ok? ==>
              && ClubByName(s.clubs, name).Some? && UserByEmail(s.users, email).Some?
              && |out.0.clubs| == |s.clubs|
              && out.0.clubs[ClubByName(s.clubs, name).value].head ==
                 Some(s.users[UserByEmail(s.users, email).value].id)
  {
    if !isAdmin then (s, Err(AdminAssignDenied))
    else AssignHead(s, name, email, true, AssignedByAdmin)
  }

  /** With the seeded catalog and the invariant, an overall-admin assign of an
      existing user to an existing club succeeds, names the user as head and
      leaves exactly one relationship row for the pair, at Admin (code 2). */
  lemma AssignByAdminSeeded(s: Db, name: string, email: string)
    requires OnePerPair(s.clubRels) && s.clubPrivileges == SeededCatalog
    requires ClubByName(s.clubs, name).Some? && UserByEmail(s.users, email).Some?
    ensures var out := AssignByAdmin(s, true, name, email);
            var ci := ClubByName(s.clubs, name).value;
            var user := s.users[UserByEmail(s.users, email).value].id;
            var row := RelationshipOf(out.0.clubRels, s.clubs[ci].id, user);
            && out.1 == Ok(AssignedByAdmin)
            && out.0.clubs[ci].head == Some(user)
            && row.Unique?
            && out.0.clubRels[row.index] == Relationship(s.clubs[ci].id, user, Privilege(2, AdminName))
  {
    MigratedValid();
  }

  /** ClubHeadAssignClubHead: needs Admin access on the club; grants Admin but
      leaves `club.head` as it was. */
  function AssignByClubHead(s: Db, accessPrivilege: string, name: string, email: string)
    : (out: (Db, Response<string>))
    ensures accessPrivilege != AdminName ==> out == (s, Err(ClubHeadDenied))
    ensures out.0.clubs == s.clubs
  {
    if accessPrivilege != AdminName then (s, Err(ClubHeadDenied))
    else AssignHead(s, name, email, false, AssignedByClubHead)
  }

  /** The steps shared by both remove endpoints once the caller is allowed:
      resolve the club, then the user, delete their relationship row whatever
      its privilege, and clear `club.head` only if it named that user. */
  function RemoveHead(s: Db, name: string, email: string, success: string): (out: (Db, Response<string>))
    ensures ClubByName(s.clubs, name).None? ==> out == (s, Err(ClubMissing))
    ensures ClubByName(s.clubs, name).Some? && UserByEmail(s.users, email).None? ==>
              out == (s, Err(UserMissing))
    ensures ClubByName(s.clubs, name).Some? && UserByEmail(s.users, email).Some? ==>
              var ci := ClubByName(s.clubs, name).value;
              var user := s.users[UserByEmail(s.users, email).value].id;
              var club := s.clubs[ci];
              && (!HasPair(s.clubRels, club.id, user) ==> out == (s, Err(NotAClubHead)))
              && (HasPair(s.clubRels, club.id, user) && OnePerPair(s.clubRels) ==> out.1 == Ok(success))
              && (out.1.Err? ==> out.0 == s)
              && (out.1.Ok? ==>
                    && out.1 == Ok(success)
                    && Revoked(s.clubRels, out.0.clubRels, club.id, user)
                    && out.0 == s.(clubs := out.0.clubs, clubRels := out.0.clubRels)
                    && out.0.clubs == if club.head == Some(user)
                                      then s.clubs[ci := club.(head := None)]
                                      else s.clubs)
  {
    match ClubByName(s.clubs, name)
    case None => (s, Err(ClubMissing))
    case Some(ci) =>
      match UserByEmail(s.users, email)
      case None => (s, Err(UserMissing))
      case Some(ui) =>
        var club := s.clubs[ci];
        var user := s.users[ui].id;
        match RelationshipOf(s.clubRels, club.id, user)
        case Missing => (s, Err(NotAClubHead))
        case Multiple => (s, Err(RemoveFailed))
        case Unique(i) =>
          var rels := s.clubRels[..i] + s.clubRels[i + 1..];
          var clubs := if club.head == Some(user) then s.clubs[ci := club.(head := None)] else s.clubs;
          (s.(clubs := clubs, clubRels := rels), Ok(success))
  }

  /** AdminRemoveClubHead: only the overall admin. */
  function RemoveByAdmin(s: Db, isAdmin: bool, name: string, email: string): (out: (Db, Response<string>))
    ensures !isAdmin ==> out == (s, Err(AdminRemoveDenied))
    ensures out.1.Ok? ==> |out.0.clubs| == |s.clubs| && |out.0.clubRels| == |s.clubRels| - 1
  {
    if !isAdmin then (s, Err(AdminRemoveDenied))
    else RemoveHead(s, name, email, RemovedByAdmin)
  }

  /** ClubHeadRemoveClubHead: needs Admin access on the club. */
  function RemoveByClubHead(s: Db, accessPrivilege: string, name: string, email: string)
    : (out: (Db, Response<string>))
    ensures accessPrivilege != AdminName ==> out == (s, Err(ClubHeadDenied))
    ensures out.1.Ok? ==> |out.0.clubs| == |s.clubs| && |out.0.clubRels| == |s.clubRels| - 1
  {
    if accessPrivilege != AdminName then (s, Err(ClubHeadDenied))
    else RemoveHead(s, name, email, RemovedByClubHead)
  }

  /** Naming an existing user as a club's head, or clearing the head, keeps
      the clubs table consistent. */
  lemma SetHeadKeepsClubs(clubs: seq<Club>, ci: nat, head: Option<UserId>, users: nat)
    requires ClubsIndexed(clubs) && HeadsRefer(clubs, users)
    requires ci < |clubs| && (head.Some? ==> 1 <= head.value <= users)
    ensures ClubsIndexed(clubs[ci := clubs[ci].(head := head)])
    ensures HeadsRefer(clubs[ci := clubs[ci].(head := head)], users)
  {
    var after := clubs[ci := clubs[ci].(head := head)];
    assert forall c :: c in after ==> c in clubs || c == clubs[ci].(head := head);
  }

  /** An upsert for an existing resource and user keeps the foreign keys valid. */
  lemma UpsertKeepsRefer(before: seq<Relationship>, after: seq<Relationship>, resource: nat, user: UserId,
                         privilege: Privilege, resources: nat, users: nat)
    requires Upserted(before, after, resource, user, privilege) && RelsRefer(before, resources, users)
    requires 1 <= resource <= resources && 1 <= user <= users
    ensures RelsRefer(after, resources, users)
  {
    forall r | r in after
      ensures 1 <= r.resource <= resources && 1 <= r.user <= users
    {
      var j :| 0 <= j < |after| && after[j] == r;
      if j < |before| && !IsPair(before[j], resource, user) {
        assert before[j] in before;
      }
    }
  }

  /** Every assign keeps the invariant, including "one relationship row per
      (club, user)", on success and on the partial failure. */
  lemma {:induction false} AssignHeadKeepsValid(s: Db, name: string, email: string, setHead: bool, success: string)
    requires Valid(s)
    ensures Valid(AssignHead(s, name, email, setHead, success).0)
  {
    var out := AssignHead(s, name, email, setHead, success);
    if ClubByName(s.clubs, name).Some? && UserByEmail(s.users, email).Some? {
      var ci := ClubByName(s.clubs, name).value;
      var ui := UserByEmail(s.users, email).value;
      var user := s.users[ui].id;
      assert user == ui + 1;
      assert s.clubs[ci].id == |s.clubs| - ci;
      if setHead {
        SetHeadKeepsClubs(s.clubs, ci, Some(user), |s.users|);
      }
      if out.1.Ok? {
        UpsertKeepsRefer(s.clubRels, out.0.clubRels, s.clubs[ci].id, user,
                         s.clubPrivileges[PrivilegeNamed(s.clubPrivileges, AdminName).index],
                         |s.clubs|, |s.users|);
      }
    }
  }

  /** Every remove keeps the invariant. */
  lemma {:induction false} RemoveHeadKeepsValid(s: Db, name: string, email: string, success: string)
    requires Valid(s)
    ensures Valid(RemoveHead(s, name, email, success).0)
  {
    var out := RemoveHead(s, name, email, success);
    if out.1.Ok? {
      var ci := ClubByName(s.clubs, name).value;
      var i := RelationshipOf(s.clubRels, s.clubs[ci].id, s.users[UserByEmail(s.users, email).value].id).index;
      DeleteRowKeepsInvariant(s.clubRels, i, |s.clubs|, |s.users|);
      SetHeadKeepsClubs(s.clubs, ci, None, |s.users|);
    }
  }

  /** Assigning the same head twice by the overall admin ends in the state,
      and with the response, of assigning once. */
  lemma {:induction false} AssignByAdminIdempotent(s: Db, isAdmin: bool, name: string, email: string)
    ensures var once := AssignByAdmin(s, isAdmin, name, email);
            AssignByAdmin(once.0, isAdmin, name, email) == once
  {
    var once := AssignByAdmin(s, isAdmin, name, email);
    if isAdmin && ClubByName(s.clubs, name).Some? && UserByEmail(s.users, email).Some? {
      var ci := ClubByName(s.clubs, name).value;
      var ui := UserByEmail(s.users, email).value;
      var club := s.clubs[ci];
      var user := s.users[ui].id;
      var s1 := once.0;
      FindPointwise(s.clubs, s1.clubs, (c: Club) => c.name == name);
      assert ClubByName(s1.clubs, name) == ClubByName(s.clubs, name);
      assert s1.users == s.users && s1.clubPrivileges == s.clubPrivileges;
      assert s1.clubs[ci] == club.(head := Some(user));
      assert s1.clubs[ci := s1.clubs[ci].(head := Some(user))] == s1.clubs;
      var admin := PrivilegeNamed(s.clubPrivileges, AdminName);
      if admin.Unique? {
        var g := GrantAdmin(s.clubRels, club.id, user, s.clubPrivileges[admin.index]);
        if g.Some? {
          GrantAdminIdempotent(s.clubRels, club.id, user, s.clubPrivileges[admin.index]);
        }
      }
    }
  }

  // ---------------------------------------------------------------------
  // Read views
  // ---------------------------------------------------------------------

  datatype ClubView = ClubView(id: ClubId, name: string, abstractText: string, link: string,
                               image: Option<string>, head: Option<string>)
  datatype UserSummary = UserSummary(id: UserId, email: string, name: string)
  datatype ProjectSummary = ProjectSummary(id: ProjectId, name: string, abstractText: string,
                                           link: string, image: Option<string>, head: string)
  datatype ClubDetail = ClubDetail(club: ClubView, adminUsers: seq<UserSummary>,
                                   projects: seq<ProjectSummary>)
  datatype DashboardEntry = DashboardEntry(club: ClubView, clubHeads: seq<UserSummary>,
                                           projects: seq<ProjectSummary>)

  /** A club as the views show it: the head by email, or None once cleared. */
  function ViewOfClub(users: seq<User>, c: Club): ClubView
    requires c.head.Some? ==> 1 <= c.head.value <= |users|
  {
    ClubView(c.id, c.name, c.abstractText, c.link, c.image,
             if c.head.Some? then Some(users[c.head.value - 1].email) else None)
  }

  function SummaryOf(u: User): UserSummary
  {
    UserSummary(u.id, u.email, u.name)
  }

  function ProjectSummaryOf(users: seq<User>, p: Project): ProjectSummary
    requires 1 <= p.head <= |users|
  {
    ProjectSummary(p.id, p.name, p.abstractText, p.link, p.image, users[p.head - 1].email)
  }

  predicate IsAdminRow(r: Relationship, club: ClubId)
  {
    r.resource == club && r.privilege.name == AdminName
  }

  /** AdminClubsList: every club, in table order. */
  function ClubsListing(users: seq<User>, clubs: seq<Club>): (r: seq<ClubView>)
    requires HeadsRefer(clubs, |users|)
    ensures |r| == |clubs|
    ensures forall i :: 0 <= i < |clubs| ==> r[i] == ViewOfClub(users, clubs[i])
  {
    if |clubs| == 0 then []
    else ClubsListing(users, clubs[..|clubs| - 1]) + [ViewOfClub(users, clubs[|clubs| - 1])]
  }

  /** The users holding Admin on `club`, one per relationship row, in row order. */
  function AdminUsers(users: seq<User>, rels: seq<Relationship>, club: ClubId): (r: seq<UserSummary>)
    requires forall x :: x in rels ==> 1 <= x.user <= |users|
    ensures forall u :: u in r <==>
              exists x :: x in rels && IsAdminRow(x, club) && u == SummaryOf(users[x.user - 1])
  {
    if |rels| == 0 then []
    else
      var front := rels[..|rels| - 1];
      var last := rels[|rels| - 1];
      assert rels == front + [last];
      AdminUsers(users, front, club) + (if IsAdminRow(last, club) then [SummaryOf(users[last.user - 1])] else [])
  }

  /** The projects whose club is `club`, in table order. */
  function ClubProjects(users: seq<User>, projects: seq<Project>, club: ClubId): (r: seq<ProjectSummary>)
    requires forall p :: p in projects ==> 1 <= p.head <= |users|
    ensures forall q :: q in r <==>
              exists p :: p in projects && p.club == club && q == ProjectSummaryOf(users, p)
  {
    if |projects| == 0 then []
    else
      var front := projects[..|projects| - 1];
      var last := projects[|projects| - 1];
      assert projects == front + [last];
      ClubProjects(users, front, club) + (if last.club == club then [ProjectSummaryOf(users, last)] else [])
  }

  /** AdminClubDetail: the club, its Admin holders and its projects. */
  function ClubDetailOf(s: Db, name: string): (r: Response<ClubDetail>)
    requires Valid(s)
    ensures r.Err? <==> ClubByName(s.clubs, name).None?
    ensures r.Err? ==> r.message == ClubMissing
    ensures r.Ok? ==> r.payload.club.name == name
    ensures r.Ok? ==>
              var c := s.clubs[ClubByName(s.clubs, name).value];
              r.payload == ClubDetail(ViewOfClub(s.users, c), AdminUsers(s.users, s.clubRels, c.id),
                                      ClubProjects(s.users, s.projects, c.id))
  {
    match ClubByName(s.clubs, name)
    case None => Err(ClubMissing)
    case Some(ci) =>
      var club := s.clubs[ci];
      Ok(ClubDetail(ViewOfClub(s.users, club), AdminUsers(s.users, s.clubRels, club.id),
                    ClubProjects(s.users, s.projects, club.id)))
  }

  predicate IsAdminRowOfUser(r: Relationship, user: UserId)
  {
    r.user == user && r.privilege.name == AdminName
  }

  /** The caller's Admin relationship rows, in row order. */
  function AdminRowsOf(rels: seq<Relationship>, user: UserId): seq<Relationship>
  {
    Filter(rels, (r: Relationship) => IsAdminRowOfUser(r, user))
  }

  /** ClubHeadDashboard over a prefix of the relationship table. */
  function DashboardOf(s: Db, rels: seq<Relationship>, user: UserId): (r: seq<DashboardEntry>)
    requires Valid(s) && RelsRefer(rels, |s.clubs|, |s.users|)
    ensures |r| == |AdminRowsOf(rels, user)|
    ensures forall i :: 0 <= i < |r| ==>
              && r[i].club.id == AdminRowsOf(rels, user)[i].resource
              && r[i].clubHeads == AdminUsers(s.users, s.clubRels, r[i].club.id)
              && r[i].projects == ClubProjects(s.users, s.projects, r[i].club.id)
  {
    if |rels| == 0 then []
    else
      var front := rels[..|rels| - 1];
      var rel := rels[|rels| - 1];
      assert rels == front + [rel];
      FilterSnoc(front, rel, (r: Relationship) => IsAdminRowOfUser(r, user));
      var prefix := DashboardOf(s, front, user);
      if IsAdminRowOfUser(rel, user) then prefix + [EntryFor(s, rel.resource)] else prefix
  }

  /** The dashboard entry of one club: its view, its heads and its projects. */
  function EntryFor(s: Db, club: ClubId): (e: DashboardEntry)
    requires Valid(s) && 1 <= club <= |s.clubs|
    ensures e.club.id == club
    ensures e.club == ViewOfClub(s.users, s.clubs[|s.clubs| - club])
    ensures e.clubHeads == AdminUsers(s.users, s.clubRels, club)
    ensures e.projects == ClubProjects(s.users, s.projects, club)
  {
    var c := s.clubs[|s.clubs| - club];
    DashboardEntry(ViewOfClub(s.users, c), AdminUsers(s.users, s.clubRels, c.id),
                   ClubProjects(s.users, s.projects, c.id))
  }

  /** Every dashboard entry shows its club's details: id, name, abstract,
      link, image and head email, as the club's row holds them. */
  lemma {:induction false} DashboardClubs(s: Db, rels: seq<Relationship>, user: UserId)
    requires Valid(s) && RelsRefer(rels, |s.clubs|, |s.users|)
    ensures forall e :: e in DashboardOf(s, rels, user) ==>
              1 <= e.club.id <= |s.clubs| && e.club == ViewOfClub(s.users, s.clubs[|s.clubs| - e.club.id])
    decreases |rels|
  {
    if |rels| > 0 {
      var front := rels[..|rels| - 1];
      var rel := rels[|rels| - 1];
      assert forall r :: r in front ==> r in rels;
      assert rel in rels;
      DashboardClubs(s, front, user);
    }
  }

  /** One more relationship row adds one dashboard entry when it is an Admin
      row of the caller, and none otherwise. */
  lemma DashboardStep(s: Db, i: nat, user: UserId)
    requires Valid(s) && i < |s.clubRels|
    ensures RelsRefer(s.clubRels[..i], |s.clubs|, |s.users|)
    ensures RelsRefer(s.clubRels[..i + 1], |s.clubs|, |s.users|)
    ensures 1 <= s.clubRels[i].resource <= |s.clubs|
    ensures DashboardOf(s, s.clubRels[..i + 1], user) ==
            DashboardOf(s, s.clubRels[..i], user) +
            (if IsAdminRowOfUser(s.clubRels[i], user) then [EntryFor(s, s.clubRels[i].resource)] else [])
  {
    var rels := s.clubRels;
    assert rels[..i + 1] == rels[..i] + [rels[i]];
    assert rels[..i + 1][..i] == rels[..i];
    assert forall r :: r in rels[..i + 1] ==> r in rels;
    assert rels[i] in rels;
  }

  // ---------------------------------------------------------------------
  // Handlers on the database object
  // ---------------------------------------------------------------------

  /** The assign steps, saving each row as the endpoint does. */
  method AssignHeadSteps(db: Database, name: string, email: string, setHead: bool, success: string)
    returns (r: Response<string>)
    modifies db
    ensures (db.State(), r) == AssignHead(old(db.State()), name, email, setHead, success)
  {
    var ci := ClubByName(db.clubs, name);
    if ci.None? { return Err(ClubMissing); }
    var ui := UserByEmail(db.users, email);
    if ui.None? { return Err(UserMissing); }
    var club := db.clubs[ci.value];
    var user := db.users[ui.value].id;
    if setHead {
      club := club.(head := Some(user));
      db.clubs := db.clubs[ci.value := club];
    }
    var admin := PrivilegeNamed(db.clubPrivileges, AdminName);
    if !admin.Unique? { return Err(AssignFailed); }
    var privilege := db.clubPrivileges[admin.index];
    match RelationshipOf(db.clubRels, club.id, user) {
      case Missing =>
        db.clubRels := db.clubRels + [Relationship(club.id, user, privilege)];
      case Unique(i) =>
        db.clubRels := db.clubRels[i := db.clubRels[i].(privilege := privilege)];
      case Multiple =>
        return Err(AssignFailed);
    }
    r := Ok(success);
  }

  /** The remove steps: delete the row, then clear and save the head. */
  method RemoveHeadSteps(db: Database, name: string, email: string, success: string)
    returns (r: Response<string>)
    modifies db
    ensures (db.State(), r) == RemoveHead(old(db.State()), name, email, success)
  {
    var ci := ClubByName(db.clubs, name);
    if ci.None? { return Err(ClubMissing); }
    var ui := UserByEmail(db.users, email);
    if ui.None? { return Err(UserMissing); }
    var club := db.clubs[ci.value];
    var user := db.users[ui.value].id;
    match RelationshipOf(db.clubRels, club.id, user) {
      case Missing =>
        return Err(NotAClubHead);
      case Multiple =>
        return Err(RemoveFailed);
      case Unique(i) =>
        db.clubRels := db.clubRels[..i] + db.clubRels[i + 1..];
    }
    if club.head == Some(user) {
      db.clubs := db.clubs[ci.value := club.(head := None)];
    }
    r := Ok(success);
  }

  method AdminAssignClubHead(db: Database, isAdmin: bool, name: string, email: string)
    returns (r: Response<string>)
    modifies db
    ensures (db.State(), r) == AssignByAdmin(old(db.State()), isAdmin, name, email)
  {
    if !isAdmin { return Err(AdminAssignDenied); }
    r := AssignHeadSteps(db, name, email, true, AssignedByAdmin);
  }

  method AdminRemoveClubHead(db: Database, isAdmin: bool, name: string, email: string)
    returns (r: Response<string>)
    modifies db
    ensures (db.State(), r) == RemoveByAdmin(old(db.State()), isAdmin, name, email)
  {
    if !isAdmin { return Err(AdminRemoveDenied); }
    r := RemoveHeadSteps(db, name, email, RemovedByAdmin);
  }

  method ClubHeadAssignClubHead(db: Database, accessPrivilege: string, name: string, email: string)
    returns (r: Response<string>)
    modifies db
    ensures (db.State(), r) == AssignByClubHead(old(db.State()), accessPrivilege, name, email)
  {
    if accessPrivilege != AdminName { return Err(ClubHeadDenied); }
    r := AssignHeadSteps(db, name, email, false, AssignedByClubHead);
  }

  method ClubHeadRemoveClubHead(db: Database, accessPrivilege: string, name: string, email: string)
    returns (r: Response<string>)
    modifies db
    ensures (db.State(), r) == RemoveByClubHead(old(db.State()), accessPrivilege, name, email)
  {
    if accessPrivilege != AdminName { return Err(ClubHeadDenied); }
    r := RemoveHeadSteps(db, name, email, RemovedByClubHead);
  }

  /** AdminClubsList: appends one entry per club. */
  method AdminClubsList(db: Database) returns (r: seq<ClubView>)
    requires Valid(db.State())
    ensures r == ClubsListing(db.users, db.clubs)
  {
    r := [];
    var i := 0;
    while i < |db.clubs|
      invariant 0 <= i <= |db.clubs|
      invariant r == ClubsListing(db.users, db.clubs[..i])
    {
      assert db.clubs[..i + 1][..i] == db.clubs[..i];
      r := r + [ViewOfClub(db.users, db.clubs[i])];
      i := i + 1;
    }
    assert db.clubs[..i] == db.clubs;
  }

  /** The club-heads loop of the detail and dashboard views. */
  method ClubHeadsQuery(db: Database, club: ClubId) returns (r: seq<UserSummary>)
    requires Valid(db.State())
    ensures r == AdminUsers(db.users, db.clubRels, club)
  {
    r := [];
    var i := 0;
    while i < |db.clubRels|
      invariant 0 <= i <= |db.clubRels|
      invariant r == AdminUsers(db.users, db.clubRels[..i], club)
    {
      var rel := db.clubRels[i];
      assert db.clubRels[..i + 1][..i] == db.clubRels[..i];
      if IsAdminRow(rel, club) {
        r := r + [SummaryOf(db.users[rel.user - 1])];
      }
      i := i + 1;
    }
    assert db.clubRels[..i] == db.clubRels;
  }

  /** The projects loop of the detail and dashboard views. */
  method ClubProjectsQuery(db: Database, club: ClubId) returns (r: seq<ProjectSummary>)
    requires Valid(db.State())
    ensures r == ClubProjects(db.users, db.projects, club)
  {
    r := [];
    var i := 0;
    while i < |db.projects|
      invariant 0 <= i <= |db.projects|
      invariant r == ClubProjects(db.users, db.projects[..i], club)
    {
      var p := db.projects[i];
      assert db.projects[..i + 1][..i] == db.projects[..i];
      if p.club == club {
        r := r + [ProjectSummaryOf(db.users, p)];
      }
      i := i + 1;
    }
    assert db.projects[..i] == db.projects;
  }

  method AdminClubDetail(db: Database, name: string) returns (r: Response<ClubDetail>)
    requires Valid(db.State())
    ensures r == ClubDetailOf(db.State(), name)
  {
    var ci := ClubByName(db.clubs, name);
    if ci.None? { return Err(ClubMissing); }
    var club := db.clubs[ci.value];
    var admins := ClubHeadsQuery(db, club.id);
    var projects := ClubProjectsQuery(db, club.id);
    r := Ok(ClubDetail(ViewOfClub(db.users, club), admins, projects));
  }

  /** The queries behind one dashboard entry. */
  method EntryQuery(db: Database, club: ClubId) returns (e: DashboardEntry)
    requires Valid(db.State()) && 1 <= club <= |db.clubs|
    ensures e == EntryFor(db.State(), club)
  {
    var c := db.clubs[|db.clubs| - club];
    var heads := ClubHeadsQuery(db, c.id);
    var projects := ClubProjectsQuery(db, c.id);
    e := DashboardEntry(ViewOfClub(db.users, c), heads, projects);
  }

  /** The dashboard entries one relationship row contributes. */
  method DashboardRow(db: Database, rel: Relationship, user: UserId) returns (row: seq<DashboardEntry>)
    requires Valid(db.State()) && 1 <= rel.resource <= |db.clubs|
    ensures row == if IsAdminRowOfUser(rel, user) then [EntryFor(db.State(), rel.resource)] else []
  {
    row := [];
    if IsAdminRowOfUser(rel, user) {
      var entry := EntryQuery(db, rel.resource);
      row := [entry];
    }
  }

  /** ClubHeadDashboard: one entry per Admin relationship row of `user`. */
  method ClubHeadDashboard(db: Database, user: UserId) returns (r: seq<DashboardEntry>)
    requires Valid(db.State())
    ensures r == DashboardOf(db.State(), db.clubRels, user)
  {
    ghost var s := db.State();
    r := [];
    var i := 0;
    while i < |db.clubRels|
      invariant 0 <= i <= |s.clubRels| && db.State() == s
      invariant RelsRefer(s.clubRels[..i], |s.clubs|, |s.users|)
      invariant r == DashboardOf(s, s.clubRels[..i], user)
    {
      DashboardStep(s, i, user);
      var row := DashboardRow(db, db.clubRels[i], user);
      r := r + row;
      i := i + 1;
    }
    assert s.clubRels[..i] == s.clubRels;
  }
}

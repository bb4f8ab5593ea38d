/** `create_project`: inserts the project, gives its head an Admin project
    relationship, then inserts the roster rows one by one. The inserts are not
    wrapped in a transaction: when one of them raises, the rows already
    inserted stay and the helper answers False. */
module ProjectUtilities {
  import opened Common
  import opened Models

  /** A roster entry as the helper reads it (`.get('name')`, `.get('profile_pic')`). */
  datatype MemberInput = MemberInput(name: Option<string>, profilePic: Option<string>)

  /** The insert at which the storage engine raises, if any: 0 is the project
      row, 1 the head's relationship row, 2 + k the k-th roster row. */
  type Fault = Option<nat>

  predicate IsAdminPrivilege(p: Privilege)
  {
    p.name == AdminName
  }

  /** The roster rows for `project`, one per entry, in order. */
  function MemberRows(project: ProjectId, entries: seq<MemberInput>): (r: seq<ProjectMember>)
    ensures |r| == |entries|
    ensures forall i :: 0 <= i < |entries| ==>
              r[i] == ProjectMember(project, entries[i].name, entries[i].profilePic)
  {
    seq(|entries|, i requires 0 <= i < |entries| =>
          ProjectMember(project, entries[i].name, entries[i].profilePic))
  }

  /** How many roster rows get inserted before the fault, if it hits a roster row. */
  function InsertedBeforeFault(fault: Fault, count: nat): (k: nat)
    ensures k <= count
  {
    if fault.Some? && 2 <= fault.value < 2 + count then fault.value - 2 else count
  }

  /** The project row that `create_project` inserts; its id is the next one. */
  function NewProject(s: Db, name: string, abstractText: string, link: string, head: UserId,
                      image: string, club: ClubId, techstack: Option<seq<string>>): Project
  {
    Project(|s.projects| + 1, name, abstractText, link, Some(image), head, club,
            if techstack.Some? then techstack.value else [])
  }

  /** create_project(name, abstract, link, head, uploaded_file_url, club, members, techstack). */
  function CreateProject(s: Db, name: string, abstractText: string, link: string, head: UserId,
                         image: string, club: ClubId, members: Option<seq<MemberInput>>,
                         techstack: Option<seq<string>>, fault: Fault): (out: (Db, bool))
    ensures out.0 == s.(projects := out.0.projects, projectRels := out.0.projectRels,
                        members := out.0.members)
    ensures Find(s.projectPrivileges, IsAdminPrivilege).None? ==> out == (s, false)
    ensures out.1 <==> Find(s.projectPrivileges, IsAdminPrivilege).Some? &&
                       (fault.None? || fault.value >= 2 + if members.Some? then |members.value| else 0)
    ensures out.1 ==>
              var project := NewProject(s, name, abstractText, link, head, image, club, techstack);
              var admin := s.projectPrivileges[Find(s.projectPrivileges, IsAdminPrivilege).value];
              && out.0.projects == [project] + s.projects
              && out.0.projectRels == s.projectRels + [Relationship(project.id, head, admin)]
              && out.0.members == s.members + MemberRows(project.id, if members.Some? then members.value else [])
  {
    match Find(s.projectPrivileges, IsAdminPrivilege)
    case None => (s, false)
    case Some(a) =>
      if fault == Some(0) then (s, false)
      else
        var project := NewProject(s, name, abstractText, link, head, image, club, techstack);
        var inserted := s.(projects := [project] + s.projects);
        if fault == Some(1) then (inserted, false)
        else
          var related := inserted.(projectRels := s.projectRels +
                                   [Relationship(project.id, head, s.projectPrivileges[a])]);
          var entries := if members.Some? then members.value else [];
          var k := InsertedBeforeFault(fault, |entries|);
          (related.(members := s.members + MemberRows(project.id, entries[..k])), k == |entries|)
  }

  /** A failing insert keeps every row inserted before it: a fault on the
      project row changes nothing, one on the head's relationship keeps the
      project row, and one on the k-th roster row keeps the project, the
      relationship and the k roster rows before it. */
  lemma CreateProjectFault(s: Db, name: string, abstractText: string, link: string, head: UserId,
                           image: string, club: ClubId, members: Option<seq<MemberInput>>,
                           techstack: Option<seq<string>>, fault: Fault)
    requires Find(s.projectPrivileges, IsAdminPrivilege).Some?
    requires fault.Some?
    ensures var out := CreateProject(s, name, abstractText, link, head, image, club, members, techstack, fault);
            var project := NewProject(s, name, abstractText, link, head, image, club, techstack);
            var admin := s.projectPrivileges[Find(s.projectPrivileges, IsAdminPrivilege).value];
            var entries := if members.Some? then members.value else [];
            && (fault.value == 0 ==> out == (s, false))
            && (fault.value == 1 ==> out == (s.(projects := [project] + s.projects), false))
            && (2 <= fault.value < 2 + |entries| ==>
                  out == (s.(projects := [project] + s.projects,
                             projectRels := s.projectRels + [Relationship(project.id, head, admin)],
                             members := s.members + MemberRows(project.id, entries[..fault.value - 2])),
                          false))
  {
  }

  /** The roster rows of a project that had none before are the rows inserted for it. */
  lemma MembersOfAppended(members: seq<ProjectMember>, rows: seq<ProjectMember>, project: ProjectId)
    requires forall m :: m in members ==> m.project != project
    requires forall m :: m in rows ==> m.project == project
    ensures MembersOf(members + rows, project) == rows
  {
    var p := OfProject(project);
    FilterAppend(members, rows, p);
    FilterAll(rows, p);
    FilterNone(members, p);

  }

  /** On success the new project is found by its name, it is the only
      project with that name and it carries the given fields and techstack. */
  lemma CreateProjectEffect(s: Db, name: string, abstractText: string, link: string, head: UserId,
                            image: string, club: ClubId, members: Option<seq<MemberInput>>,
                            techstack: Option<seq<string>>, fault: Fault)
    requires Valid(s) && ProjectByName(s.projects, name).None?
    requires CreateProject(s, name, abstractText, link, head, image, club, members, techstack, fault).1
    ensures var after := CreateProject(s, name, abstractText, link, head, image, club, members, techstack, fault).0;
            && after.users == s.users
            && ProjectByName(after.projects, name) == Some(0)
            && after.projects[0] == NewProject(s, name, abstractText, link, head, image, club, techstack)
            && after.projects[0].id == |s.projects| + 1
            && after.projects[0].techstack == (if techstack.Some? then techstack.value else [])
  {
  }

  /** On success the head holds exactly one relationship to the new project,
      at Admin, and its roster is the given entries, in order. */
  lemma CreateProjectRoster(s: Db, name: string, abstractText: string, link: string, head: UserId,
                            image: string, club: ClubId, members: Option<seq<MemberInput>>,
                            techstack: Option<seq<string>>, fault: Fault)
    requires Valid(s)
    requires CreateProject(s, name, abstractText, link, head, image, club, members, techstack, fault).1
    ensures var after := CreateProject(s, name, abstractText, link, head, image, club, members, techstack, fault).0;
            var id := |s.projects| + 1;
            var row := RelationshipOf(after.projectRels, id, head);
            && row.Unique? && IsAdminPrivilege(after.projectRels[row.index].privilege)
            && MembersOf(after.members, id) == MemberRows(id, if members.Some? then members.value else [])
  {
    var after := CreateProject(s, name, abstractText, link, head, image, club, members, techstack, fault).0;
    var id := |s.projects| + 1;
    var p := (r: Relationship) => IsPair(r, id, head);
    forall j | 0 <= j < |s.projectRels| ensures !p(s.projectRels[j]) {
      assert s.projectRels[j] in s.projectRels;
    }
    GetSingle(after.projectRels, p, |s.projectRels|);
    var entries := if members.Some? then members.value else [];
    MembersOfAppended(s.members, MemberRows(id, entries), id);
  }

  /** Prepending a project with the next id and an unused name keeps the
      projects table indexed, its names unique and its foreign keys valid. */
  lemma PrependProjectKeepsTable(s: Db, project: Project)
    requires Valid(s) && ProjectByName(s.projects, project.name).None?
    requires project.id == |s.projects| + 1
    requires 1 <= project.head <= |s.users| && 1 <= project.club <= |s.clubs|
    ensures var projects := [project] + s.projects;
            && ProjectsIndexed(projects) && ProjectNamesUnique(projects)
            && ProjectsRefer(projects, |s.clubs|, |s.users|)
  {
    var projects := [project] + s.projects;
    assert forall i :: 1 <= i < |projects| ==> projects[i] == s.projects[i - 1];
    forall i, j | 0 <= i < j < |projects|
      ensures projects[i].name != projects[j].name
    {
      assert projects[j] == s.projects[j - 1];
      if i > 0 {
        assert projects[i] == s.projects[i - 1];
      }
    }
  }

  /** Appending a relationship for a resource id that no row mentions keeps
      "one row per pair" and the foreign keys. */
  lemma AppendFreshRelationshipKeeps(rels: seq<Relationship>, row: Relationship, resources: nat, users: nat)
    requires OnePerPair(rels) && RelsRefer(rels, resources, users)
    requires row.resource == resources + 1 && 1 <= row.user <= users
    ensures OnePerPair(rels + [row]) && RelsRefer(rels + [row], resources + 1, users)
  {
    var after := rels + [row];
    forall i, j | 0 <= i < j < |after|
      ensures !IsPair(after[j], after[i].resource, after[i].user)
    {
      assert after[i] in rels;
    }
  }

  /** Whatever step fails, the invariant holds afterwards, provided the head
      and club exist and the name is unused (what the Create view checks). */
  lemma CreateProjectKeepsValid(s: Db, name: string, abstractText: string, link: string, head: UserId,
                                image: string, club: ClubId, members: Option<seq<MemberInput>>,
                                techstack: Option<seq<string>>, fault: Fault)
    requires Valid(s) && ProjectByName(s.projects, name).None?
    requires 1 <= head <= |s.users| && 1 <= club <= |s.clubs|
    ensures Valid(CreateProject(s, name, abstractText, link, head, image, club, members, techstack, fault).0)
  {
    var after := CreateProject(s, name, abstractText, link, head, image, club, members, techstack, fault).0;
    var project := NewProject(s, name, abstractText, link, head, image, club, techstack);
    if after != s {
      assert after.projects == [project] + s.projects;
      PrependProjectKeepsTable(s, project);
      if after.projectRels != s.projectRels {
        var admin := Find(s.projectPrivileges, IsAdminPrivilege).value;
        assert after.projectRels == s.projectRels + [Relationship(project.id, head, s.projectPrivileges[admin])];
        AppendFreshRelationshipKeeps(s.projectRels, Relationship(project.id, head, s.projectPrivileges[admin]),
                                     |s.projects|, |s.users|);
      }
      assert forall m :: m in after.members ==> m in s.members || m.project == project.id;
    }
  }

  /** The roster inserts of the helper, row by row, up to the fault. */
  method InsertRoster(db: Database, project: ProjectId, entries: seq<MemberInput>, fault: Fault)
    returns (ok: bool)
    modifies db
    ensures ok <==> InsertedBeforeFault(fault, |entries|) == |entries|
    ensures db.State() == old(db.State()).(members := old(db.members) +
                                           MemberRows(project, entries[..InsertedBeforeFault(fault, |entries|)]))
  {
    var i := 0;
    while i < |entries|
      invariant 0 <= i <= InsertedBeforeFault(fault, |entries|)
      invariant db.State() == old(db.State()).(members := old(db.members) + MemberRows(project, entries[..i]))
    {
      if fault == Some(2 + i) { return false; }
      assert MemberRows(project, entries[..i + 1]) ==
             MemberRows(project, entries[..i]) + [ProjectMember(project, entries[i].name, entries[i].profilePic)];
      db.members := db.members + [ProjectMember(project, entries[i].name, entries[i].profilePic)];
      i := i + 1;
    }
    assert entries[..i] == entries;
    return true;
  }

  /** The helper, inserting and saving row by row. */
  method CreateProjectSteps(db: Database, name: string, abstractText: string, link: string, head: UserId,
                            image: string, club: ClubId, members: Option<seq<MemberInput>>,
                            techstack: Option<seq<string>>, fault: Fault) returns (ok: bool)
    modifies db
    ensures (db.State(), ok) ==
            CreateProject(old(db.State()), name, abstractText, link, head, image, club, members, techstack, fault)
  {
    var admin := Find(db.projectPrivileges, IsAdminPrivilege);
    if admin.None? { return false; }
    if fault == Some(0) { return false; }
    var project := NewProject(db.State(), name, abstractText, link, head, image, club, techstack);
    db.projects := [project] + db.projects;
    if fault == Some(1) { return false; }
    db.projectRels := db.projectRels + [Relationship(project.id, head, db.projectPrivileges[admin.value])];
    var entries := if members.Some? then members.value else [];
    ok := InsertRoster(db, project.id, entries, fault);
  }
}

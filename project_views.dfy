/** The project endpoints: the project list, a project's detail page, search,
    creation by the overall admin and editing by a project's editors.

    The caller's overall-admin flag and project access privilege are computed
    by request decorators that are not part of this model; they are
    parameters. Uploaded files reach the model as the names the file storage
    gave them: `image` and `techstack` are those names, and `files` maps each
    upload field of the request to the stored name. */
module ProjectViews {
  import opened Common
  import opened Models
  import opened ProjectUtilities

  const ProjectMissing: string := "Project does not exist"
  const CreateDenied: string := "PERMISSION DENIED TO CREATE PROJECTS"
  const UserMissing: string := "User does not exist"
  const ClubMissing: string := "Club does not exist"
  const DuplicateName: string := "A project with the same name exists! Please switch to a new project name"
  const MembersInvalid: string := "Invalid members data format: "
  const Created: string := "Project created successfully!"
  const InvalidDetails: string := "Invalid details"
  const EditDenied: string := "USER DOESN'T HAVE EDIT ACCESS"
  const EditMissing: string := "Project doesn't exist"
  const Updated: string := "Project updated successfully!"

  // ---------------------------------------------------------------------
  // Project listings (list_to_dict)
  // ---------------------------------------------------------------------

  /** `model_to_dict(project)` with the image, club name and techstack filled in. */
  datatype ProjectDict = ProjectDict(id: ProjectId, name: string, abstractText: string,
                                     image: Option<string>, link: string, club: ClubId,
                                     head: UserId, clubName: Option<string>,
                                     techstack: seq<string>)

  /** The name of the club with id `club`, or None when there is no such club. */
  function ClubNameOf(clubs: seq<Club>, club: ClubId): (r: Option<string>)
    ensures r.None? <==> forall c :: c in clubs ==> c.id != club
    ensures r.Some? ==> exists c :: c in clubs && c.id == club && c.name == r.value
  {
    match ClubById(clubs, club)
    case None => None
    case Some(i) => Some(clubs[i].name)
  }

  function DictOf(clubs: seq<Club>, p: Project): ProjectDict
  {
    ProjectDict(p.id, p.name, p.abstractText, p.image, p.link, p.club, p.head,
                ClubNameOf(clubs, p.club), p.techstack)
  }

  /** list_to_dict: one dictionary per project, in the order given. */
  function Dicts(clubs: seq<Club>, items: seq<Project>): (r: seq<ProjectDict>)
    ensures |r| == |items|
    ensures forall i :: 0 <= i < |items| ==>
              && r[i].id == items[i].id && r[i].name == items[i].name
              && r[i].techstack == items[i].techstack && r[i].image == items[i].image
              && r[i].clubName == ClubNameOf(clubs, items[i].club)
    ensures forall i :: 0 <= i < |items| ==> r[i] == DictOf(clubs, items[i])
  {
    if |items| == 0 then []
    else Dicts(clubs, items[..|items| - 1]) + [DictOf(clubs, items[|items| - 1])]
  }

  /** In a consistent database every listed project carries its own club's name. */
  lemma DictClubName(s: Db, p: Project)
    requires Valid(s) && p in s.projects
    ensures 1 <= p.club <= |s.clubs|
    ensures DictOf(s.clubs, p).clubName == Some(s.clubs[|s.clubs| - p.club].name)
  {
    var k := |s.clubs| - p.club;
    assert s.clubs[k].id == p.club;
    var i := ClubById(s.clubs, p.club);
    assert i.Some?;
    assert s.clubs[i.value].id == |s.clubs| - i.value;
  }

  // ---------------------------------------------------------------------
  // Project detail
  // ---------------------------------------------------------------------

  datatype MemberView = MemberView(name: Option<string>, profilePic: Option<string>)

  datatype ProjectInfo = ProjectInfo(id: ProjectId, name: string, email: string,
                                     abstractText: string, link: string, image: Option<string>,
                                     techstack: seq<string>, members: seq<MemberView>)

  /** The roster as the detail page lists it, row by row. */
  function MemberViews(rows: seq<ProjectMember>): (r: seq<MemberView>)
    ensures |r| == |rows|
    ensures forall i :: 0 <= i < |rows| ==> r[i] == MemberView(rows[i].name, rows[i].profilePic)
  {
    if |rows| == 0 then []
    else MemberViews(rows[..|rows| - 1]) + [MemberView(rows[|rows| - 1].name, rows[|rows| - 1].profilePic)]
  }

  /** ProjectDetail: the project named `name`, its head's email and its roster. */
  function DetailOf(s: Db, name: string): (r: Response<ProjectInfo>)
    requires Valid(s)
    ensures r.Err? <==> ProjectByName(s.projects, name).None?
    ensures r.Err? ==> r.message == ProjectMissing
    ensures r.Ok? ==> exists p :: p in s.projects && p.name == name
                       && r.payload.id == p.id && r.payload.email == s.users[p.head - 1].email
                       && r.payload.members == MemberViews(MembersOf(s.members, p.id))
  {
    match ProjectByName(s.projects, name)
    case None => Err(ProjectMissing)
    case Some(i) =>
      var p := s.projects[i];
      assert p in s.projects;
      Ok(ProjectInfo(p.id, p.name, s.users[p.head - 1].email, p.abstractText, p.link, p.image,
                     p.techstack, MemberViews(MembersOf(s.members, p.id))))
  }

  // ---------------------------------------------------------------------
  // Search
  // ---------------------------------------------------------------------

  /** The query occurs, after `fold` (unaccent, then case folding) of both
      sides, in the head's name, the project's name or the club's name. */
  predicate Matches(s: Db, fold: string -> string, query: string, p: Project)
  {
    var q := fold(query);
    || (1 <= p.head <= |s.users| && Contains(fold(s.users[p.head - 1].name), q))
    || Contains(fold(p.name), q)
    || (ClubNameOf(s.clubs, p.club).Some? && Contains(fold(ClubNameOf(s.clubs, p.club).value), q))
  }

  /** The search filter holds exactly when the folded query occurs at some
      position of the folded head name, project name or club name. */
  lemma MatchesOccurs(s: Db, fold: string -> string, query: string, p: Project)
    ensures Matches(s, fold, query, p) <==>
              var q := fold(query);
              || (1 <= p.head <= |s.users| && Occurs(fold(s.users[p.head - 1].name), q))
              || Occurs(fold(p.name), q)
              || (ClubNameOf(s.clubs, p.club).Some? && Occurs(fold(ClubNameOf(s.clubs, p.club).value), q))
  {
    var q := fold(query);
    if 1 <= p.head <= |s.users| {
      ContainsAt(fold(s.users[p.head - 1].name), q);
    }
    ContainsAt(fold(p.name), q);
    if ClubNameOf(s.clubs, p.club).Some? {
      ContainsAt(fold(ClubNameOf(s.clubs, p.club).value), q);
    }
  }

  /** Search: the matching projects, in table order, as list_to_dict renders them. */
  function SearchOf(s: Db, fold: string -> string, query: string): (r: seq<ProjectDict>)
    ensures |r| <= |s.projects|
    ensures forall d :: d in r <==>
              exists p :: p in s.projects && Matches(s, fold, query, p) && d == DictOf(s.clubs, p)
  {
    var hits := Filter(s.projects, (p: Project) => Matches(s, fold, query, p));
    var r := Dicts(s.clubs, hits);
    assert forall p :: p in hits ==> DictOf(s.clubs, p) in r by {
      forall p | p in hits ensures DictOf(s.clubs, p) in r {
        var i :| 0 <= i < |hits| && hits[i] == p;
        assert r[i] == DictOf(s.clubs, p);
      }
    }
    assert forall d :: d in r ==> exists p :: p in hits && d == DictOf(s.clubs, p) by {
      forall d | d in r ensures exists p :: p in hits && d == DictOf(s.clubs, p) {
        var i :| 0 <= i < |r| && r[i] == d;
        assert hits[i] in hits;
      }
    }
    r
  }

  // ---------------------------------------------------------------------
  // The members form field
  // ---------------------------------------------------------------------

  /** One element of the parsed members list: a dictionary, read with
      `.get("name")` and `.get("profile_pic")`, or anything else, on which
      `.get` raises with the given message. A missing or null value is None;
      the model also reads an empty or non-string value as None, which for the
      picture key gives the same outcome as the handlers (no upload is found
      under it) except for an unhashable key, which the handlers reject. */
  datatype MemberItem = MemberDict(name: Option<string>, picKey: Option<string>)
                      | NotADict(error: string)

  /** The parsed JSON value: what iterating it yields, or the message of the
      error raised when it cannot be iterated. */
  datatype MembersJson = Items(items: seq<MemberItem>) | NotIterable(error: string)

  /** The `members` form field: absent or empty, text `json.loads` rejects
      with the given message, or a parsed value. */
  datatype MembersField = Blank | Unparsable(error: string) | Parsed(json: MembersJson)

  /** The uploaded file a member's `profile_pic` key names: the key must be
      non-empty and one of the request's upload fields. */
  function PicFor(key: Option<string>, files: map<string, string>): (r: Option<string>)
    ensures r.Some? <==> key.Some? && key.value != "" && key.value in files
    ensures r.Some? ==> r.value == files[key.value]
  {
    if key.Some? && key.value != "" && key.value in files then Some(files[key.value]) else None
  }

  predicate IsNotADict(item: MemberItem)
  {
    item.NotADict?
  }

  function InputOf(item: MemberItem, files: map<string, string>): MemberInput
    requires item.MemberDict?
  {
    MemberInput(item.name, PicFor(item.picKey, files))
  }

  /** Walks the members list as both views do: each dictionary becomes a roster
      entry with its picture attached, until the first element that is not a
      dictionary, whose error ends the walk. */
  function MemberInputs(items: seq<MemberItem>, files: map<string, string>)
    : (r: (seq<MemberInput>, Option<string>))
    ensures var k := Find(items, IsNotADict);
            && |r.0| == (if k.Some? then k.value else |items|)
            && r.1 == (if k.Some? then Some(items[k.value].error) else None)
    ensures forall i :: 0 <= i < |r.0| ==> items[i].MemberDict? && r.0[i] == InputOf(items[i], files)
  {
    if |items| == 0 then ([], None)
    else match items[0]
      case NotADict(e) => ([], Some(e))
      case MemberDict(_, _) =>
        var rest := MemberInputs(items[1..], files);
        ([InputOf(items[0], files)] + rest.0, rest.1)
  }

  /** Create's reading of the members field: the roster to insert, or the
      message of the error that aborts the request. */
  function Attached(members: MembersField, files: map<string, string>): (r: Response<seq<MemberInput>>)
    ensures members.Blank? ==> r == Ok([])
    ensures members.Unparsable? ==> r == Err(members.error)
    ensures members.Parsed? && members.json.NotIterable? ==> r == Err(members.json.error)
    ensures members.Parsed? && members.json.Items? ==>
              var items := members.json.items;
              && (r.Ok? <==> forall i :: 0 <= i < |items| ==> items[i].MemberDict?)
              && (r.Ok? ==> |r.payload| == |items| &&
                            forall i :: 0 <= i < |items| ==>
                              r.payload[i] == MemberInput(items[i].name, PicFor(items[i].picKey, files)))
  {
    match members
    case Blank => Ok([])
    case Unparsable(e) => Err(e)
    case Parsed(NotIterable(e)) => Err(e)
    case Parsed(Items(items)) =>
      var (inputs, error) := MemberInputs(items, files);
      if error.Some? then Err(error.value) else Ok(inputs)
  }

  // ---------------------------------------------------------------------
  // Create
  // ---------------------------------------------------------------------

  /** Create: the guards in order, then the members field, then create_project
      with the uploaded techstack names. */
  function CreateOf(s: Db, isAdmin: bool, name: string, email: string, abstractText: string,
                    link: string, clubName: string, image: string, members: MembersField,
                    files: map<string, string>, techstack: seq<string>, fault: Fault)
    : (out: (Db, Response<string>))
    ensures out.0 == s.(projects := out.0.projects, projectRels := out.0.projectRels,
                        members := out.0.members)
    ensures out.1.Ok? ==> out.1.payload == Created
  {
    if !isAdmin then (s, Err(CreateDenied))
    else match UserByEmail(s.users, email)
      case None => (s, Err(UserMissing))
      case Some(ui) =>
        match ClubByName(s.clubs, clubName)
        case None => (s, Err(ClubMissing))
        case Some(ci) =>
          if ProjectByName(s.projects, name).Some? then (s, Err(DuplicateName))
          else match Attached(members, files)
            case Err(e) => (s, Err(MembersInvalid + e))
            case Ok(inputs) =>
              var (after, ok) := CreateProject(s, name, abstractText, link, s.users[ui].id, image,
                                               s.clubs[ci].id, Some(inputs), Some(techstack), fault);
              (after, if ok then Ok(Created) else Err(InvalidDetails))
  }

  /** Create's guards in order: each failure answers its own message and
      changes nothing; it succeeds exactly when every guard passes and
      create_project returns True. */
  lemma CreateOfGuards(s: Db, isAdmin: bool, name: string, email: string, abstractText: string,
                        link: string, clubName: string, image: string, members: MembersField,
                        files: map<string, string>, techstack: seq<string>, fault: Fault)
    ensures var out := CreateOf(s, isAdmin, name, email, abstractText, link, clubName, image, members,
                                files, techstack, fault);
            var user := UserByEmail(s.users, email);
            var club := ClubByName(s.clubs, clubName);
            && (!isAdmin ==> out == (s, Err(CreateDenied)))
            && (isAdmin && user.None? ==> out == (s, Err(UserMissing)))
            && (isAdmin && user.Some? && club.None? ==> out == (s, Err(ClubMissing)))
            && (isAdmin && user.Some? && club.Some? && ProjectByName(s.projects, name).Some? ==>
                  out == (s, Err(DuplicateName)))
            && (isAdmin && user.Some? && club.Some? && ProjectByName(s.projects, name).None? &&
                Attached(members, files).Err? ==>
                  out == (s, Err(MembersInvalid + Attached(members, files).message)))
            && (isAdmin && user.Some? && club.Some? && ProjectByName(s.projects, name).None? &&
                Attached(members, files).Ok? ==>
                  var created := CreateProject(s, name, abstractText, link, s.users[user.value].id, image,
                                               s.clubs[club.value].id, Some(Attached(members, files).payload),
                                               Some(techstack), fault);
                  out == (created.0, if created.1 then Ok(Created) else Err(InvalidDetails)))
            && (out.1.Ok? <==>
                  && isAdmin && user.Some? && club.Some?
                  && ProjectByName(s.projects, name).None? && Attached(members, files).Ok?
                  && CreateProject(s, name, abstractText, link, s.users[user.value].id, image,
                                   s.clubs[club.value].id, Some(Attached(members, files).payload),
                                   Some(techstack), fault).1)
            && (out.1.Ok? ==> out.1.payload == Created)
  {
  }

  /** A created project sits first in the table, with the next id, the head
      found by email, the club found by name and the uploaded techstack. */
  lemma CreateEffect(s: Db, name: string, email: string, abstractText: string, link: string,
                     clubName: string, image: string, members: MembersField,
                     files: map<string, string>, techstack: seq<string>, fault: Fault)
    requires Valid(s)
    requires CreateOf(s, true, name, email, abstractText, link, clubName, image, members, files,
                      techstack, fault).1.Ok?
    ensures var after := CreateOf(s, true, name, email, abstractText, link, clubName, image, members,
                                  files, techstack, fault).0;
            var head := s.users[UserByEmail(s.users, email).value];
            && after.users == s.users
            && 1 <= head.id <= |s.users| && s.users[head.id - 1].email == email
            && ProjectByName(after.projects, name) == Some(0)
            && after.projects[0] == Project(|s.projects| + 1, name, abstractText, link, Some(image), head.id,
                                            s.clubs[ClubByName(s.clubs, clubName).value].id, techstack)
  {
    CreateOfSucceeds(s, name, email, abstractText, link, clubName, image, members, files, techstack, fault);
    var ui := UserByEmail(s.users, email).value;
    var ci := ClubByName(s.clubs, clubName).value;
    assert s.users[ui].id == ui + 1 && s.users[ui].email == email;
    CreateProjectEffect(s, name, abstractText, link, s.users[ui].id, image, s.clubs[ci].id,
                        Some(Attached(members, files).payload), Some(techstack), fault);
  }

  /** The created project's head holds one relationship to it, and its roster
      is the submitted one with pictures attached. */
  lemma CreateEffectRoster(s: Db, name: string, email: string, abstractText: string, link: string,
                           clubName: string, image: string, members: MembersField,
                           files: map<string, string>, techstack: seq<string>, fault: Fault)
    requires Valid(s)
    requires CreateOf(s, true, name, email, abstractText, link, clubName, image, members, files,
                      techstack, fault).1.Ok?
    ensures var after := CreateOf(s, true, name, email, abstractText, link, clubName, image, members,
                                  files, techstack, fault).0;
            var id := |s.projects| + 1;
            && RelationshipOf(after.projectRels, id, s.users[UserByEmail(s.users, email).value].id).Unique?
            && MembersOf(after.members, id) == MemberRows(id, Attached(members, files).payload)
  {
    CreateOfSucceeds(s, name, email, abstractText, link, clubName, image, members, files, techstack, fault);
    var ui := UserByEmail(s.users, email).value;
    var ci := ClubByName(s.clubs, clubName).value;
    CreateProjectRoster(s, name, abstractText, link, s.users[ui].id, image, s.clubs[ci].id,
                        Some(Attached(members, files).payload), Some(techstack), fault);
  }

  /** A successful Create passed every guard and ran create_project to the end. */
  lemma CreateOfSucceeds(s: Db, name: string, email: string, abstractText: string, link: string,
                         clubName: string, image: string, members: MembersField,
                         files: map<string, string>, techstack: seq<string>, fault: Fault)
    requires CreateOf(s, true, name, email, abstractText, link, clubName, image, members, files,
                      techstack, fault).1.Ok?
    ensures UserByEmail(s.users, email).Some? && ClubByName(s.clubs, clubName).Some?
    ensures ProjectByName(s.projects, name).None? && Attached(members, files).Ok?
    ensures CreateOf(s, true, name, email, abstractText, link, clubName, image, members, files,
                     techstack, fault).0 ==
            CreateProject(s, name, abstractText, link, s.users[UserByEmail(s.users, email).value].id, image,
                          s.clubs[ClubByName(s.clubs, clubName).value].id,
                          Some(Attached(members, files).payload), Some(techstack), fault).0
  {
  }

  /** Create keeps the database consistent, whichever step fails. */
  lemma CreateKeepsValid(s: Db, isAdmin: bool, name: string, email: string, abstractText: string,
                         link: string, clubName: string, image: string, members: MembersField,
                         files: map<string, string>, techstack: seq<string>, fault: Fault)
    requires Valid(s)
    ensures Valid(CreateOf(s, isAdmin, name, email, abstractText, link, clubName, image, members,
                           files, techstack, fault).0)
  {
    var ui := UserByEmail(s.users, email);
    var ci := ClubByName(s.clubs, clubName);
    if isAdmin && ui.Some? && ci.Some? && ProjectByName(s.projects, name).None? &&
       Attached(members, files).Ok? {
      assert s.users[ui.value].id == ui.value + 1;
      assert s.clubs[ci.value].id == |s.clubs| - ci.value;
      CreateProjectKeepsValid(s, name, abstractText, link, s.users[ui.value].id, image,
                              s.clubs[ci.value].id, Some(Attached(members, files).payload),
                              Some(techstack), fault);
    }
  }

  /** After a successful Create, the detail page of the new project shows the
      submitted fields and roster. */
  lemma CreateThenDetail(s: Db, name: string, email: string, abstractText: string, link: string,
                         clubName: string, image: string, members: MembersField,
                         files: map<string, string>, techstack: seq<string>, fault: Fault)
    requires Valid(s)
    requires CreateOf(s, true, name, email, abstractText, link, clubName, image, members, files,
                      techstack, fault).1.Ok?
    ensures var after := CreateOf(s, true, name, email, abstractText, link, clubName, image, members,
                                  files, techstack, fault).0;
            var id := |s.projects| + 1;
            && Valid(after)
            && DetailOf(after, name) ==
               Ok(ProjectInfo(id, name, email, abstractText, link, Some(image), techstack,
                              MemberViews(MemberRows(id, Attached(members, files).payload))))
  {
    CreateKeepsValid(s, true, name, email, abstractText, link, clubName, image, members, files,
                     techstack, fault);
    CreateEffect(s, name, email, abstractText, link, clubName, image, members, files, techstack, fault);
    CreateEffectRoster(s, name, email, abstractText, link, clubName, image, members, files, techstack, fault);
    var after := CreateOf(s, true, name, email, abstractText, link, clubName, image, members,
                          files, techstack, fault).0;
    var id := |s.projects| + 1;
    NewestDetail(after, name, id, email, abstractText, link, image, techstack,
                 MemberRows(id, Attached(members, files).payload));
  }

  /** The detail page of the project in the first row, from what is known of that row. */
  lemma NewestDetail(s: Db, name: string, id: ProjectId, email: string, abstractText: string, link: string,
                     image: string, techstack: seq<string>, rows: seq<ProjectMember>)
    requires Valid(s) && ProjectByName(s.projects, name) == Some(0)
    requires s.projects[0].id == id && s.projects[0].abstractText == abstractText
    requires s.projects[0].link == link && s.projects[0].image == Some(image)
    requires s.projects[0].techstack == techstack
    requires s.users[s.projects[0].head - 1].email == email
    requires MembersOf(s.members, id) == rows
    ensures DetailOf(s, name) ==
            Ok(ProjectInfo(id, name, email, abstractText, link, Some(image), techstack, MemberViews(rows)))
  {
    DetailAt(s, name, 0);
  }

  /** The detail page of the project at row `i`. */
  lemma DetailAt(s: Db, name: string, i: nat)
    requires Valid(s) && ProjectByName(s.projects, name) == Some(i)
    ensures var p := s.projects[i];
            DetailOf(s, name) == Ok(ProjectInfo(p.id, p.name, s.users[p.head - 1].email, p.abstractText,
                                                p.link, p.image, p.techstack,
                                                MemberViews(MembersOf(s.members, p.id))))
  {
  }

  // ---------------------------------------------------------------------
  // Edit
  // ---------------------------------------------------------------------

  predicate CanEdit(accessPrivilege: string)
  {
    accessPrivilege == "Edit" || accessPrivilege == AdminName
  }

  /** The roster rows of every project other than `project`. */
  function OtherThan(project: ProjectId): ProjectMember -> bool
  {
    (m: ProjectMember) => m.project != project
  }

  /** The project after Edit assigns its link and abstract, and its techstack
      when techstack files were uploaded. */
  function Edited(p: Project, link: string, abstractText: string, techstack: Option<seq<string>>): Project
  {
    p.(link := link, abstractText := abstractText,
       techstack := if techstack.Some? then techstack.value else p.techstack)
  }

  /** Edit: the privilege gate, the lookup, the saved field overwrite, then the
      roster replacement, which deletes the project's rows before it walks the
      new list. */
  function EditOf(s: Db, accessPrivilege: string, name: string, link: string, abstractText: string,
                  techstack: Option<seq<string>>, members: MembersField, files: map<string, string>)
    : (out: (Db, Response<string>))
    ensures !CanEdit(accessPrivilege) ==> out == (s, Err(EditDenied))
    ensures CanEdit(accessPrivilege) && ProjectByName(s.projects, name).None? ==> out == (s, Err(EditMissing))
    ensures CanEdit(accessPrivilege) && ProjectByName(s.projects, name).Some? ==>
              var i := ProjectByName(s.projects, name).value;
              && out.0 == s.(projects := out.0.projects, members := out.0.members)
              && |out.0.projects| == |s.projects|
              && (forall j :: 0 <= j < |s.projects| && j != i ==> out.0.projects[j] == s.projects[j])
              && out.0.projects[i].link == link && out.0.projects[i].abstractText == abstractText
              && out.0.projects[i].techstack == (if techstack.Some? then techstack.value else s.projects[i].techstack)
              && out.0.projects[i] == s.projects[i].(link := link, abstractText := abstractText,
                                                     techstack := out.0.projects[i].techstack)
    ensures members.Blank? || members.Unparsable? ==> out.0.members == s.members
    ensures out.1.Ok? <==>
              && CanEdit(accessPrivilege) && ProjectByName(s.projects, name).Some?
              && (members.Blank? || (members.Parsed? && members.json.Items? &&
                                     forall k :: 0 <= k < |members.json.items| ==> members.json.items[k].MemberDict?))
    ensures out.1.Ok? ==> out.1.payload == Updated
  {
    if !CanEdit(accessPrivilege) then (s, Err(EditDenied))
    else match ProjectByName(s.projects, name)
      case None => (s, Err(EditMissing))
      case Some(i) =>
        var project := s.projects[i];
        var saved := s.(projects := s.projects[i := Edited(project, link, abstractText, techstack)]);
        var kept := Filter(s.members, OtherThan(project.id));
        match members
        case Blank => (saved, Ok(Updated))
        case Unparsable(e) => (saved, Err(MembersInvalid + e))
        case Parsed(NotIterable(e)) => (saved.(members := kept), Err(MembersInvalid + e))
        case Parsed(Items(items)) =>
          var (inputs, error) := MemberInputs(items, files);
          var after := saved.(members := kept + MemberRows(project.id, inputs));
          if error.Some? then (after, Err(MembersInvalid + error.value)) else (after, Ok(Updated))
  }

  /** The roster rows after Edit replaces the roster of `project` with `rows`. */
  lemma RosterReplaced(members: seq<ProjectMember>, project: ProjectId, rows: seq<ProjectMember>, other: ProjectId)
    requires forall m :: m in rows ==> m.project == project
    ensures MembersOf(Filter(members, OtherThan(project)) + rows, project) == rows
    ensures other != project ==>
              MembersOf(Filter(members, OtherThan(project)) + rows, other) == MembersOf(members, other)
  {
    var kept := Filter(members, OtherThan(project));
    MembersOfAppended(kept, rows, project);
    if other != project {
      FilterAppend(kept, rows, OfProject(other));
      FilterNone(rows, OfProject(other));
      FilterNarrow(members, OtherThan(project), OfProject(other));
    }
  }

  /** A members list of dictionaries becomes the project's whole roster, in
      order; other projects' rosters do not change. In particular "[]" clears
      the roster. */
  lemma EditReplacesRoster(s: Db, accessPrivilege: string, name: string, link: string, abstractText: string,
                           techstack: Option<seq<string>>, items: seq<MemberItem>,
                           files: map<string, string>, other: ProjectId)
    requires CanEdit(accessPrivilege) && ProjectByName(s.projects, name).Some?
    requires forall k :: 0 <= k < |items| ==> items[k].MemberDict?
    ensures var id := s.projects[ProjectByName(s.projects, name).value].id;
            var after := EditOf(s, accessPrivilege, name, link, abstractText, techstack,
                                Parsed(Items(items)), files).0;
            && MembersOf(after.members, id) == MemberRows(id, MemberInputs(items, files).0)
            && |MembersOf(after.members, id)| == |items|
            && (other != id ==> MembersOf(after.members, other) == MembersOf(s.members, other))
  {
    var id := s.projects[ProjectByName(s.projects, name).value].id;
    RosterReplaced(s.members, id, MemberRows(id, MemberInputs(items, files).0), other);
  }

  /** A parsed value that cannot be iterated answers with its error after the
      roster was deleted; other projects' rosters do not change. */
  lemma EditUniterableRoster(s: Db, accessPrivilege: string, name: string, link: string, abstractText: string,
                             techstack: Option<seq<string>>, error: string, files: map<string, string>,
                             other: ProjectId)
    requires CanEdit(accessPrivilege) && ProjectByName(s.projects, name).Some?
    ensures var id := s.projects[ProjectByName(s.projects, name).value].id;
            var out := EditOf(s, accessPrivilege, name, link, abstractText, techstack, Parsed(NotIterable(error)), files);
            && out.1 == Err(MembersInvalid + error)
            && MembersOf(out.0.members, id) == []
            && (other != id ==> MembersOf(out.0.members, other) == MembersOf(s.members, other))
  {
    var id := s.projects[ProjectByName(s.projects, name).value].id;
    RosterReplaced(s.members, id, [], other);
    assert Filter(s.members, OtherThan(id)) + [] == Filter(s.members, OtherThan(id));
  }

  /** A list with an element that is not a dictionary answers with that
      element's error, after the rows of the entries before it were created;
      other projects' rosters do not change. */
  lemma EditNonDictRoster(s: Db, accessPrivilege: string, name: string, link: string, abstractText: string,
                          techstack: Option<seq<string>>, items: seq<MemberItem>, files: map<string, string>,
                          other: ProjectId)
    requires CanEdit(accessPrivilege) && ProjectByName(s.projects, name).Some?
    requires Find(items, IsNotADict).Some?
    ensures var id := s.projects[ProjectByName(s.projects, name).value].id;
            var out := EditOf(s, accessPrivilege, name, link, abstractText, techstack, Parsed(Items(items)), files);
            && out.1 == Err(MembersInvalid + items[Find(items, IsNotADict).value].error)
            && MembersOf(out.0.members, id) == MemberRows(id, MemberInputs(items, files).0)
            && |MembersOf(out.0.members, id)| == Find(items, IsNotADict).value
            && (other != id ==> MembersOf(out.0.members, other) == MembersOf(s.members, other))
  {
    var id := s.projects[ProjectByName(s.projects, name).value].id;
    RosterReplaced(s.members, id, MemberRows(id, MemberInputs(items, files).0), other);
  }

  /** When the list cannot be walked to the end, the roster was already
      deleted: it keeps only the entries before the failing element (none
      when the value cannot be iterated at all); other projects' rosters do
      not change. */
  lemma EditKeepsPartialRoster(s: Db, accessPrivilege: string, name: string, link: string, abstractText: string,
                               techstack: Option<seq<string>>, json: MembersJson, files: map<string, string>,
                               other: ProjectId)
    requires CanEdit(accessPrivilege) && ProjectByName(s.projects, name).Some?
    ensures var id := s.projects[ProjectByName(s.projects, name).value].id;
            var out := EditOf(s, accessPrivilege, name, link, abstractText, techstack, Parsed(json), files);
            && (json.NotIterable? ==> out.1 == Err(MembersInvalid + json.error) && MembersOf(out.0.members, id) == [])
            && (json.Items? && Find(json.items, IsNotADict).Some? ==>
                  && out.1 == Err(MembersInvalid + json.items[Find(json.items, IsNotADict).value].error)
                  && MembersOf(out.0.members, id) == MemberRows(id, MemberInputs(json.items, files).0)
                  && |MembersOf(out.0.members, id)| == Find(json.items, IsNotADict).value)
            && (other != id ==> MembersOf(out.0.members, other) == MembersOf(s.members, other))
  {
    match json
    case NotIterable(error) =>
      EditUniterableRoster(s, accessPrivilege, name, link, abstractText, techstack, error, files, other);
    case Items(items) =>
      if Find(items, IsNotADict).Some? {
        EditNonDictRoster(s, accessPrivilege, name, link, abstractText, techstack, items, files, other);
      } else {
        EditReplacesRoster(s, accessPrivilege, name, link, abstractText, techstack, items, files, other);
      }
  }

  /** Edit keeps the database consistent on every path. */
  lemma EditKeepsValid(s: Db, accessPrivilege: string, name: string, link: string, abstractText: string,
                       techstack: Option<seq<string>>, members: MembersField, files: map<string, string>)
    requires Valid(s)
    ensures Valid(EditOf(s, accessPrivilege, name, link, abstractText, techstack, members, files).0)
  {
    if CanEdit(accessPrivilege) && ProjectByName(s.projects, name).Some? {
      var i := ProjectByName(s.projects, name).value;
      var after := EditOf(s, accessPrivilege, name, link, abstractText, techstack, members, files).0;
      EditedKeepsTable(s, i, link, abstractText, techstack);
      assert after.projects == s.projects[i := Edited(s.projects[i], link, abstractText, techstack)];
      assert forall m :: m in after.members ==> m in s.members || m.project == s.projects[i].id;
    }
  }

  /** Overwriting the edited fields of one project keeps the projects table
      indexed, its names unique and its foreign keys valid. */
  lemma EditedKeepsTable(s: Db, i: nat, link: string, abstractText: string, techstack: Option<seq<string>>)
    requires Valid(s) && i < |s.projects|
    ensures var projects := s.projects[i := Edited(s.projects[i], link, abstractText, techstack)];
            && ProjectsIndexed(projects) && ProjectNamesUnique(projects)
            && ProjectsRefer(projects, |s.clubs|, |s.users|)
  {
    var projects := s.projects[i := Edited(s.projects[i], link, abstractText, techstack)];
    assert forall j :: 0 <= j < |projects| ==>
             projects[j].name == s.projects[j].name && projects[j].id == s.projects[j].id;
    assert forall p :: p in projects ==> p in s.projects || p == projects[i];
  }

  /** Edit renames nothing: the edited project is still found under its name, at the same row. */
  lemma EditKeepsLookup(s: Db, accessPrivilege: string, name: string, link: string, abstractText: string,
                        techstack: Option<seq<string>>, members: MembersField, files: map<string, string>)
    requires CanEdit(accessPrivilege) && ProjectByName(s.projects, name).Some?
    ensures var after := EditOf(s, accessPrivilege, name, link, abstractText, techstack, members, files).0;
            ProjectByName(after.projects, name) == ProjectByName(s.projects, name)
  {
    var after := EditOf(s, accessPrivilege, name, link, abstractText, techstack, members, files).0;
    FindPointwise(s.projects, after.projects, (q: Project) => q.name == name);
  }

  /** After a successful Edit, the detail page shows the new link, abstract and
      techstack. */
  lemma EditThenDetail(s: Db, accessPrivilege: string, name: string, link: string, abstractText: string,
                       techstack: Option<seq<string>>, members: MembersField, files: map<string, string>)
    requires Valid(s)
    requires EditOf(s, accessPrivilege, name, link, abstractText, techstack, members, files).1.Ok?
    ensures var after := EditOf(s, accessPrivilege, name, link, abstractText, techstack, members, files).0;
            && Valid(after) && DetailOf(after, name).Ok? && DetailOf(s, name).Ok?
            && DetailOf(after, name).payload.link == link
            && DetailOf(after, name).payload.abstractText == abstractText
            && DetailOf(after, name).payload.techstack ==
                 (if techstack.Some? then techstack.value else DetailOf(s, name).payload.techstack)
  {
    EditKeepsValid(s, accessPrivilege, name, link, abstractText, techstack, members, files);
    EditKeepsLookup(s, accessPrivilege, name, link, abstractText, techstack, members, files);
  }

  /** After a successful Edit, the detail page lists the roster as submitted,
      or the old roster when the field was blank. */
  lemma EditThenDetailRoster(s: Db, accessPrivilege: string, name: string, link: string, abstractText: string,
                             techstack: Option<seq<string>>, members: MembersField, files: map<string, string>)
    requires Valid(s)
    requires EditOf(s, accessPrivilege, name, link, abstractText, techstack, members, files).1.Ok?
    ensures var after := EditOf(s, accessPrivilege, name, link, abstractText, techstack, members, files).0;
            && Valid(after) && DetailOf(after, name).Ok? && DetailOf(s, name).Ok?
            && (members.Blank? ==> DetailOf(after, name).payload.members == DetailOf(s, name).payload.members)
            && (members.Parsed? ==>
                  var roster := MemberInputs(members.json.items, files).0;
                  && |DetailOf(after, name).payload.members| == |roster|
                  && forall k :: 0 <= k < |roster| ==>
                       DetailOf(after, name).payload.members[k] == MemberView(roster[k].name, roster[k].profilePic))
  {
    EditKeepsValid(s, accessPrivilege, name, link, abstractText, techstack, members, files);
    EditKeepsLookup(s, accessPrivilege, name, link, abstractText, techstack, members, files);
    var after := EditOf(s, accessPrivilege, name, link, abstractText, techstack, members, files).0;
    var i := ProjectByName(s.projects, name).value;
    var id := s.projects[i].id;
    assert after.projects[i].id == id;
    DetailAt(s, name, i);
    DetailAt(after, name, i);
    if members.Parsed? {
      var items := members.json.items;
      EditReplacesRoster(s, accessPrivilege, name, link, abstractText, techstack, items, files, id);
    }
  }

  // ---------------------------------------------------------------------
  // Handlers on the database object
  // ---------------------------------------------------------------------

  /** list_to_dict: appends one dictionary per project. */
  method ListToDict(db: Database, items: seq<Project>) returns (r: seq<ProjectDict>)
    ensures r == Dicts(db.clubs, items)
  {
    r := [];
    var i := 0;
    while i < |items|
      invariant 0 <= i <= |items|
      invariant r == Dicts(db.clubs, items[..i])
    {
      assert items[..i + 1][..i] == items[..i];
      var item := items[i];
      r := r + [ProjectDict(item.id, item.name, item.abstractText, item.image, item.link, item.club,
                            item.head, ClubNameOf(db.clubs, item.club), item.techstack)];
      i := i + 1;
    }
    assert items[..i] == items;
  }

  /** AllProjects: every project, in table order. */
  method AllProjects(db: Database) returns (r: seq<ProjectDict>)
    ensures |r| == |db.projects|
    ensures forall i :: 0 <= i < |r| ==> r[i].id == db.projects[i].id && r[i].name == db.projects[i].name
    ensures r == Dicts(db.clubs, db.projects)
  {
    r := ListToDict(db, db.projects);
  }

  /** ProjectDetail: looks the project up, then appends one entry per roster row. */
  method ProjectDetail(db: Database, name: string) returns (r: Response<ProjectInfo>)
    requires Valid(db.State())
    ensures r == DetailOf(db.State(), name)
  {
    var pi := ProjectByName(db.projects, name);
    if pi.None? { return Err(ProjectMissing); }
    var project := db.projects[pi.value];
    assert project in db.projects;
    var rows := MembersOf(db.members, project.id);
    var views: seq<MemberView> := [];
    var i := 0;
    while i < |rows|
      invariant 0 <= i <= |rows|
      invariant views == MemberViews(rows[..i])
    {
      assert rows[..i + 1][..i] == rows[..i];
      views := views + [MemberView(rows[i].name, rows[i].profilePic)];
      i := i + 1;
    }
    assert rows[..i] == rows;
    r := Ok(ProjectInfo(project.id, project.name, db.users[project.head - 1].email, project.abstractText,
                        project.link, project.image, project.techstack, views));
  }

  /** Search: the filtered query rendered by list_to_dict. */
  method Search(db: Database, fold: string -> string, query: string) returns (r: seq<ProjectDict>)
    ensures r == SearchOf(db.State(), fold, query)
  {
    var s := db.State();
    var hits := Filter(db.projects, (p: Project) => Matches(s, fold, query, p));
    r := ListToDict(db, hits);
  }

  /** Create's loop over the members list, attaching each member's picture. */
  method AttachProfilePics(items: seq<MemberItem>, files: map<string, string>)
    returns (r: Response<seq<MemberInput>>)
    ensures r == Attached(Parsed(Items(items)), files)
  {
    var inputs: seq<MemberInput> := [];
    var i := 0;
    while i < |items|
      invariant 0 <= i <= |items|
      invariant |inputs| == i
      invariant forall j :: 0 <= j < i ==> items[j].MemberDict? && inputs[j] == InputOf(items[j], files)
    {
      match items[i] {
        case NotADict(e) =>
          assert Find(items, IsNotADict) == Some(i);
          assert inputs == MemberInputs(items, files).0;
          return Err(e);
        case MemberDict(name, key) =>
          inputs := inputs + [MemberInput(name, PicFor(key, files))];
      }
      i := i + 1;
    }
    assert Find(items, IsNotADict).None?;
    assert inputs == MemberInputs(items, files).0;
    r := Ok(inputs);
  }

  /** Create, after the uploads: the guards, the members field, then create_project. */
  method Create(db: Database, isAdmin: bool, name: string, email: string, abstractText: string,
                link: string, clubName: string, image: string, members: MembersField,
                files: map<string, string>, techstack: seq<string>, fault: Fault)
    returns (r: Response<string>)
    modifies db
    ensures (db.State(), r) == CreateOf(old(db.State()), isAdmin, name, email, abstractText, link,
                                        clubName, image, members, files, techstack, fault)
  {
    if !isAdmin { return Err(CreateDenied); }
    var ui := UserByEmail(db.users, email);
    if ui.None? { return Err(UserMissing); }
    var ci := ClubByName(db.clubs, clubName);
    if ci.None? { return Err(ClubMissing); }
    if ProjectByName(db.projects, name).Some? { return Err(DuplicateName); }
    var inputs: seq<MemberInput> := [];
    match members {
      case Blank =>
      case Unparsable(e) =>
        return Err(MembersInvalid + e);
      case Parsed(NotIterable(e)) =>
        return Err(MembersInvalid + e);
      case Parsed(Items(items)) =>
        var attached := AttachProfilePics(items, files);
        if attached.Err? { return Err(MembersInvalid + attached.message); }
        inputs := attached.payload;
    }
    var ok := CreateProjectSteps(db, name, abstractText, link, db.users[ui.value].id, image,
                                 db.clubs[ci.value].id, Some(inputs), Some(techstack), fault);
    r := if ok then Ok(Created) else Err(InvalidDetails);
  }

  /** The roster loop of Edit: one row per entry, in order, stopping at the
      first entry that is not a dict; answers that entry's error, if any. */
  method InsertMembers(db: Database, project: ProjectId, items: seq<MemberItem>, files: map<string, string>)
    returns (error: Option<string>)
    modifies db
    ensures error == MemberInputs(items, files).1
    ensures db.State() == old(db.State()).(members := old(db.members) +
                                           MemberRows(project, MemberInputs(items, files).0))
  {
    var inputs: seq<MemberInput> := [];
    var i := 0;
    while i < |items|
      invariant 0 <= i <= |items|
      invariant |inputs| == i
      invariant forall j :: 0 <= j < i ==> items[j].MemberDict? && inputs[j] == InputOf(items[j], files)
      invariant db.State() == old(db.State()).(members := old(db.members) + MemberRows(project, inputs))
    {
      match items[i] {
        case NotADict(e) =>
          assert Find(items, IsNotADict) == Some(i);
          assert inputs == MemberInputs(items, files).0;
          return Some(e);
        case MemberDict(memberName, key) =>
          var input := MemberInput(memberName, PicFor(key, files));
          assert MemberRows(project, inputs + [input]) ==
                 MemberRows(project, inputs) + [ProjectMember(project, memberName, input.profilePic)];
          db.members := db.members + [ProjectMember(project, memberName, input.profilePic)];
          inputs := inputs + [input];
      }
      i := i + 1;
    }
    assert Find(items, IsNotADict).None?;
    assert inputs == MemberInputs(items, files).0;
    error := None;
  }

  /** Edit: saves the project fields, deletes the roster, then creates one row
      per member until an element is not a dictionary. */
  method Edit(db: Database, accessPrivilege: string, name: string, link: string, abstractText: string,
              techstack: Option<seq<string>>, members: MembersField, files: map<string, string>)
    returns (r: Response<string>)
    modifies db
    ensures (db.State(), r) == EditOf(old(db.State()), accessPrivilege, name, link, abstractText,
                                      techstack, members, files)
  {
    if !CanEdit(accessPrivilege) { return Err(EditDenied); }
    var pi := ProjectByName(db.projects, name);
    if pi.None? { return Err(EditMissing); }
    var project := db.projects[pi.value];
    db.projects := db.projects[pi.value := Edited(project, link, abstractText, techstack)];
    match members {
      case Blank =>
        return Ok(Updated);
      case Unparsable(e) =>
        return Err(MembersInvalid + e);
      case Parsed(json) =>
        db.members := Filter(db.members, OtherThan(project.id));
        if json.NotIterable? { return Err(MembersInvalid + json.error); }
        var error := InsertMembers(db, project.id, json.items, files);
        if error.Some? { return Err(MembersInvalid + error.value); }
        r := Ok(Updated);
    }
  }
}

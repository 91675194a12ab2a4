/** The pydantic schemas of app/models.py as immutable records, each with a
    total validity predicate standing for "constructing this model does not
    raise a ValidationError". */
module Models {
  import opened Wrappers

  /** A BSON ObjectId; only its identity matters here. */
  datatype ObjectId = ObjectId(serial: nat)

  // ---------------------------------------------------------------------
  // The `pattern=` constraint
  // ---------------------------------------------------------------------

  /** A regular expression of the shape `^?(a1|a2|...)$?`. Pydantic v2 checks
      `pattern=` with the rust-regex engine by SEARCHING for a match anywhere
      in the value, so only the anchors make it a whole-string match; in that
      engine `$` matches at the very end of the text only. */
  datatype Pattern = Pattern(anchorStart: bool, alternatives: seq<string>, anchorEnd: bool)

  predicate OccursAt(a: string, s: string, i: nat) {
    i + |a| <= |s| && s[i..i + |a|] == a
  }

  /** Some alternative matches at offset `i` (and, when anchored, runs to the end). */
  function AlternativeAt(alts: seq<string>, s: string, i: nat, anchorEnd: bool): (r: bool)
    ensures r <==> exists k :: 0 <= k < |alts| && OccursAt(alts[k], s, i)
                                && (anchorEnd ==> i + |alts[k]| == |s|)
  {
    if alts == [] then false
    else
      || (OccursAt(alts[0], s, i) && (anchorEnd ==> i + |alts[0]| == |s|))
      || AlternativeAt(alts[1..], s, i, anchorEnd)
  }

  /** A match of `p` begins at offset `j`. */
  predicate MatchStartsAt(p: Pattern, s: string, j: nat) {
    j <= |s| && AlternativeAt(p.alternatives, s, j, p.anchorEnd)
  }

  /** The search tries every start offset from `i` on, or only `i` when the
      pattern is anchored at the start. */
  function SearchFrom(p: Pattern, s: string, i: nat): (r: bool)
    requires i <= |s|
    ensures r <==> exists j: nat :: i <= j && (p.anchorStart ==> j == i) && MatchStartsAt(p, s, j)
    decreases |s| - i
  {
    if MatchStartsAt(p, s, i) then true
    else if p.anchorStart || i == |s| then false
    else SearchFrom(p, s, i + 1)
  }

  predicate Matches(p: Pattern, s: string) {
    SearchFrom(p, s, 0)
  }

  const StatusValues: seq<string> := ["Completed", "In Progress", "Planning"]

  /** `^(Completed|In Progress|Planning)$`, shared by Project, ProjectCreate
      and ProjectUpdate. */
  const StatusPattern: Pattern := Pattern(true, StatusValues, true)

  predicate StatusAccepted(s: string) {
    Matches(StatusPattern, s)
  }

  /** The anchored status pattern accepts exactly the three status names. */
  lemma StatusAcceptedExactly(s: string)
    ensures StatusAccepted(s) <==> s == "Completed" || s == "In Progress" || s == "Planning"
  {
  }

  // ---------------------------------------------------------------------
  // Field bounds
  // ---------------------------------------------------------------------

  /** `min_length=lo, max_length=hi` on a string field. */
  predicate LengthIn(s: string, lo: nat, hi: nat) {
    lo <= |s| <= hi
  }

  /** The fields a ValidationError can name. */
  datatype Field = Name | Description | TechStack | Status
                 | FirstName | LastName | Email | Subject | Message

  // ---------------------------------------------------------------------
  // Project schemas
  // ---------------------------------------------------------------------

  /** `Project`: the stored shape, with an id and a description that may be empty. */
  datatype Project = Project(
    id: Option<ObjectId>,
    name: string,
    description: string,
    techStack: seq<string>,
    status: string,
    githubUrl: Option<string>,
    demoUrl: Option<string>,
    imageUrl: Option<string>,
    featured: bool)

  predicate ProjectValid(p: Project) {
    && LengthIn(p.name, 1, 100)
    && LengthIn(p.description, 0, 500)
    && |p.techStack| >= 1
    && StatusAccepted(p.status)
  }

  /** `ProjectCreate`: the input shape of the add-project form. */
  datatype ProjectCreate = ProjectCreate(
    name: string,
    description: string,
    techStack: seq<string>,
    status: string,
    githubUrl: Option<string>,
    demoUrl: Option<string>,
    imageUrl: Option<string>,
    featured: bool)

  predicate ProjectCreateValid(p: ProjectCreate) {
    && LengthIn(p.name, 1, 100)
    && LengthIn(p.description, 10, 500)
    && |p.techStack| >= 1
    && StatusAccepted(p.status)
  }

  /** Constructing a ProjectCreate with the schema's defaults for the
      fields the caller leaves out. */
  function NewProjectCreate(name: string, description: string, techStack: seq<string>, status: string,
                            githubUrl: Option<string> := None, demoUrl: Option<string> := None,
                            imageUrl: Option<string> := None, featured: bool := false): ProjectCreate
  {
    ProjectCreate(name, description, techStack, status, githubUrl, demoUrl, imageUrl, featured)
  }

  /** The fields of a ProjectCreate that break their constraint. */
  function ProjectCreateViolations(p: ProjectCreate): (errs: set<Field>)
    ensures errs <= {Name, Description, TechStack, Status}
  {
    (if LengthIn(p.name, 1, 100) then {} else {Name})
    + (if LengthIn(p.description, 10, 500) then {} else {Description})
    + (if |p.techStack| >= 1 then {} else {TechStack})
    + (if StatusAccepted(p.status) then {} else {Status})
  }

  /** Pydantic validation of a ProjectCreate: the model itself, or the
      non-empty set of offending fields, naming each field exactly when it
      breaks its constraint. */
  function ValidateProjectCreate(p: ProjectCreate): (r: Result<ProjectCreate, set<Field>>)
    ensures r.Success? <==> ProjectCreateValid(p)
    ensures r.Success? ==> r.value == p
    ensures r.Failure? ==> r.error != {} && r.error <= {Name, Description, TechStack, Status}
    ensures r.Failure? ==>
      && (Name in r.error <==> !LengthIn(p.name, 1, 100))
      && (Description in r.error <==> !LengthIn(p.description, 10, 500))
      && (TechStack in r.error <==> |p.techStack| == 0)
      && (Status in r.error <==> !StatusAccepted(p.status))
  {
    var errs := ProjectCreateViolations(p);
    if errs == {} then Success(p)
    else Failure(errs)
  }

  /** The Project holding the same fields as a ProjectCreate. */
  function ProjectOf(c: ProjectCreate, id: Option<ObjectId>): Project {
    Project(id, c.name, c.description, c.techStack, c.status, c.githubUrl, c.demoUrl, c.imageUrl, c.featured)
  }

  /** ProjectCreate is strictly more demanding than Project, and the only
      difference is the description's lower bound of 10. */
  lemma ProjectCreateStricter(c: ProjectCreate, id: Option<ObjectId>)
    ensures ProjectCreateValid(c) ==> ProjectValid(ProjectOf(c, id))
    ensures ProjectCreateValid(c) <==> ProjectValid(ProjectOf(c, id)) && |c.description| >= 10
  {
  }

  /** A stored Project whose description ProjectCreate would refuse. */
  lemma ProjectNotStricter()
    ensures var c := NewProjectCreate("Blog", "Short", ["Go"], "Planning");
      ProjectValid(ProjectOf(c, None)) && !ProjectCreateValid(c)
  {
  }

  /** `ProjectUpdate`: every field optional; `None` skips the constraint. */
  datatype ProjectUpdate = ProjectUpdate(
    name: Option<string>,
    description: Option<string>,
    techStack: Option<seq<string>>,
    status: Option<string>,
    githubUrl: Option<string>,
    demoUrl: Option<string>,
    imageUrl: Option<string>,
    featured: Option<bool>)

  predicate ProjectUpdateValid(u: ProjectUpdate) {
    && (u.name.Some? ==> LengthIn(u.name.value, 1, 100))
    && (u.description.Some? ==> LengthIn(u.description.value, 10, 500))
    && (u.techStack.Some? ==> |u.techStack.value| >= 1)
    && (u.status.Some? ==> StatusAccepted(u.status.value))
  }

  /** A ProjectUpdate with nothing in it, as `ProjectUpdate()` builds it. */
  const EmptyUpdate: ProjectUpdate := ProjectUpdate(None, None, None, None, None, None, None, None)

  /** The update that sets every field of `c`. */
  function UpdateOf(c: ProjectCreate): ProjectUpdate {
    ProjectUpdate(Some(c.name), Some(c.description), Some(c.techStack), Some(c.status),
                  c.githubUrl, c.demoUrl, c.imageUrl, Some(c.featured))
  }

  /** The empty update is accepted, and an update carrying all of a
      ProjectCreate's fields is accepted exactly when the ProjectCreate is:
      a present field meets the same bound in both schemas. */
  lemma ProjectUpdateBounds(c: ProjectCreate)
    ensures ProjectUpdateValid(EmptyUpdate)
    ensures ProjectUpdateValid(UpdateOf(c)) <==> ProjectCreateValid(c)
  {
  }

  /** A field left out of an update never makes it invalid: clearing any
      one of the constrained fields keeps a valid update valid. */
  lemma ProjectUpdateClearField(u: ProjectUpdate)
    requires ProjectUpdateValid(u)
    ensures ProjectUpdateValid(u.(name := None))
    ensures ProjectUpdateValid(u.(description := None))
    ensures ProjectUpdateValid(u.(techStack := None))
    ensures ProjectUpdateValid(u.(status := None))
  {
  }

  // ---------------------------------------------------------------------
  // Contact schemas
  // ---------------------------------------------------------------------

  /** The email-validator library behind `EmailStr`: the normalised address,
      or `None` when the text is not an email address. */
  type EmailCheck = string -> Option<string>

  /** `ContactMessage`: the stored shape. */
  datatype ContactMessage = ContactMessage(
    id: Option<ObjectId>,
    firstName: string,
    lastName: string,
    email: string,
    subject: string,
    message: string,
    newsletterSignup: bool,
    read: bool)

  predicate ContactMessageBounds(m: ContactMessage) {
    && LengthIn(m.firstName, 1, 50)
    && LengthIn(m.lastName, 1, 50)
    && LengthIn(m.subject, 1, 100)
    && LengthIn(m.message, 1, 1000)
  }

  predicate ContactMessageValid(m: ContactMessage, check: EmailCheck) {
    ContactMessageBounds(m) && check(m.email).Some?
  }

  /** `ContactCreate`: the input shape of the contact form. */
  datatype ContactCreate = ContactCreate(
    firstName: string,
    lastName: string,
    email: string,
    subject: string,
    message: string,
    newsletterSignup: bool)

  predicate ContactCreateBounds(c: ContactCreate) {
    && LengthIn(c.firstName, 1, 50)
    && LengthIn(c.lastName, 1, 50)
    && LengthIn(c.subject, 1, 100)
    && LengthIn(c.message, 0, 1000)
  }

  predicate ContactCreateValid(c: ContactCreate, check: EmailCheck) {
    ContactCreateBounds(c) && check(c.email).Some?
  }

  function NewContactCreate(firstName: string, lastName: string, email: string, subject: string,
                            message: string, newsletterSignup: bool := false): ContactCreate
  {
    ContactCreate(firstName, lastName, email, subject, message, newsletterSignup)
  }

  /** The fields of a ContactCreate that break their constraint. */
  function ContactCreateViolations(c: ContactCreate, check: EmailCheck): (errs: set<Field>)
    ensures errs <= {FirstName, LastName, Email, Subject, Message}
  {
    (if LengthIn(c.firstName, 1, 50) then {} else {FirstName})
    + (if LengthIn(c.lastName, 1, 50) then {} else {LastName})
    + (if check(c.email).Some? then {} else {Email})
    + (if LengthIn(c.subject, 1, 100) then {} else {Subject})
    + (if LengthIn(c.message, 0, 1000) then {} else {Message})
  }

  /** Pydantic validation of a ContactCreate: on success the model holds the
      normalised email address in place of the submitted one. */
  function ValidateContactCreate(c: ContactCreate, check: EmailCheck): (r: Result<ContactCreate, set<Field>>)
    ensures r.Success? <==> ContactCreateValid(c, check)
    ensures r.Success? ==> check(c.email).Some? && r.value == c.(email := check(c.email).value)
    ensures r.Success? ==> ContactCreateBounds(r.value)
    ensures r.Failure? ==> r.error != {} && r.error <= {FirstName, LastName, Email, Subject, Message}
    ensures r.Failure? ==>
      && (FirstName in r.error <==> !LengthIn(c.firstName, 1, 50))
      && (LastName in r.error <==> !LengthIn(c.lastName, 1, 50))
      && (Email in r.error <==> check(c.email).None?)
      && (Subject in r.error <==> !LengthIn(c.subject, 1, 100))
      && (Message in r.error <==> !LengthIn(c.message, 0, 1000))
  {
    var errs := ContactCreateViolations(c, check);
    if errs == {} then Success(c.(email := check(c.email).value))
    else Failure(errs)
  }

  /** The ContactMessage holding the same fields, with `read` at its default. */
  function MessageOf(c: ContactCreate, id: Option<ObjectId>): ContactMessage {
    ContactMessage(id, c.firstName, c.lastName, c.email, c.subject, c.message, c.newsletterSignup, false)
  }

  function CreateOfMessage(m: ContactMessage): ContactCreate {
    ContactCreate(m.firstName, m.lastName, m.email, m.subject, m.message, m.newsletterSignup)
  }

  /** ContactCreate is NOT stricter than ContactMessage: a valid ContactCreate
      is a valid ContactMessage exactly when its message is non-empty, while
      every valid ContactMessage is a valid ContactCreate. */
  lemma ContactCreateVersusMessage(c: ContactCreate, m: ContactMessage, id: Option<ObjectId>, check: EmailCheck)
    ensures ContactCreateValid(c, check) ==>
              (ContactMessageValid(MessageOf(c, id), check) <==> c.message != [])
    ensures ContactMessageValid(m, check) ==> ContactCreateValid(CreateOfMessage(m), check)
    ensures CreateOfMessage(MessageOf(c, id)) == c
  {
  }

  /** A concrete submission with an empty message: ContactCreate accepts it,
      ContactMessage refuses it. */
  lemma EmptyMessageOnlyInCreate(check: EmailCheck)
    requires check("ada@example.org").Some?
    ensures var c := NewContactCreate("Ada", "Lovelace", "ada@example.org", "Hello", "");
      ContactCreateValid(c, check) && !ContactMessageValid(MessageOf(c, None), check)
  {
  }

  /** The schema defaults: `featured`, `newsletter_signup` and `read` are
      false and the optional project links are absent unless given. */
  lemma SchemaDefaults(name: string, description: string, techStack: seq<string>, status: string,
                       firstName: string, lastName: string, email: string, subject: string, message: string,
                       id: Option<ObjectId>)
    ensures var p := NewProjectCreate(name, description, techStack, status);
      && !p.featured && !ProjectOf(p, id).featured
      && p.githubUrl.None? && p.demoUrl.None? && p.imageUrl.None?
    ensures var c := NewContactCreate(firstName, lastName, email, subject, message);
      !c.newsletterSignup && !MessageOf(c, id).newsletterSignup && !MessageOf(c, id).read
  {
  }
}

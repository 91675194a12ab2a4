/** The request handlers and the startup hook of app/main.py, over the
    abstract store. A handler takes the connection state, the store, and
    whether the server answers, and yields the new store together with the
    response it sends. */
module Handlers {
  import opened Wrappers
  import opened Models
  import opened Store
  import opened Database
  import opened FormInput

  /** Why a request ended in a 500 (or, at startup, why the app did not start). */
  datatype ErrorCause =
    | CollectionUnavailable  // get_collection raised "Database not connected"
    | ServerUnreachable      // the store operation itself raised
    | MalformedId            // ObjectId(project_id) raised
    | NotFoundRewrapped      // the handler's own 404, caught and re-raised as 500

  datatype Response =
    | Redirect303(location: string)
    | HomePage(featured: seq<ProjectDoc>)
    | SuccessPage            // contact.html with the thank-you message
    | ErrorPage              // contact.html with the error message
    | Deleted                // {"success": true}
    | ServerError(cause: ErrorCause)

  function StatusCode(r: Response): nat {
    match r
    case Redirect303(_) => 303
    case ServerError(_) => 500
    case _ => 200
  }

  datatype Handled = Handled(store: Store, response: Response)

  const AdminLocation: string := "/admin"
  const HomeFeaturedLimit: nat := 2

  // ---------------------------------------------------------------------
  // Startup: connect, then seed an empty projects collection
  // ---------------------------------------------------------------------

  const SampleProjects: seq<ProjectCreate> := [
    NewProjectCreate("Social Media Platform",
                     "A social networking application with user profiles and posts",
                     ["Python", "Flask", "SQLite"], "Completed", featured := true),
    NewProjectCreate("Learning Platform",
                     "Educational platform with courses and progress tracking",
                     ["Python", "Django", "PostgreSQL"], "Completed", featured := true),
    NewProjectCreate("Music Streaming Platform",
                     "Music player with playlists and user preferences",
                     ["Python", "FastAPI", "MongoDB"], "Completed", featured := false),
    NewProjectCreate("Emoji Classifier",
                     "Machine learning model to classify and analyze emojis",
                     ["Python", "TensorFlow", "Pandas"], "In Progress", featured := true)
  ]

  /** `if count_documents({}) == 0: insert_many(sample_projects)`. */
  function SeedIfEmpty(st: Store): (r: Store)
    ensures |st.projects| == 0 ==> |r.projects| == |SampleProjects|
    ensures |st.projects| == 0 ==>
              forall k :: 0 <= k < |SampleProjects| ==> r.projects[k].body == SampleProjects[k]
    ensures |st.projects| != 0 ==> r == st
    ensures r.contacts == st.contacts
    ensures WellFormed(st) ==> WellFormed(r)
  {
    if |st.projects| == 0 then InsertManyProjects(st, SampleProjects) else st
  }

  /** The sample records meet ProjectCreate's constraints even though they
      are inserted without validation. */
  lemma SamplesValid()
    ensures forall k :: 0 <= k < |SampleProjects| ==> ProjectCreateValid(SampleProjects[k])
  {
    StatusAcceptedExactly("Completed");
    StatusAcceptedExactly("In Progress");
  }

  /** Seeding twice is seeding once, and a seeded store shows the first two
      sample projects on the home page. */
  lemma SeedThenHome(st: Store)
    requires |st.projects| == 0
    ensures SeedIfEmpty(SeedIfEmpty(st)) == SeedIfEmpty(st)
    ensures var shown := FindFeatured(SeedIfEmpty(st).projects, HomeFeaturedLimit);
      |shown| == 2 && shown[0].body == SampleProjects[0] && shown[1].body == SampleProjects[1]
  {
    var docs := SeedIfEmpty(st).projects;
    assert docs[0].body.featured && docs[1].body.featured;
    assert docs[1..][0] == docs[1];
    assert TakeFeatured(docs, 2) == [docs[0]] + TakeFeatured(docs[1..], 1);
    assert TakeFeatured(docs[1..], 1) == [docs[1]] + TakeFeatured(docs[2..], 0);
  }

  datatype StartupOutcome =
    | Running(db: Database, store: Store)
    | Aborted(db: Database, cause: ErrorCause)

  /** The lifespan hook up to `yield`: `db.connect()` (its result ignored),
      then the seeding, which runs outside any `try`, so a failing
      `get_collection` or `count_documents` aborts the start. */
  function Startup(envUri: Option<string>, envName: Option<string>, drv: Driver, st: Store): (r: StartupOutcome)
    ensures r.Running? <==> drv.acceptsUri && drv.acceptsName && drv.serverReachable
    ensures r.Running? ==> r.store == SeedIfEmpty(st) && r.db.db.Some?
    ensures r.Aborted? ==> (r.cause == CollectionUnavailable <==> r.db.db.None?)
  {
    var (d, _) := Connect(NewDatabase(envUri, envName), drv);
    match GetProjectsCollection(d)
    case Failure(_) => Aborted(d, CollectionUnavailable)
    case Success(_) =>
      if !drv.serverReachable then Aborted(d, ServerUnreachable)
      else Running(d, SeedIfEmpty(st))
  }

  /** When only the reachability check fails, the start is not aborted by
      `get_collection` (the handle exists) but by `count_documents`. */
  lemma StartupUnreachable(envUri: Option<string>, envName: Option<string>, drv: Driver, st: Store)
    requires drv.acceptsUri && drv.acceptsName && !drv.serverReachable
    ensures Startup(envUri, envName, drv, st) == Aborted(Connect(NewDatabase(envUri, envName), drv).0, ServerUnreachable)
  {
  }

  /** The lifespan hook after `yield`: the database after `close()`, and
      whether a client was closed. */
  function Shutdown(d: Database): (r: (Database, bool))
    ensures r.1 <==> d.client.Some?
    ensures GetCollection(r.0, ProjectsCollection) == GetCollection(d, ProjectsCollection)
    ensures GetCollection(r.0, ContactsCollection) == GetCollection(d, ContactsCollection)
  {
    Close(d)
  }

  // ---------------------------------------------------------------------
  // GET /
  // ---------------------------------------------------------------------

  /** `home`: up to two featured projects; the lookups are outside any `try`,
      so a failure becomes FastAPI's 500. */
  function Home(d: Database, st: Store, serverUp: bool): (r: Response)
    ensures r.HomePage? <==> d.db.Some? && serverUp
    ensures !r.HomePage? ==> r.ServerError?
    ensures r.HomePage? ==> |r.featured| <= 2
    ensures r.HomePage? ==> forall k :: 0 <= k < |r.featured| ==> r.featured[k].body.featured
  {
    match GetProjectsCollection(d)
    case Failure(_) => ServerError(CollectionUnavailable)
    case Success(_) =>
      if !serverUp then ServerError(ServerUnreachable)
      else HomePage(FindFeatured(st.projects, HomeFeaturedLimit))
  }

  /** The home page shows the first featured projects in collection order:
      two of them, or all of them when there are fewer. */
  lemma HomeShowsFeaturedPrefix(d: Database, st: Store, serverUp: bool)
    requires d.db.Some? && serverUp
    ensures var shown := Home(d, st, serverUp).featured;
      && |shown| == Min(2, |Featured(st.projects)|)
      && shown == Featured(st.projects)[..|shown|]
  {
    FindFeaturedIsPrefix(st.projects, HomeFeaturedLimit);
  }

  // ---------------------------------------------------------------------
  // POST /admin/projects
  // ---------------------------------------------------------------------

  /** The fields of the add-project form, as FastAPI hands them over. */
  datatype ProjectForm = ProjectForm(
    name: string,
    description: string,
    techStack: string,
    status: string,
    githubUrl: string,
    demoUrl: string,
    featured: bool)

  /** The ProjectCreate the handler builds from the form. */
  function ProjectFromForm(f: ProjectForm): ProjectCreate {
    NewProjectCreate(f.name, f.description, ParseTechStack(f.techStack), f.status,
                     githubUrl := OptionalUrl(f.githubUrl), demoUrl := OptionalUrl(f.demoUrl),
                     featured := f.featured)
  }

  /** Everything an insertion needs: valid input, a collection handle, a server. */
  predicate ProjectInserted(d: Database, serverUp: bool, f: ProjectForm) {
    ProjectCreateValid(ProjectFromForm(f)) && d.db.Some? && serverUp
  }

  /** `add_project`: every exception is caught and logged, and either way
      the answer is a 303 to the dashboard; the store changes only by the
      one validated document. */
  function AddProject(d: Database, st: Store, serverUp: bool, f: ProjectForm): (h: Handled)
    ensures h.response == Redirect303(AdminLocation)
    ensures ProjectInserted(d, serverUp, f) ==>
              h.store.projects == st.projects + [ProjectDoc(ObjectId(st.nextSerial), ProjectFromForm(f))]
    ensures !ProjectInserted(d, serverUp, f) ==> h.store == st
    ensures h.store.contacts == st.contacts
    ensures WellFormed(st) ==> WellFormed(h.store)
  {
    match ValidateProjectCreate(ProjectFromForm(f))
    case Failure(_) => Handled(st, Redirect303(AdminLocation))
    case Success(p) =>
      match GetProjectsCollection(d)
      case Failure(_) => Handled(st, Redirect303(AdminLocation))
      case Success(_) =>
        if !serverUp then Handled(st, Redirect303(AdminLocation))
        else Handled(InsertProject(st, p).0, Redirect303(AdminLocation))
  }

  /** If the handler is called with a tech stack of nothing but commas and
      whitespace, it parses to an empty list, which ProjectCreate refuses:
      nothing is inserted, and the answer is still the 303. The empty text
      itself never reaches the handler, since FastAPI answers a required
      form field sent empty with 422. */
  lemma BlankTechStackNotInserted(d: Database, st: Store, serverUp: bool, f: ProjectForm)
    requires OnlySeparatorsOrBlank(f.techStack, ',')
    ensures ParseTechStack(f.techStack) == []
    ensures AddProject(d, st, serverUp, f) == Handled(st, Redirect303(AdminLocation))
  {
    ParseTechStackEmpty(f.techStack);
  }

  /** What gets stored: the parsed tech list, whose entries are non-empty
      and trimmed, and the URLs with "" turned into absent. */
  lemma AddProjectStoresParsedForm(d: Database, st: Store, serverUp: bool, f: ProjectForm)
    requires ProjectInserted(d, serverUp, f)
    ensures var doc := AddProject(d, st, serverUp, f).store.projects[|st.projects|];
      && doc.body.techStack == ParseTechStack(f.techStack)
      && |doc.body.techStack| >= 1
      && (forall k :: 0 <= k < |doc.body.techStack| ==>
            doc.body.techStack[k] != [] && Text.Stripped(doc.body.techStack[k]))
      && (doc.body.githubUrl.None? <==> f.githubUrl == [])
      && (doc.body.demoUrl.None? <==> f.demoUrl == [])
      && UrlText(doc.body.githubUrl) == f.githubUrl
      && UrlText(doc.body.demoUrl) == f.demoUrl
      && doc.body.imageUrl.None?
  {
    OptionalUrlRoundTrip(f.githubUrl, None);
    OptionalUrlRoundTrip(f.demoUrl, None);
  }

  // ---------------------------------------------------------------------
  // DELETE /admin/projects/{project_id}
  // ---------------------------------------------------------------------

  /** Some document of the collection has this id. */
  predicate HasProject(st: Store, id: ObjectId) {
    exists k :: 0 <= k < |st.projects| && st.projects[k].id == id
  }

  /** `delete_project`; `projectId` is `ObjectId(project_id)`, or `None`
      when the path text is not a valid ObjectId. The 404 raised on a miss
      is inside the `try`, so the generic `except` turns it into a 500. */
  function DeleteProject(d: Database, st: Store, serverUp: bool, projectId: Option<ObjectId>): (h: Handled)
    ensures h.response.Deleted? <==> d.db.Some? && serverUp && projectId.Some? && HasProject(st, projectId.value)
    ensures !h.response.Deleted? ==> h.store == st && h.response.ServerError?
    ensures h.response.Deleted? ==> |h.store.projects| == |st.projects| - 1
    ensures h.store.contacts == st.contacts
    ensures StatusCode(h.response) == 200 || StatusCode(h.response) == 500
  {
    match GetProjectsCollection(d)
    case Failure(_) => Handled(st, ServerError(CollectionUnavailable))
    case Success(_) =>
      match projectId
      case None => Handled(st, ServerError(MalformedId))
      case Some(id) =>
        if !serverUp then Handled(st, ServerError(ServerUnreachable))
        else
          var (rest, count) := DeleteOne(st.projects, id);
          if count != 0 then Handled(st.(projects := rest), Deleted)
          else Handled(st, ServerError(NotFoundRewrapped))
  }

  /** A well-formed id that matches nothing gets a 500 carrying the 404,
      never a 404. */
  lemma DeleteMissIsServerError(d: Database, st: Store, id: ObjectId)
    requires d.db.Some? && !HasProject(st, id)
    ensures DeleteProject(d, st, true, Some(id)) == Handled(st, ServerError(NotFoundRewrapped))
  {
  }

  /** A successful delete removes exactly the document with that id and
      keeps the store well formed. */
  lemma DeleteRemovesExactlyOne(d: Database, st: Store, serverUp: bool, id: ObjectId)
    requires WellFormed(st)
    requires d.db.Some? && serverUp && HasProject(st, id)
    ensures DeleteProject(d, st, serverUp, Some(id)).response == Deleted
    ensures var after := DeleteProject(d, st, serverUp, Some(id)).store;
      && after.projects == Without(st.projects, id)
      && !HasProject(after, id)
      && WellFormed(after)
  {
    var h := DeleteProject(d, st, serverUp, Some(id));
    var deleted := DeleteOne(st.projects, id);
    assert h.store == st.(projects := deleted.0);
    DeleteOneRemovesId(st.projects, id);
    DeletePreservesWellFormed(st, id);
  }

  // ---------------------------------------------------------------------
  // POST /contact
  // ---------------------------------------------------------------------

  /** The fields of the contact form, as FastAPI hands them over. */
  datatype ContactForm = ContactForm(
    firstName: string,
    lastName: string,
    email: string,
    subject: string,
    message: string,
    newsletter: bool)

  function ContactFromForm(f: ContactForm): ContactCreate {
    NewContactCreate(f.firstName, f.lastName, f.email, f.subject, f.message, newsletterSignup := f.newsletter)
  }

  /** `submit_contact`: the ContactCreate is validated first, then the
      collection is looked up and written; any exception shows the error
      page. */
  function SubmitContact(d: Database, st: Store, serverUp: bool, check: EmailCheck, f: ContactForm): (h: Handled)
    ensures h.response == SuccessPage <==> ContactCreateValid(ContactFromForm(f), check) && d.db.Some? && serverUp
    ensures h.response != SuccessPage ==> h.response == ErrorPage && h.store == st
    ensures h.response == SuccessPage ==>
              && h.store.projects == st.projects
              && |h.store.contacts| == |st.contacts| + 1
              && h.store.contacts[..|st.contacts|] == st.contacts
              && h.store.contacts[|st.contacts|].body == ContactFromForm(f).(email := check(f.email).value)
    ensures WellFormed(st) ==> WellFormed(h.store)
  {
    match ValidateContactCreate(ContactFromForm(f), check)
    case Failure(_) => Handled(st, ErrorPage)
    case Success(c) =>
      match GetContactsCollection(d)
      case Failure(_) => Handled(st, ErrorPage)
      case Success(_) =>
        if !serverUp then Handled(st, ErrorPage)
        else Handled(InsertContact(st, c).0, SuccessPage)
  }

  /** Validation comes before any store access: an invalid submission gets
      the error page and leaves the store as it was, whatever the state of
      the connection and of the server. */
  lemma InvalidContactNeverStored(d1: Database, d2: Database, st: Store, up1: bool, up2: bool,
                                  check: EmailCheck, f: ContactForm)
    requires !ContactCreateValid(ContactFromForm(f), check)
    ensures SubmitContact(d1, st, up1, check, f) == Handled(st, ErrorPage)
    ensures SubmitContact(d1, st, up1, check, f) == SubmitContact(d2, st, up2, check, f)
  {
  }

  /** If the handler is called with an empty message, it passes
      ContactCreate and is stored, even though the stored shape
      ContactMessage would refuse it. Through the form this cannot happen:
      FastAPI answers a required form field sent empty with 422 before the
      handler runs. */
  lemma EmptyMessageStored(d: Database, st: Store, check: EmailCheck, f: ContactForm, id: Option<ObjectId>)
    requires d.db.Some? && f.message == []
    requires ContactCreateValid(ContactFromForm(f), check)
    ensures SubmitContact(d, st, true, check, f).response == SuccessPage
    ensures !ContactMessageValid(MessageOf(ContactFromForm(f), id), check)
  {
  }
}

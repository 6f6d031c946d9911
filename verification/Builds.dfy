// The source checks and the generated build files of docker_service.deploy.
module Builds {
  import opened Results
  import opened Text
  import opened Trees

  datatype Runtime = NextJs | NodeJs | Django | FastApi | Flask | Php | Static | Postgres | MongoDb | Docker

  datatype AppSpec = AppSpec(runtime: Runtime, image: string, public: bool)

  // The branches of deploy: databases, static or PHP sites, ready images, and builds from source.
  datatype Kind = Database | Site | Image | Built

  predicate IsDatabase(runtime: Runtime) { runtime.Postgres? || runtime.MongoDb? }

  function KindOf(app: AppSpec): Kind {
    if IsDatabase(app.runtime) then Database
    else if app.runtime.Static? || app.runtime.Php? then Site
    else if app.runtime.Docker? && app.image != "" then Image
    else Built
  }

  // ----- validate_source -----

  datatype SourceError = NoImage | NoFiles | NoRequired(name: string)

  function Required(runtime: Runtime): Option<string> {
    match runtime
    case NextJs => Some("package.json")
    case NodeJs => Some("package.json")
    case Django => Some("requirements.txt")
    case FastApi => Some("requirements.txt")
    case Flask => Some("requirements.txt")
    case _ => None
  }

  predicate IsFile(source: Tree, name: string) { [name] in source && source[[name]].File? }

  // A top-level entry that the panel does not write itself.
  predicate UserEntry(source: Tree, name: string) {
    [name] in source && name != "Dockerfile.nova" && name != ".dockerignore"
  }

  function Validate(app: AppSpec, source: Tree): Option<SourceError> {
    if IsDatabase(app.runtime) then None
    else if app.runtime.Docker? then (if Strip(app.image) != "" then None else Some(NoImage))
    else if !exists p :: p in source && |p| == 1 && UserEntry(source, p[0]) then Some(NoFiles)
    else if ["Dockerfile"] in source then None
    else
      var required := Required(app.runtime);
      if required.Some? && !IsFile(source, required.value) then Some(NoRequired(required.value)) else None
  }

  // ----- generate_dockerfile -----

  // The texts for one application.
  datatype Templates = Templates(dockerfile: seq<bv8>, ignore: seq<bv8>)

  // A text written to a path replaces a file; a directory in the way is an error.
  function Written(source: Tree, name: string, text: seq<bv8>): Option<Tree> {
    if [name] in source && source[[name]].Dir? then None else Some(source[[name] := File(text)])
  }

  // The runtimes that have a template are those that require a file.
  function Generated(runtime: Runtime, source: Tree, files: Templates): Option<Tree> {
    if ["Dockerfile"] in source || Required(runtime).None? then Some(source)
    else
      match Written(source, "Dockerfile.nova", files.dockerfile)
      case None => None
      case Some(t) => if [".dockerignore"] in t then Some(t) else Written(t, ".dockerignore", files.ignore)
  }

  // The file named to `docker build -f`.
  function BuildFile(source: Tree): string { if ["Dockerfile"] in source then "Dockerfile" else "Dockerfile.nova" }

  /** Generated files change no verdict: a source that held nothing but them is still empty, and one that passed still
      passes, so a deploy can be repeated. */
  lemma GeneratedNeutral(app: AppSpec, source: Tree, files: Templates)
    requires Generated(app.runtime, source, files).Some?
    ensures Validate(app, Generated(app.runtime, source, files).value) == Validate(app, source)
  {}

  /** Generating again with the same texts changes nothing. */
  lemma GeneratedTwice(runtime: Runtime, source: Tree, files: Templates)
    requires Generated(runtime, source, files).Some?
    ensures var after := Generated(runtime, source, files).value;
      Generated(runtime, after, files) == Some(after)
  {
    var after := Generated(runtime, source, files).value;
    if ["Dockerfile"] !in source && Required(runtime).Some? {
      assert after[["Dockerfile.nova"] := File(files.dockerfile)] == after;
    }
  }

  /** A source that passes the check and is built has a file to build from and the file its template copies, or a
      Dockerfile of its own; user files are untouched. */
  lemma BuildHasFile(app: AppSpec, source: Tree, files: Templates)
    requires KindOf(app) == Built && Validate(app, source).None?
    ensures Generated(app.runtime, source, files).None? <==>
      ["Dockerfile"] !in source && ["Dockerfile.nova"] in source && source[["Dockerfile.nova"]].Dir?
    ensures Generated(app.runtime, source, files).Some? ==>
      var after := Generated(app.runtime, source, files).value;
      && [BuildFile(after)] in after
      && (["Dockerfile"] in source || (IsFile(after, "Dockerfile.nova") && IsFile(after, Required(app.runtime).value)))
      && (forall p :: p in source && p != ["Dockerfile.nova"] ==> p in after && after[p] == source[p])
      && (forall p :: p in after && p !in source ==> p == ["Dockerfile.nova"] || p == [".dockerignore"])
      && (["Dockerfile"] !in source ==>
          && after[["Dockerfile.nova"]] == File(files.dockerfile) && [".dockerignore"] in after
          && ([".dockerignore"] !in source ==> after[[".dockerignore"]] == File(files.ignore)))
  {}

  /** Of applications that pass, those with a required file are built, and those of type docker run a ready image. */
  lemma OnlySourcesAreBuilt(app: AppSpec, source: Tree)
    requires Validate(app, source).None?
    ensures KindOf(app) == Built <==> Required(app.runtime).Some?
    ensures KindOf(app) == Image <==> app.runtime.Docker?
    ensures KindOf(app) == Database <==> app.runtime in {Postgres, MongoDb}
    ensures KindOf(app) == Site <==> app.runtime in {Static, Php}
  {}

  // The source after a deploy that gets past its build step.
  function Prepared(app: AppSpec, source: Tree, files: Templates): Option<Tree> {
    if KindOf(app).Built? then Generated(app.runtime, source, files) else Some(source)
  }

  lemma PreparedNeutral(app: AppSpec, source: Tree, files: Templates)
    ensures Prepared(app, source, files).Some? ==>
      Validate(app, Prepared(app, source, files).value) == Validate(app, source)
  {
    hide Validate, Generated;
    if Generated(app.runtime, source, files).Some? { GeneratedNeutral(app, source, files); }
  }

  /** The Node runtimes need a package.json, the Python ones a requirements.txt, the others no file. */
  lemma RequiredExact(runtime: Runtime)
    ensures Required(runtime) == Some("package.json") <==> runtime in {NextJs, NodeJs}
    ensures Required(runtime) == Some("requirements.txt") <==> runtime in {Django, FastApi, Flask}
    ensures Required(runtime).None? <==> runtime in {Php, Static, Postgres, MongoDb, Docker}
  {}

  // Nothing but what the panel writes itself stands at the top of the source.
  ghost predicate NoUserFiles(source: Tree) {
    forall name :: [name] in source ==> name == "Dockerfile.nova" || name == ".dockerignore"
  }

  /** Why a source is refused: databases never; a ready image when its name is blank; any other application without
      files of its own; and one with such files, without a Dockerfile, and without the file its runtime needs. */
  lemma ValidateExact(app: AppSpec, source: Tree)
    ensures Validate(app, source) == Some(NoImage) <==> app.runtime.Docker? && Strip(app.image) == ""
    ensures Validate(app, source) == Some(NoFiles) <==>
      !IsDatabase(app.runtime) && !app.runtime.Docker? && NoUserFiles(source)
    ensures forall name :: Validate(app, source) == Some(NoRequired(name)) <==>
      && !NoUserFiles(source) && ["Dockerfile"] !in source
      && Required(app.runtime) == Some(name) && !IsFile(source, name)
  {
    if p :| p in source && |p| == 1 && UserEntry(source, p[0]) {
      assert [p[0]] == p;
    }
    if name :| [name] in source && name != "Dockerfile.nova" && name != ".dockerignore" {
      assert [name][0] == name && UserEntry(source, [name][0]);
    }
  }
}

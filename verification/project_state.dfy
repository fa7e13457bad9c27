/** The state of one project: what the solution says about it, what its
    project file's `PropertyGroup` elements set, and what its `ItemGroup`
    elements list, with the defaults a new project starts from. */
module ProjectState {
  import opened Wrappers
  import opened Types

  /** The settings that `PropertyGroup` elements write. `repositoryUrl` is
      the URL text, kept opaque; `targetFrameworks` is the last
      `TargetFramework`/`TargetFrameworks` text seen, from which the framework
      list is decoded. */
  datatype BuildProperties = BuildProperties(
    outputType: string,
    useWpf: bool,
    useWindowsForms: bool,
    languageVersion: string,
    isNullable: bool,
    neutralLanguage: string,
    isTreatWarningsAsErrors: bool,
    version: string,
    assemblyVersion: string,
    fileVersion: string,
    author: string,
    description: string,
    copyright: string,
    repositoryUrl: Option<string>,
    targetFrameworks: string)

  /** One project of a solution. */
  datatype Project = Project(
    projectName: string,
    relativePath: string,
    projectGuid: string,
    projectType: ProjectType,
    extension: string,
    dependencies: seq<string>,
    projectReferences: seq<string>,
    parentProjectGuid: string,
    projectConfigurations: seq<Configuration>,
    dependencyLevel: int,
    isStaticLibrary: bool,
    sdkType: SdkType,
    props: BuildProperties,
    applicationIcon: string,
    nullable: NullableAnnotation,
    isTestProject: bool,
    isNotPackable: bool,
    isEditorConfigLinked: bool,
    frameworkList: seq<Framework>,
    packageReferenceList: seq<PackageReference>)

  /** Every setting at its initial value: empty text, flags off, no URL. */
  const EmptyProperties: BuildProperties :=
    BuildProperties("", false, false, "", false, "", false, "", "", "", "", "", "", Option.None, "")

  /** A project before anything is known about it: empty text and lists,
      flags off, and every enumeration at its first member. */
  const EmptyProject: Project :=
    Project("", "", "", ProjectType.Unknown, "", [], [], "", [], 0, false, SdkType.Unknown,
            EmptyProperties, "", NullableAnnotation.None, false, false, false, [], [])

  /** `HasVersion`: a `Version` was given. */
  predicate HasVersion(p: Project) {
    |p.props.version| > 0
  }

  /** `IsAssemblyVersionValid`: an `AssemblyVersion` was given. */
  predicate IsAssemblyVersionValid(p: Project) {
    |p.props.assemblyVersion| > 0
  }

  /** `IsFileVersionValid`: a `FileVersion` was given. */
  predicate IsFileVersionValid(p: Project) {
    |p.props.fileVersion| > 0
  }

  /** `HasRepositoryUrl`: a `RepositoryUrl` was given. */
  predicate HasRepositoryUrl(p: Project) {
    p.props.repositoryUrl.Some?
  }

  /** `HasTargetFrameworks`: at least one target framework was decoded. */
  predicate HasTargetFrameworks(p: Project) {
    |p.frameworkList| > 0
  }
}

/** Building a project from the solution's record of it: the fields copied
    verbatim, the project-type tag lookup, the copied dependency lists, the
    parent GUID default and the "configuration|platform" keys. */
module ProjectInit {
  import opened Wrappers
  import opened Text
  import opened Types
  import opened Sequences
  import opened ProjectState

  /** What the solution file records about one project. `projectTypeTag` is
      the name of the solution's own project-type value; `parentProjectGuid`
      is `None` when the solution gives none; each configuration entry pairs
      a "configuration|platform" key with `None` for a null value, otherwise
      with whether that configuration is included in the build. */
  datatype SolutionProject = SolutionProject(
    projectName: string,
    relativePath: string,
    projectGuid: string,
    projectTypeTag: string,
    extension: string,
    dependencies: seq<string>,
    projectReferences: seq<string>,
    parentProjectGuid: Option<string>,
    projectConfigurations: seq<(string, Option<bool>)>,
    dependencyLevel: int,
    isStaticLibrary: bool)

  /** The name of a project type, as `ToString()` gives it. */
  function ProjectTypeName(t: ProjectType): string {
    match t
    case Unknown => "Unknown"
    case Library => "Library"
    case Console => "Console"
    case WinExe => "WinExe"
    case KnownToBeMSBuildFormat => "KnownToBeMSBuildFormat"
    case SolutionFolder => "SolutionFolder"
    case WebProject => "WebProject"
    case WebDeploymentProject => "WebDeploymentProject"
    case EtpSubProject => "EtpSubProject"
    case SharedProject => "SharedProject"
    case Invalid => "Invalid"
  }

  /** The project types a solution tag can name. */
  predicate IsSolutionTag(t: ProjectType) {
    t.Unknown? || t.KnownToBeMSBuildFormat? || t.SolutionFolder? || t.WebProject? ||
    t.WebDeploymentProject? || t.EtpSubProject?
  }

  /** `InitProjectType`: the six tags a solution uses map to the type of the
      same name; every other tag, `SharedProject` included, to `Invalid`. */
  function InitProjectType(tag: string): (r: ProjectType)
    ensures r != Invalid ==> IsSolutionTag(r) && ProjectTypeName(r) == tag
    ensures r == Invalid ==> forall t :: IsSolutionTag(t) ==> ProjectTypeName(t) != tag
  {
    match tag
    case "Unknown" => ProjectType.Unknown
    case "KnownToBeMSBuildFormat" => KnownToBeMSBuildFormat
    case "SolutionFolder" => SolutionFolder
    case "WebProject" => WebProject
    case "WebDeploymentProject" => WebDeploymentProject
    case "EtpSubProject" => EtpSubProject
    case _ => Invalid
  }

  /** Every solution tag is read back as the type it names. */
  lemma {:induction false} InitProjectTypeRoundTrip(t: ProjectType)
    requires IsSolutionTag(t)
    ensures InitProjectType(ProjectTypeName(t)) == t
  {
  }

  /** A tag naming a type the solution never uses is invalid. */
  lemma {:induction false} InitProjectTypeOthers(t: ProjectType)
    requires !IsSolutionTag(t)
    ensures InitProjectType(ProjectTypeName(t)) == Invalid
  {
  }

  /** The configuration one entry of the solution's map stands for: the key's
      first two `|`-separated parts, when there are at least two and the
      value is not null. */
  function ConfigurationOf(entry: (string, Option<bool>)): (r: Option<Configuration>)
    ensures r.Some? ==> '|' !in r.value.configurationName && '|' !in r.value.platformName
    ensures r.Some? <==> '|' in entry.0 && entry.1.Some?
  {
    var splits := Split(entry.0, '|');
    if |splits| >= 2 && entry.1.Some? then
      Some(Configuration(splits[0], splits[1], entry.1.value))
    else
      Option.None
  }

  /** `InitConfigurations`: the configurations of the entries that have one,
      in enumeration order. */
  function InitConfigurations(entries: seq<(string, Option<bool>)>): (r: seq<Configuration>)
    ensures |r| <= |entries|
    ensures forall k :: 0 <= k < |r| ==> '|' !in r[k].configurationName && '|' !in r[k].platformName
    ensures forall i :: 0 <= i < |entries| && '|' in entries[i].0 && entries[i].1.Some? ==>
              ConfigurationOf(entries[i]).value in r
    ensures forall k :: 0 <= k < |r| ==> exists i :: 0 <= i < |entries| && ConfigurationOf(entries[i]) == Some(r[k])
  {
    Values(entries, ConfigurationOf)
  }

  /** A key "configuration|platform" gives that configuration and platform;
      so does one with further `|`-separated parts, which are ignored. */
  lemma {:induction false} ConfigurationKey(configuration: string, platform: string, rest: string, inBuild: bool)
    requires '|' !in configuration && '|' !in platform
    ensures ConfigurationOf((configuration + "|" + platform, Some(inBuild))) ==
              Some(Configuration(configuration, platform, inBuild))
    ensures ConfigurationOf((configuration + "|" + platform + "|" + rest, Some(inBuild))) ==
              Some(Configuration(configuration, platform, inBuild))
  {
    SplitAtFirst(configuration, '|', platform);
    SplitNoSeparator(platform, '|');
    assert configuration + "|" + platform + "|" + rest == configuration + "|" + (platform + "|" + rest);
    SplitAtFirst(configuration, '|', platform + "|" + rest);
    SplitAtFirst(platform, '|', rest);
  }

  /** Entries are read independently: the configurations of a concatenation
      are those of each part, in order, so a skipped entry affects no other. */
  lemma {:induction false} InitConfigurationsAppend(a: seq<(string, Option<bool>)>, b: seq<(string, Option<bool>)>)
    ensures InitConfigurations(a + b) == InitConfigurations(a) + InitConfigurations(b)
  {
    ValuesAppend(a, b, ConfigurationOf);
  }

  /** The project the constructor builds: `InitBasic` copies the name, path,
      GUID, extension, dependency level and static-library flag;
      `InitProjectType` decodes the tag; `InitDependencies` copies both lists
      and defaults a missing parent GUID to ""; `InitConfigurations` reads
      the configuration map. Everything else keeps its initial value. */
  function NewProject(rec: SolutionProject): (r: Project)
    ensures r.projectName == rec.projectName && r.relativePath == rec.relativePath
    ensures r.projectGuid == rec.projectGuid && r.extension == rec.extension
    ensures r.dependencyLevel == rec.dependencyLevel && r.isStaticLibrary == rec.isStaticLibrary
    ensures r.dependencies == rec.dependencies && r.projectReferences == rec.projectReferences
    ensures rec.parentProjectGuid.None? ==> r.parentProjectGuid == ""
    ensures rec.parentProjectGuid.Some? ==> r.parentProjectGuid == rec.parentProjectGuid.value
    ensures r.projectType == InitProjectType(rec.projectTypeTag)
    ensures r.projectConfigurations == InitConfigurations(rec.projectConfigurations)
    ensures r.props == EmptyProperties && r.sdkType == SdkType.Unknown
    ensures r.frameworkList == [] && r.packageReferenceList == [] && !r.isEditorConfigLinked
  {
    EmptyProject.(
      projectName := rec.projectName,
      relativePath := rec.relativePath,
      projectGuid := rec.projectGuid,
      extension := rec.extension,
      dependencyLevel := rec.dependencyLevel,
      isStaticLibrary := rec.isStaticLibrary,
      projectType := InitProjectType(rec.projectTypeTag),
      dependencies := rec.dependencies,
      projectReferences := rec.projectReferences,
      parentProjectGuid := rec.parentProjectGuid.GetOr(""),
      projectConfigurations := InitConfigurations(rec.projectConfigurations))
  }

  /** A freshly built project has no version, no repository URL and no
      target framework, whatever the solution says. */
  lemma {:induction false} NewProjectDefaults(rec: SolutionProject)
    ensures var p := NewProject(rec);
      !HasVersion(p) && !IsAssemblyVersionValid(p) && !IsFileVersionValid(p) &&
      !HasRepositoryUrl(p) && !HasTargetFrameworks(p) &&
      p.sdkType == SdkType.Unknown && p.nullable == NullableAnnotation.None &&
      p.applicationIcon == "" && !p.isTestProject && !p.isNotPackable && p.packageReferenceList == []
  {
  }
}

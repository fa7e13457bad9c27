/** Reading a project file's element tree into a project: the root `Sdk`
    attribute, every `PropertyGroup` in document order, the target framework
    list, and every `ItemGroup` in document order. */
module ProjectParse {
  import opened Wrappers
  import opened Text
  import opened Xml
  import opened Types
  import opened Sequences
  import opened FrameworkDecoder
  import opened ProjectState

  // ---------------------------------------------------------------------------
  // Root attributes
  // ---------------------------------------------------------------------------

  const SdkAttributeValue: string := "Microsoft.NET.Sdk"
  const WindowsDesktopAttributeValue: string := "Microsoft.NET.Sdk.WindowsDesktop"

  /** The SDK a root attribute selects: only an attribute named `Sdk` whose
      value is exactly one of the two known SDK names selects one. */
  function SdkOf(attr: (string, string)): (r: Option<SdkType>)
    ensures r == Some(SdkType.Sdk) <==> attr == ("Sdk", SdkAttributeValue)
    ensures r == Some(WindowsDesktop) <==> attr == ("Sdk", WindowsDesktopAttributeValue)
    ensures r != Some(SdkType.Unknown)
  {
    if attr.0 == "Sdk" then
      if attr.1 == SdkAttributeValue then Some(SdkType.Sdk)
      else if attr.1 == WindowsDesktopAttributeValue then Some(WindowsDesktop)
      else Option.None
    else Option.None
  }

  /** `ParseProjectAttribute`: a recognised `Sdk` attribute sets the SDK type;
      any other attribute leaves it as it was. */
  function ParseProjectAttribute(sdk: SdkType, attr: (string, string)): (r: SdkType)
    ensures attr.0 != "Sdk" ==> r == sdk
    ensures r != sdk ==> attr.0 == "Sdk" && SdkOf(attr) == Some(r)
  {
    match SdkOf(attr)
    case Some(t) => t
    case None => sdk
  }

  /** The loop over the root's attributes, in document order. */
  function ParseProjectAttributes(sdk: SdkType, attrs: seq<(string, string)>): (r: SdkType)
    ensures r != sdk ==> exists i :: 0 <= i < |attrs| && SdkOf(attrs[i]) == Some(r)
  {
    if |attrs| == 0 then sdk
    else ParseProjectAttribute(ParseProjectAttributes(sdk, attrs[..|attrs| - 1]), attrs[|attrs| - 1])
  }

  // ---------------------------------------------------------------------------
  // One PropertyGroup
  // ---------------------------------------------------------------------------

  /** The text of the group's first child element called `name`, if it has one. */
  function ElementValue(g: Node, name: string): Option<string> {
    match Element(g, name)
    case Some(e) => Some(e.value)
    case None => Option.None
  }

  /** A flag element: when present, whether its text, upper-cased, is `word`. */
  function FlagValue(g: Node, name: string, word: string): Option<bool> {
    match ElementValue(g, name)
    case Some(v) => Some(ToUpper(v) == word)
    case None => Option.None
  }

  // What each group says about each setting: `None` when it does not mention it.

  function OutputTypeOf(g: Node): Option<string> { ElementValue(g, "OutputType") }
  function UseWpfOf(g: Node): Option<bool> { FlagValue(g, "UseWPF", "TRUE") }
  function UseWindowsFormsOf(g: Node): Option<bool> { FlagValue(g, "UseWindowsForms", "TRUE") }
  function LanguageVersionOf(g: Node): Option<string> { ElementValue(g, "LangVersion") }
  function IsNullableOf(g: Node): Option<bool> { FlagValue(g, "Nullable", "ENABLE") }
  function NeutralLanguageOf(g: Node): Option<string> { ElementValue(g, "NeutralLanguage") }
  function TreatWarningsAsErrorsOf(g: Node): Option<bool> { FlagValue(g, "TreatWarningsAsErrors", "TRUE") }
  function VersionOf(g: Node): Option<string> { ElementValue(g, "Version") }
  function AssemblyVersionOf(g: Node): Option<string> { ElementValue(g, "AssemblyVersion") }
  function FileVersionOf(g: Node): Option<string> { ElementValue(g, "FileVersion") }
  function AuthorOf(g: Node): Option<string> { ElementValue(g, "Authors") }
  function DescriptionOf(g: Node): Option<string> { ElementValue(g, "Description") }
  function CopyrightOf(g: Node): Option<string> { ElementValue(g, "Copyright") }

  /** A `RepositoryUrl` element sets the URL (to a present value). */
  function RepositoryUrlOf(g: Node): (r: Option<Option<string>>)
    ensures r.Some? ==> r.value.Some?
  {
    match ElementValue(g, "RepositoryUrl")
    case Some(u) => Some(Some(u))
    case None => Option.None
  }

  /** The framework text a group sets: `TargetFramework` when the group has
      one, otherwise `TargetFrameworks` when it has that. */
  function TargetFrameworksOf(g: Node): Option<string> {
    match ElementValue(g, "TargetFramework")
    case Some(v) => Some(v)
    case None => ElementValue(g, "TargetFrameworks")
  }

  /** The project type an output type gives: empty or `Library` gives
      `Library`, `WinExe` gives `WinExe`, `Exe` gives `WinExe` for a WPF or
      Windows Forms project and `Console` otherwise; any other text gives
      nothing (`Unknown`). */
  function Classify(outputType: string, useWpf: bool, useWindowsForms: bool): (r: ProjectType)
    ensures r in {ProjectType.Unknown, Library, WinExe, Console}
    ensures r == ProjectType.Unknown <==> outputType !in {"", "Library", "WinExe", "Exe"}
    ensures r == Library <==> outputType in {"", "Library"}
    ensures r == WinExe <==> outputType == "WinExe" || (outputType == "Exe" && (useWpf || useWindowsForms))
    ensures r == Console <==> outputType == "Exe" && !useWpf && !useWindowsForms
  {
    if |outputType| == 0 || outputType == "Library" then Library
    else if outputType == "WinExe" then WinExe
    else if outputType == "Exe" then (if useWpf || useWindowsForms then WinExe else Console)
    else ProjectType.Unknown
  }

  /** `ParseProjectElementOutputType`: read `OutputType`, `UseWPF` and
      `UseWindowsForms`, then classify a project whose type is still
      `Unknown` from the values as they now stand. */
  function ParseProjectElementOutputType(t: ProjectType, props: BuildProperties, g: Node): (r: (ProjectType, BuildProperties))
    ensures t != ProjectType.Unknown ==> r.0 == t
    ensures t == ProjectType.Unknown ==> r.0 == Classify(r.1.outputType, r.1.useWpf, r.1.useWindowsForms)
    ensures r.1 == props.(outputType := r.1.outputType, useWpf := r.1.useWpf, useWindowsForms := r.1.useWindowsForms)
  {
    var props' := props.(
      outputType := OutputTypeOf(g).GetOr(props.outputType),
      useWpf := UseWpfOf(g).GetOr(props.useWpf),
      useWindowsForms := UseWindowsFormsOf(g).GetOr(props.useWindowsForms));
    var t' := if t == ProjectType.Unknown then Classify(props'.outputType, props'.useWpf, props'.useWindowsForms) else t;
    (t', props')
  }

  /** `ParseProjectElementOptions`: language version, nullable flag, neutral
      language, warnings-as-errors flag. */
  function ParseProjectElementOptions(props: BuildProperties, g: Node): (r: BuildProperties)
    ensures r == props.(languageVersion := r.languageVersion, isNullable := r.isNullable,
                        neutralLanguage := r.neutralLanguage, isTreatWarningsAsErrors := r.isTreatWarningsAsErrors)
  {
    props.(
      languageVersion := LanguageVersionOf(g).GetOr(props.languageVersion),
      isNullable := IsNullableOf(g).GetOr(props.isNullable),
      neutralLanguage := NeutralLanguageOf(g).GetOr(props.neutralLanguage),
      isTreatWarningsAsErrors := TreatWarningsAsErrorsOf(g).GetOr(props.isTreatWarningsAsErrors))
  }

  /** `ParseProjectElementVersion`: the three version texts. */
  function ParseProjectElementVersion(props: BuildProperties, g: Node): (r: BuildProperties)
    ensures r == props.(version := r.version, assemblyVersion := r.assemblyVersion, fileVersion := r.fileVersion)
  {
    props.(
      version := VersionOf(g).GetOr(props.version),
      assemblyVersion := AssemblyVersionOf(g).GetOr(props.assemblyVersion),
      fileVersion := FileVersionOf(g).GetOr(props.fileVersion))
  }

  /** `ParseProjectElementInfo`: author, description, copyright, repository URL. */
  function ParseProjectElementInfo(props: BuildProperties, g: Node): (r: BuildProperties)
    ensures r == props.(author := r.author, description := r.description, copyright := r.copyright,
                        repositoryUrl := r.repositoryUrl)
  {
    props.(
      author := AuthorOf(g).GetOr(props.author),
      description := DescriptionOf(g).GetOr(props.description),
      copyright := CopyrightOf(g).GetOr(props.copyright),
      repositoryUrl := RepositoryUrlOf(g).GetOr(props.repositoryUrl))
  }

  /** `ParseProjectElementFrameworks`: the framework text. */
  function ParseProjectElementFrameworks(props: BuildProperties, g: Node): (r: BuildProperties)
    ensures r == props.(targetFrameworks := r.targetFrameworks)
  {
    props.(targetFrameworks := TargetFrameworksOf(g).GetOr(props.targetFrameworks))
  }

  /** The settings after one group: each element present in the group
      overwrites its setting, each absent one leaves it. */
  function ApplyProperties(props: BuildProperties, g: Node): BuildProperties {
    BuildProperties(
      outputType := OutputTypeOf(g).GetOr(props.outputType),
      useWpf := UseWpfOf(g).GetOr(props.useWpf),
      useWindowsForms := UseWindowsFormsOf(g).GetOr(props.useWindowsForms),
      languageVersion := LanguageVersionOf(g).GetOr(props.languageVersion),
      isNullable := IsNullableOf(g).GetOr(props.isNullable),
      neutralLanguage := NeutralLanguageOf(g).GetOr(props.neutralLanguage),
      isTreatWarningsAsErrors := TreatWarningsAsErrorsOf(g).GetOr(props.isTreatWarningsAsErrors),
      version := VersionOf(g).GetOr(props.version),
      assemblyVersion := AssemblyVersionOf(g).GetOr(props.assemblyVersion),
      fileVersion := FileVersionOf(g).GetOr(props.fileVersion),
      author := AuthorOf(g).GetOr(props.author),
      description := DescriptionOf(g).GetOr(props.description),
      copyright := CopyrightOf(g).GetOr(props.copyright),
      repositoryUrl := RepositoryUrlOf(g).GetOr(props.repositoryUrl),
      targetFrameworks := TargetFrameworksOf(g).GetOr(props.targetFrameworks))
  }

  /** `ParseProjectPropertyGroup`: the five readers above in order. Only the
      project type and the settings change, so the reader works on those two. */
  function ParseProjectPropertyGroup(t: ProjectType, props: BuildProperties, g: Node): (r: (ProjectType, BuildProperties))
    ensures r.1 == ApplyProperties(props, g)
    ensures t != ProjectType.Unknown ==> r.0 == t
    ensures t == ProjectType.Unknown ==> r.0 == Classify(r.1.outputType, r.1.useWpf, r.1.useWindowsForms)
  {
    var (t', props1) := ParseProjectElementOutputType(t, props, g);
    var props2 := ParseProjectElementOptions(props1, g);
    var props3 := ParseProjectElementVersion(props2, g);
    var props4 := ParseProjectElementInfo(props3, g);
    var props5 := ParseProjectElementFrameworks(props4, g);
    (t', props5)
  }

  /** The loop over the `PropertyGroup` elements: all but the last, then the last. */
  function ParseProjectPropertyGroups(t: ProjectType, props: BuildProperties, gs: seq<Node>): (r: (ProjectType, BuildProperties))
    ensures t != ProjectType.Unknown ==> r.0 == t
  {
    if |gs| == 0 then (t, props)
    else
      var (t', props') := ParseProjectPropertyGroups(t, props, gs[..|gs| - 1]);
      ParseProjectPropertyGroup(t', props', gs[|gs| - 1])
  }

  /** `ParseTargetFrameworks` as the caller guards it: an empty framework text
      gives an empty list; the list is always built afresh. */
  function FrameworkListOf(targetFrameworks: string): (r: seq<Framework>)
    ensures |targetFrameworks| == 0 ==> r == []
    ensures forall f :: f in r ==> ParseTargetFramework(f.name) == Some(f)
    ensures |targetFrameworks| > 0 ==>
              forall i :: 0 <= i < |Split(targetFrameworks, ';')| && ParseTargetFramework(Split(targetFrameworks, ';')[i]).Some? ==>
                ParseTargetFramework(Split(targetFrameworks, ';')[i]).value in r
  {
    if |targetFrameworks| > 0 then ParseTargetFrameworks(targetFrameworks) else []
  }

  // ---------------------------------------------------------------------------
  // One ItemGroup
  // ---------------------------------------------------------------------------

  const EditorConfig: string := ".editorconfig"

  /** Some `Include` attribute names a file ending in ".editorconfig". */
  predicate IncludesEditorConfig(attrs: seq<(string, string)>) {
    exists i :: 0 <= i < |attrs| && attrs[i].0 == "Include" && EndsWith(attrs[i].1, EditorConfig)
  }

  /** Some `Link` attribute is exactly ".editorconfig". */
  predicate LinksToEditorConfig(attrs: seq<(string, string)>) {
    exists i :: 0 <= i < |attrs| && attrs[i] == ("Link", EditorConfig)
  }

  /** `ParseProjectElementEditorConfigLink`: the group's first `None` element
      both includes an .editorconfig file and links it as ".editorconfig". */
  function LinksEditorConfig(g: Node): (r: bool)
    ensures r ==> Element(g, "None").Some?
    ensures r <==> Element(g, "None").Some? && IncludesEditorConfig(Element(g, "None").value.attrs)
                                            && LinksToEditorConfig(Element(g, "None").value.attrs)
  {
    match Element(g, "None")
    case Some(n) => IncludesEditorConfig(n.attrs) && LinksToEditorConfig(n.attrs)
    case None => false
  }

  /** `ParseProjectElementPackageReference`: the group's first
      `PackageReference` element, when its `Include` and `Version` are both
      non-empty; the condition is "" when absent. */
  function PackageReferenceOf(g: Node): (r: Option<PackageReference>)
    ensures r.Some? <==> Element(g, "PackageReference").Some? &&
                         |AttrValue(Element(g, "PackageReference").value.attrs, "Include")| > 0 &&
                         |AttrValue(Element(g, "PackageReference").value.attrs, "Version")| > 0
    ensures r.Some? ==> var attrs := Element(g, "PackageReference").value.attrs;
              r.value == PackageReference(AttrValue(attrs, "Include"), AttrValue(attrs, "Version"), AttrValue(attrs, "Condition"))
    ensures r.Some? ==> var attrs := Element(g, "PackageReference").value.attrs;
              ("Include", r.value.name) in attrs && ("Version", r.value.version) in attrs &&
              (r.value.condition == "" || ("Condition", r.value.condition) in attrs)
  {
    match Element(g, "PackageReference")
    case Some(e) =>
      var name := AttrValue(e.attrs, "Include");
      var version := AttrValue(e.attrs, "Version");
      var condition := AttrValue(e.attrs, "Condition");
      if |name| > 0 && |version| > 0 then Some(PackageReference(name, version, condition)) else Option.None
    case None => Option.None
  }

  /** `ParseProjectElementProjectReference`: the file name, without directory
      or extension, of the group's first `ProjectReference` element, when its
      `Include` is non-empty. */
  function ProjectReferenceOf(g: Node): (r: Option<string>)
    ensures r.Some? <==> Element(g, "ProjectReference").Some? &&
                         |AttrValue(Element(g, "ProjectReference").value.attrs, "Include")| > 0
    ensures r.Some? ==> r.value == FileNameWithoutExtension(AttrValue(Element(g, "ProjectReference").value.attrs, "Include"))
    ensures r.Some? ==> exists path :: ("Include", path) in Element(g, "ProjectReference").value.attrs &&
                                     r.value == FileNameWithoutExtension(path)
  {
    match Element(g, "ProjectReference")
    case Some(e) =>
      var path := AttrValue(e.attrs, "Include");
      if |path| > 0 then Some(FileNameWithoutExtension(path)) else Option.None
    case None => Option.None
  }

  /** `name` added at the end unless it is already there. */
  function AddUnique(names: seq<string>, name: string): (r: seq<string>)
    ensures NoDuplicates(names) ==> NoDuplicates(r)
    ensures name in r && names <= r
    ensures forall x :: x in r <==> x in names || x == name
  {
    if name in names then names else names + [name]
  }

  /** What the `ItemGroup` loop accumulates. */
  datatype ItemScan = ItemScan(linked: bool, packages: seq<PackageReference>, references: seq<string>)

  /** `ParseProjectItemGroup`: the editor-config flag only ever turns on; a
      package reference is appended; a project reference is appended unless
      already listed. */
  function ParseProjectItemGroup(s: ItemScan, g: Node): (r: ItemScan)
    ensures s.linked ==> r.linked
    ensures s.packages <= r.packages && |r.packages| <= |s.packages| + 1
    ensures s.references <= r.references
  {
    ItemScan(
      s.linked || LinksEditorConfig(g),
      s.packages + (match PackageReferenceOf(g) case Some(pr) => [pr] case None => []),
      match ProjectReferenceOf(g) case Some(n) => AddUnique(s.references, n) case None => s.references)
  }

  /** The loop over the `ItemGroup` elements: all but the last, then the last. */
  function ParseProjectItemGroups(s: ItemScan, gs: seq<Node>): (r: ItemScan)
    ensures NoDuplicates(s.references) ==> NoDuplicates(r.references)
    ensures s.references <= r.references && s.packages <= r.packages
    ensures s.linked ==> r.linked
  {
    if |gs| == 0 then s
    else ParseProjectItemGroup(ParseProjectItemGroups(s, gs[..|gs| - 1]), gs[|gs| - 1])
  }

  // ---------------------------------------------------------------------------
  // The whole file
  // ---------------------------------------------------------------------------

  /** Every `PropertyGroup` element of the tree, in document order. */
  function PropertyGroups(root: Node): seq<Node> {
    Named(Descendants(root), "PropertyGroup")
  }

  /** Every `ItemGroup` element of the tree, in document order. */
  function ItemGroups(root: Node): seq<Node> {
    Named(Descendants(root), "ItemGroup")
  }

  /** `ParseProjectElements` on the tree of a project file (what `LoadDetails`
      reads): the root attributes, then the property groups, then the
      framework list built from the final framework text, then the item
      groups, whose package and project references replace the old lists. */
  function ParseProjectElements(p: Project, root: Node): (r: Project)
    ensures r.projectName == p.projectName && r.relativePath == p.relativePath && r.projectGuid == p.projectGuid
    ensures r.extension == p.extension && r.dependencies == p.dependencies
    ensures r.parentProjectGuid == p.parentProjectGuid && r.projectConfigurations == p.projectConfigurations
    ensures r.dependencyLevel == p.dependencyLevel && r.isStaticLibrary == p.isStaticLibrary
    ensures r.applicationIcon == p.applicationIcon && r.nullable == p.nullable
    ensures r.isTestProject == p.isTestProject && r.isNotPackable == p.isNotPackable
    ensures p.projectType != ProjectType.Unknown ==> r.projectType == p.projectType
    ensures p.isEditorConfigLinked ==> r.isEditorConfigLinked
    ensures NoDuplicates(r.projectReferences)
    ensures forall pr :: pr in r.packageReferenceList ==> |pr.name| > 0 && |pr.version| > 0
  {
    var sdk := ParseProjectAttributes(p.sdkType, root.attrs);
    var (t, props) := ParseProjectPropertyGroups(p.projectType, p.props, PropertyGroups(root));
    var frameworks := FrameworkListOf(props.targetFrameworks);
    var items := ParseProjectItemGroups(ItemScan(p.isEditorConfigLinked, [], []), ItemGroups(root));
    PackagesValid(ItemScan(p.isEditorConfigLinked, [], []), ItemGroups(root));
    p.(sdkType := sdk,
       projectType := t,
       props := props,
       frameworkList := frameworks,
       isEditorConfigLinked := items.linked,
       packageReferenceList := items.packages,
       projectReferences := items.references)
  }

  /** Every package reference the loop appends has a name and a version. */
  lemma {:induction false} PackagesValid(s: ItemScan, gs: seq<Node>)
    requires forall pr :: pr in s.packages ==> |pr.name| > 0 && |pr.version| > 0
    ensures forall pr :: pr in ParseProjectItemGroups(s, gs).packages ==> |pr.name| > 0 && |pr.version| > 0
  {
    if |gs| > 0 {
      PackagesValid(s, gs[..|gs| - 1]);
    }
  }
}

# Solution explorer project model

A Dafny model of the `Project` class of VisualStudioSolutionExplorer. That
class reads a Visual Studio project file and records what it declares: the
SDK, the output type, the version texts, the target frameworks and the
package and project references. The model also covers how a project is
built from its solution entry, and the version consistency check.

The modules follow the C# partial class:

- `Types` holds the enumerations and the `Framework`, `PackageReference` and
  `Configuration` records.
- `ProjectState` holds the `Project` record, its defaults and the derived
  predicates (`HasVersion`, `HasRepositoryUrl`, `HasTargetFrameworks`, …).
  The settings a `PropertyGroup` writes are grouped in one `BuildProperties`
  value.
- `ProjectInit` models the constructor from a solution record: `InitBasic`,
  `InitProjectType`, `InitDependencies` and `InitConfigurations`.
- `ProjectParse` models `ParseProjectElements` on an already-parsed element
  tree. It covers:
  - the root `Sdk` attribute;
  - the five `PropertyGroup` readers;
  - the framework list;
  - the three `ItemGroup` readers.
- `FrameworkDecoder` models `ParseTargetFrameworks`, `ParseTargetFramework`
  and `ParseNetVersion`: moniker suffixes, the `netstandard`, `netcoreapp`
  and `net` families, and dotted or compact versions.
- `VersionCheck` models `IsVersionCompatible` and `CheckVersionConsistency`.
- `ParseLemmas` states what a whole reading guarantees, each time against
  an independent reference:
  - the SDK is the last recognised `Sdk` attribute;
  - each setting is what its last mentioning group wrote (`Overridden`);
  - the project type is the first stage that classifies (`Stages`, `FirstKnown`);
  - the package list is the per-group values in document order (`Values`);
  - the project-reference list is the first occurrence of each referenced
    name, in document order (`Dedup` of `Values`);
  - reading a file twice gives what reading it once gives.
- Shared modules:
  - `Text`: split/join, digits and `int.TryParse`, ASCII upper-casing, file names;
  - `Xml`: element trees, `Descendants` (with the structural `Below`), `Element`, attribute lookup;
  - `Sequences`: the last-writer-wins fold `LastOf`, the filter-map `Values`
    and the first-occurrence filter `Dedup`;
  - `Wrappers`: `Option`.

Each C# loop that updates a field is modelled as a fold. The fold is
defined from the end of the sequence, so "all but the last, then the last"
is its definition.

Where the code and its documentation disagree, the model follows the code:

- **Moniker suffix.** A token such as `net8.0-windows7.0` has a moniker
  version after the moniker. No moniker suffix matches it, and its version
  text `8.0-windows7.0` has two dots, so the token is dropped.
  `net481;net8.0-windows7.0` therefore gives one framework, not two
  (`FrameworkDecoder.TwoTokenExample`). Moniker versions are not decoded.
- **One reference per group.** Each `ItemGroup` contributes at most its
  first `PackageReference` and its first `ProjectReference`, because the
  code calls `Element`, not `Elements`.
- **`Nullable` setting.** The code sets a boolean from whether the
  upper-cased text is `ENABLE`. The `NullableAnnotation` property is never
  written.
- **Early `Library` classification.** A project whose type is still
  `Unknown` is classified after every group, from the values as they stand.
  A first `PropertyGroup` without `OutputType` therefore makes it a
  `Library` (the empty output type), whatever a later group says
  (`ParseLemmas.EarlyLibrary`).
- **References replaced.** Reading a project file replaces the project
  references that came from the solution.
- **`TargetFramework` first.** In one group, `TargetFramework` takes
  precedence over `TargetFrameworks`.
- **Project type is sticky.** A project type other than `Unknown` is never
  changed by reading the file.

## Model

| member | source | states |
|---|---|---|
| FrameworkDecoder.ParseNetVersion | VisualStudioSolutionExplorer/Project.Implementation.cs:206-225 | a version is accepted only if it has at least two characters and starts with a digit; a text with two or more dots is rejected; both parts lie in 0..int.MaxValue |
| FrameworkDecoder.DottedVersion | VisualStudioSolutionExplorer/Project.Implementation.cs:211-216 | "a.b" decodes exactly when both a and b parse as integers, to those integers |
| FrameworkDecoder.CompactVersion | VisualStudioSolutionExplorer/Project.Implementation.cs:217-222 | a dot-free version of two or more characters is its first digit as major and the rest as minor |
| FrameworkDecoder.VersionRoundTrip | VisualStudioSolutionExplorer/Project.Implementation.cs:206-225 | printing a major and minor as "major.minor" and decoding gives them back |
| FrameworkDecoder.ThreePartsRejected | VisualStudioSolutionExplorer/Project.Implementation.cs:211-224 | a version with three dot-separated parts is rejected |
| FrameworkDecoder.MonikerNameFacts | VisualStudioSolutionExplorer/FrameworkMoniker.cs:11-17 | moniker names are lower-case letters and name each moniker uniquely |
| FrameworkDecoder.MonikerSuffixUnique | VisualStudioSolutionExplorer/Project.Implementation.cs:180-193 | a token ends with the suffix of at most one moniker, so the scan order does not matter |
| FrameworkDecoder.StripMoniker | VisualStudioSolutionExplorer/Project.Implementation.cs:178-193 | the moniker is `none` exactly when no "-moniker" suffix matches; otherwise it is the matching one and the token is the base followed by that suffix |
| FrameworkDecoder.StripAppendedMoniker | VisualStudioSolutionExplorer/Project.Implementation.cs:180-193 | appending "-moniker" to any text is undone by the suffix scan |
| FrameworkDecoder.NoMonikerAfterDigit | VisualStudioSolutionExplorer/Project.Implementation.cs:180-193 | a token ending in a digit keeps moniker `none` and is not shortened |
| FrameworkDecoder.NetPrefixExcludesOthers | VisualStudioSolutionExplorer/Project.Implementation.cs:195-200 | text accepted under `net` starts with neither `netstandard` nor `netcoreapp` |
| FrameworkDecoder.DecodeStripped | VisualStudioSolutionExplorer/Project.Implementation.cs:195-200 | nothing decodes exactly when no family prefix accepts the text with a valid version; otherwise the family accepts it and the version is that of the text after the prefix |
| FrameworkDecoder.ParseTargetFramework | VisualStudioSolutionExplorer/Project.Implementation.cs:167-204 | a framework is produced exactly when the moniker-stripped token decodes; it keeps the token as written and the stripped moniker, its family, major and minor are those the prefix tests decode, and its family is never `None` |
| FrameworkDecoder.DecodeFormat | VisualStudioSolutionExplorer/Project.Implementation.cs:167-204 | every family prefix with a dotted version and optional moniker suffix decodes back to its family, version and moniker |
| FrameworkDecoder.CompactTwoDigits | VisualStudioSolutionExplorer/Project.Implementation.cs:217-222 | "net" followed by two digits is .NET Framework with the digits as major and minor |
| FrameworkDecoder.CompactThreeDigits | VisualStudioSolutionExplorer/Project.Implementation.cs:217-222 | "net" followed by three digits is the first digit as major and the other two as minor |
| FrameworkDecoder.ExtraDotDropped | VisualStudioSolutionExplorer/Project.Implementation.cs:199-224 | a `net` token whose version has three dot-separated parts yields no framework |
| FrameworkDecoder.MonikerVersionDropped | VisualStudioSolutionExplorer/Project.Implementation.cs:180-200 | "net8.0-windows7.0" yields no framework |
| FrameworkDecoder.ParseTargetFrameworks | VisualStudioSolutionExplorer/Project.Implementation.cs:159-165 | at most one framework per `;`-separated token; every framework comes from a `;`-free token that decodes back to it; a text without `;` is decoded as one token |
| FrameworkDecoder.DecodeTokens | VisualStudioSolutionExplorer/Project.Implementation.cs:159-165 | every listed framework comes from a token and decodes back to itself; every decodable token contributes its framework |
| FrameworkDecoder.DecodeTokensConcat | VisualStudioSolutionExplorer/Project.Implementation.cs:163-164 | tokens are decoded independently, in order |
| FrameworkDecoder.TokensDecodedInOrder | VisualStudioSolutionExplorer/Project.Implementation.cs:159-165 | for any number of `;`-free tokens joined with `;`, the list is the decodings of the tokens in source order, undecodable tokens skipped |
| FrameworkDecoder.TwoTokens | VisualStudioSolutionExplorer/Project.Implementation.cs:159-165 | a text with one ';' lists the frameworks of its two sides, in order |
| FrameworkDecoder.TwoTokenExample | VisualStudioSolutionExplorer/Project.Implementation.cs:159-204 | "net481;net8.0-windows7.0" gives the single framework .NET Framework 4.81 |
| ProjectParse.SdkOf | VisualStudioSolutionExplorer/Project.Implementation.cs:41-57 | only an `Sdk` attribute with one of the two exact SDK names selects an SDK, and never `Unknown` |
| ProjectParse.ParseProjectAttribute | VisualStudioSolutionExplorer/Project.Implementation.cs:41-57 | attributes other than `Sdk` leave the SDK unchanged; a change always comes from a recognised `Sdk` attribute |
| ProjectParse.ParseProjectAttributes | VisualStudioSolutionExplorer/Project.Implementation.cs:19-20 | the SDK changes only to one that some root attribute names |
| ParseLemmas.SdkTypeLastWins | VisualStudioSolutionExplorer/Project.Implementation.cs:19-20 | the attribute loop leaves the SDK of the last recognised `Sdk` attribute, or the starting one when there is none |
| ProjectParse.Classify | VisualStudioSolutionExplorer/Project.Implementation.cs:82-90 | the output type gives `Library`, `WinExe`, `Console` or nothing: `Library` exactly for "" and "Library"; `WinExe` exactly for "WinExe", and for "Exe" with WPF or Windows Forms; `Console` exactly for "Exe" without either; nothing for any other text |
| ProjectParse.ParseProjectElementOutputType | VisualStudioSolutionExplorer/Project.Implementation.cs:68-91 | a known project type is kept; an `Unknown` one is classified from the values after the group; only the three classifying settings change |
| ProjectParse.ParseProjectElementOptions | VisualStudioSolutionExplorer/Project.Implementation.cs:93-110 | only the language version, nullable flag, neutral language and warnings-as-errors flag change |
| ProjectParse.ParseProjectElementVersion | VisualStudioSolutionExplorer/Project.Implementation.cs:112-125 | only the three version texts change |
| ProjectParse.ParseProjectElementInfo | VisualStudioSolutionExplorer/Project.Implementation.cs:127-144 | only the author, description, copyright and repository URL change |
| ProjectParse.ParseProjectElementFrameworks | VisualStudioSolutionExplorer/Project.Implementation.cs:146-157 | only the framework text changes |
| ProjectParse.ParseProjectPropertyGroups | VisualStudioSolutionExplorer/Project.Implementation.cs:22-23 | once the project type is known, no later property group changes it |
| ProjectParse.ParseProjectPropertyGroup | VisualStudioSolutionExplorer/Project.Implementation.cs:59-66 | the five readers together overwrite each setting whose element is present and keep the others; the project type changes only from `Unknown`, to the classification after the group |
| ParseLemmas.FlagValueAnyCase | VisualStudioSolutionExplorer/Project.Implementation.cs:74-80 | a flag is read exactly when its element is present, and is on exactly when the text spells the word in any letter case |
| ParseLemmas.UseWpfAnyCase | VisualStudioSolutionExplorer/Project.Implementation.cs:74-76 | `UseWPF` is on for every case spelling of "true" |
| ParseLemmas.NullableAnyCase | VisualStudioSolutionExplorer/Project.Implementation.cs:99-101 | the nullable flag is on for every case spelling of "enable" |
| ParseLemmas.OverriddenSnoc | VisualStudioSolutionExplorer/Project.Implementation.cs:59-66 | one more group moves the field-wise last-writer reference exactly as the group reader moves the settings |
| ParseLemmas.PropertiesLastWriterWins | VisualStudioSolutionExplorer/Project.Implementation.cs:22-23 | after the group loop each setting is what the last group mentioning it wrote, or its value before when no group does |
| ParseLemmas.FrameworkTextPrecedence | VisualStudioSolutionExplorer/Project.Implementation.cs:146-157 | within one group `TargetFramework` wins over `TargetFrameworks`; with neither the framework text is kept |
| ParseLemmas.ClassifyingSettings | VisualStudioSolutionExplorer/Project.Implementation.cs:68-80 | the output type and the two UI flags are those of their last mentioning groups |
| ParseLemmas.OverriddenIdempotent | VisualStudioSolutionExplorer/Project.Implementation.cs:22-23 | replaying the same groups over their own result changes no setting |
| ParseLemmas.ProjectTypeStep | VisualStudioSolutionExplorer/Project.Implementation.cs:82-90 | after one more group an `Unknown` project takes the classification of the settings as they now stand; any other type is kept |
| ParseLemmas.ProjectTypeIsFirstKnown | VisualStudioSolutionExplorer/Project.Implementation.cs:22-23 | an `Unknown` project ends with the first stage-by-stage classification that is not `Unknown` |
| ParseLemmas.ProjectTypeFirstClassifyingGroup | VisualStudioSolutionExplorer/Project.Implementation.cs:82-90 | an `Unknown` project stays `Unknown` exactly when no stage classifies, and otherwise takes the type of the first stage that does |
| ParseLemmas.EarlyLibrary | VisualStudioSolutionExplorer/Project.Implementation.cs:84-85 | a first group without `OutputType` makes a project with no output type a `Library`, whatever later groups say |
| ParseLemmas.StagesAt | VisualStudioSolutionExplorer/Project.Implementation.cs:82-90 | stage k is the classification after the first k + 1 groups |
| ProjectParse.FrameworkListOf | VisualStudioSolutionExplorer/Project.Implementation.cs:25-30 | an empty framework text gives no frameworks; every listed framework decodes from its own name; for a non-empty text every `;`-separated token that decodes is listed |
| ProjectParse.LinksEditorConfig | VisualStudioSolutionExplorer/Project.Implementation.cs:234-254 | a group links the editor config exactly when its first `None` element has an `Include` ending in ".editorconfig" and a `Link` equal to ".editorconfig" |
| ProjectParse.PackageReferenceOf | VisualStudioSolutionExplorer/Project.Implementation.cs:256-283 | a package reference is recorded exactly when the group's first `PackageReference` element has a non-empty `Include` and `Version`; it then carries that element's `Include`, `Version` and `Condition` as written |
| ProjectParse.ProjectReferenceOf | VisualStudioSolutionExplorer/Project.Implementation.cs:285-304 | a project reference is found exactly when the group's first `ProjectReference` element has a non-empty `Include`; it is the file name without extension of that element's `Include` |
| ProjectParse.AddUnique | VisualStudioSolutionExplorer/Project.Implementation.cs:300-301 | the name is listed afterwards, nothing listed before is lost, nothing else is added, and a list without duplicates stays without them |
| ProjectParse.ParseProjectItemGroup | VisualStudioSolutionExplorer/Project.Implementation.cs:227-232 | the editor-config flag never turns off; at most one package reference is appended; existing references are kept |
| ProjectParse.ParseProjectItemGroups | VisualStudioSolutionExplorer/Project.Implementation.cs:34-35 | the loop keeps the project references free of duplicates and only ever extends both lists |
| ProjectParse.PackagesValid | VisualStudioSolutionExplorer/Project.Implementation.cs:277-281 | every collected package reference has a non-empty name and version |
| ParseLemmas.PackagesCollected | VisualStudioSolutionExplorer/Project.Implementation.cs:32-37 | the package list is the groups' package references, in document order |
| ParseLemmas.ReferencesCollected | VisualStudioSolutionExplorer/Project.Implementation.cs:32-38 | a project name is listed exactly when some group references it |
| ParseLemmas.ReferencesDeduplicated | VisualStudioSolutionExplorer/Project.Implementation.cs:296-301 | the project-reference list is the first occurrence of each name the groups reference, in document order, so a name referenced again later is not listed twice |
| ParseLemmas.DedupStep | VisualStudioSolutionExplorer/Project.Implementation.cs:298-301 | adding the next referenced name unless it is already listed keeps the list equal to the first occurrences of all names referenced so far |
| ParseLemmas.LinkedCollected | VisualStudioSolutionExplorer/Project.Implementation.cs:251-252 | the editor-config flag is on exactly when it was on before or some group links the file |
| ParseLemmas.ListsIgnoreLinked | VisualStudioSolutionExplorer/Project.Implementation.cs:227-232 | the reference lists do not depend on the editor-config flag |
| ProjectParse.ParseProjectElements | VisualStudioSolutionExplorer/Project.Implementation.cs:15-39 | the solution-given fields are untouched; a known project type is kept; the editor-config flag never turns off; the references have no duplicates; every package has a name and a version |
| ParseLemmas.ParseProjectElementsResult | VisualStudioSolutionExplorer/Project.Implementation.cs:15-39 | the SDK, settings, framework list, package list, project-reference list (first occurrences, in document order) and editor-config flag each equal their independent reference |
| ParseLemmas.ParseProjectElementsIdempotent | VisualStudioSolutionExplorer/Project.Implementation.cs:15-39 | reading the same file a second time changes nothing |
| ParseLemmas.UnknownStaysUnknown | VisualStudioSolutionExplorer/Project.Implementation.cs:82-90 | if no stage classifies the first time, none does when the groups are read again over the final settings |
| ParseLemmas.VersionPredicatesAfterParse | VisualStudioSolutionExplorer/Project.Properties.cs:99-119 | after reading, `HasVersion`, `IsAssemblyVersionValid` and `IsFileVersionValid` each hold exactly when the last property group giving the element gives a non-empty text, or, with no such group, when they held before |
| ParseLemmas.LastTextNonEmpty | VisualStudioSolutionExplorer/Project.Implementation.cs:59-66 | a last-writer text setting ends non-empty exactly when its last writer wrote a non-empty text, or, with no writer, the starting text was non-empty |
| ParseLemmas.HasTargetFrameworksAfterParse | VisualStudioSolutionExplorer/Project.Properties.cs:159 | after reading, the project has target frameworks exactly when the final framework text is non-empty and one of its tokens decodes |
| ParseLemmas.HasRepositoryUrlAfterParse | VisualStudioSolutionExplorer/Project.Properties.cs:149 | after reading, the project has a repository URL exactly when it had one or some property group has a `RepositoryUrl` element |
| ParseLemmas.RepositoryUrlGiven | VisualStudioSolutionExplorer/Project.Implementation.cs:141-143 | over a run of property groups, the URL ends present exactly when it was present at the start or some group has a `RepositoryUrl` element |
| Xml.ElementIsFirstChild | VisualStudioSolutionExplorer/Project.Implementation.cs:70-71 | `Element` finds nothing exactly when no child has the name, and otherwise the first child that does |
| Xml.AttrValue | VisualStudioSolutionExplorer/Project.Implementation.cs:265-275 | the attribute loop leaves "" when no attribute has the name, and otherwise the value of the last attribute with that name |
| Xml.Named | VisualStudioSolutionExplorer/Project.Implementation.cs:22 | `Descendants(name)` keeps exactly the descendants with that name |
| Xml.NamedAppend | VisualStudioSolutionExplorer/Project.Implementation.cs:22 | the named elements of two runs are those of the first run followed by those of the second, so document order is kept |
| Xml.Descendants | VisualStudioSolutionExplorer/Project.Implementation.cs:22 | every child element is among the descendants |
| Xml.DescendantsOf | VisualStudioSolutionExplorer/Project.Implementation.cs:22 | every sibling is among the walked elements, and the walk starts at the first sibling |
| Xml.DescendantsOfOne | VisualStudioSolutionExplorer/Project.Implementation.cs:22 | a single element is walked as itself followed by the walk of its children, so with the append rule the walk is pre-order |
| Xml.DescendantsMembers | VisualStudioSolutionExplorer/Project.Implementation.cs:22 | an element is among the descendants exactly when it is nested at some depth below the root (`Below`, defined on the tree's structure) |
| Xml.DescendantsOfMembers | VisualStudioSolutionExplorer/Project.Implementation.cs:34 | an element is walked exactly when it is one of the siblings or nested at some depth below one of them |
| Xml.DescendantsOfAppend | VisualStudioSolutionExplorer/Project.Implementation.cs:22 | the pre-order walk of two runs of siblings is the walk of the first followed by the walk of the second |
| Text.Split | VisualStudioSolutionExplorer/Project.Implementation.cs:161 | one more piece than separators, no piece contains the separator, and joining the pieces gives the text back |
| Text.SplitJoin | VisualStudioSolutionExplorer/Project.Implementation.cs:161 | splitting undoes joining pieces that contain no separator |
| Text.ParseInt | VisualStudioSolutionExplorer/Project.Implementation.cs:214 | a text parses exactly when it is a non-empty run of digits whose value fits in an int, and then to that value |
| Text.ShowNat | VisualStudioSolutionExplorer/Project.Implementation.cs:214 | the decimal text of n is a non-empty run of digits with value n |
| Text.ToUpperMatches | VisualStudioSolutionExplorer/Project.Implementation.cs:76 | comparing the upper-cased text with an upper-case word ignores letter case |
| Text.FileNameWithoutExtension | VisualStudioSolutionExplorer/Project.Implementation.cs:298 | the result is a prefix of the file name, contains no directory separator, and is the whole file name when that has no dot |
| VersionCheck.IsVersionCompatible | VisualStudioSolutionExplorer/Project.Implementation.cs:306-310 | a version no longer than the project version is compatible only when equal to it; a compatible longer one is the project version, a dot and more |
| VersionCheck.CompatibleIffComponentPrefix | VisualStudioSolutionExplorer/Project.Implementation.cs:306-310 | a version is compatible exactly when its dot-separated components start with all of the project version's |
| VersionCheck.ExtendedCompatible | VisualStudioSolutionExplorer/Project.Implementation.cs:306-310 | the project version followed by a dot and anything is compatible |
| VersionCheck.LongerComponentIncompatible | VisualStudioSolutionExplorer/Project.Implementation.cs:306-310 | the project version followed by anything other than a dot is not compatible |
| VersionCheck.IncompatibleExample | VisualStudioSolutionExplorer/Project.Implementation.cs:306-310 | "1.20.0.0" is not compatible with "1.2" |
| VersionCheck.CheckVersionConsistency | VisualStudioSolutionExplorer/Project.ClientInterface.cs:34-57 | without a version no error and the "Ignored" text; with one, an error exactly when the assembly or file version is incompatible, with the file version's message taking precedence and an empty text when there is no error |
| VersionCheck.ConsistencyByComponents | VisualStudioSolutionExplorer/Project.ClientInterface.cs:39-52 | with a version, an error is reported exactly when the assembly or file version's components do not start with the version's |
| VersionCheck.MissingVersionIsError | VisualStudioSolutionExplorer/Project.ClientInterface.cs:39-52 | a project with a version but an empty assembly or file version reports an error |
| VersionCheck.CompatibleExample | VisualStudioSolutionExplorer/Project.Implementation.cs:306-310 | "1.2.0.556" is compatible with project version "1.2" |
| ProjectInit.InitProjectType | VisualStudioSolutionExplorer/Project.Init.cs:69-97 | a tag maps to a solution project type of the same name, or to `Invalid` when it names none of them |
| ProjectInit.ConfigurationOf | VisualStudioSolutionExplorer/Project.Init.cs:126-134 | an entry gives a configuration exactly when its key has a '\|' and its value is not null; the names contain no '\|' |
| ProjectInit.InitConfigurations | VisualStudioSolutionExplorer/Project.Init.cs:120-138 | every entry with a '\|' key and a non-null value contributes its configuration, and every listed configuration comes from such an entry: the others are skipped |
| ProjectInit.ConfigurationKey | VisualStudioSolutionExplorer/Project.Init.cs:128-133 | "configuration\|platform" gives that configuration and platform, and further '\|' parts are ignored |
| ProjectInit.InitConfigurationsAppend | VisualStudioSolutionExplorer/Project.Init.cs:124-135 | map entries are read independently and in order |
| ProjectInit.NewProject | VisualStudioSolutionExplorer/Project.Init.cs:49-57 | the solution's fields are copied; the tag is decoded; a missing parent GUID becomes ""; the configurations are those the solution's map yields, in order; every file setting starts at its default |
| ProjectInit.NewProjectDefaults | VisualStudioSolutionExplorer/Project.Properties.cs:74-199 | a new project has no version, no valid assembly or file version, no repository URL, no target framework, an unknown SDK, no nullable setting, no icon, is neither a test project nor marked not packable, and has no package references |

## Left out

- Reading the file: `LoadDetails`, `XElement.Load` and the stream are not modelled. The model starts from an element tree with names, attributes in document order, children and text values.
- XML namespaces, comments and mixed content are not modelled.
- The static constructor and the reflection helpers that locate the solution parser's project class are replaced by the plain `SolutionProject` record.
- The `ReflectionTools` class is left out.
- The configuration map's values are reduced to whether each is null and its `IncludeInBuild` flag, because the reflected object is not modelled.
- `Configuration` does not keep the project or the raw value it was built from.
- `PackageReference` does not keep its owning project.
- Project.cs is not part of this model.
- `Solution`, which parses the `.sln` file and orders projects by dependency level, is not part of this model.
- `Framework.ToString` is left out: it only formats for display.
- `Text.ParseInt`: does not model `int.TryParse`'s acceptance of surrounding white space, a sign, or culture-specific digits. It accepts plain ASCII digits only.
- `Text.ToUpper`: upper-cases ASCII letters only, rather than applying the culture's case mapping.
- The source's culture-sensitive `StartsWith`/`EndsWith` (invariant culture, and the current culture for the `.editorconfig` test) are modelled as ordinal comparisons.
- `Text.FileNameWithoutExtension`: simplifies `Path.GetFileNameWithoutExtension` to the text after the last '/' or '\' with the last '.' and what follows removed. It does not handle drive letters or invalid path characters.
- `RepositoryUrlOf`: keeps the URL text as written instead of constructing a `Uri`. An ill-formed URL, which throws in `new Uri`, is therefore accepted.
- `ApplicationIcon`, `IsTestProject`, `IsNotPackable` and `Nullable` are never written by the reading code, so they keep their defaults. They are modelled only as untouched fields.
- Moniker versions such as "7.0" in `net8.0-windows7.0` are not decoded, because the code does not decode them.
- Project types given by SDK `Import` elements are not modelled, because the code does not read them.
- `PrivateAssets` is not modelled, because the code does not read it.
- Further `PackageReference` elements in one group are not modelled, because the code reads only the first.

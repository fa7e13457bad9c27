/** The enumerations and small records of the solution explorer. Enumeration
    members keep their declaration order, which the moniker scan relies on. */
module Types {

  /** What kind of project a solution entry is, from the solution's own tag
      or, for unresolved entries, from the project file's `OutputType`. */
  datatype ProjectType =
    | Unknown
    | Library
    | Console
    | WinExe
    | KnownToBeMSBuildFormat
    | SolutionFolder
    | WebProject
    | WebDeploymentProject
    | EtpSubProject
    | SharedProject
    | Invalid

  /** The SDK a project file declares in its root `Sdk` attribute. */
  datatype SdkType = Unknown | Sdk | WindowsDesktop

  /** The family a target framework belongs to. */
  datatype FrameworkType = None | NetFramework | NetStandard | NetCore

  /** The operating-system suffix of a target framework moniker. */
  datatype FrameworkMoniker = none | android | ios | macos | tvos | watchos | windows

  /** Values of the `Nullable` project setting. */
  datatype NullableAnnotation = None | Enable | Warnings | Annotations | Disable

  /** One decoded target framework: the token as written, its family, its
      version and its operating-system moniker. */
  datatype Framework = Framework(
    name: string,
    frameworkType: FrameworkType,
    major: int,
    minor: int,
    moniker: FrameworkMoniker)

  /** One `PackageReference` item: package name, version and MSBuild condition
      ("" when the reference applies unconditionally). */
  datatype PackageReference = PackageReference(name: string, version: string, condition: string)

  /** One build configuration of a project in its solution. */
  datatype Configuration = Configuration(configurationName: string, platformName: string, includeInBuild: bool)
}

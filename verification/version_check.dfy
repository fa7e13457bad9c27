/** The version consistency check of a loaded project: the assembly version
    and the file version must each be the project version itself, or the
    project version followed by further dot-separated components. */
module VersionCheck {
  import opened Text
  import opened ProjectState

  /** `IsVersionCompatible`: a version no longer than the short one must be
      exactly it; a longer one must start with the short one and a dot. */
  function IsVersionCompatible(longVersion: string, shortVersion: string): (b: bool)
    ensures |longVersion| <= |shortVersion| ==> (b <==> longVersion == shortVersion)
    ensures b ==> longVersion == shortVersion ||
                  longVersion == shortVersion + "." + longVersion[|shortVersion| + 1..]
  {
    var compared := if |longVersion| <= |shortVersion| then shortVersion else shortVersion + ".";
    StartsWith(longVersion, compared)
  }

  /** A version is compatible exactly when its dot-separated components
      start with all the components of the short version. */
  lemma {:induction false} CompatibleIffComponentPrefix(longVersion: string, shortVersion: string)
    ensures IsVersionCompatible(longVersion, shortVersion) <==> Split(shortVersion, '.') <= Split(longVersion, '.')
  {
    var ps, pl := Split(shortVersion, '.'), Split(longVersion, '.');
    if IsVersionCompatible(longVersion, shortVersion) && longVersion != shortVersion {
      SplitAppend(shortVersion, longVersion[|shortVersion| + 1..], '.');
    }
    if ps <= pl {
      if |pl| == |ps| {
        assert pl == ps;
      } else {
        var rest := pl[|ps|..];
        assert pl == ps + rest;
        JoinAppend(ps, rest, '.');
        assert longVersion == shortVersion + "." + Join(rest, '.');
        assert longVersion[..|shortVersion| + 1] == shortVersion + ".";
      }
    }
  }

  /** Any further components keep a version compatible. */
  lemma {:induction false} ExtendedCompatible(shortVersion: string, rest: string)
    ensures IsVersionCompatible(shortVersion + "." + rest, shortVersion)
  {
    assert (shortVersion + "." + rest)[..|shortVersion| + 1] == shortVersion + ".";
  }

  /** A longer version whose next character is not a dot is not compatible,
      even when it starts with the short version. */
  lemma {:induction false} LongerComponentIncompatible(shortVersion: string, c: char, rest: string)
    requires c != '.'
    ensures !IsVersionCompatible(shortVersion + [c] + rest, shortVersion)
  {
    assert (shortVersion + [c] + rest)[|shortVersion|] == c;
  }

  const NoVersionText: string := "Ignored because no version"

  /** The text reported for a version that does not match the project version. */
  function IncompatibleText(otherVersion: string, version: string): string {
    otherVersion + " not compatible with " + version
  }

  /** `CheckVersionConsistency`: whether an error was found, and the warning
      or error text. Without a version nothing is checked; otherwise the
      assembly version and then the file version are compared with it, and
      a file version mismatch overwrites the assembly version's text. */
  function CheckVersionConsistency(p: Project): (r: (bool, string))
    ensures !HasVersion(p) ==> r == (false, NoVersionText)
    ensures HasVersion(p) ==>
              (r.0 <==> !IsVersionCompatible(p.props.assemblyVersion, p.props.version) ||
                        !IsVersionCompatible(p.props.fileVersion, p.props.version))
    ensures HasVersion(p) && !r.0 ==> r.1 == ""
    ensures HasVersion(p) && !IsVersionCompatible(p.props.fileVersion, p.props.version) ==>
              r.1 == IncompatibleText(p.props.fileVersion, p.props.version)
    ensures HasVersion(p) && IsVersionCompatible(p.props.fileVersion, p.props.version) && r.0 ==>
              r.1 == IncompatibleText(p.props.assemblyVersion, p.props.version)
  {
    if HasVersion(p) then
      var version := p.props.version;
      var (errors1, text1) :=
        if !IsVersionCompatible(p.props.assemblyVersion, version)
        then (true, IncompatibleText(p.props.assemblyVersion, version))
        else (false, "");
      if !IsVersionCompatible(p.props.fileVersion, version)
      then (true, IncompatibleText(p.props.fileVersion, version))
      else (errors1, text1)
    else (false, NoVersionText)
  }

  /** With a version, an error is reported exactly when the components of
      the assembly or the file version do not start with the version's. */
  lemma {:induction false} ConsistencyByComponents(p: Project)
    requires HasVersion(p)
    ensures var version := Split(p.props.version, '.');
      CheckVersionConsistency(p).0 <==>
        !(version <= Split(p.props.assemblyVersion, '.') && version <= Split(p.props.fileVersion, '.'))
  {
    CompatibleIffComponentPrefix(p.props.assemblyVersion, p.props.version);
    CompatibleIffComponentPrefix(p.props.fileVersion, p.props.version);
  }

  /** A project with a version but an empty assembly or file version is
      reported as an error: "" is compatible with no non-empty version. */
  lemma {:induction false} MissingVersionIsError(p: Project)
    requires HasVersion(p) && (!IsAssemblyVersionValid(p) || !IsFileVersionValid(p))
    ensures CheckVersionConsistency(p).0
  {
    assert |p.props.assemblyVersion| < |p.props.version| || |p.props.fileVersion| < |p.props.version|;
  }

  /** "1.2.0.556" extends version "1.2". */
  lemma {:induction false} CompatibleExample(longVersion: string, shortVersion: string)
    requires longVersion == "1.2.0.556" && shortVersion == "1.2"
    ensures IsVersionCompatible(longVersion, shortVersion)
  {
    ExtendedCompatible(shortVersion, "0.556");
    assert longVersion == shortVersion + "." + "0.556";
  }

  /** "1.20.0.0" starts with "1.2" but is not one of its extensions. */
  lemma {:induction false} IncompatibleExample(longVersion: string, shortVersion: string)
    requires longVersion == "1.20.0.0" && shortVersion == "1.2"
    ensures !IsVersionCompatible(longVersion, shortVersion)
  {
    LongerComponentIncompatible(shortVersion, '0', ".0.0");
    assert longVersion == shortVersion + ['0'] + ".0.0";
  }
}

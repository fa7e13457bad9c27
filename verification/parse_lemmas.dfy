/** What reading a project file guarantees, stated against independent
    references: the SDK is the last recognised `Sdk` attribute; each setting
    is the value its last mentioning `PropertyGroup` gives; the project type
    comes from the first group after which the output type classifies; the
    reference lists are rebuilt from the `ItemGroup`s; reading the same
    file twice gives what reading it once gives. */
module ParseLemmas {
  import opened Wrappers
  import opened Text
  import opened Xml
  import opened Types
  import opened Sequences
  import opened FrameworkDecoder
  import opened ProjectState
  import opened ProjectParse

  // ---------------------------------------------------------------------------
  // SDK type
  // ---------------------------------------------------------------------------

  /** The attribute loop leaves the SDK of the last recognised `Sdk`
      attribute, and the starting value when there is none. */
  lemma {:induction false} SdkTypeLastWins(sdk: SdkType, attrs: seq<(string, string)>)
    ensures ParseProjectAttributes(sdk, attrs) == LastOf(attrs, SdkOf, sdk)
  {
    if |attrs| > 0 {
      SdkTypeLastWins(sdk, attrs[..|attrs| - 1]);
    }
  }

  // ---------------------------------------------------------------------------
  // Flags
  // ---------------------------------------------------------------------------

  /** A flag is read exactly when its element is present, and is on exactly
      when the element's text spells the word in any mix of letter cases. */
  lemma {:induction false} FlagValueAnyCase(g: Node, name: string, word: string)
    requires IsUpperWord(word)
    ensures FlagValue(g, name, word).Some? <==> ElementValue(g, name).Some?
    ensures FlagValue(g, name, word) == Some(true) <==>
              ElementValue(g, name).Some? && SpellsIgnoringCase(ElementValue(g, name).value, word)
  {
    if ElementValue(g, name).Some? {
      ToUpperMatches(ElementValue(g, name).value, word);
    }
  }

  /** `UseWPF` is on for "true", "True", "TRUE" and every other spelling of the word. */
  lemma {:induction false} UseWpfAnyCase(g: Node)
    ensures UseWpfOf(g) == Some(true) <==>
              ElementValue(g, "UseWPF").Some? && SpellsIgnoringCase(ElementValue(g, "UseWPF").value, "TRUE")
  {
    FlagValueAnyCase(g, "UseWPF", "TRUE");
  }

  /** `Nullable` is on for every spelling of "enable" and off for any other text. */
  lemma {:induction false} NullableAnyCase(g: Node)
    ensures IsNullableOf(g) == Some(true) <==>
              ElementValue(g, "Nullable").Some? && SpellsIgnoringCase(ElementValue(g, "Nullable").value, "ENABLE")
  {
    FlagValueAnyCase(g, "Nullable", "ENABLE");
  }

  // ---------------------------------------------------------------------------
  // Settings
  // ---------------------------------------------------------------------------

  /** Each setting as the last group that mentions it leaves it, or its
      starting value when no group does: the settings field by field,
      independently of one another. */
  function Overridden(props: BuildProperties, gs: seq<Node>): BuildProperties {
    BuildProperties(
      outputType := LastOf(gs, OutputTypeOf, props.outputType),
      useWpf := LastOf(gs, UseWpfOf, props.useWpf),
      useWindowsForms := LastOf(gs, UseWindowsFormsOf, props.useWindowsForms),
      languageVersion := LastOf(gs, LanguageVersionOf, props.languageVersion),
      isNullable := LastOf(gs, IsNullableOf, props.isNullable),
      neutralLanguage := LastOf(gs, NeutralLanguageOf, props.neutralLanguage),
      isTreatWarningsAsErrors := LastOf(gs, TreatWarningsAsErrorsOf, props.isTreatWarningsAsErrors),
      version := LastOf(gs, VersionOf, props.version),
      assemblyVersion := LastOf(gs, AssemblyVersionOf, props.assemblyVersion),
      fileVersion := LastOf(gs, FileVersionOf, props.fileVersion),
      author := LastOf(gs, AuthorOf, props.author),
      description := LastOf(gs, DescriptionOf, props.description),
      copyright := LastOf(gs, CopyrightOf, props.copyright),
      repositoryUrl := LastOf(gs, RepositoryUrlOf, props.repositoryUrl),
      targetFrameworks := LastOf(gs, TargetFrameworksOf, props.targetFrameworks))
  }

  /** One more group updates the field-wise reference the way the group reader does. */
  lemma {:induction false} OverriddenSnoc(props: BuildProperties, gs: seq<Node>)
    requires |gs| > 0
    ensures Overridden(props, gs) == ApplyProperties(Overridden(props, gs[..|gs| - 1]), gs[|gs| - 1])
  {
    LastOfLast(gs, OutputTypeOf, props.outputType);
    LastOfLast(gs, UseWpfOf, props.useWpf);
    LastOfLast(gs, UseWindowsFormsOf, props.useWindowsForms);
    LastOfLast(gs, LanguageVersionOf, props.languageVersion);
    LastOfLast(gs, IsNullableOf, props.isNullable);
    LastOfLast(gs, NeutralLanguageOf, props.neutralLanguage);
    LastOfLast(gs, TreatWarningsAsErrorsOf, props.isTreatWarningsAsErrors);
    LastOfLast(gs, VersionOf, props.version);
    LastOfLast(gs, AssemblyVersionOf, props.assemblyVersion);
    LastOfLast(gs, FileVersionOf, props.fileVersion);
    LastOfLast(gs, AuthorOf, props.author);
    LastOfLast(gs, DescriptionOf, props.description);
    LastOfLast(gs, CopyrightOf, props.copyright);
    LastOfLast(gs, RepositoryUrlOf, props.repositoryUrl);
    LastOfLast(gs, TargetFrameworksOf, props.targetFrameworks);
  }

  /** Within one group `TargetFramework` takes precedence over
      `TargetFrameworks`; with neither, the framework text is kept. */
  lemma {:induction false} FrameworkTextPrecedence(t: ProjectType, props: BuildProperties, g: Node)
    ensures var text := ParseProjectPropertyGroup(t, props, g).1.targetFrameworks;
      var single, multiple := ElementValue(g, "TargetFramework"), ElementValue(g, "TargetFrameworks");
      (single.Some? ==> text == single.value) &&
      (single.None? && multiple.Some? ==> text == multiple.value) &&
      (single.None? && multiple.None? ==> text == props.targetFrameworks)
  {
  }

  /** The group loop leaves every setting as its last mentioning group set it:
      a present element overwrites, an absent one leaves the value. */
  lemma {:induction false} PropertiesLastWriterWins(t: ProjectType, props: BuildProperties, gs: seq<Node>)
    ensures ParseProjectPropertyGroups(t, props, gs).1 == Overridden(props, gs)
  {
    if |gs| > 0 {
      PropertyGroupsSnoc(t, props, gs);
      PropertiesLastWriterWins(t, props, gs[..|gs| - 1]);
      OverriddenSnoc(props, gs);
    }
  }

  /** One step of the group loop applies the last group's readers. */
  lemma {:induction false} PropertyGroupsSnoc(t: ProjectType, props: BuildProperties, gs: seq<Node>)
    requires |gs| > 0
    ensures ParseProjectPropertyGroups(t, props, gs).1 ==
              ApplyProperties(ParseProjectPropertyGroups(t, props, gs[..|gs| - 1]).1, gs[|gs| - 1])
  {
  }

  /** The three settings the classification reads, as their last mentioning groups left them. */
  lemma {:induction false} ClassifyingSettings(t: ProjectType, props: BuildProperties, gs: seq<Node>)
    ensures var r := ParseProjectPropertyGroups(t, props, gs).1;
      r.outputType == LastOf(gs, OutputTypeOf, props.outputType) &&
      r.useWpf == LastOf(gs, UseWpfOf, props.useWpf) &&
      r.useWindowsForms == LastOf(gs, UseWindowsFormsOf, props.useWindowsForms)
  {
    PropertiesLastWriterWins(t, props, gs);
  }

  /** Replaying the same groups over their own result changes no setting. */
  lemma {:induction false} OverriddenIdempotent(props: BuildProperties, gs: seq<Node>)
    ensures Overridden(Overridden(props, gs), gs) == Overridden(props, gs)
  {
    LastOfIdempotent(gs, OutputTypeOf, props.outputType);
    LastOfIdempotent(gs, UseWpfOf, props.useWpf);
    LastOfIdempotent(gs, UseWindowsFormsOf, props.useWindowsForms);
    LastOfIdempotent(gs, LanguageVersionOf, props.languageVersion);
    LastOfIdempotent(gs, IsNullableOf, props.isNullable);
    LastOfIdempotent(gs, NeutralLanguageOf, props.neutralLanguage);
    LastOfIdempotent(gs, TreatWarningsAsErrorsOf, props.isTreatWarningsAsErrors);
    LastOfIdempotent(gs, VersionOf, props.version);
    LastOfIdempotent(gs, AssemblyVersionOf, props.assemblyVersion);
    LastOfIdempotent(gs, FileVersionOf, props.fileVersion);
    LastOfIdempotent(gs, AuthorOf, props.author);
    LastOfIdempotent(gs, DescriptionOf, props.description);
    LastOfIdempotent(gs, CopyrightOf, props.copyright);
    LastOfIdempotent(gs, RepositoryUrlOf, props.repositoryUrl);
    LastOfIdempotent(gs, TargetFrameworksOf, props.targetFrameworks);
  }

  // ---------------------------------------------------------------------------
  // Project type
  // ---------------------------------------------------------------------------

  /** What the output type, as the groups `gs` leave it, classifies as. */
  function LastStage(props: BuildProperties, gs: seq<Node>): ProjectType {
    Classify(LastOf(gs, OutputTypeOf, props.outputType),
             LastOf(gs, UseWpfOf, props.useWpf),
             LastOf(gs, UseWindowsFormsOf, props.useWindowsForms))
  }

  /** The classification stage by stage: entry `k` is what the output type
      classifies as once the first `k + 1` groups are read. */
  function Stages(props: BuildProperties, gs: seq<Node>): (r: seq<ProjectType>)
    ensures |r| == |gs|
  {
    if |gs| == 0 then [] else Stages(props, gs[..|gs| - 1]) + [LastStage(props, gs)]
  }

  /** Entry `k` of the stages is the classification after the first `k + 1` groups. */
  lemma {:induction false} StagesAt(props: BuildProperties, gs: seq<Node>, k: nat)
    requires k < |gs|
    ensures Stages(props, gs)[k] == LastStage(props, gs[..k + 1])
  {
    var n := |gs|;
    if k < n - 1 {
      StagesAt(props, gs[..n - 1], k);
      assert gs[..n - 1][..k + 1] == gs[..k + 1];
    } else {
      assert gs[..k + 1] == gs;
    }
  }

  /** The first entry that is not `Unknown`, or `Unknown` when there is none. */
  function FirstKnown(ts: seq<ProjectType>): ProjectType {
    if |ts| == 0 then ProjectType.Unknown
    else if ts[0] != ProjectType.Unknown then ts[0]
    else FirstKnown(ts[1..])
  }

  /** `FirstKnown` is `Unknown` exactly when every entry is, and otherwise the
      entry at the first position that is not. */
  lemma {:induction false} FirstKnownIsFirst(ts: seq<ProjectType>)
    ensures FirstKnown(ts) == ProjectType.Unknown <==> forall i :: 0 <= i < |ts| ==> ts[i] == ProjectType.Unknown
    ensures FirstKnown(ts) != ProjectType.Unknown ==>
              exists k :: 0 <= k < |ts| && ts[k] == FirstKnown(ts) &&
                          forall j :: 0 <= j < k ==> ts[j] == ProjectType.Unknown
  {
    if |ts| > 0 && ts[0] == ProjectType.Unknown {
      var tail := ts[1..];
      FirstKnownIsFirst(tail);
      if FirstKnown(tail) != ProjectType.Unknown {
        var k :| 0 <= k < |tail| && tail[k] == FirstKnown(tail) &&
                 forall j :: 0 <= j < k ==> tail[j] == ProjectType.Unknown;
        assert ts[k + 1] == tail[k];
        forall j | 0 <= j < k + 1 ensures ts[j] == ProjectType.Unknown {
          if j > 0 { assert ts[j] == tail[j - 1]; }
        }
      } else {
        forall i | 0 <= i < |ts| ensures ts[i] == ProjectType.Unknown {
          if i > 0 { assert ts[i] == tail[i - 1]; }
        }
      }
    }
  }

  /** One more entry matters only while every earlier one is `Unknown`. */
  lemma {:induction false} FirstKnownSnoc(ts: seq<ProjectType>, t: ProjectType)
    ensures FirstKnown(ts + [t]) == if FirstKnown(ts) == ProjectType.Unknown then t else FirstKnown(ts)
  {
    if |ts| > 0 {
      assert (ts + [t])[1..] == ts[1..] + [t];
      FirstKnownSnoc(ts[1..], t);
    }
  }

  /** One more group: a project still `Unknown` takes the classification of the new stage. */
  lemma {:induction false} ProjectTypeStep(t: ProjectType, props: BuildProperties, gs: seq<Node>)
    requires |gs| > 0
    ensures var before := ParseProjectPropertyGroups(t, props, gs[..|gs| - 1]).0;
      ParseProjectPropertyGroups(t, props, gs).0 ==
        if before == ProjectType.Unknown then LastStage(props, gs) else before
  {
    ClassifyingSettings(t, props, gs);
  }

  /** A project whose type is `Unknown` takes the first classification that
      is not `Unknown`, stage by stage. */
  lemma {:induction false} ProjectTypeIsFirstKnown(props: BuildProperties, gs: seq<Node>)
    ensures ParseProjectPropertyGroups(ProjectType.Unknown, props, gs).0 == FirstKnown(Stages(props, gs))
  {
    if |gs| > 0 {
      var init := gs[..|gs| - 1];
      ProjectTypeIsFirstKnown(props, init);
      ProjectTypeStep(ProjectType.Unknown, props, gs);
      FirstKnownSnoc(Stages(props, init), LastStage(props, gs));
    }
  }

  /** A project whose type is `Unknown` stays `Unknown` exactly when no stage
      classifies, and otherwise takes the type of the first stage that does. */
  lemma {:induction false} ProjectTypeFirstClassifyingGroup(props: BuildProperties, gs: seq<Node>)
    ensures var t := ParseProjectPropertyGroups(ProjectType.Unknown, props, gs).0;
      var stages := Stages(props, gs);
      (t == ProjectType.Unknown <==> forall k :: 0 <= k < |gs| ==> stages[k] == ProjectType.Unknown) &&
      (t != ProjectType.Unknown ==> exists k :: 0 <= k < |gs| && stages[k] == t &&
                                       forall j :: 0 <= j < k ==> stages[j] == ProjectType.Unknown)
  {
    ProjectTypeIsFirstKnown(props, gs);
    FirstKnownIsFirst(Stages(props, gs));
  }

  /** A first group without `OutputType` classifies an `Unknown` project with
      no output type yet as `Library`, whatever later groups say: the empty
      output type counts as a library. */
  lemma {:induction false} EarlyLibrary(props: BuildProperties, gs: seq<Node>)
    requires props.outputType == ""
    requires |gs| > 0 && OutputTypeOf(gs[0]).None?
    ensures ParseProjectPropertyGroups(ProjectType.Unknown, props, gs).0 == Library
  {
    StagesAt(props, gs, 0);
    assert gs[..1][..0] == [];
    assert LastOf(gs[..1], OutputTypeOf, props.outputType) == "";
    ProjectTypeIsFirstKnown(props, gs);
  }

  // ---------------------------------------------------------------------------
  // Item groups
  // ---------------------------------------------------------------------------

  /** The package references are the group-by-group ones, in document order. */
  lemma {:induction false} PackagesCollected(s: ItemScan, gs: seq<Node>)
    ensures ParseProjectItemGroups(s, gs).packages == s.packages + Values(gs, PackageReferenceOf)
  {
    if |gs| > 0 {
      var init := gs[..|gs| - 1];
      PackagesCollected(s, init);
      PackagesStep(s, gs);
      ValuesLast(gs, PackageReferenceOf);
      AppendAssociates(s.packages, Values(init, PackageReferenceOf), PackageReferenceOf(gs[|gs| - 1]).ToSeq());
    }
  }

  /** One step of the item loop appends the last group's package reference, if any. */
  lemma {:induction false} PackagesStep(s: ItemScan, gs: seq<Node>)
    requires |gs| > 0
    ensures ParseProjectItemGroups(s, gs).packages ==
      ParseProjectItemGroups(s, gs[..|gs| - 1]).packages + PackageReferenceOf(gs[|gs| - 1]).ToSeq()
  {
  }

  /** A name is listed exactly when it was listed before or some group references it. */
  lemma {:induction false} ReferencesCollected(s: ItemScan, gs: seq<Node>)
    ensures forall x :: x in ParseProjectItemGroups(s, gs).references <==>
                         x in s.references || x in Values(gs, ProjectReferenceOf)
  {
    if |gs| > 0 {
      var init, last := gs[..|gs| - 1], gs[|gs| - 1];
      ReferencesCollected(s, init);
      var before := ParseProjectItemGroups(s, init);
      assert ParseProjectItemGroups(s, gs) == ParseProjectItemGroup(before, last);
      match ProjectReferenceOf(last)
      case Some(n) =>
        assert Values(gs, ProjectReferenceOf) == Values(init, ProjectReferenceOf) + [n];
      case None =>
        assert Values(gs, ProjectReferenceOf) == Values(init, ProjectReferenceOf);
    }
  }

  /** The reference list is the first occurrence of each referenced name, in
      document order: a name a later group references again is not added twice. */
  lemma {:induction false} ReferencesDeduplicated(s: ItemScan, gs: seq<Node>)
    requires NoDuplicates(s.references)
    ensures ParseProjectItemGroups(s, gs).references == Dedup(s.references + Values(gs, ProjectReferenceOf))
  {
    if |gs| == 0 {
      assert s.references + Values(gs, ProjectReferenceOf) == s.references;
      DedupOfDistinct(s.references);
    } else {
      var init, found := gs[..|gs| - 1], ProjectReferenceOf(gs[|gs| - 1]);
      ReferencesDeduplicated(s, init);
      ReferencesStep(s, gs);
      ValuesLast(gs, ProjectReferenceOf);
      DedupStep(ParseProjectItemGroups(s, init).references, s.references,
        Values(init, ProjectReferenceOf), found, Values(gs, ProjectReferenceOf));
    }
  }

  /** Adding the next name unless present keeps a list equal to the first
      occurrences of everything listed so far. */
  lemma {:induction false} DedupStep(prev: seq<string>, start: seq<string>, listed: seq<string>,
                                     found: Option<string>, next: seq<string>)
    requires prev == Dedup(start + listed)
    requires next == listed + found.ToSeq()
    ensures (match found case Some(n) => AddUnique(prev, n) case None => prev) == Dedup(start + next)
  {
    assert start + next == (start + listed) + found.ToSeq();
    if found.Some? {
      DedupSnoc(start + listed, found.value);
    } else {
      assert start + next == start + listed;
    }
  }

  /** One step of the item loop adds the last group's project reference, if new. */
  lemma {:induction false} ReferencesStep(s: ItemScan, gs: seq<Node>)
    requires |gs| > 0
    ensures var before := ParseProjectItemGroups(s, gs[..|gs| - 1]).references;
      ParseProjectItemGroups(s, gs).references ==
        match ProjectReferenceOf(gs[|gs| - 1]) case Some(n) => AddUnique(before, n) case None => before
  {
  }

  /** The editor-config flag is on exactly when it was on or some group links the file. */
  lemma {:induction false} LinkedCollected(s: ItemScan, gs: seq<Node>)
    ensures ParseProjectItemGroups(s, gs).linked <==>
              s.linked || exists i :: 0 <= i < |gs| && LinksEditorConfig(gs[i])
  {
    if |gs| > 0 {
      var n := |gs|;
      var init := gs[..n - 1];
      LinkedCollected(s, init);
      LinkedStep(s, gs);
      SomeLinkSnoc(gs);
    }
  }

  /** Some group links the file. */
  predicate SomeLink(gs: seq<Node>) {
    exists i :: 0 <= i < |gs| && LinksEditorConfig(gs[i])
  }

  /** Some group of a non-empty run links the file exactly when one before
      the last does or the last does. */
  lemma {:induction false} SomeLinkSnoc(gs: seq<Node>)
    requires |gs| > 0
    ensures SomeLink(gs) <==> SomeLink(gs[..|gs| - 1]) || LinksEditorConfig(gs[|gs| - 1])
  {
    var n, init := |gs|, gs[..|gs| - 1];
    if SomeLink(init) {
      var i :| 0 <= i < |init| && LinksEditorConfig(init[i]);
      assert gs[i] == init[i];
    }
    if SomeLink(gs) {
      var i :| 0 <= i < n && LinksEditorConfig(gs[i]);
      if i < n - 1 {
        assert init[i] == gs[i];
      }
    }
  }

  /** One step of the item loop turns the flag on when the last group links the file. */
  lemma {:induction false} LinkedStep(s: ItemScan, gs: seq<Node>)
    requires |gs| > 0
    ensures ParseProjectItemGroups(s, gs).linked ==
              (ParseProjectItemGroups(s, gs[..|gs| - 1]).linked || LinksEditorConfig(gs[|gs| - 1]))
  {
  }

  /** The reference lists do not depend on the flag the scan starts with. */
  lemma {:induction false} ListsIgnoreLinked(a: bool, b: bool, gs: seq<Node>)
    ensures ParseProjectItemGroups(ItemScan(a, [], []), gs).packages ==
            ParseProjectItemGroups(ItemScan(b, [], []), gs).packages
    ensures ParseProjectItemGroups(ItemScan(a, [], []), gs).references ==
            ParseProjectItemGroups(ItemScan(b, [], []), gs).references
  {
    if |gs| > 0 {
      ListsIgnoreLinked(a, b, gs[..|gs| - 1]);
    }
  }

  // ---------------------------------------------------------------------------
  // The whole file
  // ---------------------------------------------------------------------------

  /** Reading a file: the SDK comes from the root attributes alone, the
      settings from the property groups field by field, the framework list
      from the final framework text alone, and the reference lists from the
      item groups alone (the lists the project had are discarded): every
      package reference in document order, and the first occurrence of each
      referenced project name. */
  lemma {:induction false} ParseProjectElementsResult(p: Project, root: Node)
    ensures var r := ParseProjectElements(p, root);
      r.sdkType == LastOf(root.attrs, SdkOf, p.sdkType) &&
      r.props == Overridden(p.props, PropertyGroups(root)) &&
      r.frameworkList == FrameworkListOf(r.props.targetFrameworks) &&
      r.packageReferenceList == Values(ItemGroups(root), PackageReferenceOf) &&
      r.projectReferences == Dedup(Values(ItemGroups(root), ProjectReferenceOf)) &&
      (forall x :: x in r.projectReferences <==> x in Values(ItemGroups(root), ProjectReferenceOf)) &&
      (r.isEditorConfigLinked <==>
         p.isEditorConfigLinked || exists i :: 0 <= i < |ItemGroups(root)| && LinksEditorConfig(ItemGroups(root)[i]))
  {
    var start := ItemScan(p.isEditorConfigLinked, [], []);
    SdkTypeLastWins(p.sdkType, root.attrs);
    PropertiesLastWriterWins(p.projectType, p.props, PropertyGroups(root));
    PackagesCollected(start, ItemGroups(root));
    ReferencesCollected(start, ItemGroups(root));
    ReferencesDeduplicated(start, ItemGroups(root));
    assert start.references + Values(ItemGroups(root), ProjectReferenceOf) == Values(ItemGroups(root), ProjectReferenceOf);
    LinkedCollected(start, ItemGroups(root));
  }

  /** `HasTargetFrameworks` after reading: the final framework text is
      non-empty and one of its `;`-separated tokens decodes. */
  lemma {:induction false} HasTargetFrameworksAfterParse(p: Project, root: Node)
    ensures var r := ParseProjectElements(p, root);
      var text := r.props.targetFrameworks;
      HasTargetFrameworks(r) <==>
        |text| > 0 && exists i :: 0 <= i < |Split(text, ';')| && ParseTargetFramework(Split(text, ';')[i]).Some?
  {
    var r := ParseProjectElements(p, root);
    var text := r.props.targetFrameworks;
    ParseProjectElementsResult(p, root);
    if HasTargetFrameworks(r) {
      var f := r.frameworkList[0];
      assert f in DecodeTokens(Split(text, ';'));
    }
  }

  /** `HasRepositoryUrl` after reading: it held before, or some property
      group has a `RepositoryUrl` element. */
  lemma {:induction false} HasRepositoryUrlAfterParse(p: Project, root: Node)
    ensures var r := ParseProjectElements(p, root);
      var gs := PropertyGroups(root);
      HasRepositoryUrl(r) <==>
        HasRepositoryUrl(p) || exists i :: 0 <= i < |gs| && ElementValue(gs[i], "RepositoryUrl").Some?
  {
    PropertiesLastWriterWins(p.projectType, p.props, PropertyGroups(root));
    RepositoryUrlGiven(PropertyGroups(root), p.props.repositoryUrl);
  }

  /** The last-writer URL is present exactly when it was present at the start
      or some group has a `RepositoryUrl` element. */
  lemma {:induction false} RepositoryUrlGiven(gs: seq<Node>, d: Option<string>)
    ensures LastOf(gs, RepositoryUrlOf, d).Some? <==>
              d.Some? || exists i :: 0 <= i < |gs| && ElementValue(gs[i], "RepositoryUrl").Some?
  {
    if exists i :: 0 <= i < |gs| && ElementValue(gs[i], "RepositoryUrl").Some? {
      var i :| 0 <= i < |gs| && ElementValue(gs[i], "RepositoryUrl").Some?;
      LastOfLastWriter(gs, RepositoryUrlOf, d, i);
    } else {
      LastOfNoWriter(gs, RepositoryUrlOf, d);
    }
  }

  /** The text setting read by `f` ends non-empty: when some group gives it,
      the last group that gives it gives a non-empty text; otherwise the
      starting text `d` was non-empty. */
  predicate TextGivenAfter(gs: seq<Node>, f: Node -> Option<string>, d: string) {
    if exists i :: 0 <= i < |gs| && f(gs[i]).Some? then
      exists k :: 0 <= k < |gs| && f(gs[k]).Some? && |f(gs[k]).value| > 0 &&
                  forall j :: k < j < |gs| ==> f(gs[j]).None?
    else |d| > 0
  }

  /** The last-writer value of a text setting is non-empty exactly when
      `TextGivenAfter` holds. */
  lemma {:induction false} LastTextNonEmpty(gs: seq<Node>, f: Node -> Option<string>, d: string)
    ensures |LastOf(gs, f, d)| > 0 <==> TextGivenAfter(gs, f, d)
  {
    if exists i :: 0 <= i < |gs| && f(gs[i]).Some? {
      var i :| 0 <= i < |gs| && f(gs[i]).Some?;
      LastOfLastWriter(gs, f, d, i);
      var k :| i <= k < |gs| && f(gs[k]) == Some(LastOf(gs, f, d)) &&
               forall j :: k < j < |gs| ==> f(gs[j]).None?;
      if TextGivenAfter(gs, f, d) {
        var k' :| 0 <= k' < |gs| && f(gs[k']).Some? && |f(gs[k']).value| > 0 &&
                  forall j :: k' < j < |gs| ==> f(gs[j]).None?;
        assert k' == k;
      }
    } else {
      LastOfNoWriter(gs, f, d);
    }
  }

  /** `HasVersion`, `IsAssemblyVersionValid` and `IsFileVersionValid` after
      reading: each holds exactly when the last property group that gives
      its element gives a non-empty text, or, with no such group, when it
      held before. */
  lemma {:induction false} VersionPredicatesAfterParse(p: Project, root: Node)
    ensures var r, gs := ParseProjectElements(p, root), PropertyGroups(root);
      (HasVersion(r) <==> TextGivenAfter(gs, VersionOf, p.props.version)) &&
      (IsAssemblyVersionValid(r) <==> TextGivenAfter(gs, AssemblyVersionOf, p.props.assemblyVersion)) &&
      (IsFileVersionValid(r) <==> TextGivenAfter(gs, FileVersionOf, p.props.fileVersion))
  {
    var gs := PropertyGroups(root);
    ParseProjectElementsResult(p, root);
    LastTextNonEmpty(gs, VersionOf, p.props.version);
    LastTextNonEmpty(gs, AssemblyVersionOf, p.props.assemblyVersion);
    LastTextNonEmpty(gs, FileVersionOf, p.props.fileVersion);
  }

  /** A project reads back as `Unknown` from a second reading only if every
      stage of the first reading left it `Unknown`. */
  lemma {:induction false} UnknownStaysUnknown(props: BuildProperties, gs: seq<Node>)
    requires forall k :: 0 <= k < |gs| ==> Stages(props, gs)[k] == ProjectType.Unknown
    ensures forall k :: 0 <= k < |gs| ==> Stages(Overridden(props, gs), gs)[k] == ProjectType.Unknown
  {
    var final := Overridden(props, gs);
    forall k | 0 <= k < |gs| ensures Stages(final, gs)[k] == ProjectType.Unknown {
      StagesAt(props, gs, k);
      StagesAt(props, gs, |gs| - 1);
      StagesAt(final, gs, k);
      assert gs[..|gs|] == gs;
      LastOfStart(gs[..k + 1], OutputTypeOf, final.outputType, props.outputType);
    }
  }

  /** Reading the same file twice gives what reading it once gives. */
  lemma {:induction false} ParseProjectElementsIdempotent(p: Project, root: Node)
    ensures ParseProjectElements(ParseProjectElements(p, root), root) == ParseProjectElements(p, root)
  {
    var r1 := ParseProjectElements(p, root);
    var r2 := ParseProjectElements(r1, root);
    var gs := PropertyGroups(root);
    ParseProjectElementsResult(p, root);
    ParseProjectElementsResult(r1, root);
    LastOfIdempotent(root.attrs, SdkOf, p.sdkType);
    OverriddenIdempotent(p.props, gs);
    assert r2.props == r1.props;
    assert r2.frameworkList == r1.frameworkList;
    assert r2.projectReferences == r1.projectReferences by {
      ListsIgnoreLinked(p.isEditorConfigLinked, r1.isEditorConfigLinked, ItemGroups(root));
    }
    assert r2.projectType == r1.projectType by {
      if r1.projectType == ProjectType.Unknown {
        ProjectTypeFirstClassifyingGroup(p.props, gs);
        UnknownStaysUnknown(p.props, gs);
        ProjectTypeFirstClassifyingGroup(r1.props, gs);
      }
    }
  }
}

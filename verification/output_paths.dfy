/**
 * Output relative paths of the bundled templates.  Each template is known by a
 * fixed identifier; its output path is the identifier with every
 * `PROJECT_NAME` replaced by the project name and THEN every
 * `REPLACE_WITH_BLANK` removed.
 */
module OutputPaths {
  import opened TextReplace

  const NameMarker: string := "PROJECT_NAME"
  const BlankMarker: string := "REPLACE_WITH_BLANK"

  const LaunchJson: string := ".vscode/launch.json"
  const TasksJson: string := ".vscode/tasks.json"
  const AppStartSource: string := "AppStartPROJECT_NAME.cs"
  const ProjectFile: string := "PROJECT_NAME.csproj"
  const GitIgnore: string := "REPLACE_WITH_BLANK.gitignore"

  /** The templates, in the order in which they are created. */
  const TemplateIds: seq<string> := [LaunchJson, TasksJson, AppStartSource, ProjectFile, GitIgnore]

  /**
   * The output path of template `id`: every name marker replaced by the
   * name, then every blank marker removed.  An identifier holding neither
   * marker is its own output path.
   */
  function OutputRelativePath(id: string, name: string): (path: string)
    ensures !Contains(id, NameMarker) && !Contains(id, BlankMarker) ==> path == id
  {
    var path := ReplaceAll(ReplaceAll(id, NameMarker, name), BlankMarker, "");
    if !Contains(id, NameMarker) && !Contains(id, BlankMarker) then
      ReplaceAbsent(id, NameMarker, name);
      ReplaceAbsent(id, BlankMarker, "");
      path
    else
      path
  }

  /** An output path draws its characters from the identifier and the name only. */
  lemma PathCharacters(id: string, name: string)
    ensures forall c :: c in OutputRelativePath(id, name) ==> c in id || c in name
  {
  }

  /** The two editor configuration files keep their paths. */
  lemma EditorConfigPaths(name: string)
    ensures OutputRelativePath(LaunchJson, name) == LaunchJson
    ensures OutputRelativePath(TasksJson, name) == TasksJson
  {
    // 'J' is needed by PROJECT_NAME and 'W' by REPLACE_WITH_BLANK; neither
    // path has an upper-case letter.
    assert NameMarker[3] == 'J' && BlankMarker[8] == 'W';
    MissingCharAbsent(LaunchJson, NameMarker, 3);
    MissingCharAbsent(LaunchJson, BlankMarker, 8);
    MissingCharAbsent(TasksJson, NameMarker, 3);
    MissingCharAbsent(TasksJson, BlankMarker, 8);
  }

  /** Substituting the name into `stem + PROJECT_NAME + ext`, where only the marker matches. */
  lemma SubstituteName(stem: string, ext: string, name: string)
    requires 'P' !in stem && 'P' !in ext
    ensures ReplaceAll(stem + NameMarker + ext, NameMarker, name) == stem + name + ext
  {
    var s := stem + NameMarker + ext;
    forall i | 0 <= i < |stem| ensures !OccursAt(s, NameMarker, i) {
      assert s[i] == stem[i];
      if i + |NameMarker| <= |s| {
        assert s[i..i + |NameMarker|][0] == s[i];
      }
    }
    ReplaceLeftmost(stem, NameMarker, ext, name);
    MissingCharAbsent(ext, NameMarker, 0);
    ReplaceAbsent(ext, NameMarker, name);
  }

  /** Removing the blank marker from `stem + name + ext` touches only the name. */
  lemma RemoveBlankFromName(stem: string, name: string, ext: string)
    requires 'R' !in stem && |ext| > 0 && 'R' !in ext && ext[0] !in BlankMarker
    ensures ReplaceAll(stem + name + ext, BlankMarker, "") == stem + ReplaceAll(name, BlankMarker, "") + ext
  {
    assert BlankMarker[0] == 'R';
    assert stem + name + ext == stem + (name + ext);
    NoStraddleByHead(stem, name + ext, BlankMarker);
    ReplaceConcat(stem, name + ext, BlankMarker, "");
    MissingCharAbsent(stem, BlankMarker, 0);
    ReplaceAbsent(stem, BlankMarker, "");
    NoStraddleByJoin(name, ext, BlankMarker);
    ReplaceConcat(name, ext, BlankMarker, "");
    MissingCharAbsent(ext, BlankMarker, 0);
    ReplaceAbsent(ext, BlankMarker, "");
  }

  /**
   * The project file is named after the project, except that every
   * REPLACE_WITH_BLANK inside the name is removed as well, because the
   * second replacement runs over the already substituted name.
   */
  lemma ProjectFilePath(name: string)
    ensures OutputRelativePath(ProjectFile, name) == ReplaceAll(name, BlankMarker, "") + ".csproj"
    ensures !Contains(name, BlankMarker) ==> OutputRelativePath(ProjectFile, name) == name + ".csproj"
  {
    LeadingNamePath(ProjectFile, ".csproj", name);
    if !Contains(name, BlankMarker) {
      ReplaceAbsent(name, BlankMarker, "");
    }
  }

  /** The application source file is `AppStart<name>.cs`, with the same removal. */
  lemma AppStartSourcePath(name: string)
    ensures OutputRelativePath(AppStartSource, name) == "AppStart" + ReplaceAll(name, BlankMarker, "") + ".cs"
    ensures !Contains(name, BlankMarker) ==> OutputRelativePath(AppStartSource, name) == "AppStart" + name + ".cs"
  {
    MarkedNamePath(AppStartSource, "AppStart", ".cs", name);
    if !Contains(name, BlankMarker) {
      ReplaceAbsent(name, BlankMarker, "");
    }
  }

  /** An identifier `PROJECT_NAME + ext`: the case of an empty stem. */
  lemma LeadingNamePath(id: string, ext: string, name: string)
    requires id == NameMarker + ext
    requires 'P' !in ext && |ext| > 0 && 'R' !in ext && ext[0] !in BlankMarker
    ensures OutputRelativePath(id, name) == ReplaceAll(name, BlankMarker, "") + ext
  {
    SubstituteLeadingName(ext, name);
    RemoveBlankBeforeExt(name, ext);
  }

  /** A leading name marker becomes the name when the rest cannot hold another one. */
  lemma SubstituteLeadingName(ext: string, name: string)
    requires 'P' !in ext
    ensures ReplaceAll(NameMarker + ext, NameMarker, name) == name + ext
  {
    assert NameMarker + ext == [] + NameMarker + ext;
    ReplaceLeftmost([], NameMarker, ext, name);
    MissingCharAbsent(ext, NameMarker, 0);
    ReplaceAbsent(ext, NameMarker, name);
  }

  /** Removing the blank marker from `name + ext` touches only the name. */
  lemma RemoveBlankBeforeExt(name: string, ext: string)
    requires |ext| > 0 && 'R' !in ext && ext[0] !in BlankMarker
    ensures ReplaceAll(name + ext, BlankMarker, "") == ReplaceAll(name, BlankMarker, "") + ext
  {
    assert BlankMarker[0] == 'R';
    NoStraddleByJoin(name, ext, BlankMarker);
    ReplaceConcat(name, ext, BlankMarker, "");
    MissingCharAbsent(ext, BlankMarker, 0);
    ReplaceAbsent(ext, BlankMarker, "");
  }

  /**
   * An identifier `stem + PROJECT_NAME + ext` whose stem and extension cannot
   * take part in a match of either marker.
   */
  lemma MarkedNamePath(id: string, stem: string, ext: string, name: string)
    requires id == stem + NameMarker + ext
    requires 'P' !in stem && 'P' !in ext
    requires 'R' !in stem && |ext| > 0 && 'R' !in ext && ext[0] !in BlankMarker
    ensures OutputRelativePath(id, name) == stem + ReplaceAll(name, BlankMarker, "") + ext
  {
    SubstituteName(stem, ext, name);
    RemoveBlankFromName(stem, name, ext);
  }

  /** The ignore file loses its marker and becomes `.gitignore`, whatever the name. */
  lemma GitIgnorePath(name: string)
    ensures OutputRelativePath(GitIgnore, name) == ".gitignore"
  {
    LeadingBlankPath(GitIgnore, ".gitignore", name);
  }

  /** An identifier made of the blank marker and an extension free of markers. */
  lemma LeadingBlankPath(id: string, ext: string, name: string)
    requires id == BlankMarker + ext
    requires 'J' !in ext && 'R' !in ext
    ensures OutputRelativePath(id, name) == ext
  {
    assert NameMarker[3] == 'J' && 'J' !in BlankMarker;
    MissingCharAbsent(id, NameMarker, 3);
    ReplaceAbsent(id, NameMarker, name);
    DropLeadingBlank(ext);
  }

  /** A leading blank marker is dropped when the rest cannot hold another one. */
  lemma DropLeadingBlank(ext: string)
    requires 'R' !in ext
    ensures ReplaceAll(BlankMarker + ext, BlankMarker, "") == ext
  {
    assert BlankMarker[0] == 'R';
    assert BlankMarker + ext == [] + BlankMarker + ext;
    ReplaceLeftmost([], BlankMarker, ext, "");
    MissingCharAbsent(ext, BlankMarker, 0);
    ReplaceAbsent(ext, BlankMarker, "");
  }

  /**
   * A marker can survive in an output path: when the name itself contains
   * PROJECT_NAME (and no REPLACE_WITH_BLANK), so does the project file name.
   */
  lemma NameMarkerCanRemain(name: string)
    requires Contains(name, NameMarker) && !Contains(name, BlankMarker)
    ensures Contains(OutputRelativePath(ProjectFile, name), NameMarker)
  {
    ProjectFilePath(name);
    var i :| 0 <= i <= |name| && OccursAt(name, NameMarker, i);
    var out := name + ".csproj";
    assert out[i..i + |NameMarker|] == name[i..i + |NameMarker|];
    assert OccursAt(out, NameMarker, i);
  }

  /** A directory named `AppREPLACE_WITH_BLANK` gives the project file `App.csproj`. */
  lemma BlankMarkerInNameRemoved(name: string)
    requires name == "App" + BlankMarker
    ensures OutputRelativePath(ProjectFile, name) == "App.csproj"
  {
    ProjectFilePath(name);
    var stem := "App";
    assert name == stem + BlankMarker + [];
    forall i | 0 <= i < |stem| ensures !OccursAt(name, BlankMarker, i) {
      assert name[i] == stem[i];
      if i + |BlankMarker| <= |name| {
        assert name[i..i + |BlankMarker|][0] == name[i];
      }
    }
    ReplaceLeftmost(stem, BlankMarker, [], "");
    assert ReplaceAll([], BlankMarker, "") == [];
  }
}

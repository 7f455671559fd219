/**
 * The initializer's control flow: argument checks, the project-name check,
 * then the five templates created in order, a failure in any of them being
 * reported and the rest skipped.
 *
 * Path resolution (absolute, normalized, last segment) depends on the working
 * directory and the file system, so it is a parameter: `fileNameOf(p)` is the
 * file name of the resolved path p, or None when the resolved path has none
 * (a root path).  Bundled resources are a parameter too: `resources(id)` is
 * the text of the resource `id`, or None when it is not bundled.
 */
module Cli {
  import opened TextReplace
  import opened OutputPaths
  import opened LineCopy

  datatype Option<T> = None | Some(value: T)

  const HelpFlag: string := "-help"
  const UsageExitCode: int := -1
  const HelpExitCode: int := 0
  const BlankNameExitCode: int := 2

  /**
   * Character.isWhitespace: the Unicode space, line and paragraph separators
   * other than the no-break spaces U+00A0, U+2007 and U+202F, and the controls
   * U+0009 to U+000D and U+001C to U+001F.
   */
  function IsWhitespace(c: char): (w: bool)
    ensures c as int < 0x80 ==> (w <==> c == ' ' || '\t' <= c <= '\r' || '\U{001C}' <= c <= '\U{001F}')
    ensures c == '\U{00A0}' || c == '\U{2007}' || c == '\U{202F}' ==> !w
    ensures c == '\U{0085}' || c == '\U{180E}' ==> !w
    ensures c == '\U{2028}' || c == '\U{2029}' || c == '\U{3000}' ==> w
  {
    || c == ' ' || c == '\t' || c == '\n' || c == '\U{000B}' || c == '\U{000C}' || c == '\r'
    || ('\U{001C}' <= c <= '\U{001F}')
    || c == '\U{1680}'
    || ('\U{2000}' <= c <= '\U{2006}') || ('\U{2008}' <= c <= '\U{200A}')
    || c == '\U{2028}' || c == '\U{2029}' || c == '\U{205F}' || c == '\U{3000}'
  }

  /** String.isBlank: true for the empty string and for whitespace only. */
  function IsBlank(s: string): (b: bool)
    ensures s == [] ==> b
    ensures b <==> forall c :: c in s ==> IsWhitespace(c)
  {
    forall k :: 0 <= k < |s| ==> IsWhitespace(s[k])
  }

  /** A string is blank exactly when each of its parts is. */
  lemma BlankConcat(a: string, b: string)
    ensures IsBlank(a + b) <==> IsBlank(a) && IsBlank(b)
  {
    assert forall c :: c in a + b <==> c in a || c in b;
  }

  /** What the argument and name checks decide. */
  datatype Outcome =
    | Exit(code: int)                                    // System.exit before any file is touched
    | NoFileName                                         // the resolved path has no file name: NullPointerException
    | Proceed(pathArgument: string, projectName: string) // go on and create the templates

  function Dispatch(args: seq<string>, fileNameOf: string -> Option<string>): (o: Outcome)
    ensures o == Exit(UsageExitCode) <==> |args| == 0
    ensures o == Exit(HelpExitCode) <==> |args| > 0 && args[0] == HelpFlag
    ensures o == Exit(BlankNameExitCode) <==>
      |args| > 0 && args[0] != HelpFlag && fileNameOf(args[0]).Some? && IsBlank(fileNameOf(args[0]).value)
    ensures o.Exit? ==> o.code in {UsageExitCode, HelpExitCode, BlankNameExitCode}
    ensures o.Proceed? <==>
      |args| > 0 && args[0] != HelpFlag && fileNameOf(args[0]).Some? && !IsBlank(fileNameOf(args[0]).value)
    ensures o.Proceed? ==> o.pathArgument == args[0] && fileNameOf(args[0]) == Some(o.projectName)
  {
    if |args| < 1 then Exit(UsageExitCode)
    else if args[0] == HelpFlag then Exit(HelpExitCode)
    else
      match fileNameOf(args[0])
      case None => NoFileName
      case Some(name) => if IsBlank(name) then Exit(BlankNameExitCode) else Proceed(args[0], name)
  }

  /** Arguments after the first are never looked at. */
  lemma ExtraArgumentsIgnored(args: seq<string>, fileNameOf: string -> Option<string>)
    requires |args| > 0
    ensures Dispatch(args, fileNameOf) == Dispatch(args[..1], fileNameOf)
  {
  }

  /** One created file: its path relative to the project folder and its text. */
  datatype WrittenFile = WrittenFile(relativePath: string, content: string)

  /** The files written, in order, and whether a failure was caught. */
  datatype CopyResult = CopyResult(written: seq<WrittenFile>, failed: bool)

  /**
   * The file created from template `id` when its resource text is `text`:
   * the path from the markers, and the resource lines copied with the
   * content marker substituted.  Read back, the file gives those lines.
   */
  function TemplateFile(id: string, text: string, name: string, eol: string): (f: WrittenFile)
    ensures IsLineSeparator(eol) && IsSingleLine(name) ==>
      ReadLines(f.content) == TransformLines(ReadLines(text), name)
  {
    var f := WrittenFile(OutputRelativePath(id, name), CopyText(ReadLines(text), name, eol));
    if IsLineSeparator(eol) && IsSingleLine(name) then
      CopyReadsBack(text, name, eol);
      f
    else
      f
  }

  /**
   * The templates created in order; a template whose resource is missing
   * throws before its output file is opened, and the exception skips the
   * remaining templates.
   */
  function CreateFiles(ids: seq<string>, name: string, eol: string, resources: string -> Option<string>): (r: CopyResult)
    ensures |r.written| <= |ids|
    ensures forall i :: 0 <= i < |r.written| ==>
      resources(ids[i]).Some? && r.written[i] == TemplateFile(ids[i], resources(ids[i]).value, name, eol)
    ensures r.failed ==> |r.written| < |ids| && resources(ids[|r.written|]).None?
    ensures !r.failed ==> |r.written| == |ids|
  {
    if ids == [] then CopyResult([], false)
    else
      match resources(ids[0])
      case None => CopyResult([], true)
      case Some(text) =>
        var rest := CreateFiles(ids[1..], name, eol, resources);
        var written := [TemplateFile(ids[0], text, name, eol)] + rest.written;
        assert forall i :: 1 <= i < |written| ==> written[i] == rest.written[i - 1] && ids[i] == ids[1..][i - 1];
        CopyResult(written, rest.failed)
  }

  /** A failure is reported exactly when some template resource is missing. */
  lemma FailureIffMissing(ids: seq<string>, name: string, eol: string, resources: string -> Option<string>)
    ensures CreateFiles(ids, name, eol, resources).failed <==> exists i :: 0 <= i < |ids| && resources(ids[i]).None?
  {
    var r := CreateFiles(ids, name, eol, resources);
    if r.failed {
      var k := |r.written|;
      assert resources(ids[k]).None?;
    } else {
      forall i | 0 <= i < |ids| ensures resources(ids[i]).Some? {
        assert r.written[i] == TemplateFile(ids[i], resources(ids[i]).value, name, eol);
      }
    }
  }

  /**
   * When template k is the first whose resource is missing, the templates
   * before it are written and the failure is reported.
   */
  lemma FirstMissingStops(ids: seq<string>, name: string, eol: string, resources: string -> Option<string>, k: nat)
    requires k < |ids| && resources(ids[k]).None?
    requires forall j :: 0 <= j < k ==> resources(ids[j]).Some?
    ensures var c := CreateFiles(ids, name, eol, resources);
            c.failed && |c.written| == k
  {
    var c := CreateFiles(ids, name, eol, resources);
    assert |c.written| <= k;
    assert c.failed;
    assert |c.written| >= k;
  }

  /**
   * How a run ends: through System.exit with a code, through an exception
   * escaping main, or by returning from main (status 0), which is also what
   * happens after a caught template failure.
   */
  datatype Termination = Exited(code: int) | Uncaught | Completed

  datatype Run = Run(termination: Termination, written: seq<WrittenFile>, reportedFailure: bool)

  function RunInitializer(args: seq<string>, fileNameOf: string -> Option<string>,
                          resources: string -> Option<string>, eol: string): (r: Run)
    ensures r.termination.Exited? || r.termination.Uncaught? ==> r.written == [] && !r.reportedFailure
    ensures r.termination.Completed? <==> Dispatch(args, fileNameOf).Proceed?
    ensures r.reportedFailure ==> r.termination.Completed?
    ensures r.termination.Exited? ==> Dispatch(args, fileNameOf) == Exit(r.termination.code)
    ensures r.termination.Completed? ==>
      var c := CreateFiles(TemplateIds, Dispatch(args, fileNameOf).projectName, eol, resources);
      r.written == c.written && r.reportedFailure == c.failed
  {
    match Dispatch(args, fileNameOf)
    case Exit(code) => Run(Exited(code), [], false)
    case NoFileName => Run(Uncaught, [], false)
    case Proceed(_, name) =>
      var c := CreateFiles(TemplateIds, name, eol, resources);
      Run(Completed, c.written, c.failed)
  }

  /**
   * With a usable project name and every template bundled, a run writes the
   * five files, at the paths the markers give, each holding its template's
   * lines with the content marker substituted.
   */
  lemma FullRun(args: seq<string>, fileNameOf: string -> Option<string>,
                resources: string -> Option<string>, eol: string)
    requires Dispatch(args, fileNameOf).Proceed?
    requires forall i :: 0 <= i < |TemplateIds| ==> resources(TemplateIds[i]).Some?
    ensures var r := RunInitializer(args, fileNameOf, resources, eol);
            var name := Dispatch(args, fileNameOf).projectName;
            var bare := ReplaceAll(name, BlankMarker, "");
            && r.termination == Completed && !r.reportedFailure
            && |r.written| == 5
            && r.written[0].relativePath == LaunchJson
            && r.written[1].relativePath == TasksJson
            && r.written[2].relativePath == "AppStart" + bare + ".cs"
            && r.written[3].relativePath == bare + ".csproj"
            && r.written[4].relativePath == ".gitignore"
            && (forall i :: 0 <= i < 5 ==>
                  r.written[i].content == CopyText(ReadLines(resources(TemplateIds[i]).value), name, eol))
  {
    var name := Dispatch(args, fileNameOf).projectName;
    var r := RunInitializer(args, fileNameOf, resources, eol);
    AllBundledWritten(TemplateIds, name, eol, resources);
    assert r.written == CreateFiles(TemplateIds, name, eol, resources).written;
    PathsOfTemplates(name);
  }

  /** When every resource is bundled, every template is written, in order. */
  lemma AllBundledWritten(ids: seq<string>, name: string, eol: string, resources: string -> Option<string>)
    requires forall i :: 0 <= i < |ids| ==> resources(ids[i]).Some?
    ensures var c := CreateFiles(ids, name, eol, resources);
            && !c.failed && |c.written| == |ids|
            && forall i :: 0 <= i < |ids| ==>
                 && c.written[i].relativePath == OutputRelativePath(ids[i], name)
                 && c.written[i].content == CopyText(ReadLines(resources(ids[i]).value), name, eol)
  {
  }

  lemma PathsOfTemplates(name: string)
    ensures var bare := ReplaceAll(name, BlankMarker, "");
            && OutputRelativePath(TemplateIds[0], name) == LaunchJson
            && OutputRelativePath(TemplateIds[1], name) == TasksJson
            && OutputRelativePath(TemplateIds[2], name) == "AppStart" + bare + ".cs"
            && OutputRelativePath(TemplateIds[3], name) == bare + ".csproj"
            && OutputRelativePath(TemplateIds[4], name) == ".gitignore"
  {
    EditorConfigPaths(name);
    AppStartSourcePath(name);
    ProjectFilePath(name);
    GitIgnorePath(name);
  }

  /**
   * With a usable project name and template k the first one not bundled, a
   * run still completes: it writes the templates before k, each at its path
   * with its copied content, and reports the failure.
   */
  lemma MissingResourceRun(args: seq<string>, fileNameOf: string -> Option<string>,
                           resources: string -> Option<string>, eol: string, k: nat)
    requires Dispatch(args, fileNameOf).Proceed?
    requires k < |TemplateIds| && resources(TemplateIds[k]).None?
    requires forall j :: 0 <= j < k ==> resources(TemplateIds[j]).Some?
    ensures var r := RunInitializer(args, fileNameOf, resources, eol);
            var name := Dispatch(args, fileNameOf).projectName;
            && r.termination == Completed && r.reportedFailure
            && |r.written| == k
            && forall j :: 0 <= j < k ==>
                 && r.written[j].relativePath == OutputRelativePath(TemplateIds[j], name)
                 && r.written[j].content == CopyText(ReadLines(resources(TemplateIds[j]).value), name, eol)
  {
    var name := Dispatch(args, fileNameOf).projectName;
    FirstMissingStops(TemplateIds, name, eol, resources, k);
  }
}

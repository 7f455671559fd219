# CSInit scaffolder, modelled in Dafny

CSInit is a command-line tool that creates a C# project skeleton. Given a
folder path, it derives the project name from the last path segment. It then
writes five bundled templates into the folder: two editor configuration files,
a source file, a project file and a `.gitignore`. It substitutes the project
name for a marker in each output file name and in each template line, and it
prints the elapsed time.

This project models that behaviour in six modules:

- `TextReplace` (text_replace.dfy): Java's literal replace-all, as a recursive
  function `ReplaceAll`. The scan goes left to right and matches never overlap.
  Inserted text is not scanned again. An empty token matches at every position.
- `OutputPaths` (output_paths.dfy): the five template identifiers and the
  output relative path of each. First `PROJECT_NAME` is replaced by the name,
  then `REPLACE_WITH_BLANK` is removed.
- `LineCopy` (line_copy.dfy): the copy loop, as a method `CopyLines`. It is
  proved equal to the specification `CopyText`: each line, with
  `%PROJECT_NAME%` replaced, followed by one line separator. The module also
  models how `BufferedReader.readLine` splits text into lines (`ReadLines`).
  That function is the partner used to show that the written text reads back
  as the transformed lines.
- `Decimal` (decimal.dfy): the decimal text of a non-negative `long`
  (`NatToString`), with a parser proving that the text reads back as the number.
- `DurationFormat` (duration_format.dfy): the integer part of
  `durationToString`. It splits the duration into hours, minutes and seconds
  and lays out the optional `h ` and `m ` parts. `FormatDuration` is the
  method that appends to a string builder.
- `Cli` (cli.dfy): `main` as pure functions. `Dispatch` does the argument
  and name checks and returns the exit codes -1, 0 and 2. `CreateFiles`
  creates the five templates in order and stops at the first missing resource.
  `RunInitializer` combines the two.

One might expect no marker to remain in an output path. The code does not
guarantee this, and the model follows the code. A project
folder named `PROJECT_NAME` gets the file `PROJECT_NAME.csproj`
(`OutputPaths.NameMarkerCanRemain`). A name that contains
`REPLACE_WITH_BLANK` loses that text in the output file names. It keeps the
text in the file contents, because content substitution uses the marker
`%PROJECT_NAME%` alone (`OutputPaths.BlankMarkerInNameRemoved`).

## Model

| member | source | states |
|---|---|---|
| `TextReplace.ReplaceAll` | Projects/Personal/CSInit/CSInit/src/main/java/com/personal/scripts/gen/cs_init/AppStartCSInit.java:83-84 | Every character of the result comes from the input or from the replacement. |
| `TextReplace.ReplaceAbsent` | Projects/Personal/CSInit/CSInit/src/main/java/com/personal/scripts/gen/cs_init/AppStartCSInit.java:83-84 | Replace-all returns its input unchanged when a non-empty token does not occur in it. |
| `TextReplace.MatchCountPositive` | Projects/Personal/CSInit/CSInit/src/main/java/com/personal/scripts/gen/cs_init/AppStartCSInit.java:100 | The left-to-right scan replaces at least one occurrence exactly when the token occurs somewhere in the text. |
| `TextReplace.ReplaceLength` | Projects/Personal/CSInit/CSInit/src/main/java/com/personal/scripts/gen/cs_init/AppStartCSInit.java:100 | The result length is the input length plus k times (replacement length minus token length), where k is the number of occurrences the scan replaces. |
| `TextReplace.ReplaceLeftmost` | Projects/Personal/CSInit/CSInit/src/main/java/com/personal/scripts/gen/cs_init/AppStartCSInit.java:100 | At the leftmost occurrence, the text before it is kept and the occurrence becomes the replacement. The scan then resumes after the whole occurrence. Matches do not overlap, and the replacement is never re-scanned, even when it contains the token. |
| `TextReplace.ReplaceConcat` | Projects/Personal/CSInit/CSInit/src/main/java/com/personal/scripts/gen/cs_init/AppStartCSInit.java:83-84 | Replace-all distributes over a concatenation when no occurrence straddles the join. |
| `TextReplace.ReplaceBySelf` | Projects/Personal/CSInit/CSInit/src/main/java/com/personal/scripts/gen/cs_init/AppStartCSInit.java:100 | Replacing a token by itself returns the input. |
| `TextReplace.NonOverlapping` | Projects/Personal/CSInit/CSInit/src/main/java/com/personal/scripts/gen/cs_init/AppStartCSInit.java:100 | Replacing "aa" by "b" in "aaa" gives "ba", not "bb". |
| `OutputPaths.OutputRelativePath` | Projects/Personal/CSInit/CSInit/src/main/java/com/personal/scripts/gen/cs_init/AppStartCSInit.java:83-84 | The output path is the identifier with every `PROJECT_NAME` replaced by the name and then every `REPLACE_WITH_BLANK` removed. An identifier that holds neither marker is its own output path. |
| `OutputPaths.PathCharacters` | Projects/Personal/CSInit/CSInit/src/main/java/com/personal/scripts/gen/cs_init/AppStartCSInit.java:83-84 | Every character of an output path comes from the identifier or from the project name. |
| `OutputPaths.EditorConfigPaths` | Projects/Personal/CSInit/CSInit/src/main/java/com/personal/scripts/gen/cs_init/AppStartCSInit.java:83-84 | `.vscode/launch.json` and `.vscode/tasks.json` (created at lines 58-59) map to themselves for every name. |
| `OutputPaths.ProjectFilePath` | Projects/Personal/CSInit/CSInit/src/main/java/com/personal/scripts/gen/cs_init/AppStartCSInit.java:83-84 | `PROJECT_NAME.csproj` becomes the name with every `REPLACE_WITH_BLANK` removed, plus `.csproj`. When the name has no such text, this is `name + ".csproj"`. |
| `OutputPaths.AppStartSourcePath` | Projects/Personal/CSInit/CSInit/src/main/java/com/personal/scripts/gen/cs_init/AppStartCSInit.java:83-84 | `AppStartPROJECT_NAME.cs` becomes `"AppStart"`, then the name with every `REPLACE_WITH_BLANK` removed, then `.cs`. When the name has no such text, this is `"AppStart" + name + ".cs"`. |
| `OutputPaths.GitIgnorePath` | Projects/Personal/CSInit/CSInit/src/main/java/com/personal/scripts/gen/cs_init/AppStartCSInit.java:83-84 | `REPLACE_WITH_BLANK.gitignore` becomes `.gitignore` for every name. |
| `OutputPaths.NameMarkerCanRemain` | Projects/Personal/CSInit/CSInit/src/main/java/com/personal/scripts/gen/cs_init/AppStartCSInit.java:83-84 | If the name contains `PROJECT_NAME` and no `REPLACE_WITH_BLANK`, the project file's output path still contains `PROJECT_NAME`. |
| `OutputPaths.BlankMarkerInNameRemoved` | Projects/Personal/CSInit/CSInit/src/main/java/com/personal/scripts/gen/cs_init/AppStartCSInit.java:83-84 | The name `AppREPLACE_WITH_BLANK` gives the project file `App.csproj`, because the second replacement runs over the substituted name. |
| `LineCopy.TransformLines` | Projects/Personal/CSInit/CSInit/src/main/java/com/personal/scripts/gen/cs_init/AppStartCSInit.java:98-100 | Substitution keeps the number and order of lines. Output line i is input line i with every `%PROJECT_NAME%` replaced by the name. |
| `LineCopy.RenderAt` | Projects/Personal/CSInit/CSInit/src/main/java/com/personal/scripts/gen/cs_init/AppStartCSInit.java:101-102 | In the output text, line i comes right after the text of the lines before it and is followed by exactly one separator. |
| `LineCopy.RenderLength` | Projects/Personal/CSInit/CSInit/src/main/java/com/personal/scripts/gen/cs_init/AppStartCSInit.java:101-102 | The output length is the total length of the lines plus one separator per line, so an empty template gives an empty file. |
| `LineCopy.CopyLines` | Projects/Personal/CSInit/CSInit/src/main/java/com/personal/scripts/gen/cs_init/AppStartCSInit.java:97-103 | The loop's output is exactly `CopyText`: each transformed line followed by the separator, in order. |
| `LineCopy.LineEnd` | Projects/Personal/CSInit/CSInit/src/main/java/com/personal/scripts/gen/cs_init/AppStartCSInit.java:98 | Gives the index of the first line terminator, or the text length when there is none. No terminator comes before it. |
| `LineCopy.ReadLines` | Projects/Personal/CSInit/CSInit/src/main/java/com/personal/scripts/gen/cs_init/AppStartCSInit.java:91-98 | The lines that `readLine` yields contain no line terminator. |
| `LineCopy.ReadRendered` | Projects/Personal/CSInit/CSInit/src/main/java/com/personal/scripts/gen/cs_init/AppStartCSInit.java:101-102 | Lines without terminators, each written with the separator `\n`, `\r\n` or `\r`, read back as exactly those lines. |
| `LineCopy.TransformKeepsSingleLine` | Projects/Personal/CSInit/CSInit/src/main/java/com/personal/scripts/gen/cs_init/AppStartCSInit.java:100 | If neither a line nor the name holds a terminator, the substituted line holds none either. |
| `LineCopy.CopyReadsBack` | Projects/Personal/CSInit/CSInit/src/main/java/com/personal/scripts/gen/cs_init/AppStartCSInit.java:91-103 | Reading the copied file back gives the transformed template lines, in number and in order, when the name holds no line terminator. |
| `Decimal.NatToString` | Projects/Personal/CSInit/CSInit/src/main/java/com/personal/scripts/gen/cs_init/AppStartCSInit.java:114 | The text of a count has only digits and at least one of them. It has no leading zero, and zero is written "0". |
| `Decimal.ParseNatToString` | Projects/Personal/CSInit/CSInit/src/main/java/com/personal/scripts/gen/cs_init/AppStartCSInit.java:114 | The decimal text reads back as the number. |
| `Decimal.NatToStringInjective` | Projects/Personal/CSInit/CSInit/src/main/java/com/personal/scripts/gen/cs_init/AppStartCSInit.java:119 | Different counts give different texts. |
| `DurationFormat.Split` | Projects/Personal/CSInit/CSInit/src/main/java/com/personal/scripts/gen/cs_init/AppStartCSInit.java:111-123 | For the hours, minutes and seconds computed with integer division: minutes < 60, seconds < 60, and 3600·h + 60·m + s equals the whole seconds. |
| `DurationFormat.SplitUnique` | Projects/Personal/CSInit/CSInit/src/main/java/com/personal/scripts/gen/cs_init/AppStartCSInit.java:112-123 | Any hours/minutes/seconds with minutes < 60, seconds < 60 and the same total equal the computed split. |
| `DurationFormat.FormatDuration` | Projects/Personal/CSInit/CSInit/src/main/java/com/personal/scripts/gen/cs_init/AppStartCSInit.java:107-127 | The builder yields `DurationText`: the optional hours part, the optional minutes part, the seconds text and `s`. The text always ends in `s`. |
| `DurationFormat.UnitsShownIffPositive` | Projects/Personal/CSInit/CSInit/src/main/java/com/personal/scripts/gen/cs_init/AppStartCSInit.java:113-120 | The text contains `h` exactly when the hours are positive, and `m` exactly when the minutes are positive. This assumes the seconds text uses neither letter. |
| `DurationFormat.UnderAMinute` | Projects/Personal/CSInit/CSInit/src/main/java/com/personal/scripts/gen/cs_init/AppStartCSInit.java:113-125 | Under 60 s, only the seconds text and `s` are shown. |
| `DurationFormat.ExactlyOneHour` | Projects/Personal/CSInit/CSInit/src/main/java/com/personal/scripts/gen/cs_init/AppStartCSInit.java:113-125 | 3600 s gives `"1h "`, then the text of 0 seconds, then `s`, with no minutes part. |
| `DurationFormat.TwoMinutes` | Projects/Personal/CSInit/CSInit/src/main/java/com/personal/scripts/gen/cs_init/AppStartCSInit.java:113-125 | 120 s gives `"2m "`, then the text of 0 seconds, then `s`, with no hours part. |
| `DurationFormat.OneHourOneMinuteOneSecond` | Projects/Personal/CSInit/CSInit/src/main/java/com/personal/scripts/gen/cs_init/AppStartCSInit.java:113-125 | 3661 s gives `"1h 1m "`, then the text of 1 second, then `s`. |
| `Cli.IsWhitespace` | Projects/Personal/CSInit/CSInit/src/main/java/com/personal/scripts/gen/cs_init/AppStartCSInit.java:50 | `Character.isWhitespace`: among ASCII characters, exactly the space, U+0009 to U+000D and U+001C to U+001F. The no-break spaces U+00A0, U+2007 and U+202F are excluded, as are U+0085 and U+180E. The line and paragraph separators and U+3000 are included. |
| `Cli.IsBlank` | Projects/Personal/CSInit/CSInit/src/main/java/com/personal/scripts/gen/cs_init/AppStartCSInit.java:50 | `String.isBlank`: the empty string is blank, and a string is blank exactly when every character in it is whitespace. |
| `Cli.BlankConcat` | Projects/Personal/CSInit/CSInit/src/main/java/com/personal/scripts/gen/cs_init/AppStartCSInit.java:50 | A concatenation is blank exactly when both parts are. |
| `Cli.Dispatch` | Projects/Personal/CSInit/CSInit/src/main/java/com/personal/scripts/gen/cs_init/AppStartCSInit.java:28-54 | No arguments gives exit -1. A first argument `-help` gives exit 0. A blank file name gives exit 2. Otherwise the run proceeds with `args[0]` and its file name. Each of these holds in both directions. |
| `Cli.ExtraArgumentsIgnored` | Projects/Personal/CSInit/CSInit/src/main/java/com/personal/scripts/gen/cs_init/AppStartCSInit.java:42 | Arguments after the first do not change the outcome. |
| `Cli.TemplateFile` | Projects/Personal/CSInit/CSInit/src/main/java/com/personal/scripts/gen/cs_init/AppStartCSInit.java:78-105 | `createFile` for one template: the file at the template's output path holding the copied lines. When the separator is a line separator and the name holds no terminator, the written content reads back as the resource lines with `%PROJECT_NAME%` replaced. |
| `Cli.CreateFiles` | Projects/Personal/CSInit/CSInit/src/main/java/com/personal/scripts/gen/cs_init/AppStartCSInit.java:57-67 | Templates are created in order, with each file's path and content as the model gives them. A missing resource stops the sequence there and the failure is reported. With no failure, every template is written. |
| `Cli.FailureIffMissing` | Projects/Personal/CSInit/CSInit/src/main/java/com/personal/scripts/gen/cs_init/AppStartCSInit.java:64-67 | A failure is reported exactly when some template resource is missing. |
| `Cli.FirstMissingStops` | Projects/Personal/CSInit/CSInit/src/main/java/com/personal/scripts/gen/cs_init/AppStartCSInit.java:57-67 | When template k is the first whose resource is missing, exactly the k templates before it are written and the failure is reported. |
| `Cli.RunInitializer` | Projects/Personal/CSInit/CSInit/src/main/java/com/personal/scripts/gen/cs_init/AppStartCSInit.java:23-71 | An exit or an uncaught exception writes nothing. The run completes exactly when dispatch proceeds. A completed run writes exactly the files of creating the five templates in order for the project name, and reports a failure exactly when that creation failed. A reported template failure still ends with a normal return from main. |
| `Cli.MissingResourceRun` | Projects/Personal/CSInit/CSInit/src/main/java/com/personal/scripts/gen/cs_init/AppStartCSInit.java:57-67 | With a usable name and template k the first one not bundled, the run completes normally, reports the failure, and writes exactly the k templates before it, each with its output path and copied content. |
| `Cli.AllBundledWritten` | Projects/Personal/CSInit/CSInit/src/main/java/com/personal/scripts/gen/cs_init/AppStartCSInit.java:57-62 | When every resource is bundled, every template is written in order, with its output path and copied content. |
| `Cli.PathsOfTemplates` | Projects/Personal/CSInit/CSInit/src/main/java/com/personal/scripts/gen/cs_init/AppStartCSInit.java:58-62 | Gives the output paths of the five templates in creation order. |
| `Cli.FullRun` | Projects/Personal/CSInit/CSInit/src/main/java/com/personal/scripts/gen/cs_init/AppStartCSInit.java:57-62 | With a usable name and all templates bundled, a run writes five files with their exact output paths and contents, and reports no failure. |

## Left out

- File and resource I/O: creating directories, opening the resource and the output file, and closing both. A resource is a parameter (`resources(id)`: its text, or None when it is not bundled). A written file is a value (`WrittenFile`).
- Failures to create directories or to open the output file are not modelled, nor is an `IOException` from `readLine` while a resource is read, which would abort the remaining templates after part of the current file is written. Only a missing resource aborts the remaining templates. Write errors are not modelled either: `PrintStream` records them internally and does not throw.
- Character decoding of the resource and encoding of the output are not modelled. Text is a sequence of characters.
- Path resolution (`toAbsolutePath`, `normalize`, `resolve`) depends on the working directory and the file system. The file name of the resolved path is a parameter (`fileNameOf`). A root path has no file name, and `main` then throws `NullPointerException`; this is the `NoFileName` outcome, not exit 2.
- The platform line separator is a parameter (`eol`).
- Console messages, `printStackTrace` and the process status of an uncaught exception are not modelled. `System.exit(-1)` is kept as the code -1, not as the status the operating system reports.
- Wall-clock timing is out of scope: the whole seconds and nanoseconds of the elapsed time are inputs.
- `doubleToString` is out of scope, including its NaN branch: it formats a floating-point value with `DecimalFormat`. It is the parameter `secondsText(wholeSeconds, nanos)`. Its rounding to three decimals is not modelled, including a value such as 59.9996 s that prints as `60.000s`.
- DurationFormat.Split: durations are natural numbers. A negative `Duration` (the clock stepping back between the two readings) would make Java's truncating division give non-positive parts, and this is not modelled.
- Running the tool twice gives the same files, since every function here is deterministic. Overwriting files that already exist is a file-system effect and is not modelled.
